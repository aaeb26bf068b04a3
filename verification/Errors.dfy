/**
 * One error type for the vault, recovery and core crates; the two parsers share
 * their truncation and trailing-byte errors.
 */
module Errors {
  import opened Bytes

  /** The field tag a truncated read reports. */
  datatype Field =
    | FormatVersion | KdfAlgorithmId | KdfParamsField | VaultSalt | ProbeNonce | ProbeCt
    | KHsmWrapBlob | TotpSeedWrapBlob | RlCounter | RlLastFailure
    | LastPasswordChange | LastExportPresent | LastExportAt
    | SealedIndexNonce | SealedIndexCt | EntriesCount
    | EntryIdField | EntryNonce | EntryCtLen | EntryCiphertext
    | Magic | ArgonM | ArgonT | ArgonP | RecoverySalt | NonceField | PayloadCtLen | PayloadCt
    | PayloadVersion | TotpSeedField | OriginalVaultKdf | EntryCount
    | LabelField | UsernameField | PasswordField | UrlField | NotesField | PolicyField

  datatype Reason =
    | MissingLengthPrefix | LengthExceedsPlaintext
    | FieldPrefixOverrun | FieldBodyOverrun | NotUtf8 | RegionNotConsumed
    | NotPostcard | BadPayloadVersion

  datatype Error =
    | Truncated(field: Field, offset: nat)
    | TrailingBytes(extra: nat)
    | UnsupportedVersion(gotVersion: byte)
    | UnsupportedKdfAlgorithm(gotKdf: byte)
    | InvalidFlag(flagField: Field, gotFlag: byte)
    | IndexMismatch
    | MalformedRecord(reason: Reason)
    | EntryNotFound
    | BlobTooLarge(which: Field)
    | AeadAuth
    | Kdf
    | BadMagic
    | KdfParamsOutOfRange
    | WeakParams
    | Decrypt
    | MalformedPayload(payloadReason: Reason)
    | MalformedBlob
    | SessionLocked
    | BackendRefused
    | WeakPasswordForExport
    | Hsm
    | Io
}
