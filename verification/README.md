# Verification of passman

A Dafny model of the parts of passman whose correctness is hardest to see, with proofs.
`dafny verify dfyconfig.toml` checks all of it.

## What is modelled

- **Vault container** (`Utf8`, `Cursor`, `Record`, `KeyedLists`, `SortIds`, `VaultModel`, `VaultCodec`, `VaultRuns`, `Vault`).
  The vault is a class whose fields change in place. Its meaning is an ordered map
  `id -> (label, policy, record)`, and every edit, save and load is proved against that map,
  in both format versions.
- **Re-encryption, backup and restore** (`Kdf`, `Keys`, `RecoveryModel`, `Recovery`, `Rebuild`, `Nonces`,
  `Transfer`).
  Long transformations that must preserve what the vault holds, down to the bytes of the files.
- **Application and session** (`AppModel`, `App`, `AppRuns`, `SessionModel`, `UnlockedApp`, `SessionRuns`,
  `SessionGates`, `SessionEvents`, `Lives`, `Throttle`, `Storage`).
  Unlocking with its throttle and TOTP verifier, the operations of an open session, and the vault
  file on a disk that can fail or crash at any step.
- **Password generator and validator** (`Sampling`, `Fairness`, `Policy`, `GeneratorRange`, `Validation`).
- **TOTP** (`Hotp`, `Totp`), after section 5.3 of RFC 4226 and sections 4.2 and 5.2 of RFC 6238.
- **Lockout schedule** (`Lockout`).
- **Session actor and its caller** (`WorkerModel`, `WorkerRuns`, `ClipboardRuns`, `WorkerTraces`, `Worker`, `Caller`):
  two queues, the worker's loops, the statements of `call`, and the clipboard, over every interleaving.

Each object that passman updates in place is a class whose methods are proved equal to a function of
the old state; the theorems are then about those functions and about runs of them. `Keys`, `SessionGates`
and `Throttle` say what the operations come to in terms of the primitives, literal constants and the stored map.

## How outside code is represented

- AEAD, HKDF, Argon2id, HMAC and postcard are arbitrary functions with the properties in
  `Prims_.Lawful`: opening inverts sealing, only ciphertexts open, the tag adds 16 bytes, postcard
  decodes what it encoded and needs no fewer bytes for more rows, and an HMAC has at least 20 bytes.
  Nothing is claimed about secrecy or unforgeability.
- Nonces, salts, ids, clock readings, hardware answers, available memory and the outcome of each
  file-system step are arguments. The random generator is the list of 32-bit words it will return.
- Text is bytes that satisfy UTF-8 (RFC 3629); passwords in the policy crate are sequences of characters.
- One error type serves the vault, recovery and core crates, and one cursor class serves the two
  identical readers.

## Where the hypotheses come from

Runs start from states the theorems themselves produce: a vault made by `Create` is sound
(`VaultRuns.CreatedIsSound`), a parsed file is well-formed (`VaultCodec.SerializeOfParse`), and every
way of opening a session puts it in step with its file (`SessionRuns.UnlockedInSync`,
`Transfer.CreatedInSync`, `Transfer.ImportedInSync`), under the key its password derives
(`Lives.GrantedKept`). Size limits are those of the format: 32-bit
lengths, or the 64 MiB a vault read accepts.

The architecture document's offset table still shows format version 1 for the vault; the code writes 2
and reads both, and the model follows the code.

## What the code does not do

These are properties one might expect, with the exact condition under which they hold:

- A length prefix clamps at the largest integer, so a record, payload or vault of 4 GiB or more is
  not read back (`Records.RecordRoundTrip`, `RecoveryModel.ExportImports`, `VaultCodec.CodecRoundTrip`).
- Only files of at most 64 MiB are read, but larger ones are written: an edit that grows the file past the
  limit answers success, and the vault can then be neither unlocked nor read by its own session
  (`SessionRuns.WrittenReadBackIff`, `SessionRuns.OversizedIsRefused`, `SessionRuns.LargeEntryLocksOut`).
- A failure stamped zero counts as none, so the throttle does nothing while the clock reads zero
  (`Lockout.NextAttemptBlockedIff`, `AppRuns.ZeroClockIsNeverLocked`).
- The generator fills the symbol minimum from custom symbols the validator does not count
  (`Validation.GeneratedValidatesIff`).
- The comments on `call` promise that every receive lines up with its own request. It does exactly under
  `WorkerRuns.WillPair`: a `lock` not yet handled when the call sends breaks it, and so does anything the worker
  emits between the drain and the send, such as an idle lock (`WorkerRuns.PairedIff`,
  `WorkerTraces.LockMispairs`, `WorkerTraces.IdleLockMispairs`).
- A session that ends leaves its last secret on the clipboard when any ClearClipboard, also one for an older
  copy, was handled after the copy, and when overwriting is off or the random fact written over it is the
  secret itself (`ClipboardRuns.ExitLeavesSecretIff`, `WorkerTraces.OldClearStrands`,
  `WorkerTraces.OverwriteOffStrands`).
- The foreign interface documents `SessionLocked` for confirming a code in an expired session
  (`crates/passman-uniffi/src/lib.rs:611`); the code has no expiry check there and answers
  (`SessionRuns.RunIsBounded`).

## Model

| member | source | states |
|---|---|---|
| Cursors.TakeAt | crates/passman-vault/src/reader.rs:70-82 | a read of exactly the bytes at the cursor succeeds, returns them and moves past them |
| Cursors.Reader.TakeBytes | crates/passman-vault/src/reader.rs:70-82 | the mutable read agrees with the cursor function, and a failed read moves nothing |
| Cursors.Reader.ReadPrefixedVec | crates/passman-vault/src/reader.rs:155-181 | a length-prefixed read takes the declared number of bytes or reports where it ran short |
| Cursors.PrefixedAt | crates/passman-vault/src/reader.rs:155-181 | a written prefix and body read back as the body, leaving the tail |
| Cursors.PrefixedConsumes | crates/passman-recovery/src/reader.rs:139-145 | an accepted length-prefixed read consumed exactly the encoding of what it returned |
| VaultCodec.KdfRoundTrip | crates/passman-crypto/src/kdf.rs:91-112 | the nine parameter bytes decode to the parameters they encode |
| VaultCodec.KdfConverse | crates/passman-crypto/src/kdf.rs:91-112 | and any nine bytes are the encoding of what they decode to |
| Bytes.LEDigits | crates/passman-crypto/src/kdf.rs:91-99 | byte i of a little-endian integer is its i-th base-256 digit |
| Utf8.TextIff | crates/passman-vault/src/record.rs:184-190 | the bytes accepted as text are exactly the encodings of sequences of scalar values (RFC 3629) |
| VaultCodec.CodecRoundTrip | crates/passman-vault/src/vault.rs:534-688 | writing then reading a vault gives it back exactly when it is well-formed: known version and KDF id, blobs within 65535 bytes, every length within 32 bits and stamped correctly |
| VaultCodec.HeaderOffsets | crates/passman-vault/src/vault.rs:534-545 | the fixed fields stand at the absolute offsets 0, 1, 2, 6, 10, 11, 43 and 67 that section 4.7 of the architecture document tabulates |
| VaultCodec.Layout | crates/passman-vault/src/vault.rs:534-575 | blobs, rate-limit and metadata fields, index and entries follow from offset 99 on without gaps, in that section's order |
| VaultCodec.EntriesOffsets | crates/passman-vault/src/vault.rs:565-575 | the entries follow their count one by one |
| VaultCodec.EnvelopeOffsets | crates/passman-vault/src/vault.rs:567-573 | id, nonce, length and ciphertext of an entry stand at 0, 16, 40 and 44 |
| VaultCodec.HeaderRefusals | crates/passman-vault/src/vault.rs:593-616 | an empty file, another version and another algorithm are refused by name, in that order |
| VaultCodec.SerializeOfParse | crates/passman-vault/src/vault.rs:593-688 | an accepted file is the layout of a well-formed vault, and holds at most a 44th as many envelopes as bytes whatever count it declares |
| VaultCodec.AcceptedFiles | crates/passman-vault/src/vault.rs:593-688 | a file is accepted as a vault exactly when the vault is well-formed and the file is its layout for some eight export bytes |
| VaultCodec.Reserialize | crates/passman-vault/src/vault.rs:534-575 | an accepted file re-serialises to itself, except that the eight export bytes become zero when the flag is 0 |
| Vault.Vault.ToBytes | crates/passman-vault/src/vault.rs:534-575 | the growing buffer ends as the specified layout |
| Vault.Vault.FromBytes | crates/passman-vault/src/vault.rs:593-688 | the cursor loop returns the vault the parse specification returns, or its error |
| Vault.Vault.ReadEntries | crates/passman-vault/src/vault.rs:650-667 | the push loop over the declared count agrees with the list parser, errors included |
| Records.PaddedLenIsLeast | crates/passman-vault/src/record.rs:85-94 | the padded length is the least multiple of 256 that holds the content |
| Records.UnpadOfPad | crates/passman-vault/src/vault.rs:772-809 | stripping a padded plaintext returns it exactly when its length fits the 32-bit prefix |
| Records.RecordSize | crates/passman-vault/src/record.rs:85-115 | an encoded record has the least multiple of 256 that is at least 20 plus the field lengths, so records of one size class are equally long |
| Records.RecordLayout | crates/passman-vault/src/record.rs:85-115 | the plaintext of an entry is its length, then username, password, URL and notes, each after its own length, then zeros |
| Records.RecordRoundTrip | crates/passman-vault/src/record.rs:85-212 | an encoded record decodes to itself exactly when its fields fit the 32-bit prefix |
| Records.DecodedIsEncoding | crates/passman-vault/src/record.rs:134-212 | a plaintext decodes only if it begins with the encoding of the record it decodes to |
| Records.EncodePadded | crates/passman-vault/src/record.rs:85-115 | writing four fields at a moving offset into a zeroed buffer gives the specified encoding |
| Records.WriteField | crates/passman-vault/src/record.rs:229-232 | one field is appended in place and the zeros after it stay |
| Records.Decode | crates/passman-vault/src/record.rs:134-212 | the decoding loop agrees with the record parser, each malformation with its own reason |
| Records.PadIndexPlaintext | crates/passman-vault/src/vault.rs:772-781 | the in-place index padding is the specified one |
| Vault.Index.Upsert | crates/passman-vault/src/index.rs:106-114 | overwrites the first row with the id or appends one, and says which |
| Vault.Index.Remove | crates/passman-vault/src/index.rs:117-121 | drops every row with the id and says whether there was one |
| KeyedLists.FindPut | crates/passman-vault/src/index.rs:93-114 | after an upsert the id finds the new row and every other id what it found before |
| KeyedLists.FindWithout | crates/passman-vault/src/index.rs:93-121 | after a removal the id finds nothing and every other id what it found before |
| KeyedLists.SameIdsPut | crates/passman-vault/src/vault.rs:375-395 | putting one id into index and envelopes keeps both duplicate-free, equal as sets, and equal in order if they were |
| KeyedLists.SameIdsWithout | crates/passman-vault/src/vault.rs:407-417 | and so does removing it from both |
| SortIds.SortedCheckIsSameIds | crates/passman-vault/src/vault.rs:498-526 | length check, sorting, adjacent-duplicate scans and comparison pass exactly when both lists are duplicate-free and equal as sets |
| Vault.Vault.CheckIndexEnvelopeSets | crates/passman-vault/src/vault.rs:498-526 | the check returns Ok exactly then, and IndexMismatch otherwise |
| Vault.Vault.Create | crates/passman-vault/src/vault.rs:222-270 | checks both blobs, seals probe and empty index, always in version 2 |
| VaultModel.CreateIsEmpty | crates/passman-vault/src/vault.rs:222-270 | a new vault exists exactly when both blobs fit; it opens, holds nothing, and its probe verifies |
| Vault.Vault.CheckProbe | crates/passman-vault/src/vault.rs:287-303 | accepts exactly the key under which the probe opens to the fixed plaintext |
| Vault.Vault.OpenTheIndex | crates/passman-vault/src/vault.rs:321-325 | returns the decrypted rows only if they pass the envelope check |
| Vault.Vault.DecryptTheIndex | crates/passman-vault/src/vault.rs:463-481 | strips padding in version 2 only, and reports a bad tag, bad padding or bad postcard |
| Vault.Vault.ResealIndex | crates/passman-vault/src/vault.rs:487-492 | replaces nonce and ciphertext of the index under the vault's own version, nothing else |
| VaultModel.ResealedIndexOpens | crates/passman-vault/src/vault.rs:463-492 | a resealed index decrypts to the rows sealed, in either version |
| Vault.Vault.ReadEntry | crates/passman-vault/src/vault.rs:344-360 | reads an entry through its own key and associated data, with the error of each step |
| Vault.Vault.AddOrUpdateEntry | crates/passman-vault/src/vault.rs:375-395 | the whole new state of the vault, including the envelope already replaced when the index then fails to decrypt |
| VaultModel.AddRefinesPut | crates/passman-vault/src/vault.rs:375-395 | is an update of the ordered map id to (label, policy, record): the new entry reads back, the others are untouched |
| Vault.Vault.RemoveEntry | crates/passman-vault/src/vault.rs:407-417 | the whole new state of the vault, or EntryNotFound |
| VaultModel.RemoveRefinesDrop | crates/passman-vault/src/vault.rs:407-417 | is a deletion from that map; a missing id changes nothing |
| Vault.Vault.SetHsmBlobs | crates/passman-vault/src/vault.rs:439-449 | stores both blobs or, if either is too long, neither |
| VaultRuns.RunRefinesMap | crates/passman-vault/src/vault.rs:375-492 | over any run of adds, removals, header edits and save-and-reload cycles, in either version, the vault acts as the ordered map, keeps its version, and keeps the id orders equal |
| VaultRuns.RunFromCreate | crates/passman-vault/src/vault.rs:222-492 | from creation on, index ids and envelope ids are the same duplicate-free sequence |
| Rebuild.ReencryptPreserves | crates/passman-core/src/unlocked.rs:518-549 | a password change rebuilds the vault exactly when every entry can be read; it then opens to the same rows, holds the same map, keeps both blobs and the export date, and its probe verifies under the new key |
| Nonces.ReencryptNonces | crates/passman-core/src/unlocked.rs:518-549 | entry j of a rebuilt vault carries the first nonce of the j-th random pair, the index the second of the last |
| Nonces.ImportNonces | crates/passman-core/src/app.rs:448-460 | and so does an import of a backup without repeated ids |
| Rebuild.ReencryptedReparses | crates/passman-core/src/unlocked.rs:360-406 | the file written for it parses back to the vault that was built |
| Rebuild.PartsRoundTrip | crates/passman-core/src/unlocked.rs:676-715 | translating an entry for a backup and back gives the same row and record |
| Rebuild.BackupFields | crates/passman-core/src/unlocked.rs:676-690 | each field of a backup entry is the field of that name of its row and record |
| Rebuild.BackupThenRestore | crates/passman-core/src/app.rs:425-464 | backing up duplicate-free rows and restoring under one password gives a vault with the same rows in order, the same records, the same TOTP seed and a verifying probe, with memory measured before each derivation |
| RecoveryModel.PayloadCodec | crates/passman-recovery/src/payload.rs:111-222 | a payload buffer decodes to a payload exactly when it is the payload's encoding and all its lengths fit |
| RecoveryModel.EncodeOfDecode | crates/passman-recovery/src/payload.rs:170-222 | every accepted payload re-encodes to its own bytes, so the declared count never reads past them |
| Recovery.EncodePayloadBuffer | crates/passman-recovery/src/payload.rs:111-147 | the append loop gives the specified encoding |
| Recovery.DecodePayloadBuffer | crates/passman-recovery/src/payload.rs:170-222 | the cursor loop agrees with the payload parser, errors included |
| RecoveryModel.FrameOfParse | crates/passman-recovery/src/format.rs:230-286 | an accepted frame is the framing of what it parses to |
| RecoveryModel.FrameOffsets | crates/passman-recovery/src/format.rs:154-167 | the frame fields stand at the offsets section 7.2 of the architecture document tabulates, the ciphertext at 77 |
| RecoveryModel.PayloadOffsets | crates/passman-recovery/src/payload.rs:111-147 | version, seed, KDF parameters and count stand at 0, 1, 33 and 42 of the payload, as section 7.3 has it |
| RecoveryModel.EntryLayout | crates/passman-recovery/src/payload.rs:127-147 | an entry is its id, then label, username, password, URL, notes and policy, each after its length |
| RecoveryModel.FrameRefusals | crates/passman-recovery/src/format.rs:230-252 | another magic, version or algorithm is refused by name, in that order |
| RecoveryModel.CostRefusal | crates/passman-recovery/src/format.rs:253-268 | and so is a cost outside the limits, before anything is derived |
| RecoveryModel.ImportedFiles | crates/passman-recovery/src/format.rs:132-303 | import accepts a file exactly when sealing the payload it returns, with some parameters, salt and nonce, writes that file |
| RecoveryModel.ExportImports | crates/passman-recovery/src/format.rs:91-303 | with enough memory an export imports to its payload exactly when the sealed payload fits the 32-bit length field |
| Recovery.Seal | crates/passman-recovery/src/format.rs:132-167 | derives, seals and frames as specified |
| Recovery.ExportWithinMemory | crates/passman-recovery/src/format.rs:91-108 | refuses parameters below the floor, otherwise seals |
| Recovery.ImportWithinMemory | crates/passman-recovery/src/format.rs:230-303 | magic, version, algorithm, cost limits, salt, nonce, length and end are checked in that order before any derivation |
| Kdf.PresetsAdmitted | crates/passman-recovery/src/kdf.rs:46-87 | every export preset passes the export floor and the import ceiling |
| Keys.MasterIs | crates/passman-core/src/app.rs:681-699 | the master key is extracted with the salt from the password's Argon2id output and the 32-byte hardware secret, or refused for the blob or the cost, in literal limits |
| Keys.RecoveryKeyIs | crates/passman-recovery/src/kdf.rs:113-125 | a backup key is extracted with its salt from the password's Argon2id output, under the same limits |
| Keys.ProbeIff | crates/passman-vault/src/vault.rs:287-303 | a key passes the probe exactly if the probe is the fixed text sealed under it, bound to version, algorithm, cost and salt |
| Keys.IndexIff | crates/passman-vault/src/vault.rs:463-481 | the index reads as some rows exactly if a plaintext that decodes to them, by version, was sealed under the index key and bound to the version |
| Keys.EntryIff | crates/passman-vault/src/vault.rs:344-360 | an entry reads as a record exactly if a plaintext that decodes to it was sealed under the key of that id and bound to version and id |
| Keys.AddSeals | crates/passman-vault/src/vault.rs:375-395 | an edit seals the record under the entry's key and the new rows under the index key, each with its own nonce |
| Keys.RemoveSeals | crates/passman-vault/src/vault.rs:407-417 | a removal reseals the remaining rows with its own nonce |
| Keys.CreateIs | crates/passman-vault/src/vault.rs:222-270 | every field of a new vault, both blobs in their places, or the blob that is too long |
| Keys.ExportFileIs | crates/passman-recovery/src/format.rs:91-167 | a backup file is the frame around the payload sealed under the key of its password, or refused for floor or limits |
| Keys.ImportFileIff | crates/passman-recovery/src/format.rs:230-303 | import returns exactly the payload that was sealed in the frame under the key of the password and the frame's salt and cost |
| Keys.ImportFileIs | crates/passman-recovery/src/format.rs:268-303 | the answer to a good frame: too short for its tag, too costly, not its seal, or what its payload decodes to |
| Policy.EffectiveSet | crates/passman-policy/src/charset.rs:191-206 | the effective set is duplicate-free and holds exactly the allowed characters of the selected classes |
| Policy.EffectiveIs | crates/passman-policy/src/charset.rs:150-171 | a class is what its own flag selects of its ASCII range, or the named, full or listed symbols, minus what is disallowed |
| Policy.CollectEffectiveSet | crates/passman-policy/src/charset.rs:191-206 | the seen-set loop computes it in order |
| Sampling.RejectionIsUniform | crates/passman-policy/src/generate.rs:40-53 | for every n the zone is a multiple of n, each residue has exactly zone/n accepted words, and at least half of all words are accepted |
| Sampling.ZoneIsLargestMultiple | crates/passman-policy/src/generate.rs:44-45 | the zone is the largest multiple of n that a u32 holds |
| Sampling.DrawSkips | crates/passman-policy/src/generate.rs:40-53 | a draw skips exactly the words at or above the zone and reduces the first below it |
| Sampling.DrawIsUniform | crates/passman-policy/src/generate.rs:40-53 | each residue is drawn at once by exactly zone/n words |
| Sampling.UniformFrom | crates/passman-policy/src/generate.rs:40-53 | the rejection loop returns the element the first accepted word selects and leaves the rest of the stream |
| Sampling.ShufflePermutes | crates/passman-policy/src/generate.rs:60-78 | for any buffer and any accepted indices the shuffle preserves the multiset |
| Sampling.ShuffleIsBijective | crates/passman-policy/src/generate.rs:60-78 | for distinct elements, index vectors and arrangements correspond one to one |
| Fairness.ShuffleIsUniform | crates/passman-policy/src/generate.rs:40-78 | every arrangement of distinct elements is produced by the same number of accepted word vectors, the product of zone/n over the positions |
| Fairness.AcceptedShuffles | crates/passman-policy/src/generate.rs:60-78 | with one word for each position the shuffle ends exactly if all are accepted, and then gives the arrangement they select |
| Sampling.Shuffle | crates/passman-policy/src/generate.rs:60-78 | the in-place swap loop is that function of the indices it draws |
| Policy.Generate | crates/passman-policy/src/generate.rs:107-178 | the four checks, the filling loops and the shuffle give the specified outcome for every stream |
| Policy.GenerateFailsExactly | crates/passman-policy/src/generate.rs:107-150 | generation fails with an error exactly when that is the first failing check, whatever the stream |
| Validation.PrecheckIs | crates/passman-policy/src/generate.rs:107-150 | the first failing check, in characters: length out of 16 to 256, fewer than two permitted, minimums above the length, or a class with none left |
| Validation.GenerateSucceedsIff | crates/passman-policy/src/generate.rs:107-178 | and can succeed exactly when the length is in range, two characters are allowed, the minimums fit and each required class has a character |
| Policy.GeneratedMeets | crates/passman-policy/src/generate.rs:152-178 | every generated password has the requested length, only effective characters, and every class minimum after the shuffle |
| GeneratorRange.GeneratedIff | crates/passman-policy/src/generate.rs:152-178 | a password can be generated exactly when the checks pass and some rearrangement of it has each character in the pool its position is drawn from |
| GeneratorRange.GeneratedRange | crates/passman-policy/src/generate.rs:107-178 | that is exactly when its length and characters are right, each class reaches its minimum, and the characters that count as symbols cover the symbol minimum and what the other classes lack without them |
| GeneratorRange.SeparateRange | crates/passman-policy/src/generate.rs:107-178 | when no symbol on offer is a letter or digit on offer, everything that meets the request can be generated |
| Validation.Validate | crates/passman-policy/src/validate.rs:41-98 | the counting loops give the specified list of issues |
| Validation.NoIssuesIff | crates/passman-policy/src/validate.rs:41-107 | no issue is reported exactly when length, characters and all four class minimums are right |
| Validation.ResolvedIs | crates/passman-policy/src/policy.rs:149-160 | each field of an entry's policy counts where given, else length 40, all classes with the full symbols, and one of each |
| Validation.ValidExactly | crates/passman-policy/src/validate.rs:41-98 | a password is valid exactly if its length, its characters and its four counts meet the entry's policy with the defaults filled in |
| Validation.IssueIff | crates/passman-policy/src/validate.rs:41-107 | each issue is reported exactly when its own requirement fails, with its figures |
| Validation.PunctuationIsFull | crates/passman-policy/src/charset.rs:35-41 | the ASCII punctuation the validator counts is the full symbol set |
| Validation.GeneratedValidatesIff | crates/passman-policy/src/validate.rs:41-98 | the generator satisfies the validator for every stream exactly when it cannot succeed, requires no symbol, or offers only ASCII punctuation as symbols |
| Validation.UncountedStream | crates/passman-policy/src/charset.rs:166-172 | with one other symbol on offer, some stream yields a password in which the validator counts no symbol |
| Hotp.TruncateIsLow31Bits | crates/passman-totp/src/hotp.rs:100-110 | truncation stays inside every tag of at least 20 bytes and is the low 31 bits of the word at the offset |
| Hotp.BigEndianIff | crates/passman-totp/src/hotp.rs:66-80 | the hashed message is the one eight-byte string that denotes the counter, most significant byte first |
| Hotp.PaddedDigits | crates/passman-totp/src/hotp.rs:86-94 | the six bytes of a code are the decimal digits from the most significant on |
| Hotp.FormatPadded | crates/passman-totp/src/hotp.rs:86-94 | the reverse loop writes the last digits of the value, zero-padded |
| Hotp.DenotesPadded | crates/passman-totp/src/hotp.rs:66-94 | a padded code denotes its value modulo its width, so a reduced value parses back |
| Hotp.PaddedDenotes | crates/passman-totp/src/hotp.rs:86-94 | every digit string is the padded form of the number it denotes |
| Hotp.CodesEqualIff | crates/passman-totp/src/hotp.rs:66-94 | two padded codes are equal exactly when their values are |
| Totp.HighestMatch | crates/passman-totp/src/verifier.rs:95-104 | the scan finds the highest step of the range whose code is the candidate, or none |
| Totp.AcceptIff | crates/passman-totp/src/verifier.rs:80-116 | verification accepts exactly the code of some step within the skew and beyond the replay cache |
| Totp.InWindowIff | crates/passman-totp/src/verifier.rs:80-95 | a step is in the window exactly if the clock is within the skew of its period, in seconds |
| Totp.CodeAtIff | crates/passman-totp/src/hotp.rs:66-94 | the code of a step is the one whose value is its eight-byte message's tag, truncated and reduced |
| Totp.AcceptsCodeIff | crates/passman-totp/src/verifier.rs:80-116 | so verification accepts exactly the code of some eight-byte counter near the clock and beyond the cache |
| Totp.VerdictIs | crates/passman-totp/src/verifier.rs:80-116 | and answers Malformed without digits, Replayed if only an old step has the code, Rejected if none has |
| Totp.DefaultCodes | crates/passman-core/src/app.rs:510-525 | unconfigured, it takes six-digit SHA-1 codes of thirty seconds, one step early or late |
| Totp.CacheAfter | crates/passman-totp/src/verifier.rs:95-116 | acceptance moves the cache to the highest matching step, rejection leaves it |
| Totp.TotpVerifier.Verify | crates/passman-totp/src/verifier.rs:80-116 | the non-short-circuiting scan with saturating ends does that, with Malformed, Rejected and Replayed told apart |
| Lockout.ScheduleDoubles | crates/passman-core/src/lockout.rs:41-52 | nothing for two failures, ten minutes at the third, doubling up to a day |
| Lockout.WindowInSeconds | crates/passman-core/src/lockout.rs:41-52 | in seconds: 600 doubled for each failure past the third, 86400 from the eleventh on |
| Lockout.RemainingIs | crates/passman-core/src/lockout.rs:86-114 | a lockout is in effect exactly from the third failure, with a positive stamp, before its end; the time left is the window or the distance to its end, whichever is smaller |
| Lockout.RemainingMonotone | crates/passman-core/src/lockout.rs:86-114 | raising either field never shortens a lockout |
| Lockout.MergeIsFailSafe | crates/passman-core/src/app.rs:537-548 | the merged state is the least at or above both, so it shortens neither lockout |
| Lockout.NextAttemptBlockedIff | crates/passman-core/src/lockout.rs:86-125 | a recorded third or later failure blocks the next attempt exactly while its stamp is positive and its window has not passed |
| App.App.Unlock | crates/passman-core/src/app.rs:252-386 | the whole pipeline as specified: result, throttle state, verifier and vault file |
| AppRuns.GrantedIff | crates/passman-core/src/app.rs:252-386 | a session is granted exactly when backend, header, device lock, timer, both slots, TOTP code, derivation, probe and index all agree |
| Keys.EnteredExactly | crates/passman-core/src/app.rs:252-386 | the same in primitives, password and counter included, and what the session then holds: mixed key, unwrapped seed, rows, 120 seconds |
| Keys.CreatedExactly | crates/passman-core/src/app.rs:185-236 | a creation leaves exactly the new vault under the mixed key, the configuration, no verifier, and a session on it |
| Keys.ImportedExactly | crates/passman-core/src/app.rs:409-469 | an import leaves a vault with that header under the mixed key, and a session with the payload's seed |
| Keys.CreateRefusedExactly | crates/passman-core/src/app.rs:185-236 | the first closed gate of a creation names its error, and with none closed it succeeds |
| Keys.ImportRefusedExactly | crates/passman-core/src/app.rs:409-469 | and so does that of an import: backup, slots, cost, blobs, entries, write, reopening |
| Throttle.RefusedExactly | crates/passman-core/src/app.rs:252-386 | the first closed gate names the refusal; wrong code, cost and password look the same, and each hardware failure goes its own way |
| Throttle.CountedExactly | crates/passman-core/src/app.rs:332-386 | exactly a wrong code, or a wrong password whose key could be derived, is counted, and exactly a granted attempt clears the count |
| Throttle.SuccessClears | crates/passman-core/src/app.rs:371-386 | a granted attempt clears the record in memory, and in the file if it held one and the write lands |
| Throttle.RunIsExact | crates/passman-core/src/app.rs:537-584 | over any run with restarts and landed writes, file and memory record exactly the failures since the last success |
| Throttle.TimerExactly | crates/passman-core/src/lockout.rs:86-125 | an attempt is then refused by the timer exactly while the last window runs, for the rest of it |
| AppRuns.BadCredentialsRecordedIff | crates/passman-core/src/app.rs:332-354 | BadCredentials leaves a failure on record exactly when the code or the probe was wrong, not when the derivation failed |
| App.App.MergeLockout | crates/passman-core/src/app.rs:537-548 | adopts the per-field maximum in memory |
| App.App.RecordFailure | crates/passman-core/src/app.rs:568-584 | bumps the state, keeps memory in step and writes the header best-effort |
| App.App.VerifyTotp | crates/passman-core/src/app.rs:510-525 | builds the verifier on first use and keeps its cache |
| App.App.SetTotpConfig | crates/passman-core/src/app.rs:608-617 | records the configuration and drops the verifier |
| App.App.CreateVault | crates/passman-core/src/app.rs:185-236 | enrols, derives, builds, writes, records the configuration and opens, stopping at the first failure |
| App.App.ImportRecovery | crates/passman-core/src/app.rs:409-469 | imports, enrols, derives, rebuilds, writes, records the configuration and opens, stopping at the first failure |
| AppRuns.RunIsScheduled | crates/passman-core/src/app.rs:280-309 | over any run, with positive clocks that otherwise move in any way and any failed writes, each failure after the third comes at least a full window after the one before, as long as no restart or outside write lowers the throttle level, the maximum of file and memory |
| AppRuns.InProcessSchedule | crates/passman-core/src/app.rs:537-584 | within one process the counter never drops below the failures since the last success and the schedule holds, whatever happens to the file |
| AppRuns.NthFailureBound | crates/passman-core/src/lockout.rs:41-125 | the n-th stamp is at least the third plus all windows between |
| AppRuns.ZeroClockIsNeverLocked | crates/passman-core/src/lockout.rs:93-97 | with the clock at zero the schedule fails: each of any number of wrong codes is let through and recorded, whether its write lands or not |
| AppRuns.FailureSurvivesRestart | crates/passman-core/src/app.rs:568-584 | a failure whose write lands is the state the next process starts from, whatever the file |
| AppRuns.RestartIs | crates/passman-core/src/app.rs:103-121 | a restart keeps the file and forgets failures, configuration and replay cache |
| AppRuns.ReplayFree | crates/passman-core/src/app.rs:510-525 | over any run, with clocks moving either way, accepted time steps strictly increase across unlock, export and confirmation until the verifier is replaced |
| AppRuns.AttemptEffect | crates/passman-core/src/app.rs:252-386 | an attempt either records one failure past a timer that had run out, or clears the record, or leaves file and record as they were |
| AppRuns.ScheduleAcrossRestarts | crates/passman-core/src/app.rs:550-584 | when every attempt's write lands the schedule holds across any number of restarts, the file alone remembering the failures; other writes may fall in between if they do not lower the record in the file |
| UnlockedApp.UnlockedApp.AddEntry | crates/passman-core/src/unlocked.rs:251-261 | expiry check, then the vault edit, the write and the refreshed index |
| UnlockedApp.UnlockedApp.UpdateEntry | crates/passman-core/src/unlocked.rs:270-282 | as adding, for an id already in the index |
| UnlockedApp.UnlockedApp.RemoveEntry | crates/passman-core/src/unlocked.rs:290-295 | expiry check, removal, write, refreshed index |
| UnlockedApp.UnlockedApp.PersistAndRefresh | crates/passman-core/src/unlocked.rs:566-570 | writes the vault, then reopens the index from it |
| UnlockedApp.UnlockedApp.CopyToClipboard | crates/passman-core/src/unlocked.rs:181-204 | returns the chosen field and clamps the session to half a minute |
| UnlockedApp.UnlockedApp.ReencryptVault | crates/passman-core/src/unlocked.rs:518-549 | the copying loop builds the specified vault or stops at the first unreadable entry |
| UnlockedApp.UnlockedApp.ChangeMasterPassword | crates/passman-core/src/unlocked.rs:360-406 | verifies the old password, rebuilds, writes, and continues under the new key |
| UnlockedApp.UnlockedApp.ExportRecovery | crates/passman-core/src/unlocked.rs:430-512 | strength gate, fresh re-authentication, payload, file, then the recorded export date |
| SessionGates.AddedExactly | crates/passman-core/src/unlocked.rs:251-261 | an addition under 4 GiB succeeds exactly if its write lands |
| SessionGates.RemovedExactly | crates/passman-core/src/unlocked.rs:290-295 | and so does the removal of an entry that is there |
| SessionGates.RemoveNeedsEntry | crates/passman-core/src/unlocked.rs:290-295 | a removal of an id that is not stored changes nothing |
| SessionGates.UpdateNeedsEntry | crates/passman-core/src/unlocked.rs:270-282 | an update adds if the id is stored, and otherwise changes nothing |
| SessionGates.RevealReturns | crates/passman-core/src/unlocked.rs:150-169 | revealing returns the stored record |
| SessionGates.CopyReturns | crates/passman-core/src/unlocked.rs:181-204 | copying pastes the chosen field of the stored record and leaves at most 30 seconds |
| SessionGates.ChangedExactly | crates/passman-core/src/unlocked.rs:360-406 | a password change succeeds exactly if the old password opens the probe, the new cost can be met, every entry reads and the write lands; it then leaves the new key, salt, cost and date and reports a stale export, and otherwise nothing |
| SessionGates.ChangeRefusedExactly | crates/passman-core/src/unlocked.rs:360-406 | the first closed gate names the error of a change, an unreadable entry its own |
| SessionGates.WrongOldPassword | crates/passman-core/src/unlocked.rs:382-391 | a wrong old password is refused and nothing is written |
| SessionGates.ExportedExactly | crates/passman-core/src/unlocked.rs:430-512 | an export succeeds exactly if its password is strong and opens the probe, the code is taken, the seed is whole, memory suffices, every entry reads and the write lands; it returns the sealed file and records the date |
| SessionGates.ExportRefusedExactly | crates/passman-core/src/unlocked.rs:430-512 | and that of an export |
| SessionRuns.OpKeepsSync | crates/passman-core/src/unlocked.rs:553-576 | after every operation the index in memory is the one the file opens to, the file holds exactly the successful edit, and key, salt, parameters and hardware blob are kept or replaced as the operation says; the code can read that file back exactly when it is at most 64 MiB |
| SessionRuns.RunKeepsSync | crates/passman-core/src/unlocked.rs:251-576 | over any run, with failed writes, expiries and password changes, file and index agree, the file holds exactly the edits reported as done, and the code can read it back exactly when it is at most 64 MiB |
| SessionRuns.ReopensIff | crates/passman-core/src/storage.rs:45-57 | a file in step with its session opens again, through the code's own read, exactly when it is at most 64 MiB |
| SessionRuns.WrittenReadBackIff | crates/passman-core/src/storage.rs:36-57 | a well-formed vault is read back from the file written for it exactly when that file is at most 64 MiB |
| SessionRuns.OversizedIsRefused | crates/passman-core/src/storage.rs:45-57 | on a larger file every unlock fails as malformed, every live operation that reads it fails with Io, and nothing changes |
| SessionRuns.LargeEntryLocksOut | crates/passman-core/src/unlocked.rs:251-261 | adding an entry whose record takes 64 MiB or more answers success and leaves a file the code does not read |
| SessionRuns.ChangeKeeps | crates/passman-core/src/unlocked.rs:360-406 | a password change, failed or not, keeps the stored map |
| Lives.OpKeepsSecret | crates/passman-core/src/unlocked.rs:360-406 | after every operation the password in force, a changed one included, derives the session's key from the file's salt and parameters and the same hardware secret |
| Lives.RunKeepsSecret | crates/passman-core/src/unlocked.rs:251-576 | and so after any run of operations |
| Lives.AttemptKeepsAll | crates/passman-core/src/app.rs:252-386 | an unlock attempt, granted or not, changes neither what the file holds nor the key it is sealed under |
| Lives.GrantedKept | crates/passman-core/src/app.rs:332-386 | a granted session is under the key its password derives |
| Lives.LifeKeeps | crates/passman-core/src/unlocked.rs:251-576 | over whole lives, with failed and granted attempts, restarts, sessions, password changes, failed writes and new vaults in any mix, the file holds exactly the edits reported as done since the vault in place was made or, for an import, since what it rebuilt, and the password in force derives its key |
| Lives.LifeFromCreate | crates/passman-core/src/app.rs:185-236 | in particular from the creation of the vault on, starting with nothing |
| SessionRuns.ExpiryShrinks | crates/passman-core/src/unlocked.rs:181-204 | no operation extends the session, a copy leaves at most 30 seconds, an expired session changes nothing |
| SessionRuns.RunIsBounded | crates/passman-core/src/unlocked.rs:580-586 | whatever runs in between, an operation at or past the first expiry is refused, and changes nothing, exactly when it is not a code confirmation |
| SessionEvents.MovesAreEvents | crates/passman-core/src/unlocked.rs:251-512 | any mix of unlock attempts, session operations, creations and imports takes the application through the code checks, file writes and configurations of those moves, and nothing else |
| SessionEvents.ConfirmIsAccepted | crates/passman-core/src/unlocked.rs:339-342 | a confirmation answers yes exactly when its code check accepts a step |
| SessionEvents.ExportIsAccepted | crates/passman-core/src/unlocked.rs:460-470 | an export that succeeds made one code check, and is refused if that accepts no step |
| SessionEvents.MixedReplayFree | crates/passman-core/src/app.rs:510-525 | over any such mix accepted time steps strictly increase until the verifier is replaced |
| SessionEvents.MixedSchedule | crates/passman-core/src/app.rs:537-584 | and within one process the lockout schedule holds, whatever the operations write and whichever writes fail |
| SessionEvents.MixedAcrossRestarts | crates/passman-core/src/app.rs:550-584 | with landed attempt writes it holds across any number of restarts, sessions, password changes and new vaults, the file holding every failure since the last success |
| SessionRuns.UnlockedInSync | crates/passman-core/src/app.rs:356-386 | a granted session agrees with the file, also when the counter reset was written, and lasts 120 seconds |
| Transfer.CreatedInSync | crates/passman-core/src/app.rs:213-236 | a new vault opens a session that agrees with its file and holds nothing |
| Transfer.ImportedInSync | crates/passman-core/src/app.rs:436-466 | an imported backup opens a session that agrees with the file it wrote |
| Transfer.ExportThenImport | crates/passman-core/src/unlocked.rs:430-512 | exporting from a session and importing elsewhere under the same password gives the same index and TOTP seed, and holds what the re-derived key reads: the session's own map exactly when both keys read alike, as one key does |
| Lives.OwnBackupRestores | crates/passman-core/src/unlocked.rs:430-512 | a backup exported and imported under the password in force restores exactly the edits reported as done, with no assumption about keys |
| Storage.Store.AtomicWrite | crates/passman-core/src/storage.rs:73-133 | succeeds exactly when every step up to the rename does; the file then holds the new bytes, otherwise the old; every intermediate state is crash-safe; with the directory synced only the new file can surface |
| Storage.Store.WriteTemp | crates/passman-core/src/storage.rs:100-102 | the partial-write loop touches only the temporary file and succeeds exactly when the sizes written cover the data |
| Storage.CoversIff | crates/passman-core/src/storage.rs:100-102 | the sizes written cover the data exactly if some first ones, none of them zero, add up to it |
| Storage.WritesCrashSafe | crates/passman-core/src/storage.rs:73-133 | over any number of writes a crash leaves a starting state or the whole of some written buffer |
| SessionRuns.CrashedFileReopens | crates/passman-core/src/storage.rs:73-133 | a crash at any step of writing a vault leaves the old file or the whole new one, and the code reads either and opens it exactly when it is at most 64 MiB |
| SessionWorkers.SessionWorker.Handle | crates/passman-core/src/worker.rs:476-589 | one unlocked request: replies, clipboard, live cookie and whether to lock or quit |
| SessionWorkers.SessionWorker.DriveUnlocked | crates/passman-core/src/worker.rs:314-449 | the inner receive loop, with the wipe before every exit |
| SessionWorkers.SessionWorker.RunWorker | crates/passman-core/src/worker.rs:216-310 | over any script of receives the nested loops behave as the flat state machine |
| SessionWorkers.ReactIsStep | crates/passman-core/src/worker.rs:216-449 | that machine is the worker half of the transition system |
| Callers.PassmanApp.Call | crates/passman-uniffi/src/lib.rs:669-680 | each statement of the call is its step of the transition system, with any steps of the other threads between them; a returned response is the first in the queue, and answers the call exactly when the pairing condition held at its send |
| WorkerRuns.Accounting | crates/passman-core/src/worker.rs:227-309 | over every interleaving the responses emitted are the handled requests other than ClearClipboard, Quit and stray Create or Unlock, plus the idle locks, and none is lost or reordered |
| WorkerRuns.NeverStranded | crates/passman-uniffi/src/lib.rs:669-680 | a caller in recv always has a queued response, a stopped worker, an unlocked worker, or a request that will wake it |
| WorkerRuns.CallerIsNeverStranded | crates/passman-core/src/worker.rs:389-448 | once the queue is handled such a caller can receive, or the worker is idle and its expiry is one step from sending Locked |
| WorkerRuns.OwnReplyIsUnderstood | crates/passman-uniffi/src/lib.rs:454-630 | the reply to its own request never reads as unexpected, and reads as success, lock or failure exactly when it should |
| WorkerRuns.PairedIff | crates/passman-uniffi/src/lib.rs:652-680 | in every run from the start, a call that has drained receives the answer to its own request exactly when the worker runs, nothing was emitted between its drain and its send, nothing that replies is queued ahead, it is not itself silent, and no idle lock comes first |
| WorkerTraces.LockMispairs | crates/passman-uniffi/src/lib.rs:638-680 | a lock still queued when a call sends puts that call and the later ones one reply off, up to an unexpected reply |
| WorkerTraces.IdleLockMispairs | crates/passman-uniffi/src/lib.rs:669-680 | an idle lock between the drain and the send is taken for the answer |
| ClipboardRuns.LiveTracks | crates/passman-core/src/worker.rs:498-530 | the live cookie is the last copy, unless any ClearClipboard came after it |
| ClipboardRuns.WritesExactly | crates/passman-core/src/unlocked.rs:650-671 | only a copy writes the clipboard, and a clearing whose digest is what is on it; anything else put there stays |
| ClipboardRuns.ExitLeavesSecretIff | crates/passman-core/src/worker.rs:389-475 | in every run from the start, a session that ends leaves its last copied secret on the clipboard exactly when it was there and some ClearClipboard had been handled since, or clearing does not overwrite, or the fact drawn for the wipe is the secret itself |
| ClipboardRuns.TimelyClearsLeaveIff | crates/passman-core/src/worker.rs:457-530 | if every ClearClipboard is for the latest copy, the secret is left behind exactly when it was there and clearing does not overwrite or has drawn the secret itself |
| WorkerTraces.OldClearStrands | crates/passman-core/src/worker.rs:522-530 | a clear timer for an older copy strands the newer one, with a caller that waits for every reply |
| WorkerTraces.OverwriteOffStrands | crates/passman-core/src/unlocked.rs:664-667 | with overwriting off, a copied secret outlives the session although nothing was cleared |
| Primitives.ToyIsLawful | crates/passman-crypto/src/aead.rs:35-96 | the assumed facts about sealing, postcard and HMAC are consistent: a toy choice meets them all |

## Left out

- Hardware key stores, prompts, the user interfaces, the instance lock, path discovery, progress callbacks and zeroising: foreign calls and presentation.
- Strength estimation: the export gate is a Boolean argument.
- Session tokens, `list_entries`, `generate_password` and `estimate_master_strength` inside a session: reads that would only add easy members.
- Provisioning URIs and their QR form: strings handed to a library.
- AEAD and Argon2 library failures other than the modelled limits: `aead::encrypt` never fails below 256 GiB, and Argon2 is total within the limits checked first.
- A second live session on one application: the worker allows one.
- A response channel whose receiver is gone while the worker runs: the caller owns both ends and drops them together.
- Single clipboard calls that fail while the clipboard is otherwise available; the worker ignores their outcome.
- Sub-second parts of a device's retry time.
- Overflow of the four 32-bit class counters in `validate`, which takes a password of more than four thousand million characters.
- Policy.Generate: a stream of random words that runs out gives `Starved`; a generator that rejects for ever is not represented.
- Records.DecodedIsEncoding: says what an accepted plaintext begins with; the bytes of its padding are not read by the code either.
- VaultModel.ResealedIndexOpens: postcard is assumed to decode what it encoded, not that every accepted index plaintext is such an encoding, so operations that re-encode an index ask that it fits 4 GiB.
- VaultRuns.RunRefinesMap: covers files that stay under 4 GiB, all that the format can describe.
- SessionRuns.RunKeepsSync: covers files under 4 GiB, all that the format can describe.
- Lives.LifeKeeps: asks that granted unlocks were typed with the password in force and that the hardware answers as before, since an abstract AEAD may let a second key open a vault; and that an imported vault which is written also opens, since an import of many duplicate ids could pass through an index of more than 4 GiB. Another program's writes of the vault file are left out of it.
- SessionEvents.MixedAcrossRestarts: asks that session operations run only while a session is open, as the worker ensures.
- WorkerRuns.PairedIff: speaks of both queues at the moment of sending; the caller of the original can inspect neither.
- Surrounding white space of a typed code: the model takes the code as trimmed by the worker.
