/** Values shared by the crates: keys, ids, policies, index rows, KDF parameters. */
module Types {
  import opened Bytes

  type Key = k: bytes | |k| == 32 witness Zeros(32)
  type Salt = k: bytes | |k| == 32 witness Zeros(32)
  type Nonce = k: bytes | |k| == 24 witness Zeros(24)
  type Id = k: bytes | |k| == 16 witness Zeros(16)

  datatype KdfParams = KdfParams(mKib: u32, t: u32, p: byte)

  /** `BTreeSet<char>`, as the strictly increasing sequence it iterates over. */
  predicate StrictlyIncreasing(s: seq<char>) { forall i, j :: 0 <= i < j < |s| ==> s[i] < s[j] }

  type CharSet = s: seq<char> | StrictlyIncreasing(s) witness []

  datatype SymbolSet = NoSymbols | Basic | Full | Custom(set_: CharSet)

  datatype Charset = Charset(lowercase: bool, uppercase: bool, digits: bool,
                             symbols: SymbolSet, disallow: CharSet)

  datatype RequiredClasses = RequiredClasses(minLowercase: byte, minUppercase: byte,
                                             minDigits: byte, minSymbols: byte)

  datatype EntryPolicy = EntryPolicy(length: Option<u16>, charset: Option<Charset>,
                                     classes: Option<RequiredClasses>, userNote: Option<Text>)

  /** An element of one of the two parallel lists of a vault, found by its id. */
  datatype Keyed<+V> = Keyed(id: Id, body: V)

  datatype RowBody = RowBody(name: Text, policy: EntryPolicy)

  /** One row of the sealed index: id, label and policy. */
  type Row = Keyed<RowBody>

  datatype Algorithm = Sha1 | Sha256 | Sha512
}
