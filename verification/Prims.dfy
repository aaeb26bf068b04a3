/**
 * The library code the model does not open: AEAD, HKDF, Argon2id, HMAC and
 * postcard, as arbitrary functions that satisfy `Lawful`. Every theorem holds for
 * every lawful choice; `Toy` shows that there is one.
 */
module Primitives {
  import opened Bytes
  import opened Types
  import ToyCodec

  const TAG_LEN: nat := 16

  datatype Prims_ = Prims(
    sealing: (Key, Nonce, bytes, bytes) -> bytes,
    opening: (Key, Nonce, bytes, bytes) -> Option<bytes>,
    expand: (Key, bytes) -> Key,
    extract: (bytes, bytes, bytes) -> Key,
    argon2: (bytes, Salt, KdfParams) -> Key,
    hmac: (Algorithm, bytes, bytes) -> bytes,
    rowsToBytes: seq<Row> -> bytes,
    rowsFromBytes: bytes -> Option<seq<Row>>,
    policyToBytes: EntryPolicy -> bytes,
    policyFromBytes: bytes -> Option<EntryPolicy>)
  {
    /** AEAD: decrypting inverts encrypting, the tag adds 16 bytes, and only ciphertexts decrypt. */
    ghost predicate LawfulAead() {
      && (forall k: Key, n: Nonce, a: bytes, p: bytes :: opening(k, n, a, sealing(k, n, a, p)) == Some(p))
      && (forall k: Key, n: Nonce, a: bytes, p: bytes :: |sealing(k, n, a, p)| == |p| + TAG_LEN)
      && (forall k: Key, n: Nonce, a: bytes, c: bytes ::
            opening(k, n, a, c).Some? ==> c == sealing(k, n, a, opening(k, n, a, c).value))
    }

    /** postcard: decoding inverts encoding, and fewer rows never take more bytes. */
    ghost predicate LawfulPostcard() {
      && (forall rs: seq<Row> :: rowsFromBytes(rowsToBytes(rs)) == Some(rs))
      && (forall rs: seq<Row>, ss: seq<Row> :: rs <= ss ==> |rowsToBytes(rs)| <= |rowsToBytes(ss)|)
      && (forall p: EntryPolicy :: policyFromBytes(policyToBytes(p)) == Some(p))
    }

    ghost predicate Lawful() {
      && LawfulAead()
      && LawfulPostcard()
      && (forall alg: Algorithm, k: bytes, m: bytes :: |hmac(alg, k, m)| >= 20)
    }
  }

  type Prims = p: Prims_ | p.Lawful() ghost witness (ToyIsLawful(); Toy())

  function ToyOpen(c: bytes): Option<bytes> {
    if |c| >= TAG_LEN && c[|c| - TAG_LEN..] == Zeros(TAG_LEN) then Some(c[..|c| - TAG_LEN]) else None
  }

  ghost function Toy(): Prims_ {
    Prims((k, n, a, p) => p + Zeros(TAG_LEN), (k, n, a, c) => ToyOpen(c),
          (k, i) => k, (s, i, f) => Zeros(32), (p, s, k) => Zeros(32), (g, k, m) => Zeros(20),
          ToyCodec.EncodeRows, ToyCodec.DecodeRows,
          ToyCodec.EncodePolicy, ToyCodec.DecodePolicyBytes)
  }

  lemma ToyIsLawful()
    ensures Toy().Lawful()
  {
    forall rs: seq<Row> ensures ToyCodec.DecodeRows(ToyCodec.EncodeRows(rs)) == Some(rs) {
      ToyCodec.RowsRoundTrip(rs);
    }
    forall rs: seq<Row>, ss: seq<Row> | rs <= ss
      ensures |ToyCodec.EncodeRows(rs)| <= |ToyCodec.EncodeRows(ss)|
    {
      ToyCodec.RowsMonotone(rs, ss);
    }
    forall p: EntryPolicy ensures ToyCodec.DecodePolicyBytes(ToyCodec.EncodePolicy(p)) == Some(p) {
      ToyCodec.PolicyRoundTrip(p, []);
      assert ToyCodec.EncodePolicy(p) + [] == ToyCodec.EncodePolicy(p);
    }
    forall p: bytes ensures ToyOpen(p + Zeros(TAG_LEN)) == Some(p) {
      assert (p + Zeros(TAG_LEN))[|p|..] == Zeros(TAG_LEN);
      assert (p + Zeros(TAG_LEN))[..|p|] == p;
    }
  }
}
