/** Argon2id cost parameters, their limits and the two master-key derivations. */
module Kdf {
  import opened Bytes
  import opened Errors
  import opened Types
  import opened Primitives

  const MAX_M_KIB: nat := 8 * 1024 * 1024
  const MAX_T: nat := 24
  const MAX_P: nat := 16

  /** Structural minimums and the resource ceiling. */
  predicate WithinLimits(k: KdfParams) {
    && 1 <= k.p <= MAX_P && 1 <= k.t <= MAX_T
    && k.mKib <= MAX_M_KIB && k.mKib >= Min(8 * k.p, U32_MAX)
  }

  predicate MemoryCostFits(mKib: u32, availableKib: u64) { mKib <= availableKib / 5 * 4 }

  predicate Derivable(k: KdfParams, available: Option<u64>) {
    WithinLimits(k) && (available.Some? ==> MemoryCostFits(k.mKib, available.value))
  }

  /** `argon2id_within_memory` */
  function Argon2id(P: Prims, password: Text, salt: Salt, k: KdfParams, available: Option<u64>): Result<Key, Error> {
    if !Derivable(k, available) then Err(Error.Kdf) else Ok(P.argon2(password, salt, k))
  }

  function MasterInfo(): bytes { Ascii("passman-master-v0") }

  function RecoveryInfo(): bytes { Ascii("recovery-export-v0") }

  /** `K_master = HKDF(salt, K_pw | K_hsm)` */
  function DeriveMaster(P: Prims, password: Text, salt: Salt, k: KdfParams, kHsm: bytes,
                        available: Option<u64>): Result<Key, Error> {
    if |kHsm| != 32 then Err(MalformedBlob)
    else
      var kPw :- Argon2id(P, password, salt, k, available);
      Ok(P.extract(salt, kPw + kHsm, MasterInfo()))
  }

  function DeriveRecoveryKey(P: Prims, password: Text, salt: Salt, k: KdfParams,
                             available: Option<u64>): Result<Key, Error> {
    var kPw :- Argon2id(P, password, salt, k, available);
    Ok(P.extract(salt, kPw, RecoveryInfo()))
  }

  // ----- Recovery presets --------------------------------------------------------------

  datatype RecoveryPreset = Floor | Default | Paranoid

  function PresetParams(p: RecoveryPreset): KdfParams {
    match p
    case Floor => KdfParams(1_048_576, 4, 1)
    case Default => KdfParams(4_194_304, 8, 1)
    case Paranoid => KdfParams(8_388_608, 12, 1)
  }

  predicate MeetsFloor(k: KdfParams) {
    var floor := PresetParams(Floor);
    k.mKib >= floor.mKib && k.t >= floor.t && k.p >= floor.p
  }

  /** Every preset passes both the export floor and the import ceiling. */
  lemma PresetsAdmitted(p: RecoveryPreset)
    ensures MeetsFloor(PresetParams(p)) && WithinLimits(PresetParams(p))
  {
  }
}
