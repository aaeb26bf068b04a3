/** TOTP verification with skew and a replay cache (RFC 6238, sections 4.2 and 5.2). */
module Totp {
  import opened Bytes
  import opened Types
  import opened Primitives
  import opened Hotp

  const MIN_DIGITS: byte := 6
  const MAX_DIGITS: byte := 8

  datatype Config_ = Config(algorithm: Algorithm, digits: byte, period: u64, skewSteps: byte)

  predicate ValidConfig(c: Config_) { MIN_DIGITS <= c.digits <= MAX_DIGITS && c.period > 0 }

  type Config = c: Config_ | ValidConfig(c) witness Config(Sha1, 6, 30, 1)

  function DefaultConfig(): Config { Config(Sha1, 6, 30, 1) }

  datatype TotpError = MalformedCode | Replayed | Rejected

  function CurrentStep(now: u64, period: u64): u64
    requires period > 0
  {
    now / period
  }

  function FirstStep(c: Config, now: u64): u64 { Max(0, CurrentStep(now, c.period) - c.skewSteps) }

  function LastStep(c: Config, now: u64): u64 { Min(U64_MAX, CurrentStep(now, c.period) + c.skewSteps) }

  predicate WellFormedCode(code: bytes, digits: nat) { |code| == digits && AllDigits(code) }

  function CodeAt(P: Prims, c: Config, seed: bytes, step: u64): (code: bytes)
    ensures WellFormedCode(code, c.digits)
  {
    Padded(HotpValue(P, c.algorithm, seed, step, c.digits), c.digits)
  }

  /** The highest step of `lo..=hi` whose code is `code`. */
  function HighestMatch(P: Prims, c: Config, seed: bytes, code: bytes, lo: nat, hi: int): (m: Option<u64>)
    requires hi <= U64_MAX
    ensures m.Some? ==> lo <= m.value <= hi && CodeAt(P, c, seed, m.value) == code
    ensures forall s: u64 :: (if m.Some? then m.value < s else lo <= s) && s <= hi ==> CodeAt(P, c, seed, s) != code
    decreases hi - lo
  {
    if hi < lo then None
    else if CodeAt(P, c, seed, hi) == code then Some(hi)
    else HighestMatch(P, c, seed, code, lo, hi - 1)
  }

  function VerifySpec(P: Prims, c: Config, cache: Option<u64>, seed: bytes, code: bytes, now: u64)
    : (Option<u64>, Result<(), TotpError>)
  {
    if !WellFormedCode(code, c.digits) then (cache, Err(MalformedCode))
    else
      match HighestMatch(P, c, seed, code, FirstStep(c, now), LastStep(c, now))
      case None => (cache, Err(Rejected))
      case Some(step) =>
        if cache.Some? && step <= cache.value then (cache, Err(Replayed)) else (Some(step), Ok(()))
  }

  /** The step is within the skew of the clock's step. */
  predicate InWindow(c: Config, now: u64, step: u64) {
    var skew: int := c.skewSteps;
    CurrentStep(now, c.period) - skew <= step <= CurrentStep(now, c.period) + skew
  }

  predicate Beyond(cache: Option<u64>, step: u64) { cache.None? || cache.value < step }

  /** `verify` accepts exactly the code of some step within the skew and beyond the replay cache. */
  lemma AcceptIff(P: Prims, c: Config, cache: Option<u64>, seed: bytes, code: bytes, now: u64)
    ensures VerifySpec(P, c, cache, seed, code, now).1.Ok? <==>
            exists s: u64 :: InWindow(c, now, s) && Beyond(cache, s) && CodeAt(P, c, seed, s) == code
  {
    hide CodeAt;
    var m := HighestMatch(P, c, seed, code, FirstStep(c, now), LastStep(c, now));
    if WellFormedCode(code, c.digits) && m.Some? {
      assert InWindow(c, now, m.value);
    }
    if s: u64 :| InWindow(c, now, s) && Beyond(cache, s) && CodeAt(P, c, seed, s) == code {
      assert FirstStep(c, now) <= s <= LastStep(c, now);
      assert m.Some? && s <= m.value;
    }
  }

  // ----- The same in seconds and hashes ---------------------------------------------------

  /** The clock is within `skew` periods of the step's own period, in seconds. */
  predicate NearInSeconds(c: Config, now: u64, step: nat) {
    var skew: int := c.skewSteps;
    (step - skew) * c.period <= now < (step + skew + 1) * c.period
  }

  lemma BelowQuotientIff(k: int, n: nat, d: nat)
    requires d > 0
    ensures k <= n / d <==> k * d <= n
  {
    var q := n / d;
    assert n == q * d + n % d;
    if k <= q { MulMono(k, q, d); } else { MulMono(q + 1, k, d); }
    assert (q + 1) * d == q * d + d;
  }

  /** The window counts in whole periods of the clock. */
  lemma InWindowIff(c: Config, now: u64, step: u64)
    ensures InWindow(c, now, step) <==> NearInSeconds(c, now, step)
  {
    var skew: int := c.skewSteps;
    BelowQuotientIff(step - skew, now, c.period);
    BelowQuotientIff(step + skew + 1, now, c.period);
  }

  /** `code` is what the tag of message `m` truncates to, in the configured number of digits. */
  predicate IsCodeOf(P: Prims, c: Config, seed: bytes, m: bytes, code: bytes) {
    && |code| == c.digits && AllDigits(code)
    && Denotes(code) == Truncate(P.hmac(c.algorithm, seed, m)) % Pow10(c.digits)
  }

  /** The code of a step is that of the eight big-endian bytes of the step. */
  lemma CodeAtIff(P: Prims, c: Config, seed: bytes, step: u64, m: bytes, code: bytes)
    requires |m| == 8 && BigEndianValue(m) == step
    ensures CodeAt(P, c, seed, step) == code <==> IsCodeOf(P, c, seed, m, code)
  {
    BigEndianIff(step, m);
    var v := HotpValue(P, c.algorithm, seed, step, c.digits);
    DenotesPadded(v, c.digits);
    if IsCodeOf(P, c, seed, m, code) {
      PaddedDenotes(code);
    }
  }

  /** `code` is that of the eight-byte counter `m`, near the clock and beyond the cache. */
  predicate TakenAt(P: Prims, c: Config, cache: Option<u64>, seed: bytes, code: bytes, now: u64, m: bytes) {
    && |m| == 8 && NearInSeconds(c, now, BigEndianValue(m))
    && (cache.Some? ==> cache.value < BigEndianValue(m)) && IsCodeOf(P, c, seed, m, code)
  }

  /** Verification accepts exactly the code of some such counter. */
  lemma AcceptsCodeIff(P: Prims, c: Config, cache: Option<u64>, seed: bytes, code: bytes, now: u64)
    ensures VerifySpec(P, c, cache, seed, code, now).1.Ok? <==>
            exists m: bytes :: TakenAt(P, c, cache, seed, code, now, m)
  {
    hide CodeAt, VerifySpec, IsCodeOf, NearInSeconds, InWindow;
    AcceptIff(P, c, cache, seed, code, now);
    if s: u64 :| InWindow(c, now, s) && Beyond(cache, s) && CodeAt(P, c, seed, s) == code {
      var m := BigEndian(s);
      BigEndianIff(s, m);
      InWindowIff(c, now, s);
      CodeAtIff(P, c, seed, s, m, code);
      assert TakenAt(P, c, cache, seed, code, now, m);
    }
    if m: bytes :| TakenAt(P, c, cache, seed, code, now, m) {
      ValueIsU64(m);
      var s: u64 := BigEndianValue(m);
      InWindowIff(c, now, s);
      CodeAtIff(P, c, seed, s, m, code);
    }
  }

  /** Which refusal: not digits, the code of an accepted or older step, or no code of the window at all. */
  lemma VerdictIs(P: Prims, c: Config, cache: Option<u64>, seed: bytes, code: bytes, now: u64)
    ensures var (after, r) := VerifySpec(P, c, cache, seed, code, now);
            if !(|code| == c.digits && AllDigits(code)) then r == Err(MalformedCode)
            else if exists m: bytes :: TakenAt(P, c, cache, seed, code, now, m) then r == Ok(())
            else if exists m: bytes :: TakenAt(P, c, None, seed, code, now, m) then r == Err(Replayed)
            else r == Err(Rejected)
  {
    hide CodeAt, TakenAt, InWindow;
    AcceptsCodeIff(P, c, cache, seed, code, now);
    AcceptsCodeIff(P, c, None, seed, code, now);
    if VerifySpec(P, c, cache, seed, code, now).1.Ok? { AcceptsDigits(P, c, cache, seed, code, now); }
  }

  lemma AcceptsDigits(P: Prims, c: Config, cache: Option<u64>, seed: bytes, code: bytes, now: u64)
    requires VerifySpec(P, c, cache, seed, code, now).1.Ok?
    ensures |code| == c.digits && AllDigits(code)
  {
    hide CodeAt;
  }

  lemma ValueIsU64(m: bytes)
    requires |m| == 8
    ensures BigEndianValue(m) <= U64_MAX
  {
    Widths();
    ReversedTwice(m);
    ReversedValue(Reversed(m));
  }

  /** The code of `m` under the defaults. */
  predicate DefaultCode(P: Prims, seed: bytes, code: bytes, now: u64, m: bytes) {
    && |m| == 8 && (BigEndianValue(m) - 1) * 30 <= now < (BigEndianValue(m) + 2) * 30
    && |code| == 6 && AllDigits(code) && Denotes(code) == Truncate(P.hmac(Sha1, seed, m)) % 1_000_000
  }

  /** Before it is configured, a process takes six-digit SHA-1 codes of thirty seconds, a step early or late. */
  lemma DefaultCodes(P: Prims, seed: bytes, code: bytes, now: u64)
    ensures VerifySpec(P, DefaultConfig(), None, seed, code, now).1.Ok? <==>
            exists m: bytes :: DefaultCode(P, seed, code, now, m)
  {
    hide VerifySpec, Truncate;
    Widths10();
    AcceptsCodeIff(P, DefaultConfig(), None, seed, code, now);
    forall m: bytes
      ensures TakenAt(P, DefaultConfig(), None, seed, code, now, m) <==> DefaultCode(P, seed, code, now, m) {}
  }

  /** Acceptance moves the cache to the highest matching step; rejection leaves it alone. */
  lemma CacheAfter(P: Prims, c: Config, cache: Option<u64>, seed: bytes, code: bytes, now: u64)
    ensures var (after, r) := VerifySpec(P, c, cache, seed, code, now);
            && (r.Err? ==> after == cache)
            && (r.Ok? ==>
                  && after.Some? && Beyond(cache, after.value) && InWindow(c, now, after.value)
                  && CodeAt(P, c, seed, after.value) == code
                  && forall s: u64 :: InWindow(c, now, s) && CodeAt(P, c, seed, s) == code ==> s <= after.value)
  {
    hide CodeAt;
    forall s: u64 | InWindow(c, now, s) ensures FirstStep(c, now) <= s <= LastStep(c, now) {}
  }

  class TotpVerifier {
    const P: Prims
    const config: Config
    var lastAcceptedStep: Option<u64>

    constructor (P: Prims, config: Config)
      ensures this.P == P && this.config == config && lastAcceptedStep == None
    {
      this.P, this.config, lastAcceptedStep := P, config, None;
    }

    method Verify(seed: bytes, code: bytes, now: u64) returns (r: Result<(), TotpError>)
      modifies this
      ensures (lastAcceptedStep, r) == VerifySpec(P, config, old(lastAcceptedStep), seed, code, now)
    {
      hide CodeAt, Padded, HotpValue;
      if !WellFormedCode(code, config.digits) { return Err(MalformedCode); }
      var first: nat, last: nat := FirstStep(config, now), LastStep(config, now);
      var expected := new byte[config.digits];
      var matched: Option<u64> := None;
      var step: nat := first;
      while step <= last
        invariant first <= step <= last + 1 && lastAcceptedStep == old(lastAcceptedStep)
        invariant matched == HighestMatch(P, config, seed, code, first, step - 1)
      {
        FormatPadded(HotpValue(P, config.algorithm, seed, step, config.digits), expected);
        CodeAtIs(P, config, seed, step);
        if expected[..] == code { matched := Some(step); }
        step := step + 1;
      }
      if matched.None? { return Err(Rejected); }
      if lastAcceptedStep.Some? && matched.value <= lastAcceptedStep.value { return Err(Replayed); }
      lastAcceptedStep := matched;
      return Ok(());
    }
  }

  lemma CodeAtIs(P: Prims, c: Config, seed: bytes, step: u64)
    ensures CodeAt(P, c, seed, step) == Padded(HotpValue(P, c.algorithm, seed, step, c.digits), c.digits)
  {
  }
}
