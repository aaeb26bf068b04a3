/**
 * Whole lives of the application as runs of its events: unlock attempts, sessions, restarts,
 * and creating and importing vaults, in any mix.
 */
module SessionEvents {
  import opened Bytes
  import opened Types
  import opened Errors
  import opened Primitives
  import opened VaultModel
  import opened VaultCodec
  import opened Kdf
  import opened Totp
  import opened Storage
  import opened RecoveryModel
  import opened Rebuild
  import opened App
  import opened AppModel
  import opened AppRuns
  import opened SessionModel

  /**
   * A step at the application, an operation of the session it last granted, or a new vault.
   * Moves come in any order, also where the program would have closed the session first.
   */
  datatype Move =
    | Outside(e: Event)
    | Within(op: Op)
    | CreateNew(password: Text, kdf: KdfParams, config: Config, enrolment: Enrolment)
    | ImportBackup(backup: bytes, password: Text, kdf: KdfParams, config: Config, enrolment: Enrolment)

  predicate IsNew(m: Move) { m.CreateNew? || m.ImportBackup? }

  /** The result of creating or importing. */
  ghost function Made(P: Prims, allowed: bool, a: AppData, m: Move): (AppData, Result<Session, Error>)
    requires IsNew(m)
  {
    if m.CreateNew? then CreateVaultSpec(P, allowed, a, m.password, m.kdf, m.config, m.enrolment)
    else ImportSpec(P, allowed, a, m.backup, m.password, m.kdf, m.config, m.enrolment)
  }

  /** The session after a step at the application: a new one if an unlock granted it. */
  ghost function SessionAfter(P: Prims, allowed: bool, x: Live, e: Event): Session {
    if !e.TryUnlock? then x.s
    else
      match UnlockSpec(P, allowed, x.app, e.q).1
      case Ok(s) => s
      case Err(_) => x.s
  }

  ghost function Renewed(P: Prims, allowed: bool, x: Live, m: Move): Live
    requires IsNew(m)
  {
    var (b, r) := Made(P, allowed, x.app, m);
    Live(b, if r.Ok? then r.value else x.s)
  }

  ghost function Moved(P: Prims, allowed: bool, x: Live, m: Move): Live {
    match m
    case Outside(e) => Live(Next(P, allowed, x.app, e), SessionAfter(P, allowed, x, e))
    case Within(op) => Apply(P, x, op).0
    case _ => Renewed(P, allowed, x, m)
  }

  ghost function MovedAll(P: Prims, allowed: bool, x: Live, ms: seq<Move>): Live
    decreases |ms|
  {
    if ms == [] then x else MovedAll(P, allowed, Moved(P, allowed, x, ms[0]), ms[1..])
  }

  /** The code check an operation makes: its confirmation, or the re-authentication of an export. */
  function CodeChecks(x: Live, op: Op): seq<Event> {
    if Expired(x, op) then []
    else if op.Confirm? then [CheckCode(x.s.seed, op.code, op.codeNow)]
    else if op.Export? && op.strong && LoadVault(x.app.file).Ok? then
      match UnwrapCores(LoadVault(x.app.file).value, op.key, op.seed)
      case Err(_) => []
      case Ok((_, seed)) => [CheckCode(seed, op.code, op.codeNow)]
    else []
  }

  /** The vault that creating or importing builds, if every step before the write goes through. */
  ghost function Built(P: Prims, allowed: bool, m: Move): Result<Restored, Error>
    requires IsNew(m)
  {
    var e := m.enrolment;
    if !allowed then Err(BackendRefused)
    else if m.CreateNew? then
      if !e.keyEnrolled || !e.seedEnrolled then Err(Hsm) else BuildNew(P, m.password, m.kdf, e)
    else
      var _ :- ImportFile(P, m.backup, m.password, e.importAvailable);
      if !e.keyEnrolled || !e.seedEnrolled then Err(Hsm)
      else Restore(P, m.backup, m.password, m.kdf, e.importAvailable, e.available, e.now, e.minted)
  }

  /** Creating or importing puts a new vault file in place. */
  ghost predicate Writes(P: Prims, allowed: bool, m: Move)
    requires IsNew(m)
  {
    var r := Built(P, allowed, m);
    r.Ok? && Succeeds(m.enrolment.faults, Serialize(r.value.vault))
  }

  ghost function NewEvents(P: Prims, allowed: bool, m: Move): seq<Event>
    requires IsNew(m)
  {
    if Writes(P, allowed, m) then
      [Replace(Some(Serialize(Built(P, allowed, m).value.vault))), Reconfigure(m.config)]
    else []
  }

  /** An operation is its code checks, followed by whatever it writes; a new vault is a write and a configuration. */
  ghost function EventsOf(P: Prims, allowed: bool, x: Live, m: Move): seq<Event> {
    match m
    case Outside(e) => [e]
    case Within(op) => CodeChecks(x, op) + [Replace(Apply(P, x, op).0.app.file)]
    case _ => NewEvents(P, allowed, m)
  }

  ghost function AllEvents(P: Prims, allowed: bool, x: Live, ms: seq<Move>): seq<Event>
    decreases |ms|
  {
    if ms == [] then []
    else EventsOf(P, allowed, x, ms[0]) + AllEvents(P, allowed, Moved(P, allowed, x, ms[0]), ms[1..])
  }

  ghost function After(P: Prims, allowed: bool, a: AppData, es: seq<Event>): AppData
    decreases |es|
  {
    if es == [] then a else After(P, allowed, Next(P, allowed, a, es[0]), es[1..])
  }

  lemma {:induction false} AfterConcat(P: Prims, allowed: bool, a: AppData, es: seq<Event>, fs: seq<Event>)
    ensures After(P, allowed, a, es + fs) == After(P, allowed, After(P, allowed, a, es), fs)
    decreases |es|
  {
    hide Next;
    if es == [] {
      assert es + fs == fs;
    } else {
      AfterConcat(P, allowed, Next(P, allowed, a, es[0]), es[1..], fs);
      assert (es + fs)[1..] == es[1..] + fs;
    }
  }

  /** Both logged runs go through the same states. */
  lemma {:induction false} LoggedRuns(P: Prims, allowed: bool, a: AppData, failures: seq<i64>, accepted: seq<u64>,
                                      es: seq<Event>)
    ensures RunFailures(P, allowed, a, failures, es).0 == After(P, allowed, a, es)
    ensures RunAccepted(P, allowed, a, accepted, es).0 == After(P, allowed, a, es)
    decreases |es|
  {
    hide Next, Failures, Accepted;
    if es != [] {
      LoggedRuns(P, allowed, Next(P, allowed, a, es[0]), Failures(P, allowed, a, failures, es[0]),
                 Accepted(P, allowed, a, accepted, es[0]), es[1..]);
    }
  }

  lemma EditTouches(P: Prims, x: Live, op: Op)
    requires !op.Confirm? && !op.Export?
    ensures var y := Apply(P, x, op).0; y.app == x.app.(file := y.app.file)
  {
    hide LoadVault, AddOrUpdate, VaultModel.Remove, OpenIndex, Rekeyed, ReadRecord, FieldOf, ExportSpec, ConfirmSpec,
         Succeeds;
  }

  lemma ExportTouches(P: Prims, allowed: bool, x: Live, op: Op)
    requires op.Export?
    ensures var y := Apply(P, x, op).0;
            y.app == After(P, allowed, x.app, CodeChecks(x, op)).(file := y.app.file)
  {
    hide VerifyTotp, LoadVault, Exported, UnwrapCores, UnlockSpec, Succeeds, Upsert, UpdateSpec, RemoveSpec, RevealSpec,
         CopySpec, ConfirmSpec, ChangeSpec;
    if CodeChecks(x, op) != [] {
      OneCheck(P, allowed, x.app, CodeChecks(x, op)[0]);
    }
  }

  lemma ConfirmTouches(P: Prims, allowed: bool, x: Live, op: Op)
    requires op.Confirm?
    ensures Apply(P, x, op).0.app == After(P, allowed, x.app, CodeChecks(x, op))
  {
    hide VerifyTotp, UnlockSpec, Upsert, UpdateSpec, RemoveSpec, RevealSpec, CopySpec, ChangeSpec, ExportSpec;
    OneCheck(P, allowed, x.app, CheckCode(x.s.seed, op.code, op.codeNow));
  }

  /** Only a code check touches the verifier, and nothing in a session touches the throttle state. */
  lemma OpTouches(P: Prims, allowed: bool, x: Live, op: Op)
    ensures var y := Apply(P, x, op).0;
            y.app == After(P, allowed, x.app, CodeChecks(x, op)).(file := y.app.file)
  {
    hide Apply, Next;
    if op.Confirm? {
      ConfirmTouches(P, allowed, x, op);
    } else if op.Export? {
      ExportTouches(P, allowed, x, op);
    } else {
      EditTouches(P, x, op);
    }
  }

  lemma OneCheck(P: Prims, allowed: bool, a: AppData, e: Event)
    ensures After(P, allowed, a, [e]) == Next(P, allowed, a, e)
  {
    hide Next;
    assert [e][1..] == [];
  }

  /** A new vault goes through one provisioning step. */
  lemma NewIsProvisioned(P: Prims, allowed: bool, a: AppData, m: Move)
    requires IsNew(m)
    ensures Made(P, allowed, a, m) == Provisioned(P, a, Built(P, allowed, m), m.config, m.enrolment)
  {
    hide ImportFile, Restore, BuildNew, OpenIndex, Serialize, Succeeds, SetTotpConfig;
  }

  lemma ProvisionedLeaves(P: Prims, a: AppData, r: Restored, config: Config, e: Enrolment)
    ensures var b := Provisioned(P, a, Result.Ok(r), config, e).0;
            b == if Succeeds(e.faults, Serialize(r.vault)) then
                   SetTotpConfig(a.(file := Some(Serialize(r.vault))), config)
                 else a
  {
    hide OpenIndex, Serialize, Succeeds, SetTotpConfig;
  }

  lemma NewIsEvents(P: Prims, allowed: bool, a: AppData, m: Move)
    requires IsNew(m)
    ensures Made(P, allowed, a, m).0 == After(P, allowed, a, NewEvents(P, allowed, m))
  {
    hide Made, Built, Serialize, Succeeds, Provisioned, After, Next, SetTotpConfig;
    NewIsProvisioned(P, allowed, a, m);
    var built := Built(P, allowed, m);
    AfterNothing(P, allowed, a);
    if built.Ok? {
      ProvisionedLeaves(P, a, built.value, m.config, m.enrolment);
      WriteThenConfigure(P, allowed, a, Some(Serialize(built.value.vault)), m.config);
    } else {
      FailedProvision(P, a, built.error, m.config, m.enrolment);
    }
  }

  lemma FailedProvision(P: Prims, a: AppData, err: Error, config: Config, e: Enrolment)
    ensures Provisioned(P, a, Result.Err(err), config, e) == (a, Result.Err(err))
  {
  }

  lemma AfterNothing(P: Prims, allowed: bool, a: AppData)
    ensures After(P, allowed, a, []) == a
  {
  }

  lemma WriteThenConfigure(P: Prims, allowed: bool, a: AppData, file: Option<bytes>, config: Config)
    ensures After(P, allowed, a, [Replace(file), Reconfigure(config)]) == SetTotpConfig(a.(file := file), config)
  {
    hide UnlockSpec, VerifyTotp, SetTotpConfig, After;
    OneCheck(P, allowed, a, Replace(file));
    OneCheck(P, allowed, a.(file := file), Reconfigure(config));
    assert [Replace(file), Reconfigure(config)] == [Replace(file)] + [Reconfigure(config)];
    AfterConcat(P, allowed, a, [Replace(file)], [Reconfigure(config)]);
  }

  /** Each move takes the application through exactly its events. */
  lemma MoveIsEvents(P: Prims, allowed: bool, x: Live, m: Move)
    ensures Moved(P, allowed, x, m).app == After(P, allowed, x.app, EventsOf(P, allowed, x, m))
  {
    hide Apply, CodeChecks, SessionAfter, Made, NewEvents, After, Next;
    match m
    case Outside(e) => OneCheck(P, allowed, x.app, e);
    case Within(op) => OpIsEvents(P, allowed, x, op);
    case _ => NewIsEvents(P, allowed, x.app, m);
  }

  lemma OpIsEvents(P: Prims, allowed: bool, x: Live, op: Op)
    ensures var y := Apply(P, x, op).0;
            y.app == After(P, allowed, x.app, CodeChecks(x, op) + [Replace(y.app.file)])
  {
    hide Apply, CodeChecks, After, UnlockSpec, VerifyTotp;
    OpTouches(P, allowed, x, op);
    var write := Replace(Apply(P, x, op).0.app.file);
    AfterConcat(P, allowed, x.app, CodeChecks(x, op), [write]);
    OneCheck(P, allowed, After(P, allowed, x.app, CodeChecks(x, op)), write);
  }

  /** A confirmation answers yes exactly when its event accepts a step. */
  lemma ConfirmIsAccepted(P: Prims, allowed: bool, x: Live, op: Op)
    requires op.Confirm?
    ensures var e := CheckCode(x.s.seed, op.code, op.codeNow);
            CodeChecks(x, op) == [e]
            && Apply(P, x, op).1 == Result.Ok(Valid(AcceptedStep(P, allowed, x.app, e).Some?))
  {
    hide VerifySpec, UnlockSpec, Upsert, UpdateSpec, RemoveSpec, RevealSpec, CopySpec, ChangeSpec, ExportSpec;
    var v := Verifier(x.app);
    CacheAfter(P, v.config, v.cache, x.s.seed, op.code, op.codeNow);
  }

  /** An export that returns a file has had its code accepted, and without that it is refused. */
  lemma ExportIsAccepted(P: Prims, allowed: bool, x: Live, op: Op)
    requires op.Export?
    ensures Apply(P, x, op).1.Ok? ==> |CodeChecks(x, op)| == 1
    ensures |CodeChecks(x, op)| == 1 && AcceptedStep(P, allowed, x.app, CodeChecks(x, op)[0]).None? ==>
              Apply(P, x, op).1 == Result.Err(AeadAuth)
  {
    hide VerifySpec, UnlockSpec, Upsert, UpdateSpec, RemoveSpec, RevealSpec, CopySpec, ChangeSpec, ConfirmSpec,
         LoadVault, DeriveMaster, VerifyProbe, Backup, Serialize, Succeeds;
    if CodeChecks(x, op) != [] {
      var e := CodeChecks(x, op)[0];
      var v := Verifier(x.app);
      CacheAfter(P, v.config, v.cache, e.seed, e.code, e.now);
    }
  }

  lemma {:induction false} MovesAreEvents(P: Prims, allowed: bool, x: Live, ms: seq<Move>)
    ensures MovedAll(P, allowed, x, ms).app == After(P, allowed, x.app, AllEvents(P, allowed, x, ms))
    decreases |ms|
  {
    hide Moved, EventsOf;
    if ms != [] {
      var y := Moved(P, allowed, x, ms[0]);
      MoveIsEvents(P, allowed, x, ms[0]);
      MovesAreEvents(P, allowed, y, ms[1..]);
      AfterConcat(P, allowed, x.app, EventsOf(P, allowed, x, ms[0]), AllEvents(P, allowed, y, ms[1..]));
    }
  }

  /** Over any mix of attempts and operations, accepted steps strictly increase until the verifier is replaced. */
  lemma MixedReplayFree(P: Prims, allowed: bool, x: Live, ms: seq<Move>)
    ensures var (b, steps) := RunAccepted(P, allowed, x.app, [], AllEvents(P, allowed, x, ms));
            b == MovedAll(P, allowed, x, ms).app && Increasing(steps) && CacheIsLast(b, steps)
  {
    hide MovedAll, AllEvents, After, RunAccepted;
    MovesAreEvents(P, allowed, x, ms);
    LoggedRuns(P, allowed, x.app, [], [], AllEvents(P, allowed, x, ms));
    ReplayFree(P, allowed, x.app, [], AllEvents(P, allowed, x, ms));
  }

  /** No restart, and every unlock attempt reads a positive clock. */
  predicate PlainMoves(ms: seq<Move>) {
    forall i :: 0 <= i < |ms| && ms[i].Outside? ==>
      !ms[i].e.Restart? && (ms[i].e.TryUnlock? ==> ms[i].e.q.now > 0)
  }

  lemma {:induction false} PlainEvents(P: Prims, allowed: bool, x: Live, ms: seq<Move>)
    requires PlainMoves(ms)
    ensures ClocksPositive(AllEvents(P, allowed, x, ms)) && NoRestart(AllEvents(P, allowed, x, ms))
    decreases |ms|
  {
    hide Moved, Apply, EventsOf, ClocksPositive, NoRestart;
    if ms == [] {
      NoEvents();
    } else {
      var y := Moved(P, allowed, x, ms[0]);
      PlainMove(P, allowed, x, ms[0]);
      PlainEvents(P, allowed, y, ms[1..]);
      PlainConcat(EventsOf(P, allowed, x, ms[0]), AllEvents(P, allowed, y, ms[1..]));
    }
  }

  lemma NoEvents()
    ensures ClocksPositive([]) && NoRestart([])
  {
  }

  lemma PlainMove(P: Prims, allowed: bool, x: Live, m: Move)
    requires PlainMoves([m])
    ensures ClocksPositive(EventsOf(P, allowed, x, m)) && NoRestart(EventsOf(P, allowed, x, m))
  {
    assert [m][0] == m;
    hide Apply, CodeChecks, NewEvents, ClocksPositive, NoRestart;
    if m.Outside? {
      PlainEvent(m.e);
    } else if m.Within? {
      PlainChecks(x, m.op);
      PlainEvent(Replace(Apply(P, x, m.op).0.app.file));
      PlainConcat(CodeChecks(x, m.op), [Replace(Apply(P, x, m.op).0.app.file)]);
    } else {
      PlainNew(P, allowed, m);
    }
  }

  lemma PlainEvent(e: Event)
    requires !e.Restart? && (e.TryUnlock? ==> e.q.now > 0)
    ensures ClocksPositive([e]) && NoRestart([e])
  {
  }

  lemma PlainChecks(x: Live, op: Op)
    ensures ClocksPositive(CodeChecks(x, op)) && NoRestart(CodeChecks(x, op))
  {
    hide LoadVault, UnwrapCores;
  }

  lemma PlainNew(P: Prims, allowed: bool, m: Move)
    requires IsNew(m)
    ensures ClocksPositive(NewEvents(P, allowed, m)) && NoRestart(NewEvents(P, allowed, m))
  {
    hide Writes, Built, Serialize;
  }

  lemma PlainConcat(es: seq<Event>, fs: seq<Event>)
    requires ClocksPositive(es) && NoRestart(es) && ClocksPositive(fs) && NoRestart(fs)
    ensures ClocksPositive(es + fs) && NoRestart(es + fs)
  {
  }

  /**
   * Over any such mix within one process the lockout schedule holds, whatever the operations
   * write and whichever writes fail.
   */
  lemma MixedSchedule(P: Prims, allowed: bool, x: Live, ms: seq<Move>)
    requires PlainMoves(ms)
    ensures var (b, stamps) := RunFailures(P, allowed, x.app, [], AllEvents(P, allowed, x, ms));
            b == MovedAll(P, allowed, x, ms).app && Scheduled(stamps) && Remembers(b.mem, stamps)
  {
    hide MovedAll, AllEvents, After, RunFailures, Scheduled, Positive, Remembers, ClocksPositive, NoRestart;
    MovesAreEvents(P, allowed, x, ms);
    PlainEvents(P, allowed, x, ms);
    LoggedRuns(P, allowed, x.app, [], [], AllEvents(P, allowed, x, ms));
    NothingRemembered(x.app.mem);
    InProcessSchedule(P, allowed, x.app, [], AllEvents(P, allowed, x, ms));
  }

  // ----- The throttle across processes and sessions --------------------------------------------

  /** The stamps of the failures since the last success, against the vault now in place. */
  ghost function FailureLog(P: Prims, allowed: bool, x: Live, log: seq<i64>, m: Move): seq<i64> {
    match m
    case Outside(e) => Failures(P, allowed, x.app, log, e)
    case Within(_) => log
    case _ => if Writes(P, allowed, m) then [] else log
  }

  ghost function RunLog(P: Prims, allowed: bool, x: Live, log: seq<i64>, ms: seq<Move>): (Live, seq<i64>)
    decreases |ms|
  {
    if ms == [] then (x, log)
    else RunLog(P, allowed, Moved(P, allowed, x, ms[0]), FailureLog(P, allowed, x, log, ms[0]), ms[1..])
  }

  /** Whether the last step leaves a session open. */
  ghost function OpenAfter(P: Prims, allowed: bool, x: Live, open: bool, m: Move): bool {
    match m
    case Outside(e) =>
      if e.TryUnlock? then UnlockSpec(P, allowed, x.app, e.q).1.Ok? else if e.Restart? then false else open
    case Within(_) => open
    case _ => Made(P, allowed, x.app, m).1.Ok?
  }

  /** Session operations run in an open session only; clocks are positive, and no write of the record is lost. */
  ghost predicate Orderly(P: Prims, allowed: bool, x: Live, open: bool, ms: seq<Move>)
    decreases |ms|
  {
    ms == [] ||
    (&& StepOrderly(x, open, ms[0])
     && Orderly(P, allowed, Moved(P, allowed, x, ms[0]), OpenAfter(P, allowed, x, open, ms[0]), ms[1..]))
  }

  ghost predicate StepOrderly(x: Live, open: bool, m: Move) {
    && (m.Within? ==> open)
    && (m.Outside? ==>
          && (m.e.TryUnlock? ==> m.e.q.now > 0)
          && (m.e.TryUnlock? && LoadVault(x.app.file).Ok? ==> WriteLands(LoadVault(x.app.file).value, m.e.q))
          && (m.e.Replace? ==> KeepsRecord(x.app, m.e.file)))
  }

  /** All failures since the last success are in the file, and none are while a session is open. */
  predicate Recorded(x: Live, open: bool, log: seq<i64>) {
    (log != [] ==> OnDisk(x.app, log)) && (open ==> log == [])
  }

  /**
   * Across any number of processes and sessions the schedule holds: restarts forget nothing,
   * and what session operations write in between, password changes included, loses nothing.
   */
  lemma {:induction false} MixedAcrossRestarts(P: Prims, allowed: bool, x: Live, open: bool, log: seq<i64>,
                                               ms: seq<Move>)
    requires Orderly(P, allowed, x, open, ms)
    requires Scheduled(log) && Positive(log) && Recorded(x, open, log)
    ensures var (y, log') := RunLog(P, allowed, x, log, ms);
            y == MovedAll(P, allowed, x, ms) && Scheduled(log') && (log' != [] ==> OnDisk(y.app, log'))
    decreases |ms|
  {
    hide Scheduled, Positive, OnDisk, Moved, FailureLog, OpenAfter, StepOrderly;
    if ms != [] {
      MoveKeepsRecord(P, allowed, x, open, log, ms[0]);
      MixedAcrossRestarts(P, allowed, Moved(P, allowed, x, ms[0]), OpenAfter(P, allowed, x, open, ms[0]),
                          FailureLog(P, allowed, x, log, ms[0]), ms[1..]);
    }
  }

  lemma MoveKeepsRecord(P: Prims, allowed: bool, x: Live, open: bool, log: seq<i64>, m: Move)
    requires StepOrderly(x, open, m)
    requires Scheduled(log) && Positive(log) && Recorded(x, open, log)
    ensures var log' := FailureLog(P, allowed, x, log, m);
            && Scheduled(log') && Positive(log')
            && Recorded(Moved(P, allowed, x, m), OpenAfter(P, allowed, x, open, m), log')
  {
    hide Scheduled, Positive, OnDisk, UnlockSpec, Apply, Next, Made, WriteLands, KeepsRecord, LoadVault, Failures,
         Writes;
    NothingRemembered(x.app.mem);
    match m
    case Outside(e) => EventKeepsRecord(P, allowed, x.app, log, e);
    case Within(_) =>
    case _ => NewWrites(P, allowed, x.app, m);
  }

  lemma NewWrites(P: Prims, allowed: bool, a: AppData, m: Move)
    requires IsNew(m)
    ensures Made(P, allowed, a, m).1.Ok? ==> Writes(P, allowed, m)
    ensures !Writes(P, allowed, m) ==> Made(P, allowed, a, m).0 == a
  {
    hide Made, Built, Serialize, OpenIndex, Succeeds;
    NewIsProvisioned(P, allowed, a, m);
  }

  lemma EventKeepsRecord(P: Prims, allowed: bool, a: AppData, log: seq<i64>, e: Event)
    requires Scheduled(log) && Positive(log) && (log != [] ==> OnDisk(a, log))
    requires e.TryUnlock? ==> e.q.now > 0
    requires e.TryUnlock? && LoadVault(a.file).Ok? ==> WriteLands(LoadVault(a.file).value, e.q)
    requires e.Replace? ==> KeepsRecord(a, e.file)
    ensures var b, log' := Next(P, allowed, a, e), Failures(P, allowed, a, log, e);
            && Scheduled(log') && Positive(log') && (log' != [] ==> OnDisk(b, log'))
            && (!e.TryUnlock? ==> log' == log)
            && (e.TryUnlock? && UnlockSpec(P, allowed, a, e.q).1.Ok? ==> log' == [])
  {
    hide Scheduled, Positive, UnlockSpec, WriteLands, Grantable, KeepsRecord, LoadVault, Remembers, VerifyTotp, Refusal,
         UnwrapBoth, Judge, Next;
    if e.TryUnlock? { GrantedIff(P, allowed, a, e.q); }
    if LoadVault(a.file).Ok? {
      if log == [] { NewlyOnDisk(a); }
      StepOnDisk(P, allowed, a, log, e);
    }
  }

  lemma NewlyOnDisk(a: AppData)
    requires LoadVault(a.file).Ok?
    ensures OnDisk(a, [])
  {
    hide LoadVault;
  }
}
