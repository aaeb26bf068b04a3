/** Runs from the start of the worker that show what its protocol does not promise, whatever fact is drawn. */
module WorkerTraces {
  import opened Bytes
  import opened WorkerModel
  import opened WorkerRuns

  /** Take the mutex, drain an empty queue and send. */
  function Sending(r: Request): seq<Label> { [Begin(r)] + ([DrainDone] + ([Send] + [])) }

  /** One call whose request is handled and answered before anything else happens. */
  function CallOf(r: Request, fact: Digest): seq<Label> { Sending(r) + ([Handle(Works, fact)] + ([Receive] + [])) }

  lemma SendingRuns(s: System, r: Request)
    requires s.client.Idle? && IsCall(r) && s.responses == [] && !s.worker.Stopped?
    ensures IsRun(s, Sending(r))
    ensures Run(s, Sending(r))
         == s.(requests := s.requests + [Msg(r, s.nextTag)], client := Waiting(s.nextTag), nextTag := s.nextTag + 1)
  {
    hide Handled, IsRun, Run;
    var s1 := Next(s, Begin(r));
    var s2 := Next(s1, DrainDone);
    RunLast(s2, Send);
    RunCons(s1, DrainDone, [Send] + []);
    RunCons(s, Begin(r), [DrainDone] + ([Send] + []));
  }

  /** The worker handles the only request queued, and replies. */
  lemma HandleRuns(s: System, m: Msg, k: Kind, fact: Digest)
    requires !s.worker.Stopped? && s.requests == [m] && s.responses == []
    requires Handled(s.worker, s.board, m.req, Works, fact).reply == Some(k)
    ensures var e := Handled(s.worker, s.board, m.req, Works, fact);
            && Enabled(s, Handle(Works, fact))
            && Next(s, Handle(Works, fact))
               == s.(requests := [], worker := e.worker, board := e.board, responses := [Reply(k, Some(m.tag))])
  {
    hide Handled;
  }

  lemma CallRuns(s: System, r: Request, k: Kind, fact: Digest)
    requires s.client.Idle? && IsCall(r) && s.requests == [] && s.responses == [] && !s.worker.Stopped?
    requires Handled(s.worker, s.board, r, Works, fact).reply == Some(k)
    ensures var e := Handled(s.worker, s.board, r, Works, fact);
            && IsRun(s, CallOf(r, fact))
            && Run(s, CallOf(r, fact)) == s.(worker := e.worker, board := e.board, nextTag := s.nextTag + 1)
  {
    hide Handled, Sending, IsRun, Run;
    SendingRuns(s, r);
    var sent := Run(s, Sending(r));
    HandleRuns(sent, Msg(r, s.nextTag), k, fact);
    var done := Next(sent, Handle(Works, fact));
    RunLast(done, Receive);
    RunCons(sent, Handle(Works, fact), [Receive] + []);
    RunConcat(s, Sending(r), [Handle(Works, fact)] + ([Receive] + []));
  }

  /** Sent without waiting, and handled at once. */
  function FireOf(r: Request, fact: Digest): seq<Label> { [Fire(r)] + ([Handle(Works, fact)] + []) }

  lemma FireRuns(s: System, r: Request, fact: Digest)
    requires s.client.Idle? && !IsCall(r) && s.requests == [] && !s.worker.Stopped?
    ensures IsRun(s, FireOf(r, fact))
    ensures var e := Handled(s.worker, s.board, r, Works, fact);
            var t := Run(s, FireOf(r, fact));
            && t == s.(worker := e.worker, board := e.board, nextTag := s.nextTag + 1, responses := t.responses)
  {
    hide Handled, IsRun, Run;
    var s1 := Next(s, Fire(r));
    assert s1.requests == [Msg(r, s.nextTag)];
    RunLast(s1, Handle(Works, fact));
    RunCons(s, Fire(r), [Handle(Works, fact)] + []);
  }

  /** An unlocked session, with nothing queued. */
  function Unlocking(fact: Digest): seq<Label> { CallOf(Unlock, fact) }

  lemma UnlockingRuns(board: Board, fact: Digest)
    ensures IsRun(Initial(board), Unlocking(fact))
    ensures Run(Initial(board), Unlocking(fact)) == System([], [], Unlocked(None), Idle, board, 1)
  {
    hide CallOf, IsRun, Run, Next, Enabled;
    CallRuns(Initial(board), Unlock, UnlockedNow, fact);
  }

  // ----- Responses that answer another call ------------------------------------------------

  /** An idle lock between the drain and the send is taken for the answer. */
  lemma IdleLockMispairs(board: Board, fact: Digest)
    ensures var ls := Unlocking(fact) + ([Begin(Refresh)] + ([DrainDone] + ([IdleLock(fact)] + ([Send] + []))));
            && IsRun(Initial(board), ls)
            && var t := Run(Initial(board), ls);
            && t.client == Waiting(1) && t.requests == [Msg(Refresh, 1)] && t.responses == [Reply(LockedNow, None)]
            && Enabled(t, Receive) && !Paired(t)
  {
    hide Unlocking, IsRun, Run, Handled;
    UnlockingRuns(board, fact);
    var s := Run(Initial(board), Unlocking(fact));
    var s1 := Next(s, Begin(Refresh));
    var s2 := Next(s1, DrainDone);
    var s3 := Next(s2, IdleLock(fact));
    RunLast(s3, Send);
    RunCons(s2, IdleLock(fact), [Send] + []);
    RunCons(s1, DrainDone, [IdleLock(fact)] + ([Send] + []));
    RunCons(s, Begin(Refresh), [DrainDone] + ([IdleLock(fact)] + ([Send] + [])));
    RunConcat(Initial(board), Unlocking(fact), [Begin(Refresh)] + ([DrainDone] + ([IdleLock(fact)] + ([Send] + []))));
  }

  /** A caller in `recv` with one response for an earlier request and its own request still queued. */
  function OneBehind(w: Worker, own: Request, kind: Kind, tag: nat, board: Board): System {
    System([Msg(own, tag + 1)], [Reply(kind, Some(tag))], w, Waiting(tag + 1), board, tag + 2)
  }

  /** A call that finds one request queued, up to that request being handled. */
  function Behind(first: Label, r: Request, fact: Digest): seq<Label> {
    [first] + (Sending(r) + ([Handle(Works, fact)] + []))
  }

  lemma BehindRuns(s: System, first: Label, r: Request, m: Msg, fact: Digest)
    requires Enabled(s, first) && IsCall(r)
    requires var t := Next(s, first);
             && t.client.Idle? && t.requests == [m] && t.responses == [] && !t.worker.Stopped?
             && Handled(t.worker, t.board, m.req, Works, fact).reply.Some?
    ensures var t := Next(s, first);
            var e := Handled(t.worker, t.board, m.req, Works, fact);
            && IsRun(s, Behind(first, r, fact))
            && Run(s, Behind(first, r, fact))
               == System([Msg(r, t.nextTag)], [Reply(e.reply.value, Some(m.tag))], e.worker,
                         Waiting(t.nextTag), e.board, t.nextTag + 1)
  {
    hide Handled, Sending, IsRun, Run;
    var t := Next(s, first);
    SendingRuns(t, r);
    var sent := Run(t, Sending(r));
    assert sent.requests == [m] + [Msg(r, t.nextTag)] && sent.requests[1..] == [Msg(r, t.nextTag)];
    RunLast(sent, Handle(Works, fact));
    RunConcat(t, Sending(r), [Handle(Works, fact)] + []);
    RunCons(s, first, Sending(r) + ([Handle(Works, fact)] + []));
  }

  /** The reply to a `lock` still queued when a call sends is taken by that call, and later pairings are off by one. */
  lemma LockMispairs(board: Board, fact: Digest)
    ensures var a := OneBehind(Locked, Refresh, LockedNow, 1, board);
            var b := OneBehind(Locked, Unlock, LockedNow, 2, board);
            var c := OneBehind(Unlocked(None), Refresh, UnlockedNow, 3, board);
            var toA := Unlocking(fact) + Behind(Fire(Lock), Refresh, fact);
            && IsRun(Initial(board), toA) && Run(Initial(board), toA) == a && !Paired(a)
            && IsRun(a, Behind(Receive, Unlock, fact)) && Run(a, Behind(Receive, Unlock, fact)) == b && !Paired(b)
            && IsRun(b, Behind(Receive, Refresh, fact)) && Run(b, Behind(Receive, Refresh, fact)) == c && !Paired(c)
            && Interpret(Refresh, c.responses[0].kind) == Unexpected
  {
    hide Unlocking, Behind, IsRun, Run;
    UnlockingRuns(board, fact);
    var s := System([], [], Unlocked(None), Idle, board, 1);
    assert Next(s, Fire(Lock)).requests == [Msg(Lock, 1)];
    BehindRuns(s, Fire(Lock), Refresh, Msg(Lock, 1), fact);
    RunConcat(Initial(board), Unlocking(fact), Behind(Fire(Lock), Refresh, fact));
    BehindRuns(OneBehind(Locked, Refresh, LockedNow, 1, board), Receive, Unlock, Msg(Refresh, 2), fact);
    BehindRuns(OneBehind(Locked, Unlock, LockedNow, 2, board), Receive, Refresh, Msg(Unlock, 3), fact);
  }

  // ----- Secrets left on the clipboard ------------------------------------------------------

  lemma CopyRuns(s: System, secret: Digest, fact: Digest)
    requires s.client.Idle? && s.requests == [] && s.responses == [] && s.worker.Unlocked? && s.board.available
    ensures IsRun(s, CallOf(Copy(secret), fact))
    ensures Run(s, CallOf(Copy(secret), fact))
         == s.(worker := Unlocked(Some(secret)), board := s.board.(content := Some(secret)), nextTag := s.nextTag + 1)
  {
    hide CallOf, IsRun, Run, Next, Enabled;
    CallRuns(s, Copy(secret), Copied(secret), fact);
  }

  /** With overwriting switched off, the secret outlives the session although nothing was ever cleared. */
  lemma OverwriteOffStrands(secret: Digest, fact: Digest)
    ensures var board := Board(true, false, None);
            var ls := Unlocking(fact) + (CallOf(Copy(secret), fact) + ([IdleLock(fact)] + []));
            IsRun(Initial(board), ls) && Run(Initial(board), ls).worker == Locked
            && Run(Initial(board), ls).board.content == Some(secret)
  {
    hide Unlocking, CallOf, IsRun, Run, Handled;
    var board := Board(true, false, None);
    UnlockingRuns(board, fact);
    var s := Run(Initial(board), Unlocking(fact));
    CopyRuns(s, secret, fact);
    var t := Run(s, CallOf(Copy(secret), fact));
    RunLast(t, IdleLock(fact));
    RunConcat(s, CallOf(Copy(secret), fact), [IdleLock(fact)] + []);
    RunConcat(Initial(board), Unlocking(fact), CallOf(Copy(secret), fact) + ([IdleLock(fact)] + []));
  }

  /** Two copies, then the timer of the first: nothing is wiped and the live cookie is forgotten. */
  lemma TwoCopiesOldClear(s: System, a: Digest, b: Digest, fact: Digest)
    requires s.client.Idle? && s.requests == [] && s.responses == [] && s.worker.Unlocked?
    requires s.board.available && a != b
    ensures var ls := CallOf(Copy(a), fact) + (CallOf(Copy(b), fact) + FireOf(ClearClipboard(a), fact));
            && IsRun(s, ls)
            && var t := Run(s, ls);
            && t.client.Idle? && t.requests == [] && t.worker == Unlocked(None)
            && t.board == s.board.(content := Some(b))
  {
    hide CallOf, FireOf, IsRun, Run, Next, Enabled;
    CopyRuns(s, a, fact);
    var s1 := Run(s, CallOf(Copy(a), fact));
    CopyRuns(s1, b, fact);
    var s2 := Run(s1, CallOf(Copy(b), fact));
    FireRuns(s2, ClearClipboard(a), fact);
    RunConcat(s1, CallOf(Copy(b), fact), FireOf(ClearClipboard(a), fact));
    RunConcat(s, CallOf(Copy(a), fact), CallOf(Copy(b), fact) + FireOf(ClearClipboard(a), fact));
  }

  lemma LockFires(s: System, fact: Digest)
    requires s.client.Idle? && s.requests == [] && s.worker == Unlocked(None)
    ensures IsRun(s, FireOf(Lock, fact))
    ensures Run(s, FireOf(Lock, fact)).worker == Locked && Run(s, FireOf(Lock, fact)).board == s.board
  {
    hide FireOf, IsRun, Run, Next, Enabled;
    FireRuns(s, Lock, fact);
  }

  /** A clear timer for an older copy strands the newer one, with a caller that waits for every reply. */
  lemma OldClearStrands(a: Digest, b: Digest, fact: Digest)
    requires a != b
    ensures var board := Board(true, true, None);
            var session := CallOf(Copy(a), fact) + (CallOf(Copy(b), fact) + FireOf(ClearClipboard(a), fact));
            var ls := Unlocking(fact) + (session + FireOf(Lock, fact));
            IsRun(Initial(board), ls) && Run(Initial(board), ls).worker == Locked
            && Run(Initial(board), ls).board.content == Some(b)
  {
    hide Unlocking, CallOf, FireOf, IsRun, Run, Handled, Next, Enabled;
    var board := Board(true, true, None);
    var session := CallOf(Copy(a), fact) + (CallOf(Copy(b), fact) + FireOf(ClearClipboard(a), fact));
    UnlockingRuns(board, fact);
    var s := Run(Initial(board), Unlocking(fact));
    TwoCopiesOldClear(s, a, b, fact);
    var t := Run(s, session);
    LockFires(t, fact);
    RunConcat(s, session, FireOf(Lock, fact));
    RunConcat(Initial(board), Unlocking(fact), session + FireOf(Lock, fact));
  }
}
