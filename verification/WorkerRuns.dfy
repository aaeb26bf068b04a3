/** What holds over every interleaving of the worker and its caller. */
module WorkerRuns {
  import opened Bytes
  import opened WorkerModel

  // ----- Composing runs -----------------------------------------------------------------

  lemma {:induction false} RunConcat(s: System, a: seq<Label>, b: seq<Label>)
    requires IsRun(s, a) && IsRun(Run(s, a), b)
    ensures IsRun(s, a + b) && Run(s, a + b) == Run(Run(s, a), b)
    decreases |a|
  {
    hide Enabled, Next;
    if a == [] {
      assert a + b == b;
    } else {
      RunConcat(Next(s, a[0]), a[1..], b);
      assert (a + b)[1..] == a[1..] + b;
    }
  }

  lemma RunCons(s: System, l: Label, rest: seq<Label>)
    requires Enabled(s, l) && IsRun(Next(s, l), rest)
    ensures IsRun(s, [l] + rest) && Run(s, [l] + rest) == Run(Next(s, l), rest)
  {
    assert ([l] + rest)[1..] == rest;
  }

  lemma RunLast(s: System, l: Label)
    requires Enabled(s, l)
    ensures IsRun(s, [l] + []) && Run(s, [l] + []) == Next(s, l)
  {
    assert ([l] + [])[1..] == [];
  }

  // ----- Accounting --------------------------------------------------------------------

  /** Requests that get no reply in this worker state. */
  predicate SilentIn(w: Worker, r: Request) {
    r.ClearClipboard? || r.Quit? || (w.Unlocked? && (r.Create? || r.Unlock?))
  }

  /** One response for each handled request that is not silent, and one for each idle lock. */
  function Owed(s: System, l: Label): nat
    requires Enabled(s, l)
  {
    match l
    case Handle(_, _) => if SilentIn(s.worker, s.requests[0].req) then 0 else 1
    case IdleLock(_) => 1
    case _ => 0
  }

  function TotalOwed(s: System, ls: seq<Label>): nat
    requires IsRun(s, ls)
    decreases |ls|
  {
    if ls == [] then 0 else Owed(s, ls[0]) + TotalOwed(Next(s, ls[0]), ls[1..])
  }

  function Emitted(s: System, ls: seq<Label>): seq<Reply>
    requires IsRun(s, ls)
    decreases |ls|
  {
    if ls == [] then [] else Emits(s, ls[0]) + Emitted(Next(s, ls[0]), ls[1..])
  }

  /** The responses taken off the queue, by draining or receiving. */
  function Taken(s: System, ls: seq<Label>): seq<Reply>
    requires IsRun(s, ls)
    decreases |ls|
  {
    if ls == [] then []
    else (if (ls[0].DrainOne? || ls[0].Receive?) && s.responses != [] then [s.responses[0]] else [])
         + Taken(Next(s, ls[0]), ls[1..])
  }

  lemma StepEmitsOwed(s: System, l: Label)
    requires Enabled(s, l)
    ensures |Emits(s, l)| == Owed(s, l)
  {
  }

  /**
   * Over every run the responses emitted are the handled requests other than
   * ClearClipboard, Quit and stray Create or Unlock, plus the idle locks; and nothing is
   * lost or reordered: what was queued and emitted is what was taken and is still queued.
   */
  lemma {:induction false} Accounting(s: System, ls: seq<Label>)
    requires IsRun(s, ls)
    ensures |Emitted(s, ls)| == TotalOwed(s, ls)
    ensures s.responses + Emitted(s, ls) == Taken(s, ls) + Run(s, ls).responses
    decreases |ls|
  {
    hide Emits, Owed, Enabled;
    if ls != [] {
      var t := Next(s, ls[0]);
      StepEmitsOwed(s, ls[0]);
      Accounting(t, ls[1..]);
      StepQueue(s, ls[0]);
      ConcatAssoc(s.responses, Emits(s, ls[0]), Emitted(t, ls[1..]));
      var took := if (ls[0].DrainOne? || ls[0].Receive?) && s.responses != [] then [s.responses[0]] else [];
      ConcatAssoc(took, t.responses, Emitted(t, ls[1..]));
      ConcatAssoc(took, Taken(t, ls[1..]), Run(s, ls).responses);
    } else {
      assert s.responses + [] == [] + s.responses;
    }
  }

  lemma StepQueue(s: System, l: Label)
    requires Enabled(s, l)
    ensures var took := if (l.DrainOne? || l.Receive?) && s.responses != [] then [s.responses[0]] else [];
            s.responses + Emits(s, l) == took + Next(s, l).responses
  {
    hide Handled;
    if s.responses != [] {
      assert s.responses == [s.responses[0]] + s.responses[1..];
    }
  }

  // ----- A blocked caller --------------------------------------------------------------

  /** Handled by a locked worker, this either replies or stops the worker. */
  predicate Wakes(r: Request) { !r.ClearClipboard? }

  /** A caller in `recv` has a response, a stopped or an unlocked worker, or a request that will wake it. */
  predicate NotStranded(s: System) {
    s.client.Waiting? ==>
      || s.responses != [] || s.worker.Stopped? || s.worker.Unlocked?
      || exists i :: 0 <= i < |s.requests| && Wakes(s.requests[i].req)
  }

  predicate CallPhases(s: System) {
    (s.client.Draining? ==> IsCall(s.client.req)) && (s.client.Ready? ==> IsCall(s.client.req))
  }

  lemma StepNotStranded(s: System, l: Label)
    requires Enabled(s, l) && NotStranded(s) && CallPhases(s)
    ensures NotStranded(Next(s, l)) && CallPhases(Next(s, l))
  {
    var t := Next(s, l);
    match l
    case Send =>
      if !s.worker.Stopped? {
        assert t.requests[|s.requests|].req == s.client.req;
      }
    case Handle(_, _) =>
      if s.worker.Locked? && s.client.Waiting? && s.responses == [] && t.worker.Locked? && t.responses == [] {
        var i :| 0 <= i < |s.requests| && Wakes(s.requests[i].req);
        assert i > 0;
        assert t.requests[i - 1] == s.requests[i];
      }
    case _ =>
  }

  lemma {:induction false} NeverStranded(s: System, ls: seq<Label>)
    requires IsRun(s, ls) && NotStranded(s) && CallPhases(s)
    ensures NotStranded(Run(s, ls)) && CallPhases(Run(s, ls))
    decreases |ls|
  {
    hide NotStranded, CallPhases, Enabled, Next;
    if ls != [] {
      StepNotStranded(s, ls[0]);
      NeverStranded(Next(s, ls[0]), ls[1..]);
    }
  }

  /** The worker handles what is queued, with these outcomes and facts, until someone can be woken. */
  function Serve(s: System, ends: seq<(Outcome, Digest)>): System
    decreases |ends|
  {
    if ends == [] || s.responses != [] || s.worker.Stopped? || s.requests == [] then s
    else Serve(Next(s, Handle(ends[0].0, ends[0].1)), ends[1..])
  }

  /**
   * However the queued operations end, once the worker has got through the queue a blocked
   * caller has a response or a stopped worker, or the worker is unlocked and idle and its
   * expiry is one step from sending `Locked`.
   */
  lemma {:induction false} BlockedCallerIsServed(s: System, ends: seq<(Outcome, Digest)>, fact: Digest)
    requires s.client.Waiting? && NotStranded(s) && CallPhases(s) && |ends| >= |s.requests|
    ensures var t := Serve(s, ends);
            && t.client == s.client
            && (Enabled(t, Receive)
                || (t.requests == [] && Enabled(t, IdleLock(fact)) && Enabled(Next(t, IdleLock(fact)), Receive)))
    decreases |ends|
  {
    if !(ends == [] || s.responses != [] || s.worker.Stopped? || s.requests == []) {
      var l := Handle(ends[0].0, ends[0].1);
      StepNotStranded(s, l);
      BlockedCallerIsServed(Next(s, l), ends[1..], fact);
    }
  }

  /** From the start of the worker on, a caller in `recv` is always served. */
  lemma CallerIsNeverStranded(board: Board, ls: seq<Label>, ends: seq<(Outcome, Digest)>, fact: Digest)
    requires IsRun(Initial(board), ls)
    requires var s := Run(Initial(board), ls); s.client.Waiting? && |ends| >= |s.requests|
    ensures var t := Serve(Run(Initial(board), ls), ends);
            || Enabled(t, Receive)
            || (t.requests == [] && Enabled(t, IdleLock(fact)) && Enabled(Next(t, IdleLock(fact)), Receive))
  {
    NeverStranded(Initial(board), ls);
    BlockedCallerIsServed(Run(Initial(board), ls), ends, fact);
  }

  // ----- Pairing of replies with calls ---------------------------------------------------

  /** The first response the run emits comes from the idle tick. */
  predicate IdleLocksFirst(s: System, ls: seq<Label>)
    requires IsRun(s, ls)
    decreases |ls|
  {
    ls != [] && if Emits(s, ls[0]) != [] then ls[0].IdleLock? else IdleLocksFirst(Next(s, ls[0]), ls[1..])
  }

  predicate NoReceive(ls: seq<Label>) { forall i :: 0 <= i < |ls| ==> !ls[i].Receive? }

  /** While the caller waits nobody takes a response, so the first one stays first. */
  lemma {:induction false} FirstStays(s: System, ls: seq<Label>)
    requires IsRun(s, ls) && NoReceive(ls) && s.client.Waiting? && s.responses != []
    ensures Run(s, ls).responses != [] && Run(s, ls).responses[0] == s.responses[0]
    decreases |ls|
  {
    hide Handled;
    if ls != [] {
      FirstStays(Next(s, ls[0]), ls[1..]);
    }
  }

  /** Once its own request is gone without a reply, or the worker stopped, only an idle lock can answer the caller. */
  lemma {:induction false} NothingLeftToAnswer(s: System, ls: seq<Label>)
    requires IsRun(s, ls) && NoReceive(ls) && s.client.Waiting? && s.responses == []
    requires s.worker.Stopped? || s.requests == []
    ensures var t := Run(s, ls); t.responses != [] ==> t.responses[0].answers.None?
    decreases |ls|
  {
    hide Handled;
    if ls != [] {
      var t := Next(s, ls[0]);
      if t.responses != [] {
        FirstStays(t, ls[1..]);
      } else {
        NothingLeftToAnswer(t, ls[1..]);
      }
    }
  }

  /** Handled without a reply, and the worker goes on. */
  predicate Quiet(w: Worker, r: Request) { SilentIn(w, r) && !r.Quit? }

  /** A quiet request leaves the worker quiet to the same requests. */
  lemma QuietKeepsWorker(w: Worker, b: Board, r: Request, o: Outcome, fact: Digest)
    requires !w.Stopped? && Quiet(w, r)
    ensures var e := Handled(w, b, r, o, fact);
            e.reply.None? && !e.worker.Stopped? && forall q :: Quiet(e.worker, q) <==> Quiet(w, q)
  {
  }

  lemma QuitStops(w: Worker, b: Board, o: Outcome, fact: Digest)
    requires !w.Stopped?
    ensures Handled(w, b, Quit, o, fact).worker.Stopped? && Handled(w, b, Quit, o, fact).reply.None?
  {
  }

  predicate QuietAhead(w: Worker, ahead: seq<Msg>) { forall i :: 0 <= i < |ahead| ==> Quiet(w, ahead[i].req) }

  /** What the caller is about to receive is the answer to its own request. */
  predicate Paired(s: System)
    requires s.client.Waiting?
  {
    s.responses != [] && s.responses[0].answers == Some(s.client.tag)
  }

  lemma {:induction false} StoppedNeverReplies(s: System, ls: seq<Label>)
    requires IsRun(s, ls) && s.worker.Stopped? && s.client.Waiting? && NoReceive(ls)
    ensures Run(s, ls).responses == s.responses
    decreases |ls|
  {
    if ls != [] {
      StoppedNeverReplies(Next(s, ls[0]), ls[1..]);
    }
  }

  lemma {:induction false} StaysWaiting(s: System, ls: seq<Label>)
    requires IsRun(s, ls) && s.client.Waiting? && NoReceive(ls)
    ensures Run(s, ls).client == s.client
    decreases |ls|
  {
    if ls != [] {
      StaysWaiting(Next(s, ls[0]), ls[1..]);
    }
  }

  /** Pairing from the state just after a send to a running worker, whatever is queued by then. */
  lemma {:induction false} PairedAfterSend(s: System, ahead: seq<Msg>, r: Request, ls: seq<Label>)
    requires s.client.Waiting? && IsCall(r) && !s.worker.Stopped? && s.requests == ahead + [Msg(r, s.client.tag)]
    requires forall i :: 0 <= i < |ahead| ==> ahead[i].tag != s.client.tag
    requires forall i :: 0 <= i < |s.responses| ==> s.responses[i].answers != Some(s.client.tag)
    requires IsRun(s, ls) && NoReceive(ls) && Enabled(Run(s, ls), Receive)
    ensures Paired(Run(s, ls)) <==>
            s.responses == [] && QuietAhead(s.worker, ahead) && !Quiet(s.worker, r) && !IdleLocksFirst(s, ls)
    decreases |ls|
  {
    hide HandleLocked, HandleUnlocked;
    StaysWaiting(s, ls);
    if s.responses != [] {
      FirstStays(s, ls);
    } else {
      var l := ls[0];
      var t := Next(s, l);
      match l
      case Outside(_) => PairedAfterSend(t, ahead, r, ls[1..]);
      case IdleLock(_) => FirstStays(t, ls[1..]);
      case Handle(o, fact) =>
        StepEmitsOwed(s, l);
        var q := s.requests[0].req;
        if !SilentIn(s.worker, q) {
          FirstStays(t, ls[1..]);
        } else if q.Quit? {
          QuitStops(s.worker, s.board, o, fact);
          StoppedNeverReplies(t, ls[1..]);
        } else {
          QuietKeepsWorker(s.worker, s.board, q, o, fact);
          if ahead == [] {
            NothingLeftToAnswer(t, ls[1..]);
          } else {
            assert t.requests == ahead[1..] + [Msg(r, s.client.tag)];
            PairedAfterSend(t, ahead[1..], r, ls[1..]);
            assert ahead == [ahead[0]] + ahead[1..];
          }
        }
    }
  }

  /** Every tag in either queue has been given out. */
  predicate TagsGivenOut(s: System) {
    && (forall i :: 0 <= i < |s.requests| ==> s.requests[i].tag < s.nextTag)
    && (forall i :: 0 <= i < |s.responses| && s.responses[i].answers.Some? ==> s.responses[i].answers.value < s.nextTag)
  }

  lemma {:induction false} TagsStayGivenOut(s: System, ls: seq<Label>)
    requires IsRun(s, ls) && TagsGivenOut(s)
    ensures TagsGivenOut(Run(s, ls))
    decreases |ls|
  {
    hide Handled;
    if ls != [] {
      TagsStayGivenOut(Next(s, ls[0]), ls[1..]);
    }
  }

  /**
   * The worker is still running, nothing was emitted since the drain, everything queued ahead
   * is quiet, the request to be sent is not, and no idle lock comes first after the send.
   */
  predicate WillPair(u: System, ls: seq<Label>)
    requires u.client.Ready? && IsRun(Next(u, Send), ls)
  {
    && !u.worker.Stopped? && u.responses == []
    && QuietAhead(u.worker, u.requests) && !Quiet(u.worker, u.client.req) && !IdleLocksFirst(Next(u, Send), ls)
  }

  /**
   * In every run from the start of the worker, a call that has drained and is about to send
   * receives the answer to its own request exactly when that holds.
   */
  lemma PairedIff(board: Board, past: seq<Label>, ls: seq<Label>)
    requires IsRun(Initial(board), past) && Run(Initial(board), past).client.Ready?
    requires var s := Next(Run(Initial(board), past), Send);
             IsRun(s, ls) && NoReceive(ls) && Enabled(Run(s, ls), Receive)
    ensures var u := Run(Initial(board), past);
            var s := Next(u, Send);
            && Run(s, ls).client == s.client
            && (Paired(Run(s, ls)) <==> WillPair(u, ls))
  {
    hide Handled;
    var u := Run(Initial(board), past);
    var s := Next(u, Send);
    NeverStranded(Initial(board), past);
    TagsStayGivenOut(Initial(board), past);
    StaysWaiting(s, ls);
    if u.worker.Stopped? {
      StoppedNeverReplies(s, ls);
    } else {
      PairedAfterSend(s, u.requests, u.client.req, ls);
    }
  }

  /**
   * A call that receives the answer to its own request always understands it: success when
   * the operation worked, a lock when the session was or became locked, and a failure otherwise.
   */
  lemma OwnReplyIsUnderstood(w: Worker, b: Board, r: Request, o: Outcome, fact: Digest)
    requires !w.Stopped? && IsCall(r)
    ensures var e := Handled(w, b, r, o, fact);
            && (e.reply.None? <==> SilentIn(w, r))
            && (e.reply.Some? ==>
                  && Interpret(r, e.reply.value) != Unexpected
                  && (Interpret(r, e.reply.value) == SessionIsLocked <==> e.worker.Locked? && !r.Create? && !r.Unlock?)
                  && (Interpret(r, e.reply.value) == Answered <==>
                        (if r.Create? || r.Unlock? then o.Works?
                         else w.Unlocked? && (r.VerifyTotp? || (o.Works? && (r.Copy? ==> b.available))))))
  {
  }
}
