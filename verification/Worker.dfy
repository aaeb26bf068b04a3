/** The worker's nested receive loops, proved against the transition system. */
module SessionWorkers {
  import opened Bytes
  import opened WorkerModel

  /** What one `recv` or `recv_timeout` returns, how the operation it triggers ends, and the fact a clearing draws. */
  datatype Arrival =
    | Got(msg: Msg, outcome: Outcome, fact: Digest)
    | Tick(expired: bool, fact: Digest)
    | Disconnected(fact: Digest)

  datatype Turn = Turn(worker: Worker, board: Board, replies: seq<Reply>)

  /** One receive of a worker in either loop: the worker half of `Handle` and `IdleLock`. */
  function React(w: Worker, b: Board, a: Arrival): Turn {
    if w.Stopped? then Turn(w, b, [])
    else
      match a
      case Got(m, o, fact) =>
        var e := Handled(w, b, m.req, o, fact);
        Turn(e.worker, e.board, if e.reply.Some? then [Reply(e.reply.value, Some(m.tag))] else [])
      case Tick(expired, fact) =>
        if w.Unlocked? && expired then Turn(Locked, Wiped(b, w.live, fact), [Reply(LockedNow, None)])
        else Turn(w, b, [])
      case Disconnected(fact) => Turn(Stopped, if w.Unlocked? then Wiped(b, w.live, fact) else b, [])
  }

  function ReactAll(w: Worker, b: Board, script: seq<Arrival>): Turn
    decreases |script|
  {
    if script == [] then Turn(w, b, [])
    else
      var t := React(w, b, script[0]);
      var rest := ReactAll(t.worker, t.board, script[1..]);
      Turn(rest.worker, rest.board, t.replies + rest.replies)
  }

  /** The worker's own step of the transition system is one such receive. */
  lemma ReactIsStep(s: System, l: Label)
    requires Enabled(s, l) && (l.Handle? || l.IdleLock?)
    ensures var a := if l.Handle? then Got(s.requests[0], l.outcome, l.fact) else Tick(true, l.fact);
            var t := React(s.worker, s.board, a);
            && Next(s, l).worker == t.worker && Next(s, l).board == t.board
            && Next(s, l).responses == s.responses + t.replies && Emits(s, l) == t.replies
  {
    hide Handled;
  }

  lemma {:induction false} StoppedReacts(b: Board, script: seq<Arrival>)
    ensures ReactAll(Stopped, b, script) == Turn(Stopped, b, [])
  {
    if script != [] {
      StoppedReacts(b, script[1..]);
    }
  }

  datatype Flow = Continue | LockNow | QuitNow

  class SessionWorker {
    /** What the receives will return; when it runs out the worker is blocked in `recv`. */
    var arrivals: seq<Arrival>
    var responses: seq<Reply>
    var board: Board

    constructor (arrivals: seq<Arrival>, board: Board)
      ensures this.arrivals == arrivals && responses == [] && this.board == board
    {
      this.arrivals, responses, this.board := arrivals, [], board;
    }

    /** What is still to come, appended to what was sent so far. */
    ghost function Outlook(w: Worker): Turn
      reads this
    {
      var t := ReactAll(w, board, arrivals);
      Turn(t.worker, t.board, responses + t.replies)
    }

    method Respond(kind: Kind, answers: Option<nat>)
      modifies this`responses
      ensures responses == old(responses) + [Reply(kind, answers)]
    {
      responses := responses + [Reply(kind, answers)];
    }

    method ClearWith(cookie: Digest, fact: Digest)
      modifies this`board
      ensures board == Cleared(old(board), cookie, fact)
    {
      if board.content == Some(cookie) && board.overwrite {
        board := board.(content := Some(fact));
      }
    }

    method WipeOnExit(live: Option<Digest>, fact: Digest)
      modifies this`board
      ensures board == Wiped(old(board), live, fact)
    {
      if live.Some? && board.available { ClearWith(live.value, fact); }
    }

    /** Replies to an operation, or asks for the lock if the session ran out. */
    method Answer(tag: nat, o: Outcome, done: Kind, failed: Kind) returns (flow: Flow)
      modifies this`responses
      ensures flow == if o.Expired? then LockNow else Continue
      ensures responses == if o.Expired? then old(responses)
                           else old(responses) + [Reply(if o.Works? then done else failed, Some(tag))]
    {
      if o.Expired? { return LockNow; }
      Respond(if o.Works? then done else failed, Some(tag));
      return Continue;
    }

    /** `handle_unlocked`: the wipe that goes with a lock or a quit is left to the loop. */
    method Handle(live: Option<Digest>, m: Msg, o: Outcome, fact: Digest) returns (flow: Flow, live': Option<Digest>)
      modifies this`responses, this`board
      ensures var t := React(Unlocked(live), old(board), Got(m, o, fact));
              match flow
              case Continue => t == Turn(Unlocked(live'), board, t.replies) && responses == old(responses) + t.replies
              case LockNow => t == Turn(Locked, Wiped(board, live', fact), [Reply(LockedNow, Some(m.tag))])
                  && responses == old(responses)
              case QuitNow => t == Turn(Stopped, Wiped(board, live', fact), []) && responses == old(responses)
    {
      hide Wiped;
      flow, live' := Continue, live;
      assert responses + [] == responses;
      match m.req {
        case Lock => flow := LockNow;
        case Quit => flow := QuitNow;
        case Create =>
        case Unlock =>
        case Refresh => flow := Answer(m.tag, o, Entries, Failure);
        case Reveal => flow := Answer(m.tag, o, Revealed, Failure);
        case Copy(s) =>
          if !board.available {
            Respond(Failure, Some(m.tag));
          } else {
            flow := Answer(m.tag, o, Copied(s), Failure);
            if o.Works? { board, live' := board.(content := Some(s)), Some(s); }
          }
        case ClearClipboard(c) =>
          if board.available { ClearWith(c, fact); }
          live' := None;
        case Generate => flow := Answer(m.tag, o, Generated, Failure);
        case Add => flow := Answer(m.tag, o, Entries, Failure);
        case Remove => flow := Answer(m.tag, o, Entries, Failure);
        case ExportRecovery => flow := Answer(m.tag, o, RecoveryExported, RecoveryExportFailed);
        case VerifyTotp => Respond(TotpChecked, Some(m.tag));
      }
    }

    /** `drive_unlocked` around `unlocked_loop`: returns locked, stopped, or still unlocked and blocked. */
    method DriveUnlocked() returns (w: Worker)
      modifies this
      ensures Outlook(w) == old(Outlook(Unlocked(None)))
      ensures w.Unlocked? ==> arrivals == []
      ensures |arrivals| <= |old(arrivals)|
    {
      hide Handled, Wiped;
      var live: Option<Digest> := None;
      while arrivals != []
        invariant Outlook(Unlocked(live)) == old(Outlook(Unlocked(None)))
        invariant |arrivals| <= |old(arrivals)|
        decreases |arrivals|
      {
        var a := arrivals[0];
        ghost var before, b0 := responses, board;
        ghost var rest := arrivals[1..];
        arrivals := arrivals[1..];
        match a {
          case Got(m, o, fact) =>
            var flow, live' := Handle(live, m, o, fact);
            match flow {
              case Continue =>
                Assoc(before, React(Unlocked(live), b0, a).replies, ReactAll(Unlocked(live'), board, rest).replies);
                live := live';
              case LockNow =>
                WipeOnExit(live', fact);
                Respond(LockedNow, Some(m.tag));
                Assoc(before, [Reply(LockedNow, Some(m.tag))], ReactAll(Locked, board, rest).replies);
                return Locked;
              case QuitNow =>
                WipeOnExit(live', fact);
                Assoc(before, [], ReactAll(Stopped, board, rest).replies);
                return Stopped;
            }
          case Tick(expired, fact) =>
            if expired {
              WipeOnExit(live, fact);
              Respond(LockedNow, None);
              Assoc(before, [Reply(LockedNow, None)], ReactAll(Locked, board, rest).replies);
              return Locked;
            }
            Assoc(before, [], ReactAll(Unlocked(live), board, rest).replies);
          case Disconnected(fact) =>
            WipeOnExit(live, fact);
            Assoc(before, [], ReactAll(Stopped, board, rest).replies);
            return Stopped;
        }
      }
      return Unlocked(live);
    }

    /** `run_worker`: over any script of receives the two nested loops do what the flat machine does. */
    method RunWorker() returns (w: Worker)
      modifies this
      ensures Turn(w, board, responses) == old(Outlook(Locked))
    {
      hide Wiped, HandleUnlocked;
      w := Locked;
      while arrivals != [] && w.Locked?
        invariant Outlook(w) == old(Outlook(Locked))
        invariant w.Unlocked? ==> arrivals == []
        decreases |arrivals|
      {
        var a := arrivals[0];
        ghost var before, b0 := responses, board;
        ghost var rest := arrivals[1..];
        ghost var t := React(Locked, b0, a);
        Assoc(before, t.replies, ReactAll(t.worker, t.board, rest).replies);
        arrivals := arrivals[1..];
        match a {
          case Got(m, o, _) =>
            match m.req {
              case Create =>
                Respond(if o.Works? then Created else CreateFailed, Some(m.tag));
                if o.Works? { w := DriveUnlocked(); }
              case Unlock =>
                Respond(if o.Works? then UnlockedNow else UnlockFailed, Some(m.tag));
                if o.Works? { w := DriveUnlocked(); }
              case Quit => w := Stopped;
              case ClearClipboard(_) =>
              case _ => Respond(LockedNow, Some(m.tag));
            }
          case Tick(_, _) =>
          case Disconnected(_) => w := Stopped;
        }
      }
      if w.Stopped? { StoppedReacts(board, arrivals); }
      assert responses + [] == responses;
    }
  }

  lemma Assoc(a: seq<Reply>, b: seq<Reply>, c: seq<Reply>)
    ensures a + (b + c) == a + b + c
    ensures b == [] ==> a + b == a
  {
  }
}
