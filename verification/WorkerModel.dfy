/**
 * The session worker and its caller as a transition system: a request queue, a response
 * queue, the worker's locked and unlocked loops, and the phases of one `call`. Tags say
 * which request a response answers; the code has no such tags.
 */
module WorkerModel {
  import opened Bytes

  /** The digest of a text, as a clipboard cookie carries it. */
  type Digest = nat

  datatype Request =
    | Create | Unlock
    | Refresh | Reveal | Copy(secret: Digest) | Generate | Add | Remove | ExportRecovery | VerifyTotp
    | ClearClipboard(cookie: Digest) | Lock | Quit

  datatype Kind =
    | Created | CreateFailed | UnlockedNow | UnlockFailed
    | Entries | Revealed | Copied(cookie: Digest) | Generated | TotpChecked
    | RecoveryExported | RecoveryExportFailed | LockedNow | Failure

  datatype Msg = Msg(req: Request, tag: nat)

  datatype Reply = Reply(kind: Kind, answers: Option<nat>)

  /** How the operation behind a request ends; `Expired` is the session having run out. */
  datatype Outcome = Works | Fails | Expired

  datatype Worker = Locked | Unlocked(live: Option<Digest>) | Stopped

  /** The phases of `call`; all but `Idle` hold the mutex. */
  datatype Client = Idle | Draining(req: Request) | Ready(req: Request) | Waiting(tag: nat)

  /** The clipboard and whether it can be used; clearing overwrites it with a random fact only if so configured. */
  datatype Board = Board(available: bool, overwrite: bool, content: Option<Digest>)

  datatype System = System(requests: seq<Msg>, responses: seq<Reply>, worker: Worker, client: Client,
                           board: Board, nextTag: nat)

  // ----- The worker -----------------------------------------------------------------

  /** `clear_clipboard_with`, should it draw `fact`. */
  function Cleared(b: Board, cookie: Digest, fact: Digest): Board {
    if b.content == Some(cookie) && b.overwrite then b.(content := Some(fact)) else b
  }

  /** `wipe_clipboard_on_exit` */
  function Wiped(b: Board, live: Option<Digest>, fact: Digest): Board {
    if live.Some? && b.available then Cleared(b, live.value, fact) else b
  }

  /** What handling one request does: the next worker state, the reply, the clipboard. */
  datatype Effect = Effect(worker: Worker, reply: Option<Kind>, board: Board)

  /** The locked outer loop. */
  function HandleLocked(b: Board, r: Request, o: Outcome): Effect {
    match r
    case Create => if o.Works? then Effect(Unlocked(None), Some(Created), b) else Effect(Locked, Some(CreateFailed), b)
    case Unlock =>
      if o.Works? then Effect(Unlocked(None), Some(UnlockedNow), b)
      else Effect(Locked, Some(UnlockFailed), b)
    case Quit => Effect(Stopped, None, b)
    case ClearClipboard(_) => Effect(Locked, None, b)
    case _ => Effect(Locked, Some(LockedNow), b)
  }

  /** Leaving the unlocked loop to lock: wipe, then `Locked`. */
  function ToLocked(b: Board, live: Option<Digest>, fact: Digest): Effect {
    Effect(Locked, Some(LockedNow), Wiped(b, live, fact))
  }

  /** An operation that replies with `done`, `Error`, or by locking. */
  function Operate(b: Board, live: Option<Digest>, o: Outcome, done: Kind, fact: Digest): Effect {
    match o
    case Works => Effect(Unlocked(live), Some(done), b)
    case Fails => Effect(Unlocked(live), Some(Failure), b)
    case Expired => ToLocked(b, live, fact)
  }

  function HandleUnlocked(b: Board, live: Option<Digest>, r: Request, o: Outcome, fact: Digest): Effect {
    match r
    case Lock => ToLocked(b, live, fact)
    case Quit => Effect(Stopped, None, Wiped(b, live, fact))
    case Create => Effect(Unlocked(live), None, b)
    case Unlock => Effect(Unlocked(live), None, b)
    case Refresh => Operate(b, live, o, Entries, fact)
    case Reveal => Operate(b, live, o, Revealed, fact)
    case Copy(s) =>
      if !b.available then Effect(Unlocked(live), Some(Failure), b)
      else if o.Works? then Effect(Unlocked(Some(s)), Some(Copied(s)), b.(content := Some(s)))
      else Operate(b, live, o, Failure, fact)
    case ClearClipboard(c) => Effect(Unlocked(None), None, if b.available then Cleared(b, c, fact) else b)
    case Generate => Operate(b, live, o, Generated, fact)
    case Add => Operate(b, live, o, Entries, fact)
    case Remove => Operate(b, live, o, Entries, fact)
    case ExportRecovery =>
      if o.Fails? then Effect(Unlocked(live), Some(RecoveryExportFailed), b)
      else Operate(b, live, o, RecoveryExported, fact)
    case VerifyTotp => Effect(Unlocked(live), Some(TotpChecked), b)
  }

  function Handled(w: Worker, b: Board, r: Request, o: Outcome, fact: Digest): Effect
    requires !w.Stopped?
  {
    if w.Locked? then HandleLocked(b, r, o) else HandleUnlocked(b, w.live, r, o, fact)
  }

  // ----- The caller's reading of a reply -----------------------------------------------

  datatype Reading = Answered | FailedWith | SessionIsLocked | Unexpected

  /** The one kind of success each entry point waits for. */
  predicate IsAnswer(r: Request, k: Kind) {
    match r
    case Create => k.Created?
    case Unlock => k.UnlockedNow?
    case Refresh => k.Entries?
    case Add => k.Entries?
    case Remove => k.Entries?
    case Reveal => k.Revealed?
    case Copy(_) => k.Copied?
    case Generate => k.Generated?
    case ExportRecovery => k.RecoveryExported?
    case VerifyTotp => k.TotpChecked?
    case _ => false
  }

  predicate IsFailureOf(r: Request, k: Kind) {
    match r
    case Create => k.CreateFailed?
    case Unlock => k.UnlockFailed?
    case ExportRecovery => k.RecoveryExportFailed?
    case VerifyTotp => false
    case _ => k.Failure?
  }

  /** How an entry point reads the response its call received. */
  function Interpret(r: Request, k: Kind): Reading {
    if IsAnswer(r, k) then Answered
    else if IsFailureOf(r, k) then FailedWith
    else if k.LockedNow? then SessionIsLocked
    else Unexpected
  }

  // ----- Steps -----------------------------------------------------------------------

  datatype Label =
    /** `call`: take the mutex, drain, send, receive. */
    | Begin(req: Request) | DrainOne | DrainDone | Send | Receive
    /** `lock`, `clear_clipboard` and dropping the session: send without waiting. */
    | Fire(req: Request)
    /** One request; `fact` is what a clearing that this leads to would write. */
    | Handle(outcome: Outcome, fact: Digest)
    /** The idle tick that finds the session expired; a request may already be queued behind it. */
    | IdleLock(fact: Digest)
    /** Another program writes the clipboard. */
    | Outside(content: Option<Digest>)

  predicate IsCall(r: Request) { !r.ClearClipboard? && !r.Lock? && !r.Quit? }

  predicate Enabled(s: System, l: Label) {
    match l
    case Begin(r) => s.client.Idle? && IsCall(r)
    case DrainOne => s.client.Draining? && s.responses != []
    case DrainDone => s.client.Draining? && s.responses == []
    case Send => s.client.Ready?
    case Receive => s.client.Waiting? && (s.responses != [] || s.worker.Stopped?)
    case Fire(r) => s.client.Idle? && !IsCall(r)
    case Handle(_, _) => !s.worker.Stopped? && s.requests != []
    case IdleLock(_) => s.worker.Unlocked?
    case Outside(_) => true
  }

  /** `Session::send`: a stopped worker drops it. */
  function Enqueue(s: System, r: Request): System {
    s.(requests := if s.worker.Stopped? then s.requests else s.requests + [Msg(r, s.nextTag)], nextTag := s.nextTag + 1)
  }

  /** The responses a step emits. */
  function Emits(s: System, l: Label): seq<Reply>
    requires Enabled(s, l)
  {
    match l
    case Handle(o, fact) =>
      var e := Handled(s.worker, s.board, s.requests[0].req, o, fact);
      if e.reply.Some? then [Reply(e.reply.value, Some(s.requests[0].tag))] else []
    case IdleLock(_) => [Reply(LockedNow, None)]
    case _ => []
  }

  function Next(s: System, l: Label): System
    requires Enabled(s, l)
  {
    match l
    case Begin(r) => s.(client := Draining(r))
    case DrainOne => s.(responses := s.responses[1..])
    case DrainDone => s.(client := Ready(s.client.req))
    case Send => Enqueue(s, s.client.req).(client := Waiting(s.nextTag))
    case Receive => s.(client := Idle, responses := if s.responses == [] then [] else s.responses[1..])
    case Fire(r) => Enqueue(s, r)
    case Handle(o, fact) =>
      var e := Handled(s.worker, s.board, s.requests[0].req, o, fact);
      s.(requests := s.requests[1..], worker := e.worker, board := e.board, responses := s.responses + Emits(s, l))
    case IdleLock(fact) =>
      s.(worker := Locked, board := Wiped(s.board, s.worker.live, fact), responses := s.responses + Emits(s, l))
    case Outside(c) => s.(board := s.board.(content := c))
  }

  predicate IsRun(s: System, ls: seq<Label>)
    decreases |ls|
  {
    ls == [] || (Enabled(s, ls[0]) && IsRun(Next(s, ls[0]), ls[1..]))
  }

  function Run(s: System, ls: seq<Label>): System
    requires IsRun(s, ls)
    decreases |ls|
  {
    if ls == [] then s else Run(Next(s, ls[0]), ls[1..])
  }

  function Initial(board: Board): System { System([], [], Locked, Idle, board, 0) }
}
