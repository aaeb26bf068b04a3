/** What the worker leaves on the clipboard when a session ends, over every run. */
module ClipboardRuns {
  import opened Bytes
  import opened WorkerModel

  /**
   * The secret last copied in this session, whether any ClearClipboard was handled since, and
   * whether one of those drew the secret itself as its fact.
   */
  datatype CopyLog = CopyLog(last: Option<Digest>, cleared: bool, redrawn: bool)

  function Track(s: System, l: Label, h: CopyLog): CopyLog
    requires Enabled(s, l)
  {
    if !l.Handle? then h
    else
      var r := s.requests[0].req;
      if s.worker.Locked? then (if r.Create? || r.Unlock? then CopyLog(None, false, false) else h)
      else if r.Copy? && s.board.available && l.outcome.Works? then CopyLog(Some(r.secret), false, false)
      else if r.ClearClipboard? then h.(cleared := true, redrawn := h.redrawn || Some(l.fact) == h.last)
      else h
  }

  function TrackRun(s: System, ls: seq<Label>, h: CopyLog): CopyLog
    requires IsRun(s, ls)
    decreases |ls|
  {
    if ls == [] then h else TrackRun(Next(s, ls[0]), ls[1..], Track(s, ls[0], h))
  }

  /** The log of a run from the start of the worker. */
  function Copies(board: Board, ls: seq<Label>): CopyLog
    requires IsRun(Initial(board), ls)
  {
    TrackRun(Initial(board), ls, CopyLog(None, false, false))
  }

  /** The worker's live cookie is the last copy, unless any ClearClipboard came after it. */
  predicate LiveIs(s: System, h: CopyLog) {
    s.worker.Unlocked? ==> s.worker.live == if h.cleared then None else h.last
  }

  lemma {:induction false} LiveTracks(s: System, ls: seq<Label>, h: CopyLog)
    requires IsRun(s, ls) && LiveIs(s, h)
    ensures LiveIs(Run(s, ls), TrackRun(s, ls, h))
    decreases |ls|
  {
    if ls != [] {
      LiveTracks(Next(s, ls[0]), ls[1..], Track(s, ls[0], h));
    }
  }

  /** The digest that a step of the worker clears by: the cookie of a request, or the live one on the way out. */
  function ClearedBy(s: System, l: Label): Option<Digest>
    requires Enabled(s, l)
  {
    if !s.worker.Unlocked? then None
    else if l.Handle? && s.requests[0].req.ClearClipboard? then Some(s.requests[0].req.cookie)
    else if Next(s, l).worker.Unlocked? then None
    else s.worker.live
  }

  /** The secret that a step copies. */
  function CopiedBy(s: System, l: Label): Option<Digest>
    requires Enabled(s, l)
  {
    if s.worker.Unlocked? && l.Handle? && s.requests[0].req.Copy? && s.board.available && l.outcome.Works? then
      Some(s.requests[0].req.secret)
    else None
  }

  /**
   * Apart from other programs only a copy writes the clipboard, and a clearing whose digest
   * is what is on it: anything else that was put there stays.
   */
  lemma WritesExactly(s: System, l: Label)
    requires Enabled(s, l) && !l.Outside?
    ensures Next(s, l).board.content ==
              if CopiedBy(s, l).Some? then CopiedBy(s, l)
              else if ClearedBy(s, l).Some? && s.board.content == ClearedBy(s, l) && Overwrites(s.board) then Drawn(l)
              else s.board.content
  {
  }

  /** Clearing overwrites what is on this clipboard. */
  predicate Overwrites(b: Board) { b.available && b.overwrite }

  /** The fact a clearing in this step draws. */
  function Drawn(l: Label): Option<Digest> { if l.Handle? || l.IdleLock? then Some(l.fact) else None }

  /** Step `l` ends the session that run `ls` left open. */
  predicate Ends(board: Board, ls: seq<Label>, l: Label) {
    IsRun(Initial(board), ls)
    && var t := Run(Initial(board), ls);
    Enabled(t, l) && t.worker.Unlocked? && !Next(t, l).worker.Unlocked?
  }

  /**
   * When a session ends, by locking, expiring or quitting, its last copied secret is left on
   * the clipboard exactly when it was there and either some ClearClipboard, for whatever
   * copy, had been handled since, or clearing does not overwrite, or it just drew the secret
   * itself.
   */
  lemma ExitLeavesSecretIff(board: Board, ls: seq<Label>, l: Label, secret: Digest)
    requires Ends(board, ls, l) && Copies(board, ls).last == Some(secret)
    ensures var t := Run(Initial(board), ls);
            Next(t, l).board.content == Some(secret) <==>
            && t.board.content == Some(secret)
            && (Copies(board, ls).cleared || !Overwrites(board) || Drawn(l) == Some(secret))
  {
    LiveTracks(Initial(board), ls, CopyLog(None, false, false));
    BoardIsFixed(Initial(board), ls);
  }

  lemma {:induction false} BoardIsFixed(s: System, ls: seq<Label>)
    requires IsRun(s, ls)
    ensures Run(s, ls).board == s.board.(content := Run(s, ls).board.content)
    decreases |ls|
  {
    if ls != [] {
      BoardIsFixed(Next(s, ls[0]), ls[1..]);
    }
  }

  predicate ClearsNow(s: System, l: Label)
    requires Enabled(s, l)
  {
    l.Handle? && s.worker.Unlocked? && s.requests[0].req.ClearClipboard?
  }

  /** Every handled ClearClipboard is for the latest copy, and no other program pastes that secret. */
  predicate TimelyClears(s: System, ls: seq<Label>, h: CopyLog)
    requires IsRun(s, ls)
    decreases |ls|
  {
    ls == [] ||
    (&& (ClearsNow(s, ls[0]) ==> Some(s.requests[0].req.cookie) == h.last)
     && (ls[0].Outside? && ls[0].content.Some? ==> ls[0].content != h.last)
     && TimelyClears(Next(s, ls[0]), ls[1..], Track(s, ls[0], h)))
  }

  /** On a clipboard that clearing overwrites, a cleared copy is gone, unless it was drawn again as the fact. */
  predicate GoneWhenCleared(s: System, h: CopyLog) {
    h.last.Some? && h.cleared && !h.redrawn && Overwrites(s.board) ==> s.board.content != h.last
  }

  lemma {:induction false} ClearsWipe(s: System, ls: seq<Label>, h: CopyLog)
    requires IsRun(s, ls) && LiveIs(s, h) && GoneWhenCleared(s, h) && TimelyClears(s, ls, h)
    requires h.redrawn ==> h.cleared
    ensures var h' := TrackRun(s, ls, h); GoneWhenCleared(Run(s, ls), h') && (h'.redrawn ==> h'.cleared)
    decreases |ls|
  {
    if ls != [] {
      LiveTracks(s, [ls[0]], h);
      ClearsWipe(Next(s, ls[0]), ls[1..], Track(s, ls[0], h));
    }
  }

  /**
   * With timely clears a session leaves its last copied secret behind exactly when clearing
   * does not overwrite, or drew the secret itself, now or since the copy.
   */
  lemma TimelyClearsLeaveIff(board: Board, ls: seq<Label>, l: Label, secret: Digest)
    requires Ends(board, ls, l) && Copies(board, ls).last == Some(secret)
    requires TimelyClears(Initial(board), ls, CopyLog(None, false, false))
    ensures var t := Run(Initial(board), ls);
            Next(t, l).board.content == Some(secret) <==>
            && t.board.content == Some(secret)
            && (!Overwrites(board) || Copies(board, ls).redrawn || Drawn(l) == Some(secret))
  {
    ClearsWipe(Initial(board), ls, CopyLog(None, false, false));
    ExitLeavesSecretIff(board, ls, l, secret);
    BoardIsFixed(Initial(board), ls);
  }
}
