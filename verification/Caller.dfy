/** The caller's side of the session: each statement of `call` is a step of the transition system. */
module Callers {
  import opened Bytes
  import opened WorkerModel
  import opened WorkerRuns

  /** Steps taken by the worker thread and by other programs. */
  predicate IsForeign(l: Label) { l.Handle? || l.IdleLock? || l.Outside? }

  class PassmanApp {
    var requests: seq<Msg>
    var responses: seq<Reply>
    var client: Client
    var nextTag: nat

    /** The other end of the two queues. */
    var worker: Worker
    var board: Board

    /** What the other threads get to do before each statement of this one. */
    var others: seq<seq<Label>>

    ghost const home: Board
    ghost var past: seq<Label>

    ghost function View(): System
      reads this
    {
      System(requests, responses, worker, client, board, nextTag)
    }

    /** The state is the one that the steps taken so far lead to. */
    ghost predicate Valid()
      reads this
    {
      IsRun(Initial(home), past) && Run(Initial(home), past) == View()
    }

    constructor (board: Board, others: seq<seq<Label>>)
      ensures Valid() && past == [] && View() == Initial(board)
    {
      requests, responses, client, nextTag := [], [], Idle, 0;
      worker, this.board, this.others := Locked, board, others;
      home, past := board, [];
    }

    /** Records a statement that took the state along label `l`. */
    ghost method Took(before: System, l: Label)
      requires IsRun(Initial(home), past) && Run(Initial(home), past) == before
      requires Enabled(before, l) && Next(before, l) == View()
      modifies this`past
      ensures Valid() && past == old(past) + [l]
    {
      RunLast(before, l);
      RunConcat(Initial(home), past, [l] + []);
      assert [l] + [] == [l];
      past := past + [l];
    }

    /** Any other thread runs: those of its steps that are enabled happen. */
    method Yield() returns (ghost done: seq<Label>)
      requires Valid()
      modifies this
      ensures Valid() && past == old(past) + done && client == old(client)
      ensures |others| < |old(others)| || (others == old(others) == [] && done == [] && View() == old(View()))
      ensures IsRun(old(View()), done) && Run(old(View()), done) == View() && NoReceive(done)
    {
      hide IsRun, Run, Handled, NoReceive, Enabled;
      done := [];
      assert past + [] == past;
      NoSteps(View());
      if others == [] { return; }
      ghost var from := View();
      var steps := others[0];
      others := others[1..];
      for i := 0 to |steps|
        invariant Valid() && past == old(past) + done && client == old(client) && others == old(others)[1..]
        invariant IsRun(from, done) && Run(from, done) == View() && NoReceive(done)
      {
        var l := steps[i];
        if IsForeign(l) && Enabled(System(requests, responses, worker, client, board, nextTag), l) {
          ghost var before := View();
          var s := Next(System(requests, responses, worker, client, board, nextTag), l);
          requests, responses, worker, board := s.requests, s.responses, s.worker, s.board;
          ForeignKeeps(before, l);
          Took(before, l);
          RunLast(before, l);
          RunConcat(from, done, [l] + []);
          NoReceiveConcat(done, [l]);
          assert [l] + [] == [l] && old(past) + done + [l] == old(past) + (done + [l]);
          done := done + [l];
        }
      }
    }

    /** `Session::send`: a stopped worker drops it. */
    method SendRequest(r: Request)
      modifies this`requests, this`nextTag
      ensures View() == Enqueue(old(View()), r)
    {
      if !worker.Stopped? { requests := requests + [Msg(r, nextTag)]; }
      nextTag := nextTag + 1;
    }

    /** `lock` and `clear_clipboard`: the mutex is held only to send. */
    method FireAndForget(r: Request)
      requires Valid() && client.Idle? && !IsCall(r)
      modifies this
      ensures Valid() && past == old(past) + [Fire(r)] && client.Idle?
    {
      ghost var before := View();
      SendRequest(r);
      Took(before, Fire(r));
    }

    method TryRecv() returns (r: Option<Reply>)
      requires Valid() && client.Draining?
      modifies this`responses, this`client, this`past
      ensures Valid() && past == old(past) + [if r.Some? then DrainOne else DrainDone]
      ensures r.Some? ==> client == old(client) && |responses| < |old(responses)|
      ensures r.None? ==> client == Ready(old(client).req)
    {
      ghost var before := View();
      if responses == [] {
        client := Ready(client.req);
        Took(before, DrainDone);
        return None;
      }
      r := Some(responses[0]);
      responses := responses[1..];
      Took(before, DrainOne);
    }

    /** What a call that has run `sent` up to its send, and `waited` since, returns. */
    ghost predicate Returned(r: Request, kind: Option<Kind>, sent: seq<Label>, waited: seq<Label>)
      reads this
    {
      && IsRun(Initial(home), sent) && Run(Initial(home), sent).client == Ready(r)
      && var u := Run(Initial(home), sent);
      && IsRun(Next(u, Send), waited) && NoReceive(waited)
      && var t := Run(Next(u, Send), waited);
      && t.client == Next(u, Send).client
      && (kind.None? ==> View() == t && !Enabled(t, Receive))
      && (kind.Some? ==>
            && Enabled(t, Receive) && View() == Next(t, Receive)
            && kind.value == (if t.responses == [] then Failure else t.responses[0].kind)
            && (Paired(t) <==> WillPair(u, waited)))
    }

    /** Drop everything that is queued. */
    method Drain(r: Request)
      requires Valid() && client == Draining(r)
      modifies this
      ensures Valid() && old(past) <= past && client == Ready(r)
    {
      hide IsRun, Run;
      var draining := true;
      while draining
        invariant Valid() && old(past) <= past && client == (if draining then Draining(r) else Ready(r))
        decreases draining, |others|, |responses|
      {
        var _ := Yield();
        var stale := TryRecv();
        draining := stale.Some?;
      }
    }

    /** Block in `recv`. */
    method Await(r: Request, ghost sent: seq<Label>) returns (kind: Option<Kind>, ghost waited: seq<Label>)
      requires Valid() && IsRun(Initial(home), sent) && Run(Initial(home), sent).client == Ready(r)
      requires View() == Next(Run(Initial(home), sent), Send)
      modifies this
      ensures Valid() && old(past) <= past && Returned(r, kind, sent, waited)
    {
      hide IsRun, Run, Handled, NoReceive;
      ghost var s := View();
      waited := [];
      NoSteps(s);
      while responses == [] && !worker.Stopped?
        invariant Valid() && old(past) <= past && client == s.client
        invariant IsRun(s, waited) && Run(s, waited) == View() && NoReceive(waited)
        decreases |others|
      {
        if others == [] { return None, waited; }
        var done := Yield();
        RunConcat(s, waited, done);
        NoReceiveConcat(waited, done);
        waited := waited + done;
      }
      hide Quiet, WillPair, Paired, Enqueue;
      PairedIff(home, sent, waited);
      ghost var before := View();
      kind := Some(if responses == [] then Failure else responses[0].kind);
      responses := if responses == [] then [] else responses[1..];
      client := Idle;
      Took(before, Receive);
    }

    /**
     * `call`, with the other threads running between its statements: `None` while it is still
     * blocked in `recv`.
     */
    method Call(r: Request) returns (kind: Option<Kind>, ghost sent: seq<Label>, ghost waited: seq<Label>)
      requires Valid() && client.Idle? && IsCall(r)
      modifies this
      ensures Valid() && old(past) <= sent <= past && Returned(r, kind, sent, waited)
    {
      hide IsRun, Run, Handled, Returned;
      ghost var before := View();
      client := Draining(r);
      Took(before, Begin(r));
      Drain(r);

      var _ := Yield();
      sent, before := past, View();
      var tag := nextTag;
      SendRequest(r);
      client := Waiting(tag);
      Took(before, Send);
      kind, waited := Await(r, sent);
    }
  }

  lemma ForeignKeeps(s: System, l: Label)
    requires IsForeign(l) && Enabled(s, l)
    ensures Next(s, l).client == s.client && Next(s, l).nextTag == s.nextTag && NoReceive([l])
  {
  }

  lemma NoSteps(s: System)
    ensures IsRun(s, []) && Run(s, []) == s && NoReceive([])
  {
  }

  lemma NoReceiveConcat(a: seq<Label>, b: seq<Label>)
    requires NoReceive(a) && NoReceive(b)
    ensures NoReceive(a + b)
  {
  }
}
