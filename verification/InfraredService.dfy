/**
 The infrared service as an object, for calls that nothing interrupts: each method is the source's,
 changes the fields the source changes, and amounts to a schedule of the protocol's steps.
 */
module InfraredObject {
  import opened Bytes
  import opened IrProtocol

  function Looking(t: nat, req: Request): seq<Action> {
    [Call(t, req), Look(t)]
  }

  function Prolonging(t: nat): seq<Action> {
    [Compare(t), Grant(t)]
  }

  function Queueing(t: nat): seq<Action> {
    [Clear(t), Allocate(t), Enqueue(t), SetCode(t)]
  }

  /** The steps of one call of `send` in order; those the call does not get to are skipped. */
  function SendSchedule(t: nat, req: Request): seq<Action> {
    Looking(t, req) + (Prolonging(t) + Queueing(t))
  }

  /** The state after a 202 answer. */
  function Prolong(s: State): State {
    s.(repeatBit := true, mark := s.mark.(grants := s.mark.grants + 1))
  }

  /** The state after a message has been queued by a send that nothing interrupted. */
  function Accept(s: State, t: nat, req: Request): State {
    var k := Ticket(|s.heap|, req.clientId, req.msgId);
    s.(repeatBit := false, stopBit := false, queue := Some(|s.heap|), currentCode := req.code,
       heap := s.heap + [Cell(req, true, t, s.mark, s.mark)],
       past := s.past.(accepted := s.past.accepted + [k], returned := s.past.returned + [k]))
  }

  lemma RunTwo(s: State, a: Action, b: Action)
    requires Next(s, a) != Fault
    ensures var s' := if Next(s, a).Moved? then Next(s, a).s else s;
            Run(s, [a, b]) == if Next(s', b).Blocked? then Moved(s') else Next(s', b)
  {
    hide Next;
    var s' := if Next(s, a).Moved? then Next(s, a).s else s;
    assert [b][1..] == [];
    assert Run(s', [b]) == if Next(s', b).Blocked? then Moved(s') else Next(s', b);
    assert [a, b][1..] == [b];
  }

  /** A task outside `send` takes no step but `Call`. */
  lemma {:induction false} RunBlocked(s: State, run: seq<Action>)
    requires forall a :: a in run ==> Next(s, a).Blocked?
    ensures Run(s, run) == Moved(s)
    decreases |run|
  {
    hide Next;
    if run != [] {
      assert run[0] in run;
      assert forall a :: a in run[1..] ==> a in run;
      RunBlocked(s, run[1..]);
    }
  }

  lemma IdleTask(s: State, t: nat)
    requires At(s, t).Out?
    ensures Run(s, Prolonging(t) + Queueing(t)) == Moved(s) && Run(s, Queueing(t)) == Moved(s)
  {
    RunBlocked(s, Prolonging(t) + Queueing(t));
    RunBlocked(s, Queueing(t));
  }

  predicate Refused(s: State, req: Request) {
    s.learning || req.pins == 0 || !KnownFormat(req.format)
  }

  lemma RefusedRun(s: State, t: nat, req: Request)
    requires t < |s.tasks| && s.tasks[t].Out? && Refused(s, req)
    ensures Run(s, SendSchedule(t, req)) == Moved(s)
  {
    RunTwo(s, Call(t, req), Look(t));
    hide Run;
    RunJoin(s, Looking(t, req), Prolonging(t) + Queueing(t));
    IdleTask(s, t);
  }

  /** The checks and the look at the queue. */
  lemma LookingRun(s: State, t: nat, req: Request)
    requires t < |s.tasks| && s.tasks[t].Out? && !Refused(s, req)
    ensures Run(s, Looking(t, req)) == Moved(Go(s, t, if s.queue.Some? then Busy(req) else Free(req)))
  {
    RunTwo(s, Call(t, req), Look(t));
    hide Run;
    var pc := if s.queue.Some? then Busy(req) else Free(req);
    assert s.tasks[t := Called(req)][t := pc] == s.tasks[t := pc];
  }

  lemma ProlongingRun(s: State, t: nat)
    requires t < |s.tasks| && s.tasks[t].Busy?
    ensures var req := s.tasks[t].req;
            Run(s, Prolonging(t)) ==
            Moved(if req.repeat > 0 && s.currentCode == req.code then Prolong(Go(s, t, Out)) else Go(s, t, Out))
  {
    hide Run;
    var req := s.tasks[t].req;
    var again := req.repeat > 0 && s.currentCode == req.code;
    var s1 := Go(s, t, if again then Repeating(req) else Out);
    assert Next(s, Compare(t)) == Moved(s1);
    assert Next(s1, Grant(t)) == if again then Moved(Prolong(Go(s, t, Out))) else Blocked by {
      assert s1.tasks[t := Out] == s.tasks[t := Out];
    }
    hide Next;
    RunTwo(s, Compare(t), Grant(t));
  }

  lemma BusyRun(s: State, t: nat, req: Request)
    requires t < |s.tasks| && s.tasks[t].Out? && !Refused(s, req) && s.queue.Some?
    ensures Run(s, SendSchedule(t, req)) ==
            Moved(if req.repeat > 0 && s.currentCode == req.code then Prolong(s) else s)
  {
    hide Run;
    var s2 := Go(s, t, Busy(req));
    LookingRun(s, t, req);
    ProlongingRun(s2, t);
    hide ClientStep;
    hide WorkerStep;
    assert s.tasks[t := Busy(req)][t := Out] == s.tasks;
    RunJoin(s, Looking(t, req), Prolonging(t) + Queueing(t));
    RunJoin(s2, Prolonging(t), Queueing(t));
    IdleTask(if req.repeat > 0 && s.currentCode == req.code then Prolong(s) else s, t);
  }

  /** The message is allocated with the bits clear. */
  function Allocated(s: State, t: nat, req: Request): State
    requires t < |s.tasks|
  {
    Go(s, t, Holding(req, |s.heap|)).(repeatBit := false, stopBit := false,
                                      heap := s.heap + [Cell(req, true, t, s.mark, s.mark)])
  }

  lemma AllocatingRun(s: State, t: nat, req: Request)
    requires t < |s.tasks| && s.tasks[t] == Free(req)
    ensures Run(s, [Clear(t), Allocate(t)]) == Moved(Allocated(s, t, req))
  {
    hide Run;
    var s1 := Go(s, t, Cleared(req, s.mark)).(repeatBit := false, stopBit := false);
    assert Next(s, Clear(t)) == Moved(s1);
    assert Next(s1, Allocate(t)) == Moved(Allocated(s, t, req)) by {
      assert s1.tasks[t := Holding(req, |s.heap|)] == s.tasks[t := Holding(req, |s.heap|)];
    }
    hide Next;
    RunTwo(s, Clear(t), Allocate(t));
  }

  lemma EnqueueingRun(s: State, t: nat, req: Request)
    requires t < |s.tasks| && s.queue.None?
    ensures Run(Allocated(s, t, req), [Enqueue(t), SetCode(t)]) == Moved(Accept(Go(s, t, Out), t, req))
  {
    var s2 := Allocated(s, t, req);
    RunTwo(s2, Enqueue(t), SetCode(t));
    hide Run;
    assert s2.heap[|s.heap| := s2.heap[|s.heap|].(queued := s.mark)] == s2.heap;
    assert s2.tasks[t := Queued(req, |s.heap|)][t := Out] == s.tasks[t := Out];
  }

  lemma QueueingRun(s: State, t: nat, req: Request)
    requires t < |s.tasks| && s.tasks[t] == Free(req) && s.queue.None?
    ensures Run(s, Queueing(t)) == Moved(Accept(Go(s, t, Out), t, req))
  {
    hide Run;
    AllocatingRun(s, t, req);
    EnqueueingRun(s, t, req);
    RunJoin(s, [Clear(t), Allocate(t)], [Enqueue(t), SetCode(t)]);
    assert Queueing(t) == [Clear(t), Allocate(t)] + [Enqueue(t), SetCode(t)];
  }

  lemma AcceptRun(s: State, t: nat, req: Request)
    requires t < |s.tasks| && s.tasks[t].Out? && !Refused(s, req) && s.queue.None?
    ensures Run(s, SendSchedule(t, req)) == Moved(Accept(s, t, req))
  {
    hide Run;
    var s2 := Go(s, t, Free(req));
    LookingRun(s, t, req);
    RunTwo(s2, Compare(t), Grant(t));
    RunJoin(s, Looking(t, req), Prolonging(t) + Queueing(t));
    RunJoin(s2, Prolonging(t), Queueing(t));
    QueueingRun(s2, t, req);
    assert s.tasks[t := Out] == s.tasks;
  }

  /** What a call of `send` that nothing interrupts answers. */
  function Answer(s: State, req: Request): nat {
    if s.learning then 503
    else if req.pins == 0 || !KnownFormat(req.format) then 400
    else if s.queue.None? then 0
    else if req.repeat > 0 && s.currentCode == req.code then 202
    else 429
  }

  class InfraredService {
    /** `init` has created the queue and the event group. */
    var ready: bool
    var queue: Option<nat>
    var messages: seq<Cell>
    var currentSendCode: string
    var repeatBit: bool
    var stopBit: bool
    var learningBit: bool
    /** The worker with the counters its callback captures by reference. */
    var worker: Worker
    /** The history the protocol's claims are about; the program does not read it. */
    var mark: Mark
    var past: History

    /** The protocol state when `n` client tasks exist and none is in a call. */
    ghost function Quiet(n: nat): State
      reads this
    {
      Init(n).(heap := messages, queue := queue, currentCode := currentSendCode, repeatBit := repeatBit,
               stopBit := stopBit, learning := learningBit, worker := worker, mark := mark, past := past)
    }

    /**
     `send`, called by task `t` of `n`: the protocol's own steps with nothing in between. A message is
     queued exactly when the answer is 0.
     */
    method Send(n: nat, t: nat, req: Request) returns (code: nat)
      requires t < n
      modifies this
      ensures ready == old(ready) && (!ready ==> code == 500 && Quiet(n) == old(Quiet(n)))
      ensures ready ==> Run(old(Quiet(n)), SendSchedule(t, req)) == Moved(Quiet(n))
      ensures ready ==> code == Answer(old(Quiet(n)), req)
      ensures past.accepted == old(past.accepted)
                               + if code == 0 then [Ticket(old(|messages|), req.clientId, req.msgId)] else []
    {
      hide Run, SendSchedule;
      ghost var s := Quiet(n);
      if !ready {
        return 500;
      }
      if learningBit {
        RefusedRun(s, t, req);
        return 503;
      }
      if req.pins == 0 || !KnownFormat(req.format) {
        RefusedRun(s, t, req);
        return 400;
      }
      var sending := queue.Some?;
      if sending && req.repeat > 0 && currentSendCode == req.code {
        repeatBit := true;
        mark := mark.(grants := mark.grants + 1);
        BusyRun(s, t, req);
        return 202;
      }
      if sending {
        BusyRun(s, t, req);
        return 429;
      }
      repeatBit, stopBit := false, false;
      var pxMessage := |messages|;
      messages := messages + [Cell(req, true, t, mark, mark)];
      queue := Some(pxMessage);
      currentSendCode := req.code;
      past := past.(accepted := past.accepted + [Ticket(pxMessage, req.clientId, req.msgId)],
                    returned := past.returned + [Ticket(pxMessage, req.clientId, req.msgId)]);
      AcceptRun(s, t, req);
      return 0;
    }

    /** `stopSend` sets the stop bit and clears the repeat bit. */
    method StopSend(n: nat, t: nat)
      requires t < n
      modifies this
      ensures ready == old(ready) && (!ready ==> Quiet(n) == old(Quiet(n)))
      ensures ready ==> Run(old(Quiet(n)), [Stop(t), StopClear(t)]) == Moved(Quiet(n))
    {
      ghost var s := Quiet(n);
      if !ready {
        return;
      }
      stopBit := true;
      repeatBit := false;
      mark := mark.(stops := mark.stops + 1);
      RunTwo(s, Stop(t), StopClear(t));
      hide Run;
      assert s.tasks[t := Stopping][t := Out] == s.tasks;
    }

    /** The repeat callback of the transmission under way: true asks for the code to be sent again. */
    method RepeatCallback(n: nat) returns (again: bool)
      requires worker.Sending? && worker.limit > 0
      modifies this
      ensures worker.Sending? && ready == old(ready)
      ensures Run(old(Quiet(n)), [Callback, Refill]) == Moved(Quiet(n))
      ensures worker.again == old(worker.again) + if again then 1 else 0
    {
      ghost var s := Quiet(n);
      RunTwo(s, Callback, Refill);
      var repeat := worker.repeat;
      if stopBit {
        repeat := 0;
      } else if repeatBit {
        repeat := worker.limit;
        repeatBit := false;
      }
      again := repeat > 0;
      if again {
        worker := Sending(worker.ptr, worker.limit, repeat - 1, worker.again + 1);
      } else {
        worker := Sending(worker.ptr, worker.limit, repeat, worker.again);
      }
    }
  }
}
