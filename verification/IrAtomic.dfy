/**
 What holds besides when no two calls of `send` overlap, whatever the worker and `stopSend` do meanwhile.
 */
module IrAtomic {
  import opened IrProtocol
  import opened IrConservation
  import opened IrRepeat

  /** The task is between entering `send` and returning from it. */
  predicate InSend(pc: Task) {
    !pc.Out? && !pc.Stopping?
  }

  /** A send starts only while no other is under way. */
  ghost predicate Atomic(s: State, a: Action) {
    a.Call? ==> forall t :: 0 <= t < |s.tasks| ==> !InSend(s.tasks[t])
  }

  ghost predicate AtomicRun(s: State, run: seq<Action>)
    decreases |run|
  {
    run != [] ==>
      Atomic(s, run[0]) &&
      match Next(s, run[0])
      case Moved(s') => AtomicRun(s', run[1..])
      case _ => AtomicRun(s, run[1..])
  }

  ghost predicate OneSender(s: State) {
    forall t, u :: 0 <= t < |s.tasks| && 0 <= u < |s.tasks| && InSend(s.tasks[t]) && InSend(s.tasks[u]) ==> t == u
  }

  /** A sender that found the queue empty still finds it empty, with no repeat asked for since. */
  ghost predicate UndisturbedAt(s: State, pc: Task) {
    && (pc.Free? || pc.Cleared? || pc.Holding? ==> s.queue.None?)
    && (pc.Cleared? ==> pc.since.grants == s.mark.grants && (s.stopBit <==> pc.since.stops < s.mark.stops))
    && (pc.Holding? && pc.ptr < |s.heap| ==>
          && s.heap[pc.ptr].cleared.grants == s.mark.grants
          && (s.stopBit <==> s.heap[pc.ptr].cleared.stops < s.mark.stops))
  }

  ghost predicate Undisturbed(s: State) {
    forall t :: 0 <= t < |s.tasks| ==> UndisturbedAt(s, s.tasks[t])
  }

  /** The current code is that of the queued message, and a repeat is granted only for it. */
  ghost predicate CodeMatches(s: State) {
    s.queue.Some? && s.queue.value < |s.heap| ==>
      var cell := s.heap[s.queue.value];
      && cell.cleared.grants == cell.queued.grants
      && (s.currentCode == cell.msg.code || Returning(s, s.queue.value))
      && (forall t :: 0 <= t < |s.tasks| ==>
            && (s.tasks[t].Queued? ==> s.tasks[t].ptr == s.queue.value)
            && (s.tasks[t].Repeating? ==> s.tasks[t].req.repeat > 0 && s.tasks[t].req.code == cell.msg.code))
  }

  lemma ClientOne(s: State, a: Action)
    requires OneSender(s) && Atomic(s, a) && ClientStep(s, a).Moved?
    ensures OneSender(ClientStep(s, a).s)
  {
  }

  lemma StopUndisturbed(s: State, t: nat)
    requires Holders(s) && Fresh(s) && Undisturbed(s) && t < |s.tasks| && At(s, t).Out?
    ensures Undisturbed(ClientStep(s, Stop(t)).s)
  {
  }

  /** A sender's own step: nobody else is in `send`. */
  lemma SendUndisturbed(s: State, a: Action)
    requires Holders(s) && OneSender(s) && Undisturbed(s) && ClientStep(s, a).Moved?
    requires !a.Stop? && !a.StopClear? && !a.Learn? && !a.Call?
    ensures Undisturbed(ClientStep(s, a).s)
  {
    var s' := ClientStep(s, a).s;
    assert InSend(s.tasks[a.t]);
    assert UndisturbedAt(s, s.tasks[a.t]);
    assert UndisturbedAt(s', s'.tasks[a.t]);
    forall t | 0 <= t < |s'.tasks|
      ensures UndisturbedAt(s', s'.tasks[t])
    {
      if t != a.t {
        assert s'.tasks[t] == s.tasks[t] && !InSend(s.tasks[t]);
      }
    }
  }

  lemma ClientUndisturbed(s: State, a: Action)
    requires Holders(s) && Fresh(s) && OneSender(s) && Undisturbed(s) && ClientStep(s, a).Moved?
    ensures Undisturbed(ClientStep(s, a).s)
  {
    hide Fresh, OneSender;
    if a.Stop? {
      StopUndisturbed(s, a.t);
    } else if !a.StopClear? && !a.Learn? && !a.Call? {
      hide Undisturbed;
      SendUndisturbed(s, a);
    }
  }

  lemma AcceptMatches(s: State, t: nat)
    requires Holders(s) && OneSender(s) && Undisturbed(s) && At(s, t).Holding? && s.queue.None?
    ensures ClientStep(s, Enqueue(t)).Moved? && CodeMatches(ClientStep(s, Enqueue(t)).s)
  {
    assert InSend(s.tasks[t]);
  }

  lemma SetCodeMatches(s: State, t: nat)
    requires Holders(s) && Owned(s) && OneSender(s) && CodeMatches(s) && At(s, t).Queued?
    ensures CodeMatches(ClientStep(s, SetCode(t)).s)
  {
    assert InSend(s.tasks[t]);
  }

  lemma CompareMatches(s: State, t: nat)
    requires Owned(s) && OneSender(s) && CodeMatches(s) && At(s, t).Busy?
    ensures CodeMatches(ClientStep(s, Compare(t)).s)
  {
    assert InSend(s.tasks[t]);
    assert s.queue.Some? && Returning(s, s.queue.value) ==> InSend(s.tasks[s.heap[s.queue.value].holder]);
  }

  /** A step that leaves the queue, its message and the current code alone, and grants no repeat. */
  lemma MatchesStand(s: State, s': State)
    requires Owned(s) && CodeMatches(s) && s'.queue == s.queue && s'.currentCode == s.currentCode
    requires |s'.tasks| == |s.tasks| && |s.heap| <= |s'.heap|
    requires forall p :: 0 <= p < |s.heap| ==> s'.heap[p].(live := s.heap[p].live) == s.heap[p]
    requires forall t :: 0 <= t < |s.tasks| && (s'.tasks[t].Queued? || s'.tasks[t].Repeating? || s.tasks[t].Queued?) ==>
               s'.tasks[t] == s.tasks[t]
    ensures CodeMatches(s')
  {
  }

  lemma ClientMatches(s: State, a: Action)
    requires Holders(s) && Owned(s) && OneSender(s) && Undisturbed(s) && CodeMatches(s) && ClientStep(s, a).Moved?
    ensures CodeMatches(ClientStep(s, a).s)
  {
    hide OneSender, Undisturbed, CodeMatches, Owned;
    if a.Enqueue? && s.queue.None? {
      AcceptMatches(s, a.t);
    } else if a.SetCode? {
      SetCodeMatches(s, a.t);
    } else if a.Compare? {
      CompareMatches(s, a.t);
    } else {
      MatchesStand(s, ClientStep(s, a).s);
    }
  }

  lemma WorkerAtomic(s: State, a: Action)
    requires Holders(s) && Owned(s) && OneSender(s) && Undisturbed(s) && CodeMatches(s) && WorkerStep(s, a).Moved?
    ensures OneSender(WorkerStep(s, a).s) && Undisturbed(WorkerStep(s, a).s) && CodeMatches(WorkerStep(s, a).s)
  {
  }

  ghost predicate Serial(s: State) {
    Good(s) && OneSender(s) && Undisturbed(s) && CodeMatches(s)
  }

  lemma StepSerial(s: State, a: Action)
    requires Serial(s) && Atomic(s, a) && Next(s, a).Moved?
    ensures Serial(Next(s, a).s)
  {
    StepGood(s, a);
    hide Fresh, Bounded, Owned, Holders, Balanced, Finished, Promised, OneSender, Undisturbed, CodeMatches;
    hide ClientStep, WorkerStep, Atomic;
    if OfWorker(a) {
      WorkerAtomic(s, a);
    } else {
      ClientOne(s, a);
      ClientUndisturbed(s, a);
      ClientMatches(s, a);
    }
  }

  lemma {:induction false} RunSerial(s: State, run: seq<Action>)
    requires Serial(s) && AtomicRun(s, run)
    ensures Run(s, run).Moved? && Serial(Run(s, run).s)
    decreases |run|
  {
    hide Atomic;
    hide Good;
    if run != [] {
      StepGood(s, run[0]);
      hide Serial;
      if Next(s, run[0]).Moved? {
        StepSerial(s, run[0]);
        RunSerial(Next(s, run[0]).s, run[1..]);
      } else {
        RunSerial(s, run[1..]);
      }
    }
  }

  lemma InitSerial(n: nat)
    ensures Serial(Init(n))
  {
    InitGood(n);
  }

  lemma SerialBound(s: State)
    requires Serial(s) && (s.worker.Sending? || s.worker.Refilling?)
    ensures s.worker.ptr < |s.heap|
    ensures s.worker.again + s.worker.repeat
            <= Allowed(s.heap[s.worker.ptr].msg.repeat, s.mark.grants - s.heap[s.worker.ptr].queued.grants)
  {
    hide Allowed;
    BoundOf(s);
    assert Owned(s);
    hide Good, OneSender, Undisturbed;
    assert GrantsFor(s, s.worker.ptr) == s.mark.grants - s.heap[s.worker.ptr].queued.grants;
  }

  /**
   Without overlapping sends a transmission never uses more repeats than its own count times one plus
   the 202 answers given since its message was queued.
   */
  lemma RepeatsSinceQueued(n: nat, run: seq<Action>)
    requires AtomicRun(Init(n), run)
    ensures Run(Init(n), run).Moved?
    ensures var s := Run(Init(n), run).s;
            var w := s.worker;
            w.Sending? || w.Refilling? ==>
              && w.ptr < |s.heap|
              && w.again + w.repeat
                 <= Allowed(s.heap[w.ptr].msg.repeat, s.mark.grants - s.heap[w.ptr].queued.grants)
  {
    hide AtomicRun, Run, Serial, Init, Allowed;
    InitSerial(n);
    RunSerial(Init(n), run);
    var s := Run(Init(n), run).s;
    if s.worker.Sending? || s.worker.Refilling? {
      SerialBound(s);
    }
  }

  lemma SerialStart(s: State, t: nat)
    requires Serial(s) && At(s, t).Holding?
    ensures s.queue.None? && !s.repeatBit && At(s, t).ptr < |s.heap|
    ensures s.stopBit <==> s.heap[At(s, t).ptr].cleared.stops < s.mark.stops
  {
    FreshFor(s, t);
    hide Good, OneSender, CodeMatches;
    assert UndisturbedAt(s, s.tasks[t]);
  }

  /**
   Without overlapping sends every message is accepted, into an empty queue, with the repeat bit clear;
   the stop bit is set exactly when a stop came after its own sender cleared the bits.
   */
  lemma StartsClear(n: nat, run: seq<Action>, t: nat)
    requires AtomicRun(Init(n), run)
    ensures Run(Init(n), run).Moved?
    ensures var s := Run(Init(n), run).s;
            At(s, t).Holding? ==>
              && s.queue.None? && !s.repeatBit && At(s, t).ptr < |s.heap|
              && (s.stopBit <==> s.heap[At(s, t).ptr].cleared.stops < s.mark.stops)
  {
    hide AtomicRun, Run, Serial, Init;
    InitSerial(n);
    RunSerial(Init(n), run);
    var s := Run(Init(n), run).s;
    if At(s, t).Holding? {
      SerialStart(s, t);
    }
  }

  lemma SerialCode(s: State)
    requires Serial(s) && s.queue.Some?
    ensures s.queue.value < |s.heap|
    ensures (forall t :: 0 <= t < |s.tasks| ==> !s.tasks[t].Queued?) ==> s.currentCode == s.heap[s.queue.value].msg.code
    ensures forall t :: 0 <= t < |s.tasks| && s.tasks[t].Repeating? ==>
              s.tasks[t].req.repeat > 0 && s.tasks[t].req.code == s.heap[s.queue.value].msg.code
  {
    assert Owned(s);
    hide Good, OneSender, Undisturbed;
  }

  /**
   Without overlapping sends the current code is the queued one as soon as its send has returned, and
   a repeat is granted only to a send of that same code.
   */
  lemma CodeIsQueued(n: nat, run: seq<Action>)
    requires AtomicRun(Init(n), run)
    ensures Run(Init(n), run).Moved?
    ensures var s := Run(Init(n), run).s;
            s.queue.Some? ==>
              && s.queue.value < |s.heap|
              && ((forall t :: 0 <= t < |s.tasks| ==> !s.tasks[t].Queued?) ==>
                    s.currentCode == s.heap[s.queue.value].msg.code)
              && (forall t :: 0 <= t < |s.tasks| && s.tasks[t].Repeating? ==>
                    s.tasks[t].req.repeat > 0 && s.tasks[t].req.code == s.heap[s.queue.value].msg.code)
  {
    hide AtomicRun, Run, Serial, Init;
    InitSerial(n);
    RunSerial(Init(n), run);
    var s := Run(Init(n), run).s;
    if s.queue.Some? {
      SerialCode(s);
    }
  }

  lemma SerialHalts(s: State)
    requires Serial(s) && s.stopBit && s.queue.Some?
    ensures Inv(s) && Halted(s)
  {
    hide Fresh, Bounded, Owned, Holders, Balanced, Finished, Promised, OneSender, CodeMatches;
    forall t | 0 <= t < |s.tasks|
      ensures !s.tasks[t].Free?
    {
      assert UndisturbedAt(s, s.tasks[t]);
    }
  }

  /**
   Without overlapping sends a stop requested while a message is queued or being transmitted ends its
   repeats: whatever follows up to the reset, later 202 answers included, no callback that reads the
   bits from then on asks for more.
   */
  lemma StopEndsRepeats(n: nat, run: seq<Action>, rest: seq<Action>)
    requires AtomicRun(Init(n), run) && NoReset(rest)
    ensures Run(Init(n), run).Moved?
    ensures var s := Run(Init(n), run).s;
            s.stopBit && s.queue.Some? ==>
              && Run(s, rest).Moved? && Run(s, rest).s.stopBit
              && Asked(Run(s, rest).s.worker) <= Asked(s.worker)
  {
    hide AtomicRun, Run, Serial, Init, Inv;
    InitSerial(n);
    RunSerial(Init(n), run);
    var s := Run(Init(n), run).s;
    if s.stopBit && s.queue.Some? {
      SerialHalts(s);
      StopWins(s, rest);
    }
  }
}
