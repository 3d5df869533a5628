/**
 Repeats and stops. A transmission can be prolonged by repeats answered with 202 and ended by a stop
 request, both through event bits that the worker polls and that every new send clears.
 */
module IrRepeat {
  import opened Bytes
  import opened IrProtocol
  import opened IrConservation

  /** How often a message of `limit` repeats may be sent again when `n` further repeats have been accepted. */
  function Allowed(limit: nat, n: int): int {
    limit * (1 + n)
  }

  lemma MoreAllowed(limit: nat, n: nat)
    ensures Allowed(limit, n + 1) == Allowed(limit, n) + limit
    ensures n > 0 ==> Allowed(limit, n) >= limit + limit
    ensures Allowed(limit, n) >= limit
  {
  }

  /** A bit that is set has been set since `m`. */
  predicate OnlySince(s: State, m: Mark) {
    && m.grants <= s.mark.grants && m.stops <= s.mark.stops
    && (s.repeatBit ==> m.grants < s.mark.grants)
    && (s.stopBit ==> m.stops < s.mark.stops)
  }

  /** Nothing a sender cleared is seen set again unless someone set it after the clearing. */
  ghost predicate Fresh(s: State) {
    && (forall t :: 0 <= t < |s.tasks| && s.tasks[t].Cleared? ==> OnlySince(s, s.tasks[t].since))
    && (forall t :: 0 <= t < |s.tasks| && s.tasks[t].Holding? && s.tasks[t].ptr < |s.heap| ==>
          OnlySince(s, s.heap[s.tasks[t].ptr].cleared))
  }

  /** Repeats accepted since the sender of message `p` cleared the bits. */
  function GrantsFor(s: State, p: nat): int
    requires p < |s.heap|
  {
    s.mark.grants - s.heap[p].cleared.grants
  }

  /** Callbacks answered true, the count still to go, and a repeat not yet collected stay within what was allowed. */
  ghost predicate Bounded(s: State) {
    && (s.queue.Some? && s.queue.value < |s.heap| && s.worker.Idle? ==>
          && GrantsFor(s, s.queue.value) >= 0 && (s.repeatBit ==> GrantsFor(s, s.queue.value) > 0))
    && (s.worker.Sending? && s.worker.ptr < |s.heap| ==>
          && s.worker.limit == s.heap[s.worker.ptr].msg.repeat && GrantsFor(s, s.worker.ptr) >= 0
          && s.worker.again + s.worker.repeat + (if s.repeatBit then s.worker.limit else 0)
             <= Allowed(s.worker.limit, GrantsFor(s, s.worker.ptr)))
    && (s.worker.Refilling? && s.worker.ptr < |s.heap| ==>
          && s.worker.limit == s.heap[s.worker.ptr].msg.repeat && GrantsFor(s, s.worker.ptr) >= 0
          && s.worker.again + s.worker.repeat <= Allowed(s.worker.limit, GrantsFor(s, s.worker.ptr)))
  }

  /** A step that moves no sender into the stretch between clearing and queueing. */
  lemma FreshStands(s: State, s': State)
    requires Holders(s) && Fresh(s) && |s'.tasks| == |s.tasks| && |s'.heap| == |s.heap|
    requires forall t :: 0 <= t < |s.tasks| && (s'.tasks[t].Cleared? || s'.tasks[t].Holding?) ==>
               s'.tasks[t] == s.tasks[t]
    requires forall p :: 0 <= p < |s.heap| ==> s'.heap[p].cleared == s.heap[p].cleared
    requires s.mark.grants <= s'.mark.grants && s.mark.stops <= s'.mark.stops
    requires s'.repeatBit ==> s.repeatBit || s.mark.grants < s'.mark.grants
    requires s'.stopBit ==> s.stopBit || s.mark.stops < s'.mark.stops
    ensures Fresh(s')
  {
    forall t | 0 <= t < |s'.tasks| && s'.tasks[t].Holding?
      ensures OnlySince(s', s'.heap[s'.tasks[t].ptr].cleared)
    {
      assert s.tasks[t].Holding?;
    }
  }

  lemma ClearFresh(s: State, t: nat)
    requires Holders(s) && Fresh(s) && At(s, t).Free?
    ensures Fresh(ClientStep(s, Clear(t)).s)
  {
  }

  lemma AllocateFresh(s: State, t: nat)
    requires Holders(s) && Fresh(s) && At(s, t).Cleared?
    ensures Fresh(ClientStep(s, Allocate(t)).s)
  {
  }

  lemma ClientFresh(s: State, a: Action)
    requires Holders(s) && Fresh(s) && ClientStep(s, a).Moved?
    ensures Fresh(ClientStep(s, a).s)
  {
    hide Fresh;
    if a.Clear? {
      ClearFresh(s, a.t);
    } else if a.Allocate? {
      AllocateFresh(s, a.t);
    } else {
      FreshStands(s, ClientStep(s, a).s);
    }
  }

  lemma WorkerFresh(s: State, a: Action)
    requires Holders(s) && Fresh(s) && WorkerStep(s, a).Moved?
    ensures Fresh(WorkerStep(s, a).s)
  {
    hide Fresh;
    FreshStands(s, WorkerStep(s, a).s);
  }

  /** A step that neither grants a repeat nor queues a message leaves the bound alone. */
  lemma BoundStands(s: State, s': State)
    requires Owned(s) && Bounded(s) && s'.queue == s.queue && s'.worker == s.worker && |s.heap| <= |s'.heap|
    requires forall p :: 0 <= p < |s.heap| ==>
               s'.heap[p].cleared == s.heap[p].cleared && s'.heap[p].msg == s.heap[p].msg
    requires s'.mark.grants == s.mark.grants && (s'.repeatBit ==> s.repeatBit)
    ensures Bounded(s')
  {
    hide Allowed;
  }

  lemma GrantBounded(s: State, t: nat)
    requires Owned(s) && Bounded(s) && At(s, t).Repeating?
    ensures Bounded(ClientStep(s, Grant(t)).s)
  {
    hide Allowed;
    if s.worker.Sending? || s.worker.Refilling? {
      MoreAllowed(s.worker.limit, GrantsFor(s, s.worker.ptr));
    }
  }

  lemma AcceptBounded(s: State, t: nat)
    requires Holders(s) && Owned(s) && Fresh(s) && At(s, t).Holding? && s.queue.None?
    ensures Bounded(ClientStep(s, Enqueue(t)).s)
  {
    hide Allowed;
  }

  lemma ClientBounded(s: State, a: Action)
    requires Holders(s) && Owned(s) && Fresh(s) && Bounded(s) && ClientStep(s, a).Moved?
    ensures Bounded(ClientStep(s, a).s)
  {
    hide Bounded, Fresh, Owned;
    if a.Grant? {
      GrantBounded(s, a.t);
    } else if a.Enqueue? && s.queue.None? {
      AcceptBounded(s, a.t);
    } else {
      BoundStands(s, ClientStep(s, a).s);
    }
  }

  lemma WorkerBounded(s: State, a: Action)
    requires Holders(s) && Owned(s) && Bounded(s) && WorkerStep(s, a).Moved?
    ensures Bounded(WorkerStep(s, a).s)
  {
    hide Allowed;
    if a.Peek? {
      MoreAllowed(s.heap[s.queue.value].msg.repeat, GrantsFor(s, s.queue.value));
    }
  }

  ghost predicate Good(s: State) {
    Inv(s) && Fresh(s) && Bounded(s)
  }

  lemma StepGood(s: State, a: Action)
    requires Good(s)
    ensures Next(s, a) != Fault
    ensures Next(s, a).Moved? ==> Good(Next(s, a).s)
  {
    StepKeeps(s, a);
    hide Fresh, Bounded, Owned, Holders, Balanced, Finished, Promised;
    hide ClientStep, WorkerStep;
    if Next(s, a).Moved? {
      if OfWorker(a) {
        WorkerFresh(s, a);
        WorkerBounded(s, a);
      } else {
        ClientFresh(s, a);
        ClientBounded(s, a);
      }
    }
  }

  lemma {:induction false} RunGood(s: State, run: seq<Action>)
    requires Good(s)
    ensures Run(s, run).Moved? && Good(Run(s, run).s)
    decreases |run|
  {
    hide Good;
    if run != [] {
      StepGood(s, run[0]);
      RunGood(if Next(s, run[0]).Moved? then Next(s, run[0]).s else s, run[1..]);
    }
  }

  lemma InitGood(n: nat)
    ensures Good(Init(n))
  {
    InitHolds(n);
  }

  lemma BoundOf(s: State)
    requires Good(s) && (s.worker.Sending? || s.worker.Refilling?)
    ensures s.worker.ptr < |s.heap| && GrantsFor(s, s.worker.ptr) >= 0
    ensures s.worker.again + s.worker.repeat <= Allowed(s.heap[s.worker.ptr].msg.repeat, GrantsFor(s, s.worker.ptr))
  {
    hide Holders, Fresh, Balanced, Finished, Promised, Allowed;
  }

  lemma FreshFor(s: State, t: nat)
    requires Good(s) && At(s, t).Holding?
    ensures At(s, t).ptr < |s.heap| && OnlySince(s, s.heap[At(s, t).ptr].cleared)
  {
    hide Owned, Bounded, Balanced, Finished, Promised;
  }

  /**
   In every run the callbacks that asked for more, plus the repeats still to go, are at most the
   message's own repeat count times one plus the repeats accepted since its sender cleared the bits.
   */
  lemma RepeatsBounded(n: nat, run: seq<Action>)
    ensures Run(Init(n), run).Moved?
    ensures var s := Run(Init(n), run).s;
            var w := s.worker;
            w.Sending? || w.Refilling? ==>
              && w.ptr < |s.heap| && GrantsFor(s, w.ptr) >= 0
              && w.again + w.repeat <= Allowed(s.heap[w.ptr].msg.repeat, GrantsFor(s, w.ptr))
  {
    hide Run, Good, Init, Allowed;
    InitGood(n);
    RunGood(Init(n), run);
    var s := Run(Init(n), run).s;
    if s.worker.Sending? || s.worker.Refilling? {
      BoundOf(s);
    }
  }

  /**
   In every run a sender about to queue its message finds a bit set only if someone asked for a
   repeat or a stop after that sender cleared the bits: an earlier request never leaks in.
   */
  lemma NoStaleRequest(n: nat, run: seq<Action>, t: nat)
    ensures Run(Init(n), run).Moved?
    ensures var s := Run(Init(n), run).s;
            At(s, t).Holding? ==>
              && At(s, t).ptr < |s.heap|
              && (s.repeatBit ==> s.heap[At(s, t).ptr].cleared.grants < s.mark.grants)
              && (s.stopBit ==> s.heap[At(s, t).ptr].cleared.stops < s.mark.stops)
  {
    hide Run, Good, Init;
    InitGood(n);
    RunGood(Init(n), run);
    var s := Run(Init(n), run).s;
    if At(s, t).Holding? {
      FreshFor(s, t);
    }
  }

  /** A stop is in force, and no sender that saw the queue empty has yet to clear the bits. */
  ghost predicate Halted(s: State) {
    s.stopBit && s.queue.Some? && forall t :: 0 <= t < |s.tasks| ==> !s.tasks[t].Free?
  }

  predicate NoReset(run: seq<Action>) {
    forall a :: a in run ==> !a.Reset?
  }

  /** Callbacks of this transmission that have asked for more, or are committed to. */
  function Asked(w: Worker): nat {
    match w
    case Sending(_, _, _, again) => again
    case Refilling(_, _, _, again) => again + 1
    case _ => 0
  }

  lemma ClientHalted(s: State, a: Action)
    requires Halted(s) && ClientStep(s, a).Moved?
    ensures Halted(ClientStep(s, a).s) && ClientStep(s, a).s.worker == s.worker
  {
  }

  lemma WorkerHalted(s: State, a: Action)
    requires Owned(s) && Halted(s) && !a.Reset? && WorkerStep(s, a).Moved?
    ensures Halted(WorkerStep(s, a).s) && Asked(WorkerStep(s, a).s.worker) <= Asked(s.worker)
  {
  }

  lemma StepHalted(s: State, a: Action)
    requires Inv(s) && Halted(s) && !a.Reset? && Next(s, a).Moved?
    ensures Halted(Next(s, a).s)
    ensures Asked(Next(s, a).s.worker) <= Asked(s.worker)
  {
    hide Halted, Owned, Holders, Balanced, Finished, Promised, ClientStep, WorkerStep;
    if OfWorker(a) {
      WorkerHalted(s, a);
    } else {
      ClientHalted(s, a);
    }
  }

  /**
   A stop in force stays in force for the rest of the transmission, whatever clients do, and from
   then on no callback asks for more; only one that had already read the bits may still do so.
   */
  lemma {:induction false} StopWins(s: State, run: seq<Action>)
    requires Inv(s) && Halted(s) && NoReset(run)
    ensures Run(s, run).Moved? && Halted(Run(s, run).s)
    ensures Asked(Run(s, run).s.worker) <= Asked(s.worker)
    decreases |run|
  {
    hide Inv;
    hide Halted;
    if run != [] {
      StepKeeps(s, run[0]);
      var s' := if Next(s, run[0]).Moved? then Next(s, run[0]).s else s;
      if Next(s, run[0]).Moved? {
        StepHalted(s, run[0]);
      }
      assert forall a :: a in run[1..] ==> a in run;
      StopWins(s', run[1..]);
    }
  }

  /**
   When a stop survives: it stays in force in every continuation of the current transmission exactly
   when no sender is left that saw the queue empty and has not yet cleared the bits.
   */
  lemma StopStandsExactly(s: State)
    requires Inv(s) && s.stopBit && s.queue.Some?
    ensures (forall run :: NoReset(run) && Run(s, run).Moved? ==> Run(s, run).s.stopBit)
       <==> (forall t :: 0 <= t < |s.tasks| ==> !s.tasks[t].Free?)
  {
    if t :| 0 <= t < |s.tasks| && s.tasks[t].Free? {
      var run := [Clear(t)];
      assert run[1..] == [];
      assert Run(s, run) == Next(s, Clear(t));
      assert NoReset(run) && !Run(s, run).s.stopBit;
    } else {
      forall run | NoReset(run) && Run(s, run).Moved?
        ensures Run(s, run).s.stopBit
      {
        StopWins(s, run);
      }
    }
  }

  /** A repeat answered with 202 during a transmission that is not stopped makes the worker start counting anew. */
  lemma RepeatHonoured(s: State, t: nat)
    requires s.worker.Sending? && s.worker.limit > 0 && !s.stopBit && At(s, t).Repeating?
    ensures Run(s, [Grant(t), Callback, Refill]).Moved?
    ensures Run(s, [Grant(t), Callback, Refill]).s.worker
            == Sending(s.worker.ptr, s.worker.limit, s.worker.limit - 1, s.worker.again + 1)
    ensures var r := Run(s, [Grant(t), Callback, Refill]).s; !r.stopBit && !r.repeatBit
  {
    hide Run;
    var s1 := ClientStep(s, Grant(t)).s;
    var s2 := WorkerStep(s1, Callback).s;
    RunThree(s, Grant(t), Callback, Refill, s1, s2, WorkerStep(s2, Refill).s);
  }

  lemma RunThree(s: State, a: Action, b: Action, c: Action, s1: State, s2: State, s3: State)
    requires Next(s, a) == Moved(s1) && Next(s1, b) == Moved(s2) && Next(s2, c) == Moved(s3)
    ensures Run(s, [a, b, c]) == Moved(s3)
  {
    hide Next;
    assert [a, b, c][1..] == [b, c];
    assert [b, c][1..] == [c];
    assert [c][1..] == [];
    assert Run(s2, [c]) == Moved(s3);
    assert Run(s1, [b, c]) == Moved(s3);
  }

  function Callbacks(k: nat): seq<Action> {
    seq(k, _ => Callback)
  }

  /** Left alone, a transmission is repeated exactly as often as its count says, however often the library asks. */
  lemma {:induction false} CountsDown(s: State, k: nat)
    requires s.worker.Sending? && s.worker.limit > 0 && !s.stopBit && !s.repeatBit
    ensures Run(s, Callbacks(k)).Moved? && Run(s, Callbacks(k)).s.worker.Sending?
    ensures Run(s, Callbacks(k)).s.worker.again == s.worker.again + Min(k, s.worker.repeat)
    decreases k
  {
    if k > 0 {
      assert Callbacks(k)[1..] == Callbacks(k - 1);
      CountsDown(WorkerStep(s, Callback).s, k - 1);
    }
  }

  /**
   A repeat answered with 202 during a transmission that is not stopped is played out in full: from then on
   the code is repeated as often as the message's own count says, however many repeats were left before.
   */
  lemma GrantPlaysOut(s: State, t: nat, k: nat)
    requires s.worker.Sending? && s.worker.limit > 0 && !s.stopBit && At(s, t).Repeating?
    ensures var run := [Grant(t), Callback, Refill] + Callbacks(k);
      Run(s, run).Moved? && Run(s, run).s.worker.Sending?
      && Run(s, run).s.worker.again == s.worker.again + Min(k + 1, s.worker.limit)
  {
    RepeatHonoured(s, t);
    RunJoin(s, [Grant(t), Callback, Refill], Callbacks(k));
    hide Callbacks;
    CountsDown(Run(s, [Grant(t), Callback, Refill]).s, k);
  }
}
