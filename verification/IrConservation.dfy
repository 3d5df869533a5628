/**
 What every interleaving of clients and worker keeps: each message has one owner, is never touched
 after it is freed, and goes through acceptance, transmission, reply and release exactly once.
 */
module IrConservation {
  import opened Bytes
  import opened IrProtocol

  /** Every message a task holds is live, its own, and carries the arguments of that call. */
  ghost predicate Holders(s: State) {
    && (forall t :: 0 <= t < |s.tasks| && s.tasks[t].Holding? ==>
          && Live(s, s.tasks[t].ptr) && s.queue != Some(s.tasks[t].ptr)
          && s.heap[s.tasks[t].ptr].holder == t && s.heap[s.tasks[t].ptr].msg == s.tasks[t].req)
    && (forall t :: 0 <= t < |s.tasks| && s.tasks[t].Queued? ==>
          && s.tasks[t].ptr < |s.heap|
          && s.heap[s.tasks[t].ptr].holder == t && s.heap[s.tasks[t].ptr].msg == s.tasks[t].req)
  }

  /** The worker works on the queued message, and every live message is queued or held. */
  ghost predicate Owned(s: State) {
    && (s.queue.Some? ==> s.queue.value < |s.heap| && (s.heap[s.queue.value].live <==> !s.worker.Deleted?))
    && (!s.worker.Idle? ==> s.queue == Some(s.worker.ptr))
    && (forall p :: 0 <= p < |s.heap| && s.heap[p].live ==>
          s.queue == Some(p) || (At(s, s.heap[p].holder).Holding? && At(s, s.heap[p].holder).ptr == p))
  }

  /** The message in the queue, as a history of at most one. */
  ghost function Outstanding(s: State): seq<Ticket>
    requires s.queue.Some? ==> s.queue.value < |s.heap|
  {
    if s.queue.Some? then [TicketOf(s.heap, s.queue.value)] else []
  }

  /** Accepted is finished plus the one outstanding message, at every stage of the worker. */
  ghost predicate Balanced(s: State)
    requires s.queue.Some? ==> s.queue.value < |s.heap|
  {
    var w, h := s.worker, s.past;
    && h.accepted == h.discarded + Outstanding(s)
    && h.started == h.discarded + (if w.Idle? then [] else Outstanding(s))
    && h.replied == h.discarded + (if w.Answered? || w.Deleted? then Outstanding(s) else [])
    && h.freed == h.discarded + (if w.Deleted? then Outstanding(s) else [])
  }

  /** Finished messages are free, and no message is finished twice. */
  ghost predicate Finished(s: State) {
    && (forall i :: 0 <= i < |s.past.discarded| ==>
          && s.past.discarded[i].ptr < |s.heap| && !s.heap[s.past.discarded[i].ptr].live
          && s.past.discarded[i] == TicketOf(s.heap, s.past.discarded[i].ptr)
          && s.queue != Some(s.past.discarded[i].ptr))
    && (forall i, j :: 0 <= i < j < |s.past.discarded| ==> s.past.discarded[i].ptr != s.past.discarded[j].ptr)
  }

  /** The task that made message `p` has queued it and has yet to return. */
  ghost predicate Returning(s: State, p: nat) {
    p < |s.heap| && At(s, s.heap[p].holder).Queued? && At(s, s.heap[p].holder).ptr == p
  }

  /** A ticket is accepted exactly when its send has returned 0 or is about to, never both. */
  ghost predicate Promised(s: State) {
    Accounted(s) && ReturnedOnce(s)
  }

  ghost predicate Accounted(s: State) {
    && (forall k :: k in s.past.accepted ==> k in s.past.returned || Returning(s, k.ptr))
    && (forall t :: 0 <= t < |s.tasks| && s.tasks[t].Queued? && s.tasks[t].ptr < |s.heap| ==>
          TicketOf(s.heap, s.tasks[t].ptr) in s.past.accepted)
  }

  ghost predicate ReturnedOnce(s: State) {
    && (forall k :: k in s.past.returned ==>
          k in s.past.accepted && k.ptr < |s.heap| && k == TicketOf(s.heap, k.ptr) && !Returning(s, k.ptr))
    && (forall i, j :: 0 <= i < j < |s.past.returned| ==> s.past.returned[i].ptr != s.past.returned[j].ptr)
  }

  ghost predicate Inv(s: State) {
    Holders(s) && Owned(s) && Balanced(s) && Finished(s) && Promised(s)
  }

  /** Promises depend only on which tasks have queued what, and on what messages say. */
  lemma PromisesStand(s: State, s': State)
    requires Holders(s) && Promised(s) && |s'.tasks| == |s.tasks| && |s.heap| <= |s'.heap|
    requires s'.past.accepted == s.past.accepted && s'.past.returned == s.past.returned
    requires forall t :: 0 <= t < |s.tasks| ==>
               (s.tasks[t].Queued? || s'.tasks[t].Queued? ==> s'.tasks[t] == s.tasks[t])
    requires forall p :: 0 <= p < |s.heap| ==> s'.heap[p].holder == s.heap[p].holder && s'.heap[p].msg == s.heap[p].msg
    ensures Promised(s')
  {
    assert forall p: nat :: p < |s.heap| ==> (Returning(s', p) <==> Returning(s, p));
  }

  /** A step of one task that holds no message, before or after, keeps everything. */
  lemma PcKeeps(s: State, s': State, t: nat)
    requires Inv(s) && t < |s.tasks| && |s'.tasks| == |s.tasks| && s'.tasks == s.tasks[t := s'.tasks[t]]
    requires !s.tasks[t].Holding? && !s.tasks[t].Queued? && !s'.tasks[t].Holding? && !s'.tasks[t].Queued?
    requires s'.heap == s.heap && s'.queue == s.queue && s'.worker == s.worker && s'.past == s.past
    ensures Inv(s')
  {
    hide Promised;
    PromisesStand(s, s');
  }

  lemma LearnKeeps(s: State, on: bool)
    requires Inv(s)
    ensures Inv(s.(learning := on))
  {
    hide Promised;
    PromisesStand(s, s.(learning := on));
  }

  lemma AllocateKeeps(s: State, t: nat)
    requires Inv(s) && At(s, t).Cleared?
    ensures Inv(ClientStep(s, Allocate(t)).s)
  {
    hide Promised;
    var s' := ClientStep(s, Allocate(t)).s;
    PromisesStand(s, s');
  }

  /** The queue is full: the message is freed. */
  lemma RefuseKeeps(s: State, t: nat)
    requires Inv(s) && At(s, t).Holding? && s.queue.Some?
    ensures ClientStep(s, Enqueue(t)) != Fault && Inv(ClientStep(s, Enqueue(t)).s)
  {
    hide Promised;
    PromisesStand(s, ClientStep(s, Enqueue(t)).s);
  }

  /** Accepted tickets are about messages on the heap, and only the outstanding one can be live. */
  lemma AcceptedTickets(s: State)
    requires Owned(s) && Balanced(s) && Finished(s)
    ensures forall k :: k in s.past.accepted ==> k.ptr < |s.heap| && k == TicketOf(s.heap, k.ptr)
    ensures forall k :: k in s.past.accepted && s.heap[k.ptr].live ==> s.queue == Some(k.ptr)
  {
  }

  lemma AcceptPromises(s: State, t: nat)
    requires Inv(s) && At(s, t).Holding? && s.queue.None?
    ensures ClientStep(s, Enqueue(t)).Moved? && Promised(ClientStep(s, Enqueue(t)).s)
  {
    AcceptedTickets(s);
    hide Balanced, Owned, Finished;
    var p := s.tasks[t].ptr;
    var s' := ClientStep(s, Enqueue(t)).s;
    assert forall q: nat :: q < |s.heap| && q != p ==> (Returning(s', q) <==> Returning(s, q));
  }

  lemma AcceptOwned(s: State, t: nat)
    requires Holders(s) && Owned(s) && At(s, t).Holding? && s.queue.None?
    ensures ClientStep(s, Enqueue(t)).Moved?
    ensures Holders(ClientStep(s, Enqueue(t)).s) && Owned(ClientStep(s, Enqueue(t)).s)
  {
  }

  lemma AcceptKeeps(s: State, t: nat)
    requires Inv(s) && At(s, t).Holding? && s.queue.None?
    ensures ClientStep(s, Enqueue(t)).Moved? && Inv(ClientStep(s, Enqueue(t)).s)
  {
    AcceptPromises(s, t);
    AcceptOwned(s, t);
    hide Promised, Owned;
  }

  lemma SetCodeAccounted(s: State, t: nat)
    requires Holders(s) && Accounted(s) && At(s, t).Queued?
    requires forall k :: k in s.past.accepted ==> k.ptr < |s.heap| && k == TicketOf(s.heap, k.ptr)
    ensures Accounted(ClientStep(s, SetCode(t)).s)
  {
    var p := s.tasks[t].ptr;
    var s' := ClientStep(s, SetCode(t)).s;
    assert forall q: nat :: q < |s.heap| && q != p ==> (Returning(s', q) <==> Returning(s, q));
  }

  lemma SetCodeReturned(s: State, t: nat)
    requires Holders(s) && Promised(s) && At(s, t).Queued?
    ensures ReturnedOnce(ClientStep(s, SetCode(t)).s)
  {
    var p := s.tasks[t].ptr;
    var s' := ClientStep(s, SetCode(t)).s;
    assert Returning(s, p) && !Returning(s', p);
    assert forall q: nat :: q < |s.heap| && q != p ==> (Returning(s', q) <==> Returning(s, q));
  }

  lemma SetCodePromises(s: State, t: nat)
    requires Inv(s) && At(s, t).Queued?
    ensures Promised(ClientStep(s, SetCode(t)).s)
  {
    AcceptedTickets(s);
    hide Balanced, Owned, Finished, Holders, Accounted, ReturnedOnce;
    SetCodeAccounted(s, t);
    SetCodeReturned(s, t);
  }

  lemma SetCodeOwned(s: State, t: nat)
    requires Holders(s) && Owned(s) && At(s, t).Queued?
    ensures Holders(ClientStep(s, SetCode(t)).s) && Owned(ClientStep(s, SetCode(t)).s)
  {
  }

  /** What the worker has done does not depend on the tasks or on what was returned. */
  lemma HistoryStands(s: State, s': State)
    requires Owned(s) && Balanced(s) && Finished(s)
    requires s'.heap == s.heap && s'.queue == s.queue && s'.worker == s.worker
    requires s'.past == s.past.(returned := s'.past.returned)
    ensures Balanced(s') && Finished(s')
  {
  }

  lemma SetCodeKeeps(s: State, t: nat)
    requires Inv(s) && At(s, t).Queued?
    ensures Inv(ClientStep(s, SetCode(t)).s)
  {
    hide Promised, Holders, Balanced, Finished;
    SetCodePromises(s, t);
    SetCodeOwned(s, t);
    HistoryStands(s, ClientStep(s, SetCode(t)).s);
  }

  /** Peeking, the callback, the end of the transmission and the reply leave the heap and the queue alone. */
  lemma WorkingKeeps(s: State, a: Action)
    requires Inv(s) && (a.Peek? || a.Callback? || a.Refill? || a.Finish? || a.Reply?)
    ensures WorkerStep(s, a) != Fault
    ensures WorkerStep(s, a).Moved? ==> Inv(WorkerStep(s, a).s)
  {
    hide Promised;
    if WorkerStep(s, a).Moved? {
      PromisesStand(s, WorkerStep(s, a).s);
    }
  }

  lemma DeleteKeeps(s: State)
    requires Inv(s)
    ensures WorkerStep(s, Delete) != Fault
    ensures WorkerStep(s, Delete).Moved? ==> Inv(WorkerStep(s, Delete).s)
  {
    hide Promised;
    if WorkerStep(s, Delete).Moved? {
      PromisesStand(s, WorkerStep(s, Delete).s);
    }
  }

  /** The reset throws away the message just processed, and nothing else. */
  lemma ResetKeeps(s: State)
    requires Inv(s)
    ensures WorkerStep(s, Reset) != Fault
    ensures WorkerStep(s, Reset).Moved? ==> Inv(WorkerStep(s, Reset).s)
  {
    hide Promised;
    if WorkerStep(s, Reset).Moved? {
      PromisesStand(s, WorkerStep(s, Reset).s);
    }
  }

  /** No step touches freed memory, and every step keeps the invariant. */
  lemma StepKeeps(s: State, a: Action)
    requires Inv(s)
    ensures Next(s, a) != Fault
    ensures Next(s, a).Moved? ==> Inv(Next(s, a).s)
  {
    hide Inv;
    if a.Delete? {
      DeleteKeeps(s);
    } else if a.Reset? {
      ResetKeeps(s);
    } else if OfWorker(a) {
      WorkingKeeps(s, a);
    } else if a.Allocate? && At(s, a.t).Cleared? {
      AllocateKeeps(s, a.t);
    } else if a.Enqueue? && At(s, a.t).Holding? {
      if s.queue.Some? {
        RefuseKeeps(s, a.t);
      } else {
        AcceptKeeps(s, a.t);
      }
    } else if a.SetCode? && At(s, a.t).Queued? {
      SetCodeKeeps(s, a.t);
    } else if ClientStep(s, a).Moved? {
      if a.Learn? {
        LearnKeeps(s, a.on);
      } else {
        PcKeeps(s, ClientStep(s, a).s, a.t);
      }
    }
  }

  lemma {:induction false} RunKeeps(s: State, run: seq<Action>)
    requires Inv(s)
    ensures Run(s, run).Moved? && Inv(Run(s, run).s)
    decreases |run|
  {
    hide Inv;
    if run != [] {
      StepKeeps(s, run[0]);
      RunKeeps(if Next(s, run[0]).Moved? then Next(s, run[0]).s else s, run[1..]);
    }
  }

  lemma InitHolds(n: nat)
    ensures Inv(Init(n))
  {
  }

  ghost predicate Distinct(ks: seq<Ticket>) {
    forall i, j :: 0 <= i < j < |ks| ==> ks[i].ptr != ks[j].ptr
  }

  lemma OncePerMessage(s: State)
    requires Owned(s) && Balanced(s) && Finished(s)
    ensures Distinct(s.past.accepted)
  {
    var d, accepted := s.past.discarded, s.past.accepted;
    forall i, j | 0 <= i < j < |accepted|
      ensures accepted[i].ptr != accepted[j].ptr
    {
      assert accepted[i] == d[i];
    }
  }

  lemma InOrder(s: State)
    requires Owned(s) && Balanced(s)
    ensures s.past.discarded <= s.past.freed <= s.past.replied <= s.past.started <= s.past.accepted
    ensures |s.past.accepted| <= |s.past.discarded| + 1
  {
  }

  /**
   In every run no freed message is touched or freed again. Messages are transmitted, answered, freed
   and discarded in the order they were accepted, each once and each with the client and message
   number of its own send; at most the last one accepted is unfinished.
   */
  lemma EveryMessageOnce(n: nat, run: seq<Action>)
    ensures Run(Init(n), run).Moved?
    ensures var h := Run(Init(n), run).s.past;
            && h.discarded <= h.freed <= h.replied <= h.started <= h.accepted
            && |h.accepted| <= |h.discarded| + 1 && Distinct(h.accepted)
  {
    InitHolds(n);
    RunKeeps(Init(n), run);
    hide Run, Owned, Holders, Balanced, Finished, Promised, Distinct;
    InOrder(Run(Init(n), run).s);
    OncePerMessage(Run(Init(n), run).s);
  }

  /**
   In every run the sends that returned 0, together with those still about to, are exactly the
   accepted messages: no other answer has a message behind it, and none is returned twice.
   */
  lemma ZeroMeansAccepted(n: nat, run: seq<Action>, k: Ticket)
    ensures Run(Init(n), run).Moved?
    ensures var s := Run(Init(n), run).s;
            && Distinct(s.past.returned)
            && (k in s.past.accepted <==>
                  k in s.past.returned ||
                  exists t :: 0 <= t < |s.tasks| && s.tasks[t].Queued?
                              && k == Ticket(s.tasks[t].ptr, s.tasks[t].req.clientId, s.tasks[t].req.msgId))
            && (k in s.past.returned ==>
                  forall t :: 0 <= t < |s.tasks| && s.tasks[t].Queued? ==> s.tasks[t].ptr != k.ptr)
  {
    InitHolds(n);
    RunKeeps(Init(n), run);
    var s := Run(Init(n), run).s;
    AcceptedTickets(s);
    hide Owned, Balanced, Finished;
    if k in s.past.accepted && k !in s.past.returned {
      assert Returning(s, k.ptr);
      var t := s.heap[k.ptr].holder;
      assert s.tasks[t].Queued? && k == Ticket(s.tasks[t].ptr, s.tasks[t].req.clientId, s.tasks[t].req.msgId);
    }
  }

  lemma QuietIsDone(s: State)
    requires Holders(s) && Owned(s) && Balanced(s) && s.queue.None?
    requires forall t :: 0 <= t < |s.tasks| ==> s.tasks[t].Out? || s.tasks[t].Stopping?
    ensures forall p :: 0 <= p < |s.heap| ==> !s.heap[p].live
    ensures s.past.replied == s.past.freed == s.past.accepted
  {
  }

  lemma QuietIsReturned(s: State)
    requires Promised(s) && forall t :: 0 <= t < |s.tasks| ==> s.tasks[t].Out? || s.tasks[t].Stopping?
    ensures forall k :: k in s.past.returned <==> k in s.past.accepted
  {
  }

  /** When no send is under way and the worker waits, everything allocated is free and everything accepted is done. */
  lemma NothingLeaks(n: nat, run: seq<Action>)
    ensures Run(Init(n), run).Moved?
    ensures var s := Run(Init(n), run).s;
            s.queue.None? && (forall t :: 0 <= t < |s.tasks| ==> s.tasks[t].Out? || s.tasks[t].Stopping?) ==>
              && (forall p :: 0 <= p < |s.heap| ==> !s.heap[p].live)
              && s.past.replied == s.past.freed == s.past.accepted
              && (forall k :: k in s.past.returned <==> k in s.past.accepted)
  {
    hide Run, Init, Owned, Holders, Balanced, Finished, Promised;
    InitHolds(n);
    RunKeeps(Init(n), run);
    var s := Run(Init(n), run).s;
    if s.queue.None? && forall t :: 0 <= t < |s.tasks| ==> s.tasks[t].Out? || s.tasks[t].Stopping? {
      QuietIsDone(s);
      QuietIsReturned(s);
    }
  }
}
