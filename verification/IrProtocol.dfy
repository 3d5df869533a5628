/**
 The infrared send service as a protocol. Any number of client tasks run `send` and `stopSend`; one
 worker peeks a queue of length one, transmits under a repeat callback, replies, frees the message
 and resets the queue. Every access to something shared is a step of its own, so a run is any
 interleaving the scheduler can produce.
 */
module IrProtocol {
  import opened Bytes

  /** The arguments of a `send`, which are also the contents of the message it queues. */
  datatype Request = Request(clientId: int, msgId: nat, code: string, format: string, repeat: nat, pins: nat)

  /** How many 202 answers and how many stop requests there have been. */
  datatype Mark = Mark(grants: nat, stops: nat)

  /** A message on the heap, the task that made it, and the marks when its sender cleared the bits and queued it. */
  datatype Cell = Cell(msg: Request, live: bool, holder: nat, cleared: Mark, queued: Mark)

  /** Where a client task stands. */
  datatype Task =
    | Out
    | Called(req: Request)
    | Busy(req: Request)
    | Repeating(req: Request)
    | Free(req: Request)
    | Cleared(req: Request, since: Mark)
    | Holding(req: Request, ptr: nat)
    | Queued(req: Request, ptr: nat)
    | Stopping

  /** Where the worker stands; `again` counts the callbacks of this transmission that asked for more. */
  datatype Worker =
    | Idle
    | Sending(ptr: nat, limit: nat, repeat: nat, again: nat)
    | Refilling(ptr: nat, limit: nat, repeat: nat, again: nat)
    | Sent(ptr: nat, success: bool)
    | Answered(ptr: nat)
    | Deleted(ptr: nat)

  /** A message and whom its reply is for. */
  datatype Ticket = Ticket(ptr: nat, clientId: int, msgId: nat)

  /** What has happened: messages queued, sends that returned 0, and what the worker has done. */
  datatype History = History(accepted: seq<Ticket>, returned: seq<Ticket>, started: seq<Ticket>,
                             replied: seq<Ticket>, freed: seq<Ticket>, discarded: seq<Ticket>)

  datatype State = State(tasks: seq<Task>, heap: seq<Cell>, queue: Option<nat>, currentCode: string,
                         repeatBit: bool, stopBit: bool, learning: bool, worker: Worker,
                         mark: Mark, past: History)

  datatype Action =
    | Call(t: nat, req: Request)
    | Look(t: nat)
    | Compare(t: nat)
    | Grant(t: nat)
    | Clear(t: nat)
    | Allocate(t: nat)
    | Enqueue(t: nat)
    | SetCode(t: nat)
    | Stop(t: nat)
    | StopClear(t: nat)
    | Learn(on: bool)
    | Peek
    | Callback
    | Refill
    | Finish(success: bool)
    | Reply
    | Delete
    | Reset

  /** A step cannot happen now, touches memory that is already free, or leads to a state. */
  datatype Outcome = Blocked | Fault | Moved(s: State)

  const NOTHING := History([], [], [], [], [], [])

  function Init(n: nat): State {
    State(seq(n, _ => Out), [], None, "", false, false, false, Idle, Mark(0, 0), NOTHING)
  }

  function KnownFormat(f: string): bool {
    f == "hex" || f == "pronto" || f == "gc"
  }

  function At(s: State, t: nat): Task {
    if t < |s.tasks| then s.tasks[t] else Out
  }

  function Go(s: State, t: nat, pc: Task): State
    requires t < |s.tasks|
  {
    s.(tasks := s.tasks[t := pc])
  }

  function TicketOf(heap: seq<Cell>, p: nat): Ticket
    requires p < |heap|
  {
    Ticket(p, heap[p].msg.clientId, heap[p].msg.msgId)
  }

  predicate Live(s: State, p: nat) {
    p < |s.heap| && s.heap[p].live
  }

  /** A step of a client task. */
  function ClientStep(s: State, a: Action): Outcome {
    match a
    // The checks: a refusal (503 or 400) returns at once and touches nothing.
    case Call(t, req) =>
      if t >= |s.tasks| || At(s, t) != Out then Blocked
      else if s.learning || req.pins == 0 || !KnownFormat(req.format) then Moved(s)
      else Moved(Go(s, t, Called(req)))
    case Look(t) =>
      if !At(s, t).Called? then Blocked
      else Moved(Go(s, t, if s.queue.Some? then Busy(At(s, t).req) else Free(At(s, t).req)))
    // The same code again is a repeat; anything else is 429.
    case Compare(t) =>
      if !At(s, t).Busy? then Blocked
      else
        var req := At(s, t).req;
        Moved(Go(s, t, if req.repeat > 0 && s.currentCode == req.code then Repeating(req) else Out))
    // Return 202.
    case Grant(t) =>
      if !At(s, t).Repeating? then Blocked
      else Moved(Go(s, t, Out).(repeatBit := true, mark := s.mark.(grants := s.mark.grants + 1)))
    case Clear(t) =>
      if !At(s, t).Free? then Blocked
      else Moved(Go(s, t, Cleared(At(s, t).req, s.mark)).(repeatBit := false, stopBit := false))
    case Allocate(t) =>
      if !At(s, t).Cleared? then Blocked
      else
        var pc := At(s, t);
        Moved(Go(s, t, Holding(pc.req, |s.heap|)).(heap := s.heap + [Cell(pc.req, true, t, pc.since, pc.since)]))
    // A full queue frees the message and returns 429.
    case Enqueue(t) =>
      if !At(s, t).Holding? then Blocked
      else
        var pc := At(s, t);
        if !Live(s, pc.ptr) then Fault
        else if s.queue.Some? then
          Moved(Go(s, t, Out).(heap := s.heap[pc.ptr := s.heap[pc.ptr].(live := false)]))
        else
          Moved(Go(s, t, Queued(pc.req, pc.ptr)).(
            heap := s.heap[pc.ptr := s.heap[pc.ptr].(queued := s.mark)],
            queue := Some(pc.ptr),
            past := s.past.(accepted := s.past.accepted + [TicketOf(s.heap, pc.ptr)])))
    // Return 0.
    case SetCode(t) =>
      if !At(s, t).Queued? then Blocked
      else
        var pc := At(s, t);
        Moved(Go(s, t, Out).(
          currentCode := pc.req.code,
          past := s.past.(returned := s.past.returned + [Ticket(pc.ptr, pc.req.clientId, pc.req.msgId)])))
    case Stop(t) =>
      if t >= |s.tasks| || At(s, t) != Out then Blocked
      else Moved(Go(s, t, Stopping).(stopBit := true, mark := s.mark.(stops := s.mark.stops + 1)))
    case StopClear(t) =>
      if !At(s, t).Stopping? then Blocked
      else Moved(Go(s, t, Out).(repeatBit := false))
    case Learn(on) => Moved(s.(learning := on))
    case _ => Blocked
  }

  /** The end of the repeat callback: count down if there is anything left. */
  function CountDown(w: Worker): Worker
    requires w.Sending? || w.Refilling?
  {
    if w.repeat > 0 then Sending(w.ptr, w.limit, w.repeat - 1, w.again + 1)
    else Sending(w.ptr, w.limit, 0, w.again)
  }

  /** A step of the worker. */
  function WorkerStep(s: State, a: Action): Outcome {
    var w := s.worker;
    match a
    case Peek =>
      if !w.Idle? || s.queue.None? then Blocked
      else
        var p := s.queue.value;
        if !Live(s, p) then Fault
        else
          var repeat := s.heap[p].msg.repeat;
          Moved(s.(worker := Sending(p, repeat, repeat, 0),
                   past := s.past.(started := s.past.started + [TicketOf(s.heap, p)])))
    // The callback is installed only for a message with a repeat count. It reads the bits once.
    case Callback =>
      if !w.Sending? || w.limit == 0 then Blocked
      else if s.stopBit then Moved(s.(worker := Sending(w.ptr, w.limit, 0, w.again)))
      else if s.repeatBit then Moved(s.(worker := Refilling(w.ptr, w.limit, w.limit, w.again)))
      else Moved(s.(worker := CountDown(w)))
    case Refill =>
      if !w.Refilling? then Blocked
      else Moved(s.(worker := CountDown(w), repeatBit := false))
    // Parsing and transmission read the message.
    case Finish(success) =>
      if !w.Sending? then Blocked
      else if !Live(s, w.ptr) then Fault
      else Moved(s.(worker := Sent(w.ptr, success)))
    case Reply =>
      if !w.Sent? then Blocked
      else if !Live(s, w.ptr) then Fault
      else Moved(s.(worker := Answered(w.ptr), past := s.past.(replied := s.past.replied + [TicketOf(s.heap, w.ptr)])))
    case Delete =>
      if !w.Answered? then Blocked
      else if !Live(s, w.ptr) then Fault
      else
        Moved(s.(worker := Deleted(w.ptr), heap := s.heap[w.ptr := s.heap[w.ptr].(live := false)],
                 past := s.past.(freed := s.past.freed + [TicketOf(s.heap, w.ptr)])))
    // Whatever is in the queue is thrown away.
    case Reset =>
      if !w.Deleted? then Blocked
      else
        var gone := if s.queue.Some? && s.queue.value < |s.heap| then [TicketOf(s.heap, s.queue.value)] else [];
        Moved(s.(worker := Idle, queue := None, past := s.past.(discarded := s.past.discarded + gone)))
    case _ => Blocked
  }

  predicate OfWorker(a: Action) {
    a.Peek? || a.Callback? || a.Refill? || a.Finish? || a.Reply? || a.Delete? || a.Reset?
  }

  function Next(s: State, a: Action): Outcome {
    if OfWorker(a) then WorkerStep(s, a) else ClientStep(s, a)
  }

  /** The state after a schedule: steps that cannot happen are skipped, and a fault stays a fault. */
  function Run(s: State, run: seq<Action>): Outcome
    decreases |run|
  {
    if run == [] then Moved(s)
    else
      match Next(s, run[0])
      case Blocked => Run(s, run[1..])
      case Fault => Fault
      case Moved(s') => Run(s', run[1..])
  }

  /** A schedule in two parts. */
  lemma {:induction false} RunJoin(s: State, first: seq<Action>, rest: seq<Action>)
    requires Run(s, first).Moved?
    ensures Run(s, first + rest) == Run(Run(s, first).s, rest)
    decreases |first|
  {
    hide Next;
    if first == [] {
      assert first + rest == rest;
    } else {
      assert (first + rest)[1..] == first[1..] + rest;
      RunJoin(if Next(s, first[0]).Moved? then Next(s, first[0]).s else s, first[1..], rest);
    }
  }
}
