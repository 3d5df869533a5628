/**
 Runs in which overlapping calls of `send` lose a stop request, or take a repeat of one code for a repeat of
 another: why the claims about stops and about the current code need atomic calls.
 */
module IrOverlap {
  import opened Bytes
  import opened IrProtocol
  import opened IrRepeat

  /** Some schedule leads from the start to `s`. */
  ghost predicate Reachable(n: nat, s: State) {
    exists run :: Run(Init(n), run) == Moved(s)
  }

  lemma {:induction false} RunMore(s: State, run: seq<Action>, a: Action)
    requires Run(s, run).Moved? && Next(Run(s, run).s, a).Moved?
    ensures Run(s, run + [a]) == Next(Run(s, run).s, a)
    decreases |run|
  {
    hide Next;
    if run == [] {
      assert (run + [a])[1..] == [];
    } else {
      assert (run + [a])[1..] == run[1..] + [a];
      RunMore(if Next(s, run[0]).Moved? then Next(s, run[0]).s else s, run[1..], a);
    }
  }

  lemma ReachInit(n: nat)
    ensures Reachable(n, Init(n))
  {
    assert Run(Init(n), []) == Moved(Init(n));
  }

  lemma ReachMore(n: nat, s: State, a: Action)
    requires Reachable(n, s) && Next(s, a).Moved?
    ensures Reachable(n, Next(s, a).s)
  {
    hide Next, Init, Run;
    var run :| Run(Init(n), run) == Moved(s);
    RunMore(Init(n), run, a);
  }

  const TURN_ON := Request(1, 7, "4;0x640C;15;1", "hex", 3, 1)
  const TURN_OFF := Request(2, 8, "4;0x640D;15;1", "hex", 3, 1)

  /** Two senders have both seen the queue empty. */
  function TwoFree(): State {
    Init(3).(tasks := [Free(TURN_ON), Free(TURN_OFF), Out])
  }

  /** One of them has queued its message, and a stop arrives while it is transmitted. */
  function Stopped(): State {
    var k := [Ticket(0, 1, 7)];
    State([Out, Free(TURN_OFF), Stopping], [Cell(TURN_ON, true, 0, Mark(0, 0), Mark(0, 0))], Some(0), TURN_ON.code,
          false, true, false, Sending(0, 3, 3, 0), Mark(0, 1), NOTHING.(accepted := k, returned := k, started := k))
  }

  lemma ReachTwoFree()
    ensures Reachable(3, TwoFree())
  {
    hide Reachable;
    var s1 := Init(3).(tasks := [Called(TURN_ON), Out, Out]);
    var s2 := s1.(tasks := [Called(TURN_ON), Called(TURN_OFF), Out]);
    var s3 := s1.(tasks := [Free(TURN_ON), Called(TURN_OFF), Out]);
    ReachInit(3);
    assert Next(Init(3), Call(0, TURN_ON)) == Moved(s1);
    assert Next(s1, Call(1, TURN_OFF)) == Moved(s2);
    assert Next(s2, Look(0)) == Moved(s3);
    assert Next(s3, Look(1)) == Moved(TwoFree());
    ReachMore(3, Init(3), Call(0, TURN_ON));
    ReachMore(3, s1, Call(1, TURN_OFF));
    ReachMore(3, s2, Look(0));
    ReachMore(3, s3, Look(1));
  }

  /** The first sender's message is in the queue. */
  function Accepted(): State {
    TwoFree().(tasks := [Queued(TURN_ON, 0), Free(TURN_OFF), Out],
               heap := [Cell(TURN_ON, true, 0, Mark(0, 0), Mark(0, 0))],
               queue := Some(0), past := NOTHING.(accepted := [Ticket(0, 1, 7)]))
  }

  lemma ReachAccepted()
    ensures Reachable(3, Accepted())
  {
    ReachTwoFree();
    hide Reachable;
    var s0 := TwoFree();
    var s1 := s0.(tasks := [Cleared(TURN_ON, Mark(0, 0)), Free(TURN_OFF), Out]);
    var s2 := Accepted().(tasks := [Holding(TURN_ON, 0), Free(TURN_OFF), Out], queue := None, past := NOTHING);
    assert Next(s0, Clear(0)) == Moved(s1);
    assert Next(s1, Allocate(0)) == Moved(s2);
    assert Next(s2, Enqueue(0)) == Moved(Accepted());
    ReachMore(3, s0, Clear(0));
    ReachMore(3, s1, Allocate(0));
    ReachMore(3, s2, Enqueue(0));
  }

  lemma ReachStopped()
    ensures Reachable(3, Stopped())
  {
    ReachAccepted();
    hide Reachable;
    var k := [Ticket(0, 1, 7)];
    var s3 := Accepted();
    var s4 := s3.(tasks := [Out, Free(TURN_OFF), Out], currentCode := TURN_ON.code,
                  past := NOTHING.(accepted := k, returned := k));
    var s5 := s4.(worker := Sending(0, 3, 3, 0), past := NOTHING.(accepted := k, returned := k, started := k));
    assert Next(s3, SetCode(0)) == Moved(s4);
    assert Next(s4, Peek) == Moved(s5);
    assert Next(s5, Stop(2)) == Moved(Stopped());
    ReachMore(3, s3, SetCode(0));
    ReachMore(3, s4, Peek);
    ReachMore(3, s5, Stop(2));
  }

  /**
   With overlapping sends a stop can be lost: a reachable state has the stop in force, and the second
   sender's clearing of the bits lets the very next callback ask for more.
   */
  lemma OverlapLosesStop()
    ensures Reachable(3, Stopped()) && Stopped().stopBit && Stopped().queue.Some?
    ensures Run(Stopped(), [Clear(1), Callback]).Moved?
    ensures Asked(Run(Stopped(), [Clear(1), Callback]).s.worker) > Asked(Stopped().worker)
  {
    ReachStopped();
    hide Reachable;
    var s1 := Stopped().(tasks := [Out, Cleared(TURN_OFF, Mark(0, 1)), Stopping], stopBit := false);
    assert Next(Stopped(), Clear(1)) == Moved(s1);
    assert [Clear(1), Callback][1..] == [Callback];
    assert [Callback][1..] == [];
    assert Run(s1, [Callback]) == Next(s1, Callback);
  }

  const FIRST := Ticket(0, 1, 7)
  const SECOND := Ticket(1, 2, 8)

  /** The first message has been sent, answered and freed while its sender has not yet set the current code. */
  function Served(): State {
    Accepted().(queue := None, heap := [Cell(TURN_ON, false, 0, Mark(0, 0), Mark(0, 0))],
                past := History([FIRST], [], [FIRST], [FIRST], [FIRST], [FIRST]))
  }

  /** The second sender is done: its message is in the queue and its code is the current one. */
  function Overtaken(): State {
    Served().(tasks := [Queued(TURN_ON, 0), Out, Out], queue := Some(1), currentCode := TURN_OFF.code,
              heap := Served().heap + [Cell(TURN_OFF, true, 1, Mark(0, 0), Mark(0, 0))],
              past := Served().past.(accepted := [FIRST, SECOND], returned := [SECOND]))
  }

  /** The first sender has put its code in place after all, and a third send of that code is about to get its 202. */
  function WrongRepeat(): State {
    Overtaken().(tasks := [Out, Out, Repeating(TURN_ON)], currentCode := TURN_ON.code,
                 past := Overtaken().past.(returned := [SECOND, FIRST]))
  }

  lemma ReachServed()
    ensures Reachable(3, Served())
  {
    ReachAccepted();
    hide Reachable;
    var s0 := Accepted();
    var s1 := s0.(worker := Sending(0, 3, 3, 0), past := s0.past.(started := [FIRST]));
    var s2 := s1.(worker := Sent(0, true));
    var s3 := s2.(worker := Answered(0), past := s2.past.(replied := [FIRST]));
    var s4 := Served().(worker := Deleted(0), queue := Some(0), past := s3.past.(freed := [FIRST]));
    assert Next(s0, Peek) == Moved(s1);
    assert Next(s1, Finish(true)) == Moved(s2);
    assert Next(s2, Reply) == Moved(s3);
    assert Next(s3, Delete) == Moved(s4);
    assert Next(s4, Reset) == Moved(Served());
    ReachMore(3, s0, Peek);
    ReachMore(3, s1, Finish(true));
    ReachMore(3, s2, Reply);
    ReachMore(3, s3, Delete);
    ReachMore(3, s4, Reset);
  }

  lemma ReachOvertaken()
    ensures Reachable(3, Overtaken())
  {
    ReachServed();
    hide Reachable;
    var s0 := Served();
    var s1 := s0.(tasks := [Queued(TURN_ON, 0), Cleared(TURN_OFF, Mark(0, 0)), Out]);
    var s2 := s0.(tasks := [Queued(TURN_ON, 0), Holding(TURN_OFF, 1), Out], heap := Overtaken().heap);
    var s3 := Overtaken().(tasks := [Queued(TURN_ON, 0), Queued(TURN_OFF, 1), Out], currentCode := "",
                           past := s0.past.(accepted := [FIRST, SECOND]));
    assert Next(s0, Clear(1)) == Moved(s1);
    assert Next(s1, Allocate(1)) == Moved(s2);
    assert Next(s2, Enqueue(1)) == Moved(s3);
    assert Next(s3, SetCode(1)) == Moved(Overtaken());
    ReachMore(3, s0, Clear(1));
    ReachMore(3, s1, Allocate(1));
    ReachMore(3, s2, Enqueue(1));
    ReachMore(3, s3, SetCode(1));
  }

  lemma ReachWrongRepeat()
    ensures Reachable(3, WrongRepeat())
  {
    ReachOvertaken();
    hide Reachable;
    var s0 := Overtaken();
    var s1 := WrongRepeat().(tasks := [Out, Out, Out]);
    var s2 := WrongRepeat().(tasks := [Out, Out, Called(TURN_ON)]);
    var s3 := WrongRepeat().(tasks := [Out, Out, Busy(TURN_ON)]);
    assert Next(s0, SetCode(0)) == Moved(s1);
    assert Next(s1, Call(2, TURN_ON)) == Moved(s2);
    assert Next(s2, Look(2)) == Moved(s3);
    assert Next(s3, Compare(2)) == Moved(WrongRepeat());
    ReachMore(3, s0, SetCode(0));
    ReachMore(3, s1, Call(2, TURN_ON));
    ReachMore(3, s2, Look(2));
    ReachMore(3, s3, Compare(2));
  }

  /**
   With overlapping sends a 202 can go to the wrong code: a reachable state has one message in the queue and a
   send of another code about to be granted as its repeat, and that grant makes the queued message go on.
   */
  lemma OverlapRepeatsWrongCode()
    ensures Reachable(3, WrongRepeat()) && Live(WrongRepeat(), 1) && WrongRepeat().queue == Some(1)
    ensures WrongRepeat().tasks[2].Repeating? && WrongRepeat().tasks[2].req.code != WrongRepeat().heap[1].msg.code
    ensures Run(WrongRepeat(), [Peek, Grant(2), Callback]).Moved?
    ensures Run(WrongRepeat(), [Peek, Grant(2), Callback]).s.worker == Refilling(1, 3, 3, 0)
  {
    ReachWrongRepeat();
    hide Reachable;
    var s0 := WrongRepeat();
    var s1 := s0.(worker := Sending(1, 3, 3, 0), past := s0.past.(started := [FIRST, SECOND]));
    var s2 := s1.(tasks := [Out, Out, Out], repeatBit := true, mark := Mark(1, 0));
    assert Next(s0, Peek) == Moved(s1);
    assert Next(s1, Grant(2)) == Moved(s2);
    assert [Peek, Grant(2), Callback][1..] == [Grant(2), Callback];
    assert [Grant(2), Callback][1..] == [Callback];
    assert [Callback][1..] == [];
    assert Run(s0, [Peek, Grant(2), Callback]) == Run(s1, [Grant(2), Callback]) == Run(s2, [Callback]);
    assert TURN_ON.code[7] != TURN_OFF.code[7];
  }
}
