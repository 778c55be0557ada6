// A run in which a reader is told too early that its stream has ended.
module EarlyEnd {
  import opened Common
  import opened Frames
  import opened FlowControl
  import Sorter
  import SorterProps
  import Streams
  import Framer
  import Termination
  import opened Transport

  // The three bytes of stream 5 in one frame, and the two pieces it is split into when it is resent.
  function Whole(b: seq<Byte>): Frame { Frame(5, true, true, 0, b) }

  function Front(b: seq<Byte>): Frame
    requires |b| == 3
  {
    Frame(5, false, true, 0, b[..2])
  }

  function Back(b: seq<Byte>): Frame
    requires |b| == 3
  {
    Frame(5, true, true, 2, b[2..])
  }

  // The framer's side, with nothing to resend.
  function Sender(st: StreamState, c: Controller, connSent: nat, retrans: nat): Framer.State
  {
    Framer.State([], if connSent == 3 then [0] else [], map[5 := st], Flow(map[5 := c], connSent, 0, retrans, 3, 3))
  }

  function Fresh(): StreamState { Streams.NewStream(5) }

  function AllSent(): StreamState { Fresh().(writeOffset := 3, finishedWriting := true, finSent := true) }

  // ---------------------------------------------------------------- framing

  lemma Lengths(b: seq<Byte>)
    requires |b| == 3
    ensures MinLength(Frame(5, false, true, 0, [])) == 4 && MinLength(Whole(b)) == 4 && MinLength(Back(b)) == 6
  {
  }

  lemma FirstSend(b: seq<Byte>, st: StreamState)
    requires |b| == 3 && st == Fresh().(pending := Some(b), finishedWriting := true)
    ensures Framer.Send(st, 100, 3) == Framer.Sent(AllSent(), Some(Whole(b)), true)
  {
    Lengths(b);
    hide MinLength;
  }

  lemma FirstPop(b: seq<Byte>, st: StreamState, s: Framer.State)
    requires |b| == 3 && st == Fresh().(pending := Some(b), finishedWriting := true)
    requires s == Sender(st, Controller(0, 0, 0, true), 0, 0)
    ensures Framer.PopFrames(s, [5], 100) == Framer.SentAll(Sender(AllSent(), Controller(3, 0, 0, true), 3, 0),
      [Whole(b)])
  {
    hide Framer.Send, MinLength;
    FirstSend(b, st);
    assert s.flow.SendWindowSize(5) == 3;
    var (s1, r) := Framer.SendOne(s, 5, 100);
    assert r.frame == Some(Whole(b)) && r.cont;
    assert s1 == Sender(AllSent(), Controller(3, 0, 0, true), 3, 0);
    Framer.TotalLengthOne(r.frame);
    assert [5][1..] == [];
    var left := 100 - Framer.TotalLength([Whole(b)]);
    assert Framer.SendAll(s1, [], left) == Framer.SentAll(s1, []);
    assert [Whole(b)] + [] == [Whole(b)];
    assert Framer.SendAll(s, [5], 100) == Framer.SentAll(s1, [Whole(b)]);
    assert Framer.Retransmit([], 100, 0) == Framer.Popped([], [], 0);
    assert Framer.Resent(s.flow, []) == s.flow;
    assert [] + [Whole(b)] == [Whole(b)];
  }

  // A budget of six bytes gets two bytes of the lost frame resent.
  lemma SplitPop(b: seq<Byte>, s: Framer.State)
    requires |b| == 3 && s == Sender(AllSent(), Controller(3, 0, 0, true), 3, 0).(queue := [Whole(b)])
    ensures Framer.PopFrames(s, [], 6) ==
      Framer.SentAll(Sender(AllSent(), Controller(3, 0, 2, true), 3, 2).(queue := [Back(b)]), [Front(b)])
  {
    Lengths(b);
    hide MinLength;
    assert [Whole(b)][1..] == [] && [Back(b)] + [] == [Back(b)];
    assert Framer.SplitFront(Whole(b), 2) == Front(b) && Framer.SplitBack(Whole(b), 2) == Back(b);
    assert Framer.Retransmit([Whole(b)], 6, 0) == Framer.Popped([Front(b)], [Back(b)], 6);
    var flow := s.flow.AddBytesRetrans(5, 2);
    assert [Front(b)][1..] == [];
    assert Framer.Resent(flow, []) == flow;
    assert Framer.Resent(s.flow, [Front(b)]) == flow;
    assert [Front(b)] + [] == [Front(b)];
  }

  lemma LastPop(b: seq<Byte>, s: Framer.State)
    requires |b| == 3 && s == Sender(AllSent(), Controller(3, 0, 2, true), 3, 2).(queue := [Back(b)])
    ensures Framer.PopFrames(s, [], 100) ==
      Framer.SentAll(Sender(AllSent(), Controller(3, 0, 3, true), 3, 3), [Back(b)])
  {
    Lengths(b);
    hide MinLength;
    assert [Back(b)][1..] == [];
    assert Framer.Retransmit([], 100, 7) == Framer.Popped([], [], 7);
    assert [Back(b)] + [] == [Back(b)];
    assert Framer.Retransmit([Back(b)], 100, 0) == Framer.Popped([Back(b)], [], 7);
    var flow := s.flow.AddBytesRetrans(5, 1);
    assert Framer.Resent(flow, []) == flow;
    assert Framer.Resent(s.flow, [Back(b)]) == flow;
  }

  // ---------------------------------------------------------------- reassembly

  function AfterBack(b: seq<Byte>): Sorter.State
    requires |b| == 3
  {
    Sorter.State(map[2 := Back(b)], 0, [Sorter.Interval(0, 2), Sorter.Interval(3, MAX_BYTE_COUNT)])
  }

  // The tail of the whole frame has arrived, so it is cut; FIN stays on what is left.
  function AfterWhole(b: seq<Byte>): Sorter.State
    requires |b| == 3
  {
    Sorter.State(map[0 := Frame(5, true, true, 0, b[..2]), 2 := Back(b)], 0, [Sorter.Interval(3, MAX_BYTE_COUNT)])
  }

  // Which bytes are missing in a list of one or two gaps.
  lemma GapBytes(gaps: seq<Sorter.Interval>, x: int)
    requires 1 <= |gaps| <= 2
    ensures Sorter.Missing(gaps, x) <==>
      gaps[0].start <= x < gaps[0].end || (|gaps| == 2 && gaps[1].start <= x < gaps[1].end)
  {
    if gaps[0].start <= x < gaps[0].end { assert Sorter.Missing(gaps, x); }
    if |gaps| == 2 && gaps[1].start <= x < gaps[1].end { assert Sorter.Missing(gaps, x); }
  }

  lemma PushBack(b: seq<Byte>)
    requires |b| == 3
    ensures Sorter.PushSpec(Sorter.Init(), Back(b), AfterBack(b), Sorter.Ok)
  {
    hide Sorter.Missing;
    var g, g' := Sorter.Init().gaps, AfterBack(b).gaps;
    forall x: int ensures Sorter.Missing(g, x) <==> 0 <= x < MAX_BYTE_COUNT { GapBytes(g, x); }
    forall x: int ensures Sorter.Missing(g', x) <==> 0 <= x < 2 || 3 <= x < MAX_BYTE_COUNT { GapBytes(g', x); }
    assert Back(b).Slice(2, 3) == Back(b);
    assert Sorter.Bridged(map[], g, 2, 3) == map[];
  }

  lemma PushWhole(b: seq<Byte>)
    requires |b| == 3
    ensures Sorter.PushSpec(AfterBack(b), Whole(b), AfterWhole(b), Sorter.Ok)
  {
    hide Sorter.Missing;
    var q, g, g' := AfterBack(b).queued, AfterBack(b).gaps, AfterWhole(b).gaps;
    forall x: int ensures Sorter.Missing(g, x) <==> 0 <= x < 2 || 3 <= x < MAX_BYTE_COUNT { GapBytes(g, x); }
    forall x: int ensures Sorter.Missing(g', x) <==> 3 <= x < MAX_BYTE_COUNT { GapBytes(g', x); }
    assert Sorter.FirstMissing(g, 0, 3) == 0;
    assert Sorter.PastLastMissing(g, 0, 2) == 2 && Sorter.PastLastMissing(g, 0, 3) == 2;
    assert Whole(b).Slice(0, 2) == Frame(5, true, true, 0, b[..2]);
    assert Sorter.Bridged(q, g, 0, 2) == q;
  }

  lemma ReaderReady(b: seq<Byte>)
    requires |b| == 3
    ensures Streams.ReaderValid(AfterWhole(b), 0)
  {
    hide Sorter.Valid, Sorter.PushSpec;
    Sorter.InitValid();
    PushBack(b);
    SorterProps.PushKeepsValid(Sorter.Init(), Back(b), AfterBack(b), Sorter.Ok);
    PushWhole(b);
    SorterProps.PushKeepsValid(AfterBack(b), Whole(b), AfterWhole(b), Sorter.Ok);
  }

  // ---------------------------------------------------------------- the run

  // The run: one frame with everything is sent, declared lost, and resent in two pieces; then the
  // second piece arrives, and after it the frame that was not lost at all.
  function Step(b: seq<Byte>, i: nat): Event
    requires |b| == 3
  {
    match i
    case 0 => Open(5, true)
    case 1 => Write(5, b)
    case 2 => Local(5, Termination.Close)
    case 3 => PopFrames([5], 100)
    case 4 => Lose(Whole(b))
    case 5 => PopFrames([], 6)
    case 6 => PopFrames([], 100)
    case 7 => Deliver(Back(b))
    case 8 => Deliver(Whole(b))
    case _ => Read(5, 3)
  }

  // A state of the run after stream 5 was written to.
  function With(b: seq<Byte>, framer: Framer.State, sent: set<Frame>, r: Receiver): System
  {
    System(framer, map[5 := b], sent, map[5 := r], map[0 := 3, 5 := 3])
  }

  function Waiting(queue: Sorter.State): Receiver { Receiver(queue, 0, false, []) }

  function At(b: seq<Byte>, i: nat): System
    requires |b| == 3
  {
    var idle, started := Waiting(Sorter.Init()), Controller(0, 0, 0, true);
    var first := Sender(AllSent(), Controller(3, 0, 0, true), 3, 0);
    var last := Sender(AllSent(), Controller(3, 0, 3, true), 3, 3);
    match i
    case 0 => Init(3, 3)
    case 1 => With([], Sender(Fresh(), started, 0, 0), {}, idle)
    case 2 => With(b, Sender(Fresh().(pending := Some(b)), started, 0, 0), {}, idle)
    case 3 => With(b, Sender(Fresh().(pending := Some(b), finishedWriting := true), started, 0, 0), {}, idle)
    case 4 => With(b, first, {Whole(b)}, idle)
    case 5 => With(b, first.(queue := [Whole(b)]), {Whole(b)}, idle)
    case 6 =>
      With(b, Sender(AllSent(), Controller(3, 0, 2, true), 3, 2).(queue := [Back(b)]), {Whole(b), Front(b)}, idle)
    case 7 => With(b, last, {Whole(b), Front(b), Back(b)}, idle)
    case 8 => With(b, last, {Whole(b), Front(b), Back(b)}, Waiting(AfterBack(b)))
    case 9 => With(b, last, {Whole(b), Front(b), Back(b)}, Waiting(AfterWhole(b)))
    case _ =>
      With(b, last, {Whole(b), Front(b), Back(b)}, Receiver(Sorter.Popped(AfterWhole(b)), 2, true, b[..2]))
  }

  lemma OpenStep(b: seq<Byte>)
    requires |b| == 3
    ensures Next(At(b, 0), Step(b, 0), At(b, 1))
  {
  }

  lemma WriteStep(b: seq<Byte>)
    requires |b| == 3
    ensures Next(At(b, 1), Step(b, 1), At(b, 2)) && Next(At(b, 2), Step(b, 2), At(b, 3))
  {
    assert [] + b == b;
  }

  lemma SendSteps(b: seq<Byte>)
    requires |b| == 3
    ensures Next(At(b, 3), Step(b, 3), At(b, 4)) && Next(At(b, 4), Step(b, 4), At(b, 5))
  {
    hide Framer.PopFrames;
    FirstPop(b, Fresh().(pending := Some(b), finishedWriting := true), At(b, 3).framer);
    assert (set f | f in [Whole(b)]) == {Whole(b)};
  }

  lemma ResendSteps(b: seq<Byte>)
    requires |b| == 3
    ensures Next(At(b, 5), Step(b, 5), At(b, 6)) && Next(At(b, 6), Step(b, 6), At(b, 7))
  {
    hide Framer.PopFrames;
    SplitPop(b, At(b, 5).framer);
    LastPop(b, At(b, 6).framer);
    assert (set f | f in [Front(b)]) == {Front(b)} && (set f | f in [Back(b)]) == {Back(b)};
  }

  lemma DeliverSteps(b: seq<Byte>)
    requires |b| == 3
    ensures Next(At(b, 7), Step(b, 7), At(b, 8)) && Next(At(b, 8), Step(b, 8), At(b, 9))
  {
    hide Sorter.PushSpec;
    PushBack(b);
    PushWhole(b);
  }

  lemma ReadStep(b: seq<Byte>)
    requires |b| == 3
    ensures Next(At(b, 9), Step(b, 9), At(b, 10))
  {
    hide Streams.ReaderValid;
    ReaderReady(b);
    assert b[..2][0..2] == b[..2] && [] + b[..2] == b[..2];
  }

  lemma OneStep(b: seq<Byte>, i: nat)
    requires |b| == 3 && i < 10
    ensures Next(At(b, i), Step(b, i), At(b, i + 1))
  {
    hide Next, At, Step;
    OpenStep(b);
    WriteStep(b);
    SendSteps(b);
    ResendSteps(b);
    DeliverSteps(b);
    ReadStep(b);
  }

  /** The condition of intact FIN frames is needed: a run in which all three bytes of a stream are
      written, and its reader has seen the end of file after two of them. */
  lemma EarlyEof(b: seq<Byte>) returns (states: seq<System>, events: seq<Event>)
    requires |b| == 3
    ensures IsRun(states, events)
    ensures var s := states[|events|];
      && 5 in s.receivers && 5 in s.written && s.receivers[5].eof
      && s.receivers[5].out == b[..2] && s.written[5] == b
  {
    states, events := seq(11, i requires 0 <= i < 11 => At(b, i)), seq(10, i requires 0 <= i < 10 => Step(b, i));
    assert states[0] == Init(3, 3);
    hide Next;
    forall i | 0 <= i < 10 ensures Next(states[i], events[i], states[i + 1]) { OneStep(b, i); }
  }
}
