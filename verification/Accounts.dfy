// The connection is charged exactly what its streams are.
module Accounts {
  import opened Common
  import opened Frames
  import opened FlowControl
  import Sorter
  import Streams
  import Framer
  import Termination
  import opened Transport

  // What a stream adds to the bytes of the connection.
  function Share(c: Controller): nat { if c.contributes then c.sent else 0 }

  // The sum over all streams.
  ghost function Total(streams: map<StreamID, Controller>): nat
    decreases |streams|
  {
    if streams == map[] then 0 else
    var id :| id in streams;
    Share(streams[id]) + Total(streams - {id})
  }

  // The order in which the streams are added up does not matter.
  lemma {:induction false} TotalPick(streams: map<StreamID, Controller>, id: StreamID)
    requires id in streams
    ensures Total(streams) == Share(streams[id]) + Total(streams - {id})
    decreases |streams|
  {
    var k :| k in streams && Total(streams) == Share(streams[k]) + Total(streams - {k});
    if k != id {
      var less := streams - {k};
      TotalPick(less, id);
      TotalPick(streams - {id}, k);
      assert less - {id} == (streams - {id}) - {k};
    }
  }

  lemma TotalUpdate(streams: map<StreamID, Controller>, id: StreamID, c: Controller)
    ensures Total(streams[id := c]) == Total(streams - {id}) + Share(c)
    ensures id in streams ==> Total(streams) == Total(streams - {id}) + Share(streams[id])
    ensures id !in streams ==> streams - {id} == streams
  {
    TotalPick(streams[id := c], id);
    assert streams[id := c] - {id} == streams - {id};
    if id in streams { TotalPick(streams, id); }
  }

  ghost predicate Even(flow: Flow)
  {
    flow.connSent == Total(flow.streams)
  }

  lemma SentEven(flow: Flow, id: StreamID, n: nat)
    requires Even(flow)
    ensures Even(flow.AddBytesSent(id, n)) && Even(flow.AddBytesRetrans(id, n))
  {
    if id in flow.streams {
      TotalUpdate(flow.streams, id, flow.streams[id].(sent := flow.streams[id].sent + n));
      TotalUpdate(flow.streams, id, flow.streams[id].(retrans := flow.streams[id].retrans + n));
    }
  }

  lemma WindowEven(flow: Flow, id: StreamID, n: nat, contributes: bool)
    requires Even(flow)
    ensures Even(flow.UpdateWindow(id, n)) && Even(flow.NewStream(id, contributes))
  {
    if id in flow.streams {
      TotalUpdate(flow.streams, id, flow.streams[id].(window := n));
    } else {
      TotalUpdate(flow.streams, id, Controller(0, 0, 0, contributes));
    }
  }

  lemma {:induction false} ResentEven(flow: Flow, fs: seq<Frame>)
    requires Even(flow)
    ensures Even(Framer.Resent(flow, fs))
    decreases |fs|
  {
    hide Even;
    if fs != [] {
      SentEven(flow, fs[0].streamID, |fs[0].data|);
      ResentEven(flow.AddBytesRetrans(fs[0].streamID, |fs[0].data|), fs[1..]);
    }
  }

  lemma {:induction false} SendAllEven(s: Framer.State, order: seq<StreamID>, maxBytes: nat)
    requires Even(s.flow) && forall id :: id in order ==> id in s.streams
    ensures Even(Framer.SendAll(s, order, maxBytes).state.flow)
    decreases |order|
  {
    hide Even, Framer.Send, WireLength;
    if order != [] {
      var (s1, r) := Framer.SendOne(s, order[0], maxBytes);
      if r.frame.Some? { SentEven(s.flow, order[0], |r.frame.value.data|); }
      if r.cont {
        Framer.TotalLengthOne(r.frame);
        var first := if r.frame.Some? then [r.frame.value] else [];
        SendAllEven(s1, order[1..], maxBytes - Framer.TotalLength(first));
      }
    }
  }

  lemma PopFramesEven(s: Framer.State, order: seq<StreamID>, maxLen: nat)
    requires Even(s.flow) && forall id :: id in order ==> id in s.streams
    ensures Even(Framer.PopFrames(s, order, maxLen).state.flow)
  {
    hide Even, Framer.SendAll, Framer.Retransmit, Framer.Resent;
    Framer.RetransmitFits(s.queue, maxLen, 0);
    var p := Framer.Retransmit(s.queue, maxLen, 0);
    ResentEven(s.flow, p.frames);
    SendAllEven(s.(queue := p.queue, flow := Framer.Resent(s.flow, p.frames)), order, maxLen - p.len);
  }

  lemma NextEven(s: System, e: Event, s': System)
    requires Even(s.framer.flow) && Next(s, e, s')
    ensures Even(s'.framer.flow)
  {
    hide Even, Framer.PopFrames, Sorter.PushSpec, Streams.ReadFrame, Streams.ReaderValid, Termination.Apply,
         Sorter.HeadOf;
    match e
    case Open(id, contributes) => WindowEven(s.framer.flow, id, 0, contributes);
    case WindowUpdate(id, offset) => WindowEven(s.framer.flow, id, offset, false);
    case PopFrames(order, maxLen) => PopFramesEven(s.framer, order, maxLen);
    case _ =>
  }

  /** In every state of every run the bytes charged to the connection are the sum of the bytes charged
      to the streams that contribute to it. */
  lemma {:induction false} ConnectionIsTheSum(states: seq<System>, events: seq<Event>, i: nat)
    requires IsRun(states, events) && i < |states|
    ensures states[i].framer.flow.connSent == Total(states[i].framer.flow.streams)
  {
    hide Next, IsRun;
    if i == 0 {
      RunStart(states, events);
    } else {
      ConnectionIsTheSum(states, events, i - 1);
      RunStep(states, events, i - 1);
      NextEven(states[i - 1], events[i - 1], states[i]);
    }
  }
}
