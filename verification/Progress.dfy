// What has been sent covers what has been framed, and once it has arrived it can be read.
module Progress {
  import opened Common
  import opened Frames
  import Sorter
  import Streams
  import Framer
  import Termination
  import opened Transport
  import opened Delivery

  // ---------------------------------------------------------------- sent frames cover the stream

  // The frame holds byte x of the stream.
  predicate Holds(f: Frame, id: StreamID, x: nat)
  {
    f.streamID == id && f.offset <= x < f.End()
  }

  ghost predicate Covered(sent: set<Frame>, id: StreamID, x: nat)
  {
    exists f :: f in sent && Holds(f, id, x)
  }

  // Every byte that was ever framed is in a frame that was sent.
  ghost predicate SentCovers(s: System)
  {
    forall id, x :: id in s.framer.streams && 0 <= x < s.framer.streams[id].writeOffset ==> Covered(s.sent, id, x)
  }

  ghost predicate Named(streams: map<StreamID, StreamState>)
  {
    forall id :: id in streams ==> streams[id].id == id
  }

  ghost predicate Carried(fs: seq<Frame>, id: StreamID, x: nat)
  {
    exists i :: 0 <= i < |fs| && Holds(fs[i], id, x)
  }

  // The frames hold the bytes by which the streams have moved on.
  ghost predicate MovesWith(fs: seq<Frame>, before: map<StreamID, StreamState>, after: map<StreamID, StreamState>)
  {
    forall id, x :: id in before && id in after && before[id].writeOffset <= x < after[id].writeOffset ==>
      Carried(fs, id, x)
  }

  lemma SendOneMoves(s: Framer.State, id: StreamID, maxBytes: nat)
    requires id in s.streams && Named(s.streams)
    ensures var (s', r) := Framer.SendOne(s, id, maxBytes);
      && MovesWith(if r.frame.Some? then [r.frame.value] else [], s.streams, s'.streams)
      && Named(s'.streams) && s'.streams.Keys == s.streams.Keys
  {
    hide Framer.Send;
    Framer.SendFacts(s.streams[id], maxBytes, s.flow.SendWindowSize(id));
    var (s', r) := Framer.SendOne(s, id, maxBytes);
    if r.frame.Some? {
      var fs := [r.frame.value];
      forall k, x | k in s.streams && k in s'.streams && s.streams[k].writeOffset <= x < s'.streams[k].writeOffset
        ensures Carried(fs, k, x)
      {
        assert k == id && Holds(fs[0], k, x);
      }
    }
  }

  lemma MovesThen(fs: seq<Frame>, gs: seq<Frame>, a: map<StreamID, StreamState>, b: map<StreamID, StreamState>,
                  c: map<StreamID, StreamState>)
    requires MovesWith(fs, a, b) && MovesWith(gs, b, c) && a.Keys == b.Keys
    ensures MovesWith(fs + gs, a, c)
  {
    var all := fs + gs;
    forall id, x | id in a && id in c && a[id].writeOffset <= x < c[id].writeOffset
      ensures Carried(all, id, x)
    {
      if x < b[id].writeOffset {
        assert Carried(fs, id, x);
        var i :| 0 <= i < |fs| && Holds(fs[i], id, x);
        assert Holds(all[i], id, x);
      } else {
        assert Carried(gs, id, x);
        var i :| 0 <= i < |gs| && Holds(gs[i], id, x);
        assert Holds(all[|fs| + i], id, x);
      }
    }
  }

  lemma {:induction false} SendAllMoves(s: Framer.State, order: seq<StreamID>, maxBytes: nat)
    requires Named(s.streams) && forall id :: id in order ==> id in s.streams
    ensures var r := Framer.SendAll(s, order, maxBytes);
      MovesWith(r.frames, s.streams, r.state.streams) && r.state.streams.Keys == s.streams.Keys
    decreases |order|
  {
    hide Framer.SendOne, MovesWith, Named, WireLength;
    if order == [] {
      assert MovesWith([], s.streams, s.streams) by { NoMove(s.streams); }
    } else {
      SendOneMoves(s, order[0], maxBytes);
      var (s1, r) := Framer.SendOne(s, order[0], maxBytes);
      var first := if r.frame.Some? then [r.frame.value] else [];
      if r.cont {
        Framer.TotalLengthOne(r.frame);
        var rest := Framer.SendAll(s1, order[1..], maxBytes - Framer.TotalLength(first));
        SendAllMoves(s1, order[1..], maxBytes - Framer.TotalLength(first));
        MovesThen(first, rest.frames, s.streams, s1.streams, rest.state.streams);
      }
    }
  }

  lemma NoMove(streams: map<StreamID, StreamState>)
    ensures MovesWith([], streams, streams)
  {
  }

  lemma PopFramesMoves(s: Framer.State, order: seq<StreamID>, maxLen: nat)
    requires Named(s.streams) && forall id :: id in order ==> id in s.streams
    ensures var r := Framer.PopFrames(s, order, maxLen);
      MovesWith(r.frames, s.streams, r.state.streams) && r.state.streams.Keys == s.streams.Keys
  {
    hide Framer.SendAll, Framer.Retransmit, Framer.Resent, MovesWith, Named;
    Framer.RetransmitFits(s.queue, maxLen, 0);
    var p := Framer.Retransmit(s.queue, maxLen, 0);
    var s1 := s.(queue := p.queue, flow := Framer.Resent(s.flow, p.frames));
    SendAllMoves(s1, order, maxLen - p.len);
    var r := Framer.SendAll(s1, order, maxLen - p.len);
    assert MovesWith(p.frames, s.streams, s.streams) by { Unmoved(p.frames, s.streams); }
    MovesThen(p.frames, r.frames, s.streams, s.streams, r.state.streams);
  }

  lemma Unmoved(fs: seq<Frame>, streams: map<StreamID, StreamState>)
    ensures MovesWith(fs, streams, streams)
  {
  }

  // Frames that hold what the streams move on by keep everything covered.
  lemma CoversMore(s: System, s': System, fs: seq<Frame>)
    requires SentCovers(s) && MovesWith(fs, s.framer.streams, s'.framer.streams)
    requires s'.framer.streams.Keys == s.framer.streams.Keys
    requires s.sent <= s'.sent && forall i :: 0 <= i < |fs| ==> fs[i] in s'.sent
    ensures SentCovers(s')
  {
    forall id, x | id in s'.framer.streams && 0 <= x < s'.framer.streams[id].writeOffset
      ensures Covered(s'.sent, id, x)
    {
      if x < s.framer.streams[id].writeOffset {
        assert Covered(s.sent, id, x);
      } else {
        assert Carried(fs, id, x);
        var i :| 0 <= i < |fs| && Holds(fs[i], id, x);
        assert fs[i] in s'.sent;
      }
    }
  }

  // Nothing moves when no stream's write offset does.
  lemma CoversSame(s: System, s': System)
    requires SentCovers(s) && s'.sent == s.sent
    requires forall id :: id in s'.framer.streams && s'.framer.streams[id].writeOffset > 0 ==>
      id in s.framer.streams && s'.framer.streams[id].writeOffset == s.framer.streams[id].writeOffset
    ensures SentCovers(s')
  {
    forall id, x | id in s'.framer.streams && 0 <= x < s'.framer.streams[id].writeOffset
      ensures Covered(s'.sent, id, x)
    {
      assert Covered(s.sent, id, x);
    }
  }

  lemma NamedStreams(s: System)
    requires Inv(s)
    ensures Named(s.framer.streams)
  {
  }

  lemma PopFramesCovers(s: System, s': System, order: seq<StreamID>, maxLen: nat)
    requires Inv(s) && SentCovers(s) && Next(s, PopFrames(order, maxLen), s')
    ensures SentCovers(s')
  {
    hide Inv, SentCovers, MovesWith, Named, Framer.PopFrames;
    NamedStreams(s);
    PopFramesMoves(s.framer, order, maxLen);
    CoversMore(s, s', Framer.PopFrames(s.framer, order, maxLen).frames);
  }

  lemma CryptoCovers(s: System, s': System, maxBytes: nat)
    requires Inv(s) && SentCovers(s) && Next(s, PopCrypto(maxBytes), s')
    ensures SentCovers(s')
  {
    hide Inv, SentCovers, Streams.AfterTaking, Streams.DataTaken;
    var st := s.framer.streams[1];
    var f := CryptoFrame(st, maxBytes);
    if f.Some? {
      Framer.TakeFacts(st, maxBytes);
      var fs := [f.value];
      forall id, x | id in s.framer.streams && id in s'.framer.streams &&
          s.framer.streams[id].writeOffset <= x < s'.framer.streams[id].writeOffset
        ensures Carried(fs, id, x)
      {
        assert id == 1 && Holds(fs[0], id, x);
      }
      CoversMore(s, s', fs);
    }
  }

  lemma LocalOffset(st: StreamState, e: Termination.Event)
    requires !e.Send?
    ensures Termination.Apply(st, e).0.writeOffset == st.writeOffset
  {
  }

  // Every other step leaves the write offsets alone.
  lemma StaysPut(s: System, e: Event, s': System)
    requires Next(s, e, s') && !e.PopFrames? && !e.PopCrypto?
    ensures s'.sent == s.sent
    ensures forall id :: id in s'.framer.streams && s'.framer.streams[id].writeOffset > 0 ==>
      id in s.framer.streams && s'.framer.streams[id].writeOffset == s.framer.streams[id].writeOffset
  {
    hide Sorter.PushSpec, Streams.ReadFrame, Streams.ReaderValid, Termination.Apply, Sorter.HeadOf;
    if e.Local? { LocalOffset(s.framer.streams[e.id], e.event); }
  }

  lemma NextCovers(s: System, e: Event, s': System)
    requires Inv(s) && SentCovers(s) && Next(s, e, s')
    ensures SentCovers(s')
  {
    hide Inv, SentCovers, Next;
    match e
    case PopFrames(order, maxLen) => PopFramesCovers(s, s', order, maxLen);
    case PopCrypto(maxBytes) => CryptoCovers(s, s', maxBytes);
    case _ =>
      StaysPut(s, e, s');
      CoversSame(s, s');
  }

  lemma {:induction false} RunCovers(states: seq<System>, events: seq<Event>, i: nat)
    requires IsRun(states, events) && i < |states|
    ensures SentCovers(states[i])
  {
    hide Next, Inv, IsRun;
    if i == 0 {
      RunStart(states, events);
    } else {
      RunCovers(states, events, i - 1);
      RunInv(states, events, i - 1);
      RunStep(states, events, i - 1);
      hide SentCovers;
      NextCovers(states[i - 1], events[i - 1], states[i]);
    }
  }

  // ---------------------------------------------------------------- what arrived stays

  // Byte x of the stream has arrived.
  ghost predicate Has(s: System, id: StreamID, x: nat)
  {
    id in s.receivers && !Sorter.Missing(s.receivers[id].queue.gaps, x)
  }

  lemma PushHas(q: Sorter.State, f: Frame, q': Sorter.State, res: Sorter.PushResult, x: nat)
    requires Sorter.PushSpec(q, f, q', res) && res != Sorter.TooManyGaps
    ensures Sorter.Missing(q'.gaps, x) <==> Sorter.Missing(q.gaps, x) && !(f.offset <= x < f.End())
  {
  }

  // Receivers are never dropped, and only a delivery or a read touches one.
  lemma ReceiversStay(s: System, e: Event, s': System, id: StreamID)
    requires Inv(s) && Next(s, e, s') && id in s.receivers
    ensures id in s'.receivers && (!e.Deliver? && !e.Read? ==> s'.receivers[id] == s.receivers[id])
  {
    hide Sorter.PushSpec, Streams.ReadFrame, Streams.ReaderValid, Termination.Apply, Sorter.HeadOf, Framer.PopFrames,
         Inv;
    if e.Open? { SameKeys(s); }
  }

  lemma DeliverHas(s: System, f: Frame, s': System, id: StreamID, x: nat)
    requires Next(s, Deliver(f), s') && (Has(s, id, x) || Holds(f, id, x))
    ensures Has(s', id, x)
  {
    hide Sorter.PushSpec, Sorter.Missing;
    var r := s.receivers[f.streamID];
    var q, res :| Sorter.PushSpec(r.queue, f, q, res) && res != Sorter.TooManyGaps
      && s' == s.(receivers := s.receivers[f.streamID := r.(queue := q)]);
    PushHas(r.queue, f, q, res, x);
  }

  lemma ReadHas(s: System, k: StreamID, n: nat, s': System, id: StreamID, x: nat)
    requires Next(s, Read(k, n), s') && Has(s, id, x)
    ensures Has(s', id, x)
  {
    hide Sorter.Missing, Streams.ReaderValid;
  }

  lemma NextHas(s: System, e: Event, s': System, id: StreamID, x: nat)
    requires Inv(s) && Next(s, e, s')
    requires Has(s, id, x) || (e.Deliver? && Holds(e.frame, id, x))
    ensures Has(s', id, x)
  {
    hide Sorter.Missing, Next, Inv;
    match e
    case Deliver(f) => DeliverHas(s, f, s', id, x);
    case Read(k, n) => ReadHas(s, k, n, s', id, x);
    case _ => ReceiversStay(s, e, s', id);
  }

  lemma {:induction false} RunHas(states: seq<System>, events: seq<Event>, k: nat, i: nat, id: StreamID, x: nat)
    requires IsRun(states, events) && k < i < |states|
    requires events[k].Deliver? && Holds(events[k].frame, id, x)
    ensures Has(states[i], id, x)
    decreases i
  {
    hide Next, Inv, Has, IsRun;
    RunInv(states, events, i - 1);
    RunStep(states, events, i - 1);
    if k < i - 1 { RunHas(states, events, k, i - 1, id, x); }
    NextHas(states[i - 1], events[i - 1], states[i], id, x);
  }

  // ---------------------------------------------------------------- everything framed can be read

  // Every frame of the stream that was sent by state i has been delivered before it.
  ghost predicate AllDelivered(states: seq<System>, events: seq<Event>, i: nat, id: StreamID)
    requires i < |states| == |events| + 1
  {
    forall f :: f in states[i].sent && f.streamID == id ==> exists k :: 0 <= k < i && events[k] == Deliver(f)
  }

  lemma FramedArrived(states: seq<System>, events: seq<Event>, i: nat, id: StreamID, x: nat)
    requires IsRun(states, events) && i < |states| && AllDelivered(states, events, i, id)
    requires id in states[i].framer.streams && x < states[i].framer.streams[id].writeOffset
    ensures Has(states[i], id, x)
  {
    hide Next, Has;
    RunCovers(states, events, i);
    assert Covered(states[i].sent, id, x);
    var f :| f in states[i].sent && Holds(f, id, x);
    var k :| 0 <= k < i && events[k] == Deliver(f);
    RunHas(states, events, k, i, id, x);
  }

  lemma ReaderReady(states: seq<System>, events: seq<Event>, i: nat, id: StreamID)
    requires IsRun(states, events) && i < |states| && id in states[i].framer.streams
    requires forall k :: 0 <= k < |events| ==> FinIntact(states[k], events[k])
    ensures var s := states[i];
      && id in s.receivers && id in s.written && ReceiverOK(s.receivers[id], s.written[id])
      && QueueOK(s.receivers[id].queue, s.written[id]) && |s.written[id]| < MAX_BYTE_COUNT
      && s.framer.streams[id].writeOffset <= |s.written[id]|
  {
    hide Next, FinIntact, IsRun, FrameOK, FlowOK, Streams.ReaderValid;
    RunInv(states, events, i);
    RunEof(states, events, i);
    SameKeys(states[i]);
  }

  /** Delivery: if every frame of a stream that was sent has arrived, with FIN intact, then a read that
      asks for enough returns everything that was framed and not read before, and nothing that was not
      written. */
  lemma EverythingArrives(states: seq<System>, events: seq<Event>, i: nat, id: StreamID, n: nat)
    requires IsRun(states, events) && i < |states| && id in states[i].framer.streams
    requires forall k :: 0 <= k < |events| ==> FinIntact(states[k], events[k])
    requires AllDelivered(states, events, i, id) && id in states[i].receivers
    requires states[i].receivers[id].readOffset + n >= states[i].framer.streams[id].writeOffset
    ensures var s := states[i];
      var r, framed := s.receivers[id], s.framer.streams[id].writeOffset;
      && id in s.written && framed <= |s.written[id]| && Streams.ReaderValid(r.queue, r.readOffset)
      && var out := r.out + Streams.ReadLoop(r.queue, r.readOffset, n).step.bytes;
         s.written[id][..framed] <= out <= s.written[id]
  {
    hide Next, FinIntact, IsRun, AllDelivered, Streams.ReaderValid, Sorter.Missing, QueueOK, Sorter.FirstMissing;
    var s := states[i];
    ReaderReady(states, events, i, id);
    var r, w, framed := s.receivers[id], s.written[id], s.framer.streams[id].writeOffset;
    ReadsWhatArrived(r.queue, r.readOffset, n, w);
    var o := Streams.ReadLoop(r.queue, r.readOffset, n).step;
    var first := Sorter.FirstMissing(r.queue.gaps, r.readOffset, MAX_BYTE_COUNT);
    if first < framed {
      FramedArrived(states, events, i, id, first);
    }
    assert r.out + o.bytes == w[..o.readOffset];
  }
}
