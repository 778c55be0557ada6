// End to end: writers, framing, loss and resending on one side, reassembly and reading on the other.
module Transport {
  import opened Common
  import opened Frames
  import opened FlowControl
  import Sorter
  import SorterProps
  import Streams
  import Framer
  import Termination

  type StreamState = Streams.StreamState

  /** The receiving side of a stream; `out` is everything that its reads have returned. */
  datatype Receiver = Receiver(queue: Sorter.State, readOffset: nat, eof: bool, out: seq<Byte>)

  /** The whole system. `written` holds the bytes accepted by Write, `sent` every frame that was ever
      put into a packet, `granted` the largest window offered for a stream, and for the connection
      under 0. */
  datatype System = System(
    framer: Framer.State,
    written: map<StreamID, seq<Byte>>,
    sent: set<Frame>,
    receivers: map<StreamID, Receiver>,
    granted: map<StreamID, nat>)

  datatype Event =
    | Open(id: StreamID, contributes: bool)
    | Write(id: StreamID, data: seq<Byte>)
    | Local(id: StreamID, event: Termination.Event)
    | PopFrames(order: seq<StreamID>, maxLen: nat)
    | PopCrypto(maxBytes: nat)
    | Lose(frame: Frame)
    | WindowUpdate(id: StreamID, offset: nat)
    | Deliver(frame: Frame)
    | Read(id: StreamID, n: nat)

  // ---------------------------------------------------------------- invariant

  ghost predicate SenderOK(s: StreamState, w: seq<Byte>)
  {
    && s.writeOffset <= |w| < MAX_BYTE_COUNT
    && w[s.writeOffset..] == Framer.Unsent(s.pending)
    && (s.finSent ==> s.finishedWriting && s.pending.None?)
  }

  // The frame is the slice of the written stream at its own offset, and FIN marks the very end.
  ghost predicate FrameOK(f: Frame, streams: map<StreamID, StreamState>, written: map<StreamID, seq<Byte>>)
  {
    && f.streamID in streams && f.streamID in written
    && f.Agrees(written[f.streamID]) && f.End() <= streams[f.streamID].writeOffset
    && (f.fin ==> streams[f.streamID].finSent && f.End() == |written[f.streamID]|)
  }

  ghost predicate SendersOK(streams: map<StreamID, StreamState>, written: map<StreamID, seq<Byte>>)
  {
    && streams.Keys == written.Keys
    && forall id :: id in streams ==> streams[id].id == id && SenderOK(streams[id], written[id])
  }

  ghost predicate FramesOK(fs: seq<Frame>, streams: map<StreamID, StreamState>, written: map<StreamID, seq<Byte>>)
  {
    forall i :: 0 <= i < |fs| ==> FrameOK(fs[i], streams, written)
  }

  // Every stream but the crypto stream is charged exactly what it has framed, within its window.
  ghost predicate FlowOK(flow: Flow, streams: map<StreamID, StreamState>, granted: map<StreamID, nat>)
  {
    && flow.streams.Keys == streams.Keys && granted.Keys == streams.Keys + {0}
    && flow.ConnWindow() <= granted[0] && flow.connSent <= granted[0]
    && forall id :: id in streams ==>
      && flow.StreamWindow(id) <= granted[id]
      && (id != 1 ==> flow.streams[id].sent == streams[id].writeOffset <= granted[id])
  }

  ghost predicate ReceiverOK(r: Receiver, w: seq<Byte>)
  {
    && Streams.ReaderValid(r.queue, r.readOffset)
    && (forall k :: k in r.queue.queued ==> r.queue.queued[k].Agrees(w))
    && r.readOffset <= |w| && r.out == w[..r.readOffset]
  }

  ghost predicate SentSetOK(sent: set<Frame>, streams: map<StreamID, StreamState>, written: map<StreamID, seq<Byte>>)
  {
    forall f :: f in sent ==> FrameOK(f, streams, written)
  }

  ghost predicate ReceiversOK(receivers: map<StreamID, Receiver>, written: map<StreamID, seq<Byte>>)
  {
    && receivers.Keys == written.Keys
    && forall id :: id in receivers ==> ReceiverOK(receivers[id], written[id])
  }

  ghost predicate Inv(s: System)
  {
    && SendersOK(s.framer.streams, s.written)
    && FramesOK(s.framer.queue, s.framer.streams, s.written)
    && SentSetOK(s.sent, s.framer.streams, s.written)
    && FlowOK(s.framer.flow, s.framer.streams, s.granted)
    && ReceiversOK(s.receivers, s.written)
  }

  // ---------------------------------------------------------------- steps

  function Init(initialWindow: nat, initialConnWindow: nat): System
  {
    System(Framer.State([], [], map[], Flow(map[], 0, 0, 0, initialWindow, initialConnWindow)),
           map[], {}, map[], map[0 := initialConnWindow])
  }

  function Opened(s: System, id: StreamID, contributes: bool): System
  {
    var fl := s.framer.flow;
    System(
      s.framer.(streams := s.framer.streams[id := Streams.NewStream(id)],
                flow := fl.NewStream(id, contributes)),
      s.written[id := []],
      s.sent,
      s.receivers[id := Receiver(Sorter.Init(), 0, false, [])],
      s.granted[id := fl.initialWindow])
  }

  // Write waits until its data has been framed, so a second Write finds nothing pending.
  predicate CanWrite(st: StreamState, p: seq<Byte>)
  {
    Streams.Written(st, p) != st ==> st.pending.None?
  }

  function Wrote(s: System, id: StreamID, p: seq<Byte>): System
    requires id in s.framer.streams && id in s.written
  {
    var st := s.framer.streams[id];
    var st' := Streams.Written(st, p);
    s.(framer := s.framer.(streams := s.framer.streams[id := st']),
       written := s.written[id := s.written[id] + if st' == st then [] else p])
  }

  // The frame with the next data of the crypto stream, which is not flow controlled.
  function CryptoFrame(st: StreamState, maxBytes: nat): Option<Frame>
  {
    var data := Streams.DataTaken(st, maxBytes);
    if st.PendingLen() == 0 || data.None? then None
    else Some(Frame(1, false, false, st.writeOffset, data.value))
  }

  ghost predicate Next(s: System, e: Event, s': System)
  {
    match e
    case Open(id, contributes) => id !in s.framer.streams && id != 0 && s' == Opened(s, id, contributes)
    case Write(id, p) =>
      && id in s.framer.streams && id in s.written && CanWrite(s.framer.streams[id], p)
      && |s.written[id]| + |p| < MAX_BYTE_COUNT && s' == Wrote(s, id, p)
    case Local(id, ev) =>
      && id in s.framer.streams && !ev.Send? && !ev.Write?
      && s' == s.(framer := s.framer.(streams := s.framer.streams[id := Termination.Apply(s.framer.streams[id], ev).0]))
    case PopFrames(order, maxLen) =>
      && (forall id :: id in order ==> id in s.framer.streams)
      && var r := Framer.PopFrames(s.framer, order, maxLen);
         s' == s.(framer := r.state, sent := s.sent + set f | f in r.frames)
    case PopCrypto(maxBytes) =>
      && 1 in s.framer.streams
      && var st := s.framer.streams[1];
         var f := CryptoFrame(st, maxBytes);
         if f.None? then s' == s
         else
           s' == s.(framer := s.framer.(streams := s.framer.streams[1 := Streams.AfterTaking(st, maxBytes)]),
                    sent := s.sent + {f.value})
    case Lose(f) => f in s.sent && s' == s.(framer := s.framer.(queue := s.framer.queue + [f]))
    case WindowUpdate(id, offset) =>
      && s' == s.(framer := s.framer.(flow := s.framer.flow.UpdateWindow(id, offset)),
                  granted := if id in s.granted && offset > s.granted[id] then s.granted[id := offset] else s.granted)
    case Deliver(f) =>
      && f in s.sent && f.streamID in s.receivers
      && var r := s.receivers[f.streamID];
         exists q, res ::
           && Sorter.PushSpec(r.queue, f, q, res) && res != Sorter.TooManyGaps
           && s' == s.(receivers := s.receivers[f.streamID := r.(queue := q)])
    case Read(id, n) =>
      && id in s.receivers && n > 0
      && var r := s.receivers[id];
         && Streams.ReaderValid(r.queue, r.readOffset)
         && if r.eof || Sorter.HeadOf(r.queue).None? then s' == s
            else
              var step := Streams.ReadFrame(r.queue, r.readOffset, n);
              s' == s.(receivers := s.receivers[id := Receiver(step.queue, step.readOffset, step.fin,
                r.out + step.bytes)])
  }

  // ---------------------------------------------------------------- what single operations keep

  lemma SendKeeps(st: StreamState, w: seq<Byte>, maxBytes: nat, window: nat)
    requires SenderOK(st, w)
    ensures var r := Framer.Send(st, maxBytes, window);
      && SenderOK(r.stream, w) && r.stream.id == st.id
      && st.writeOffset <= r.stream.writeOffset && (st.finSent ==> r.stream.finSent)
      && (r.frame.Some? ==>
          var f := r.frame.value;
          && f.streamID == st.id && f.Agrees(w) && f.End() == r.stream.writeOffset
          && (f.fin ==> r.stream.finSent && f.End() == |w|))
  {
    hide Framer.Send;
    Framer.SendFacts(st, maxBytes, window);
    var r := Framer.Send(st, maxBytes, window);
    if r.frame.Some? {
      var f := r.frame.value;
      assert w[st.writeOffset..] == f.data + Framer.Unsent(r.stream.pending);
      assert w[f.offset..f.End()] == f.data;
      assert w[f.End()..] == Framer.Unsent(r.stream.pending);
    }
  }

  // Offsets and FIN flags only move forward.
  ghost predicate Grows(a: map<StreamID, StreamState>, b: map<StreamID, StreamState>)
  {
    && a.Keys == b.Keys
    && forall id :: id in a ==> a[id].writeOffset <= b[id].writeOffset && (a[id].finSent ==> b[id].finSent)
  }

  lemma SendOneSenders(s: Framer.State, id: StreamID, maxBytes: nat, written: map<StreamID, seq<Byte>>)
    requires SendersOK(s.streams, written) && id in s.streams
    ensures var (s', r) := Framer.SendOne(s, id, maxBytes);
      && SendersOK(s'.streams, written) && Grows(s.streams, s'.streams)
      && (r.frame.Some? ==> FrameOK(r.frame.value, s'.streams, written))
  {
    hide Framer.Send, SenderOK, Flow.SendWindowSize;
    SendKeeps(s.streams[id], written[id], maxBytes, s.flow.SendWindowSize(id));
  }

  lemma SendOneFlow(s: Framer.State, id: StreamID, maxBytes: nat, granted: map<StreamID, nat>)
    requires FlowOK(s.flow, s.streams, granted) && id in s.streams && s.streams[id].id == id
    ensures var (s', r) := Framer.SendOne(s, id, maxBytes); FlowOK(s'.flow, s'.streams, granted)
  {
    hide Framer.Send;
    var window := s.flow.SendWindowSize(id);
    Framer.SendFacts(s.streams[id], maxBytes, window);
    var r := Framer.Send(s.streams[id], maxBytes, window);
    var streams' := s.streams[id := r.stream];
    if r.frame.None? {
      assert streams' == s.streams;
    } else {
      Charged(s.flow, s.streams, granted, id, r.stream, r.frame.value);
    }
  }

  // Charging a frame that fits the window.
  lemma Charged(flow: Flow, streams: map<StreamID, StreamState>, granted: map<StreamID, nat>,
                id: StreamID, st: StreamState, f: Frame)
    requires FlowOK(flow, streams, granted) && id in streams && id != 1
    requires st.writeOffset == streams[id].writeOffset + |f.data|
    requires f.data != [] ==> |f.data| <= flow.SendWindowSize(id)
    ensures FlowOK(flow.AddBytesSent(id, |f.data|), streams[id := st], granted)
  {
    hide Flow.SendWindowSize, Flow.StreamWindow, Flow.ConnWindow, Flow.AddBytesSent;
    if f.data != [] { WindowBound(flow, id); }
    var flow', streams' := flow.AddBytesSent(id, |f.data|), streams[id := st];
    assert streams'.Keys == streams.Keys;
    ChargedFlow(flow, id, |f.data|);
    forall k | k in streams'
      ensures flow'.StreamWindow(k) <= granted[k]
      ensures k != 1 ==> flow'.streams[k].sent == streams'[k].writeOffset <= granted[k]
    {
      assert k in streams;
    }
  }

  lemma ChargedFlow(flow: Flow, id: StreamID, n: nat)
    requires id in flow.streams
    ensures var flow' := flow.AddBytesSent(id, n);
      && flow'.streams.Keys == flow.streams.Keys && flow'.ConnWindow() == flow.ConnWindow()
      && flow'.connSent == flow.connSent + (if flow.streams[id].contributes then n else 0)
      && forall k :: k in flow.streams ==>
        && flow'.StreamWindow(k) == flow.StreamWindow(k)
        && flow'.streams[k].sent == flow.streams[k].sent + if k == id then n else 0
  {
  }

  lemma WindowBound(flow: Flow, id: StreamID)
    requires id in flow.streams && flow.SendWindowSize(id) > 0
    ensures flow.streams[id].sent + flow.SendWindowSize(id) <= flow.StreamWindow(id)
    ensures flow.streams[id].contributes ==> flow.connSent + flow.SendWindowSize(id) <= flow.ConnWindow()
  {
  }

  lemma SenderID(streams: map<StreamID, StreamState>, written: map<StreamID, seq<Byte>>, id: StreamID)
    requires SendersOK(streams, written) && id in streams
    ensures streams[id].id == id
  {
  }

  // Everything that holds of the senders after r, given the streams before it.
  ghost predicate SentOK(before: map<StreamID, StreamState>, r: Framer.SentAll,
                         written: map<StreamID, seq<Byte>>, granted: map<StreamID, nat>)
  {
    && SendersOK(r.state.streams, written) && Grows(before, r.state.streams)
    && FlowOK(r.state.flow, r.state.streams, granted) && FramesOK(r.frames, r.state.streams, written)
  }

  lemma SendOneOK(s: Framer.State, id: StreamID, maxBytes: nat, written: map<StreamID, seq<Byte>>,
                  granted: map<StreamID, nat>)
    requires SendersOK(s.streams, written) && FlowOK(s.flow, s.streams, granted) && id in s.streams
    ensures var (s1, r) := Framer.SendOne(s, id, maxBytes);
      && SentOK(s.streams, Framer.SentAll(s1, if r.frame.Some? then [r.frame.value] else []), written, granted)
      && SendersOK(s1.streams, written) && FlowOK(s1.flow, s1.streams, granted)
  {
    hide Framer.SendOne, SendersOK, FlowOK, FrameOK;
    SenderID(s.streams, written, id);
    SendOneSenders(s, id, maxBytes, written);
    SendOneFlow(s, id, maxBytes, granted);
  }

  lemma SentNothing(s: Framer.State, written: map<StreamID, seq<Byte>>, granted: map<StreamID, nat>)
    requires SendersOK(s.streams, written) && FlowOK(s.flow, s.streams, granted)
    ensures SentOK(s.streams, Framer.SentAll(s, []), written, granted)
  {
  }

  // A frame before the frames of r, which starts from where the frame left the streams.
  lemma SentOKCons(before: map<StreamID, StreamState>, fs: seq<Frame>, s1: Framer.State, r: Framer.SentAll,
                   written: map<StreamID, seq<Byte>>, granted: map<StreamID, nat>)
    requires SentOK(before, Framer.SentAll(s1, fs), written, granted) && SentOK(s1.streams, r, written, granted)
    ensures SentOK(before, r.(frames := fs + r.frames), written, granted)
  {
    hide SendersOK, FlowOK, FramesOK;
    FramesGrow(fs, s1.streams, r.state.streams, written);
    FramesConcat(fs, r.frames, r.state.streams, written);
  }

  lemma {:induction false} SendAllKeeps(s: Framer.State, order: seq<StreamID>, maxBytes: nat,
                                        written: map<StreamID, seq<Byte>>, granted: map<StreamID, nat>)
    requires SendersOK(s.streams, written) && FlowOK(s.flow, s.streams, granted)
    requires forall id :: id in order ==> id in s.streams
    ensures SentOK(s.streams, Framer.SendAll(s, order, maxBytes), written, granted)
    ensures Framer.SendAll(s, order, maxBytes).state.queue == s.queue
    decreases |order|
  {
    hide Framer.SendOne, SendersOK, FlowOK, SentOK, WireLength;
    if order == [] {
      SentNothing(s, written, granted);
    } else {
      SendOneOK(s, order[0], maxBytes, written, granted);
      var (s1, r) := Framer.SendOne(s, order[0], maxBytes);
      Framer.TotalLengthOne(r.frame);
      var first := if r.frame.Some? then [r.frame.value] else [];
      if r.cont {
        var left := maxBytes - Framer.TotalLength(first);
        SendAllKeeps(s1, order[1..], left, written, granted);
        SentOKCons(s.streams, first, s1, Framer.SendAll(s1, order[1..], left), written, granted);
      }
    }
  }

  lemma FramesConcat(a: seq<Frame>, b: seq<Frame>, streams: map<StreamID, StreamState>, written: map<StreamID,
                     seq<Byte>>)
    requires FramesOK(a, streams, written) && FramesOK(b, streams, written)
    ensures FramesOK(a + b, streams, written)
  {
    hide FrameOK;
  }

  lemma FramesGrow(fs: seq<Frame>, a: map<StreamID, StreamState>, b: map<StreamID, StreamState>,
                   written: map<StreamID, seq<Byte>>)
    requires FramesOK(fs, a, written) && Grows(a, b)
    ensures FramesOK(fs, b, written)
  {
  }

  lemma SplitKeeps(f: Frame, n: nat, streams: map<StreamID, StreamState>, written: map<StreamID, seq<Byte>>)
    requires FrameOK(f, streams, written) && n <= |f.data|
    ensures FrameOK(Framer.SplitFront(f, n), streams, written) && FrameOK(Framer.SplitBack(f, n), streams, written)
  {
    SorterProps.SliceAgrees(written[f.streamID], f, f.offset, f.offset + n);
    SorterProps.SliceAgrees(written[f.streamID], f, f.offset + n, f.End());
  }

  lemma {:induction false} RetransmitKeeps(queue: seq<Frame>, maxLen: nat, cur: nat,
                                           streams: map<StreamID, StreamState>, written: map<StreamID, seq<Byte>>)
    requires FramesOK(queue, streams, written)
    ensures var r := Framer.Retransmit(queue, maxLen, cur);
      FramesOK(r.frames, streams, written) && FramesOK(r.queue, streams, written)
    decreases |queue|
  {
    Framer.RetransmitUnfold(queue, maxLen, cur);
    hide Framer.Retransmit, MinLength, Framer.SplitFront, Framer.SplitBack;
    if queue != [] {
      var f := queue[0].(dataLenPresent := true);
      assert FrameOK(queue[0], streams, written);
      assert FrameOK(f, streams, written);
      hide FrameOK;
      var hdr := MinLength(f);
      if cur + hdr < maxLen {
        if maxLen - cur - hdr < |f.data| {
          SplitKeeps(f, maxLen - cur - hdr, streams, written);
        } else {
          RetransmitKeeps(queue[1..], maxLen, cur + hdr + |f.data|, streams, written);
        }
      }
    }
  }

  // Resent bytes are counted, but not charged.
  lemma ResentKeeps(flow: Flow, fs: seq<Frame>, streams: map<StreamID, StreamState>, granted: map<StreamID, nat>)
    requires FlowOK(flow, streams, granted)
    ensures FlowOK(Framer.Resent(flow, fs), streams, granted)
  {
    hide Framer.Resent;
  }

  lemma PopFramesKeeps(s: Framer.State, order: seq<StreamID>, maxLen: nat,
                       written: map<StreamID, seq<Byte>>, granted: map<StreamID, nat>)
    requires SendersOK(s.streams, written) && FlowOK(s.flow, s.streams, granted) &&
      FramesOK(s.queue, s.streams, written)
    requires forall id :: id in order ==> id in s.streams
    ensures var r := Framer.PopFrames(s, order, maxLen);
      && SendersOK(r.state.streams, written) && Grows(s.streams, r.state.streams)
      && FlowOK(r.state.flow, r.state.streams, granted)
      && FramesOK(r.state.queue, r.state.streams, written) && FramesOK(r.frames, r.state.streams, written)
  {
    hide Framer.SendAll, Framer.Retransmit, Framer.Resent, FramesOK, SendersOK, Grows, FlowOK;
    Framer.RetransmitFits(s.queue, maxLen, 0);
    RetransmitKeeps(s.queue, maxLen, 0, s.streams, written);
    var p := Framer.Retransmit(s.queue, maxLen, 0);
    ResentKeeps(s.flow, p.frames, s.streams, granted);
    var s1 := s.(queue := p.queue, flow := Framer.Resent(s.flow, p.frames));
    SendAllKeeps(s1, order, maxLen - p.len, written, granted);
    var r := Framer.SendAll(s1, order, maxLen - p.len);
    FramesGrow(p.frames, s.streams, r.state.streams, written);
    FramesGrow(p.queue, s.streams, r.state.streams, written);
    FramesConcat(p.frames, r.frames, r.state.streams, written);
  }

  lemma DeliverKeeps(r: Receiver, w: seq<Byte>, f: Frame, q: Sorter.State, res: Sorter.PushResult)
    requires ReceiverOK(r, w) && f.Agrees(w) && (f.fin ==> f.End() == |w|)
    requires Sorter.PushSpec(r.queue, f, q, res) && res != Sorter.TooManyGaps
    ensures ReceiverOK(r.(queue := q), w)
  {
    hide Sorter.PushSpec, Sorter.Valid;
    SorterProps.KeysAreOffsets(r.queue);
    SorterProps.PushKeepsValid(r.queue, f, q, res);
    SorterProps.PushKeepsSource(w, r.queue, f, q, res);
    if r.queue.readPosition < r.readOffset {
      SorterProps.PushKeepsHead(r.queue, f, q, res);
    }
  }

  lemma ReadKeeps(r: Receiver, w: seq<Byte>, n: nat)
    requires ReceiverOK(r, w) && Sorter.HeadOf(r.queue).Some? && n > 0
    ensures var step := Streams.ReadFrame(r.queue, r.readOffset, n);
      ReceiverOK(Receiver(step.queue, step.readOffset, step.fin, r.out + step.bytes), w)
  {
    hide Sorter.Valid;
    Streams.HeadOffset(r.queue);
    var f := Sorter.HeadOf(r.queue).value;
    var step := Streams.ReadFrame(r.queue, r.readOffset, n);
    SorterProps.SliceAgrees(w, f, r.readOffset, step.readOffset);
    assert step.bytes == w[r.readOffset..step.readOffset];
  }

  lemma LocalKeeps(st: StreamState, w: seq<Byte>, e: Termination.Event)
    requires SenderOK(st, w) && !e.Send? && !e.Write?
    ensures var st' := Termination.Apply(st, e).0;
      && SenderOK(st', w) && st'.id == st.id && st'.writeOffset == st.writeOffset && st'.finSent == st.finSent
  {
  }

  lemma WriteKeeps(st: StreamState, w: seq<Byte>, p: seq<Byte>)
    requires SenderOK(st, w) && CanWrite(st, p) && |w| + |p| < MAX_BYTE_COUNT
    ensures var st' := Streams.Written(st, p);
      && SenderOK(st', if st' == st then w else w + p)
      && st'.id == st.id && st'.writeOffset == st.writeOffset && st'.finSent == st.finSent && (st.finSent ==> st' == st)
  {
    assert (w + p)[st.writeOffset..] == w[st.writeOffset..] + p;
  }

  // ---------------------------------------------------------------- every step keeps the invariant

  // A frame stays in order when its own stream keeps or extends what the frame relies on.
  ghost predicate Extends(a: map<StreamID, StreamState>, w: map<StreamID, seq<Byte>>,
                          b: map<StreamID, StreamState>, v: map<StreamID, seq<Byte>>)
  {
    && (forall id :: id in a ==> id in b && a[id].writeOffset <= b[id].writeOffset && (a[id].finSent ==> b[id].finSent))
    && (forall id :: id in w ==> id in v && w[id] <= v[id])
    && (forall id :: id in a && id in w && a[id].finSent ==> v[id] == w[id])
  }

  lemma FrameFrame(f: Frame, a: map<StreamID, StreamState>, w: map<StreamID, seq<Byte>>,
                   b: map<StreamID, StreamState>, v: map<StreamID, seq<Byte>>)
    requires FrameOK(f, a, w) && Extends(a, w, b, v)
    ensures FrameOK(f, b, v)
  {
    assert w[f.streamID] <= v[f.streamID];
    assert v[f.streamID][f.offset..f.End()] == w[f.streamID][f.offset..f.End()];
  }

  lemma FramesFrame(fs: seq<Frame>, a: map<StreamID, StreamState>, w: map<StreamID, seq<Byte>>,
                    b: map<StreamID, StreamState>, v: map<StreamID, seq<Byte>>)
    requires FramesOK(fs, a, w) && Extends(a, w, b, v)
    ensures FramesOK(fs, b, v)
  {
    hide FrameOK, Extends;
    forall i | 0 <= i < |fs| ensures FrameOK(fs[i], b, v) { FrameFrame(fs[i], a, w, b, v); }
  }

  // Frames sent or queued stay in order in the streams of s'.
  lemma FramesStay(s: System, s': System)
    requires Inv(s) && Extends(s.framer.streams, s.written, s'.framer.streams, s'.written)
    ensures FramesOK(s.framer.queue, s'.framer.streams, s'.written) && SentSetOK(s.sent, s'.framer.streams, s'.written)
  {
    hide FrameOK, Extends, FramesOK, SendersOK, FlowOK, ReceiversOK;
    FramesFrame(s.framer.queue, s.framer.streams, s.written, s'.framer.streams, s'.written);
    forall f | f in s.sent ensures FrameOK(f, s'.framer.streams, s'.written) {
      FrameFrame(f, s.framer.streams, s.written, s'.framer.streams, s'.written);
    }
  }

  // Replacing the state of one stream, and perhaps extending what was written to it.
  lemma OneStream(s: System, s': System, id: StreamID, st: StreamState, w: seq<Byte>)
    requires Inv(s) && id in s.framer.streams && id in s.written
    requires SenderOK(st, w) && st.id == id && s.written[id] <= w
    requires var st0 := s.framer.streams[id];
      && st0.writeOffset <= st.writeOffset && (st0.finSent ==> st.finSent && w == s.written[id])
    requires s'.framer.streams == s.framer.streams[id := st] && s'.written == s.written[id := w]
    ensures SendersOK(s'.framer.streams, s'.written)
    ensures FramesOK(s.framer.queue, s'.framer.streams, s'.written) && SentSetOK(s.sent, s'.framer.streams, s'.written)
    ensures ReceiversOK(s.receivers, s'.written)
  {
    hide FrameOK, FramesOK, SentSetOK, FlowOK, SenderOK, SendersOK, ReceiversOK, Extends;
    OneSender(s.framer.streams, s.written, id, st, w);
    FramesStay(s, s');
    ReceiverExtends(s.receivers, s.written, id, w);
  }

  lemma OneSender(streams: map<StreamID, StreamState>, written: map<StreamID, seq<Byte>>, id: StreamID,
                  st: StreamState, w: seq<Byte>)
    requires SendersOK(streams, written) && id in streams && id in written
    requires SenderOK(st, w) && st.id == id && written[id] <= w
    requires streams[id].writeOffset <= st.writeOffset && (streams[id].finSent ==> st.finSent && w == written[id])
    ensures SendersOK(streams[id := st], written[id := w])
    ensures Extends(streams, written, streams[id := st], written[id := w])
  {
    hide SenderOK;
  }

  lemma ReceiverExtends(receivers: map<StreamID, Receiver>, written: map<StreamID, seq<Byte>>, id: StreamID,
                        w: seq<Byte>)
    requires ReceiversOK(receivers, written) && id in written && written[id] <= w
    ensures ReceiversOK(receivers, written[id := w])
  {
    hide Streams.ReaderValid;
    var r := receivers[id];
    assert w[..r.readOffset] == written[id][..r.readOffset];
    forall k | k in r.queue.queued ensures r.queue.queued[k].Agrees(w) {
      var f := r.queue.queued[k];
      assert w[f.offset..f.End()] == written[id][f.offset..f.End()];
    }
    hide ReceiverOK;
  }

  lemma FlowSameOffset(flow: Flow, streams: map<StreamID, StreamState>, granted: map<StreamID, nat>, id: StreamID,
                       st: StreamState)
    requires FlowOK(flow, streams, granted) && id in streams && (id == 1 || st.writeOffset == streams[id].writeOffset)
    ensures FlowOK(flow, streams[id := st], granted)
  {
  }

  lemma OpenFlow(s: System, id: StreamID, contributes: bool)
    requires FlowOK(s.framer.flow, s.framer.streams, s.granted) && id !in s.framer.streams && id != 0
    ensures var s' := Opened(s, id, contributes); FlowOK(s'.framer.flow, s'.framer.streams, s'.granted)
  {
  }

  lemma OpenInv(s: System, id: StreamID, contributes: bool)
    requires Inv(s) && id !in s.framer.streams && id != 0
    ensures Inv(Opened(s, id, contributes))
  {
    hide FrameOK, FramesOK, SentSetOK, FlowOK, ReceiversOK, Extends;
    var s' := Opened(s, id, contributes);
    OpenFlow(s, id, contributes);
    OpenSender(s.framer.streams, s.written, id);
    FramesStay(s, s');
    OpenReceiver(s.receivers, s.written, id);
  }

  lemma OpenSender(streams: map<StreamID, StreamState>, written: map<StreamID, seq<Byte>>, id: StreamID)
    requires SendersOK(streams, written) && id !in streams
    ensures SendersOK(streams[id := Streams.NewStream(id)], written[id := []])
    ensures Extends(streams, written, streams[id := Streams.NewStream(id)], written[id := []])
    ensures id !in written
  {
    assert SenderOK(Streams.NewStream(id), []);
    hide SenderOK;
  }

  lemma OpenReceiver(receivers: map<StreamID, Receiver>, written: map<StreamID, seq<Byte>>, id: StreamID)
    requires ReceiversOK(receivers, written) && id !in written
    ensures ReceiversOK(receivers[id := Receiver(Sorter.Init(), 0, false, [])], written[id := []])
  {
    hide ReceiverOK;
    NewReceiver();
  }

  lemma NewReceiver()
    ensures ReceiverOK(Receiver(Sorter.Init(), 0, false, []), [])
  {
    Sorter.InitValid();
  }

  lemma WriteInv(s: System, id: StreamID, p: seq<Byte>)
    requires Inv(s) && id in s.framer.streams && id in s.written && CanWrite(s.framer.streams[id], p)
    requires |s.written[id]| + |p| < MAX_BYTE_COUNT
    ensures Inv(Wrote(s, id, p))
  {
    hide FrameOK, FramesOK, SentSetOK, FlowOK, ReceiversOK, SenderOK;
    var st, w := s.framer.streams[id], s.written[id];
    WriteKeeps(st, w, p);
    var st' := Streams.Written(st, p);
    var w' := w + if st' == st then [] else p;
    assert w + [] == w;
    OneStream(s, Wrote(s, id, p), id, st', w');
    FlowSameOffset(s.framer.flow, s.framer.streams, s.granted, id, st');
  }

  lemma LocalInv(s: System, s': System, id: StreamID, e: Termination.Event)
    requires Inv(s) && Next(s, Local(id, e), s')
    ensures Inv(s')
  {
    hide FrameOK, FramesOK, SentSetOK, FlowOK, ReceiversOK, SenderOK, Termination.Apply;
    var st := s.framer.streams[id];
    LocalKeeps(st, s.written[id], e);
    var st' := Termination.Apply(st, e).0;
    assert s.written == s.written[id := s.written[id]];
    OneStream(s, s', id, st', s.written[id]);
    FlowSameOffset(s.framer.flow, s.framer.streams, s.granted, id, st');
  }

  lemma PopFramesInv(s: System, s': System, order: seq<StreamID>, maxLen: nat)
    requires Inv(s) && Next(s, PopFrames(order, maxLen), s')
    ensures Inv(s')
  {
    hide FrameOK, SendersOK, FlowOK, ReceiversOK, Framer.PopFrames;
    PopFramesKeeps(s.framer, order, maxLen, s.written, s.granted);
    var r := Framer.PopFrames(s.framer, order, maxLen);
    forall f | f in s.sent ensures FrameOK(f, r.state.streams, s.written) {
      FramesGrow([f], s.framer.streams, r.state.streams, s.written);
      assert FrameOK([f][0], r.state.streams, s.written);
    }
  }

  // Taking data of the crypto stream, as framing does for the others.
  lemma CryptoKeeps(st: StreamState, w: seq<Byte>, maxBytes: nat)
    requires SenderOK(st, w) && CryptoFrame(st, maxBytes).Some?
    ensures var st', f := Streams.AfterTaking(st, maxBytes), CryptoFrame(st, maxBytes).value;
      && SenderOK(st', w) && st'.id == st.id && st'.finSent == st.finSent && st.writeOffset <= st'.writeOffset
      && f.Agrees(w) && f.End() == st'.writeOffset && f.streamID == 1 && !f.fin
  {
    hide Streams.AfterTaking, Streams.DataTaken;
    Framer.TakeFacts(st, maxBytes);
    var st', data := Streams.AfterTaking(st, maxBytes), CryptoFrame(st, maxBytes).value.data;
    assert w[st.writeOffset..] == data + Framer.Unsent(st'.pending);
    assert w[st'.writeOffset..] == Framer.Unsent(st'.pending) && w[st.writeOffset..st'.writeOffset] == data;
  }

  lemma CryptoInv(s: System, s': System, maxBytes: nat)
    requires Inv(s) && Next(s, PopCrypto(maxBytes), s')
    ensures Inv(s')
  {
    hide FramesOK, SentSetOK, FlowOK, ReceiversOK, Streams.AfterTaking, CryptoFrame, SenderOK, Frame.Agrees;
    var st, w := s.framer.streams[1], s.written[1];
    var f := CryptoFrame(st, maxBytes);
    if f.Some? {
      CryptoKeeps(st, w, maxBytes);
      var st' := Streams.AfterTaking(st, maxBytes);
      assert s.written == s.written[1 := w];
      OneStream(s, s', 1, st', w);
      FlowSameOffset(s.framer.flow, s.framer.streams, s.granted, 1, st');
      assert FrameOK(f.value, s'.framer.streams, s'.written);
      SentSetAdd(s.sent, f.value, s'.framer.streams, s'.written);
    }
  }

  lemma SentSetAdd(sent: set<Frame>, f: Frame, streams: map<StreamID, StreamState>, written: map<StreamID, seq<Byte>>)
    requires SentSetOK(sent, streams, written) && FrameOK(f, streams, written)
    ensures SentSetOK(sent + {f}, streams, written)
  {
  }

  lemma UpdatedWindows(fl: Flow, id: StreamID, offset: nat)
    ensures var fl' := fl.UpdateWindow(id, offset);
      && fl'.streams.Keys == fl.streams.Keys && fl'.connSent == fl.connSent
      && (fl'.ConnWindow() == fl.ConnWindow() || (id == 0 && fl'.ConnWindow() == offset))
      && forall k :: k in fl.streams ==>
        && fl'.streams[k].sent == fl.streams[k].sent
        && (fl'.StreamWindow(k) == fl.StreamWindow(k) || (k == id && fl'.StreamWindow(k) == offset))
  {
  }

  lemma WindowFlow(fl: Flow, streams: map<StreamID, StreamState>, granted: map<StreamID, nat>, id: StreamID,
                   offset: nat)
    requires FlowOK(fl, streams, granted)
    ensures FlowOK(fl.UpdateWindow(id, offset), streams,
                   if id in granted && offset > granted[id] then granted[id := offset] else granted)
  {
    hide Flow.UpdateWindow, Flow.StreamWindow, Flow.ConnWindow;
    UpdatedWindows(fl, id, offset);
  }

  lemma WindowInv(s: System, s': System, id: StreamID, offset: nat)
    requires Inv(s) && Next(s, WindowUpdate(id, offset), s')
    ensures Inv(s')
  {
    hide FlowOK, SendersOK, FramesOK, SentSetOK, ReceiversOK;
    WindowFlow(s.framer.flow, s.framer.streams, s.granted, id, offset);
  }

  lemma DeliverInv(s: System, s': System, f: Frame)
    requires Inv(s) && Next(s, Deliver(f), s')
    ensures Inv(s')
  {
    hide SendersOK, FramesOK, FlowOK, ReceiverOK, Sorter.PushSpec;
    assert FrameOK(f, s.framer.streams, s.written);
    var r := s.receivers[f.streamID];
    var q, res :| Sorter.PushSpec(r.queue, f, q, res) && res != Sorter.TooManyGaps
      && s' == s.(receivers := s.receivers[f.streamID := r.(queue := q)]);
    DeliverKeeps(r, s.written[f.streamID], f, q, res);
  }

  lemma ReadInv(s: System, s': System, id: StreamID, n: nat)
    requires Inv(s) && Next(s, Read(id, n), s')
    ensures Inv(s')
  {
    hide SendersOK, FramesOK, FlowOK, SentSetOK, ReceiverOK, Streams.ReadFrame;
    var r := s.receivers[id];
    if !r.eof && Sorter.HeadOf(r.queue).Some? {
      ReadKeeps(r, s.written[id], n);
    }
  }

  lemma NextInv(s: System, e: Event, s': System)
    requires Inv(s) && Next(s, e, s')
    ensures Inv(s')
  {
    match e
    case Open(id, contributes) => OpenInv(s, id, contributes);
    case Write(id, p) => WriteInv(s, id, p);
    case Local(id, ev) => LocalInv(s, s', id, ev);
    case PopFrames(order, maxLen) => PopFramesInv(s, s', order, maxLen);
    case PopCrypto(maxBytes) => CryptoInv(s, s', maxBytes);
    case Lose(f) => LoseInv(s, s', f);
    case WindowUpdate(id, offset) => WindowInv(s, s', id, offset);
    case Deliver(f) => DeliverInv(s, s', f);
    case Read(id, n) => ReadInv(s, s', id, n);
  }

  lemma LoseInv(s: System, s': System, f: Frame)
    requires Inv(s) && Next(s, Lose(f), s')
    ensures Inv(s')
  {
    hide FrameOK, SendersOK, FlowOK, ReceiversOK;
  }

  // ---------------------------------------------------------------- runs

  ghost predicate IsRun(states: seq<System>, events: seq<Event>)
  {
    && |states| == |events| + 1
    && (exists w, c :: states[0] == Init(w, c))
    && forall i :: 0 <= i < |events| ==> Next(states[i], events[i], states[i + 1])
  }

  lemma RunStart(states: seq<System>, events: seq<Event>)
    requires IsRun(states, events)
    ensures exists w, c :: states[0] == Init(w, c)
  {
  }

  lemma RunStep(states: seq<System>, events: seq<Event>, i: nat)
    requires IsRun(states, events) && i + 1 < |states|
    ensures i < |events| && Next(states[i], events[i], states[i + 1])
  {
    hide Next;
  }

  lemma {:induction false} RunInv(states: seq<System>, events: seq<Event>, i: nat)
    requires IsRun(states, events) && i < |states|
    ensures Inv(states[i])
  {
    hide Next, Inv;
    if i == 0 {
      var w, c :| states[0] == Init(w, c);
      InitInv(w, c);
    } else {
      RunInv(states, events, i - 1);
      assert Next(states[i - 1], events[i - 1], states[i - 1 + 1]);
      NextInv(states[i - 1], events[i - 1], states[i]);
    }
  }

  lemma InitInv(w: nat, c: nat)
    ensures Inv(Init(w, c))
  {
  }

  /** In every state of every run, whatever the network loses, duplicates or reorders: what has been
      read from a stream is a prefix of what was written to it, every frame ever sent is the slice
      of the written stream at its own offset, and every stream but the crypto stream has been
      charged exactly the bytes it has framed, which never exceed the largest window granted to it
      or to the connection. */
  lemma EndToEnd(states: seq<System>, events: seq<Event>, i: nat)
    requires IsRun(states, events) && i < |states|
    ensures var s := states[i];
      && (forall id :: id in s.receivers ==> id in s.written && s.receivers[id].out <= s.written[id])
      && (forall f :: f in s.sent ==> f.streamID in s.written && f.Agrees(s.written[f.streamID]))
      && (forall id :: id in s.framer.streams && id != 1 ==>
          id in s.framer.flow.streams && id in s.granted &&
          s.framer.flow.streams[id].sent == s.framer.streams[id].writeOffset <= s.granted[id])
      && 0 in s.granted && s.framer.flow.connSent <= s.granted[0]
  {
    hide Next, Inv, IsRun;
    RunInv(states, events, i);
    InvMeans(states[i]);
  }

  lemma InvMeans(s: System)
    requires Inv(s)
    ensures forall id :: id in s.receivers ==> id in s.written && s.receivers[id].out <= s.written[id]
    ensures forall f :: f in s.sent ==> f.streamID in s.written && f.Agrees(s.written[f.streamID])
    ensures forall id :: id in s.framer.streams && id != 1 ==>
      id in s.framer.flow.streams && id in s.granted &&
      s.framer.flow.streams[id].sent == s.framer.streams[id].writeOffset <= s.granted[id]
    ensures 0 in s.granted && s.framer.flow.connSent <= s.granted[0]
  {
    hide Streams.ReaderValid, Flow.StreamWindow, Flow.ConnWindow, FramesOK, SenderOK;
  }
}
