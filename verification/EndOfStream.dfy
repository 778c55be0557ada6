// The end of a stream arrives: once everything that was sent is there, a read reports it.
module EndOfStream {
  import opened Common
  import opened Frames
  import Sorter
  import SorterProps
  import Streams
  import Framer
  import Termination
  import opened Transport
  import opened Delivery
  import opened Progress

  // ---------------------------------------------------------------- frames that end the stream

  // A frame of the stream with data up to byte e.
  predicate EndsAt(f: Frame, id: StreamID, e: nat)
  {
    f.streamID == id && f.data != [] && f.End() == e
  }

  // A FIN on its own.
  predicate IsBare(f: Frame, id: StreamID)
  {
    f.streamID == id && f.data == [] && f.fin
  }

  ghost predicate BareSent(sent: set<Frame>, id: StreamID)
  {
    exists f :: f in sent && IsBare(f, id)
  }

  // Whatever holds the last byte says that it is the last.
  ghost predicate SentFin(sent: set<Frame>, id: StreamID, e: nat)
  {
    forall f :: f in sent && EndsAt(f, id, e) ==> f.fin
  }

  ghost predicate ListFin(fs: seq<Frame>, id: StreamID, e: nat)
  {
    forall i :: 0 <= i < |fs| && EndsAt(fs[i], id, e) ==> fs[i].fin
  }

  // The frames of the stream do not go past e.
  ghost predicate UpTo(fs: seq<Frame>, id: StreamID, e: nat)
  {
    forall i :: 0 <= i < |fs| && fs[i].streamID == id ==> fs[i].End() <= e
  }

  lemma {:induction false} RetransmitFin(queue: seq<Frame>, maxLen: nat, cur: nat, id: StreamID, e: nat)
    requires ListFin(queue, id, e) && UpTo(queue, id, e)
    ensures var r := Framer.Retransmit(queue, maxLen, cur); ListFin(r.frames, id, e) && ListFin(r.queue, id, e)
    decreases |queue|
  {
    hide Framer.Retransmit, MinLength;
    Framer.RetransmitUnfold(queue, maxLen, cur);
    if queue != [] {
      var f := queue[0].(dataLenPresent := true);
      var hdr := MinLength(f);
      assert EndsAt(queue[0], id, e) == EndsAt(f, id, e);
      if cur + hdr < maxLen && maxLen - cur - hdr >= |f.data| {
        RetransmitFin(queue[1..], maxLen, cur + hdr + |f.data|, id, e);
      }
    }
  }

  // ---------------------------------------------------------------- new frames

  // What framing does to the end of one stream: after FIN there is nothing new, and FIN is sent on its
  // own or with the last byte.
  ghost predicate Finishes(fs: seq<Frame>, id: StreamID, x: StreamState, y: StreamState)
  {
    && x.writeOffset <= y.writeOffset && UpTo(fs, id, y.writeOffset)
    && (x.finSent ==> y.finSent && forall i :: 0 <= i < |fs| ==> fs[i].streamID != id)
    && (!x.finSent && y.finSent ==>
        || (exists i :: 0 <= i < |fs| && IsBare(fs[i], id))
        || (x.writeOffset < y.writeOffset && ListFin(fs, id, y.writeOffset)))
  }

  ghost predicate AllFinish(fs: seq<Frame>, a: map<StreamID, StreamState>, b: map<StreamID, StreamState>)
  {
    forall id :: id in a && id in b ==> Finishes(fs, id, a[id], b[id])
  }

  // Nothing is pending after FIN.
  ghost predicate Settled(streams: map<StreamID, StreamState>)
  {
    forall id :: id in streams ==> streams[id].id == id && (streams[id].finSent ==> streams[id].pending.None?)
  }

  lemma SendOneFinishes(s: Framer.State, id: StreamID, maxBytes: nat)
    requires id in s.streams && Settled(s.streams)
    ensures var (s', r) := Framer.SendOne(s, id, maxBytes);
      && AllFinish(if r.frame.Some? then [r.frame.value] else [], s.streams, s'.streams)
      && Settled(s'.streams) && s'.streams.Keys == s.streams.Keys
  {
    hide Framer.Send;
    Framer.SendFacts(s.streams[id], maxBytes, s.flow.SendWindowSize(id));
    var (s', r) := Framer.SendOne(s, id, maxBytes);
    if r.frame.Some? { assert [r.frame.value][0] == r.frame.value; }
  }

  lemma FinishesThen(fs: seq<Frame>, gs: seq<Frame>, id: StreamID, x: StreamState, y: StreamState, z: StreamState)
    requires Finishes(fs, id, x, y) && Finishes(gs, id, y, z)
    ensures Finishes(fs + gs, id, x, z)
  {
    var all := fs + gs;
    assert forall i :: 0 <= i < |fs| ==> all[i] == fs[i];
    assert forall i :: 0 <= i < |gs| ==> all[|fs| + i] == gs[i];
    assert forall i :: |fs| <= i < |all| ==> all[i] == gs[i - |fs|];
  }

  lemma AllFinishThen(fs: seq<Frame>, gs: seq<Frame>, a: map<StreamID, StreamState>, b: map<StreamID, StreamState>,
                      c: map<StreamID, StreamState>)
    requires AllFinish(fs, a, b) && AllFinish(gs, b, c) && a.Keys == b.Keys
    ensures AllFinish(fs + gs, a, c)
  {
    hide Finishes;
    forall id | id in a && id in c ensures Finishes(fs + gs, id, a[id], c[id]) {
      FinishesThen(fs, gs, id, a[id], b[id], c[id]);
    }
  }

  lemma NothingFinishes(streams: map<StreamID, StreamState>)
    ensures AllFinish([], streams, streams)
  {
  }

  lemma {:induction false} SendAllFinishes(s: Framer.State, order: seq<StreamID>, maxBytes: nat)
    requires Settled(s.streams) && forall id :: id in order ==> id in s.streams
    ensures var r := Framer.SendAll(s, order, maxBytes);
      AllFinish(r.frames, s.streams, r.state.streams) && r.state.streams.Keys == s.streams.Keys
    decreases |order|
  {
    hide Framer.SendOne, AllFinish, Settled, WireLength;
    if order == [] {
      NothingFinishes(s.streams);
    } else {
      SendOneFinishes(s, order[0], maxBytes);
      var (s1, r) := Framer.SendOne(s, order[0], maxBytes);
      var first := if r.frame.Some? then [r.frame.value] else [];
      if r.cont {
        Framer.TotalLengthOne(r.frame);
        var rest := Framer.SendAll(s1, order[1..], maxBytes - Framer.TotalLength(first));
        SendAllFinishes(s1, order[1..], maxBytes - Framer.TotalLength(first));
        AllFinishThen(first, rest.frames, s.streams, s1.streams, rest.state.streams);
      }
    }
  }

  // ---------------------------------------------------------------- invariant

  // What a receiver holds and has read has been framed.
  ghost predicate WithinFramed(r: Receiver, framed: nat)
  {
    r.readOffset <= framed && forall k :: k in r.queue.queued ==> r.queue.queued[k].End() <= framed
  }

  // A queued frame with the last byte says so, and who has read the last byte has seen the end.
  ghost predicate EndSeen(r: Receiver, e: nat)
  {
    && (forall k :: k in r.queue.queued && r.queue.queued[k].data != [] && r.queue.queued[k].End() == e ==>
        r.queue.queued[k].fin)
    && (r.readOffset == e ==> r.eof)
  }

  // FIN went out on its own, or on every frame with the last byte.
  ghost predicate EndOK(st: StreamState, w: seq<Byte>, sent: set<Frame>, queue: seq<Frame>, r: Receiver, id: StreamID)
  {
    && WithinFramed(r, st.writeOffset)
    && (st.finSent && !BareSent(sent, id) ==>
        |w| > 0 && SentFin(sent, id, |w|) && ListFin(queue, id, |w|) && EndSeen(r, |w|))
  }

  ghost predicate EndInv(s: System)
  {
    forall id :: id in s.receivers && id in s.framer.streams && id in s.written ==>
      EndOK(s.framer.streams[id], s.written[id], s.sent, s.framer.queue, s.receivers[id], id)
  }

  lemma EndOf(s: System, id: StreamID)
    requires Inv(s) && id in s.framer.streams
    ensures id in s.written && id in s.receivers && UpTo(s.framer.queue, id, s.framer.streams[id].writeOffset)
    ensures s.framer.streams[id].id == id && s.framer.streams[id].writeOffset <= |s.written[id]|
    ensures s.framer.streams[id].finSent ==>
      s.framer.streams[id].pending.None? && s.framer.streams[id].writeOffset == |s.written[id]|
    ensures forall f :: f in s.sent && f.streamID == id ==> f.End() <= s.framer.streams[id].writeOffset
  {
    assert SenderOK(s.framer.streams[id], s.written[id]);
    assert forall i :: 0 <= i < |s.framer.queue| ==> FrameOK(s.framer.queue[i], s.framer.streams, s.written);
  }

  lemma SettledStreams(s: System)
    requires Inv(s)
    ensures Settled(s.framer.streams)
  {
    forall id | id in s.framer.streams
      ensures s.framer.streams[id].id == id
      ensures s.framer.streams[id].finSent ==> s.framer.streams[id].pending.None?
    {
      EndOf(s, id);
    }
  }

  // ---------------------------------------------------------------- steps of the sender

  // The frames of a packet: those resent and the new ones.
  lemma PopFramesParts(s: Framer.State, order: seq<StreamID>, maxLen: nat, id: StreamID, e: nat)
      returns (resent: seq<Frame>, added: seq<Frame>)
    requires Settled(s.streams) && (forall k :: k in order ==> k in s.streams)
    requires UpTo(s.queue, id, e)
    ensures var r := Framer.PopFrames(s, order, maxLen);
      && r.frames == resent + added
      && (ListFin(s.queue, id, e) ==> ListFin(resent, id, e) && ListFin(r.state.queue, id, e))
      && AllFinish(added, s.streams, r.state.streams) && r.state.streams.Keys == s.streams.Keys
  {
    hide Framer.SendAll, Framer.Retransmit, Framer.Resent, AllFinish, Settled, ListFin, UpTo;
    Framer.RetransmitFits(s.queue, maxLen, 0);
    var p := Framer.Retransmit(s.queue, maxLen, 0);
    var s1 := s.(queue := p.queue, flow := Framer.Resent(s.flow, p.frames));
    if ListFin(s.queue, id, e) { RetransmitFin(s.queue, maxLen, 0, id, e); }
    SendAllFinishes(s1, order, maxLen - p.len);
    Framer.SendAllKeepsQueue(s1, order, maxLen - p.len);
    resent, added := p.frames, Framer.SendAll(s1, order, maxLen - p.len).frames;
  }

  lemma NoneAt(fs: seq<Frame>, id: StreamID, framed: nat, e: nat)
    requires UpTo(fs, id, framed) && framed <= e
    ensures UpTo(fs, id, e) && (framed < e ==> ListFin(fs, id, e))
  {
  }

  // One stream, when frames are put into a packet.
  lemma FramedEnd(st: StreamState, w: seq<Byte>, sent: set<Frame>, queue: seq<Frame>, r: Receiver, id: StreamID,
                  st': StreamState, resent: seq<Frame>, added: seq<Frame>, queue': seq<Frame>)
    requires EndOK(st, w, sent, queue, r, id) && Finishes(added, id, st, st')
    requires (if st.finSent then !BareSent(sent, id) else st.writeOffset < |w|) ==>
      ListFin(resent, id, |w|) && ListFin(queue', id, |w|)
    requires st'.finSent ==> st'.writeOffset == |w|
    requires forall f :: f in sent && f.streamID == id ==> f.End() <= st.writeOffset
    ensures EndOK(st', w, sent + (set f | f in resent + added), queue', r, id)
  {
    var frames := resent + added;
    var sent' := sent + set f | f in frames;
    assert BareSent(sent, id) ==> BareSent(sent', id);
    if st'.finSent && !BareSent(sent', id) {
      forall i | 0 <= i < |added| ensures added[i] in sent' { assert frames[|resent| + i] == added[i]; }
      forall f | f in sent' && EndsAt(f, id, |w|) ensures f.fin {
        if f !in sent {
          var i :| 0 <= i < |frames| && frames[i] == f;
          if i < |resent| { assert resent[i] == f; } else { assert added[i - |resent|] == f; }
        }
      }
    }
  }

  lemma PopFramesEnd(s: System, s': System, order: seq<StreamID>, maxLen: nat, id: StreamID)
    requires Inv(s) && EndInv(s) && Next(s, PopFrames(order, maxLen), s') && Inv(s')
    requires id in s'.receivers && id in s'.framer.streams && id in s'.written
    ensures EndOK(s'.framer.streams[id], s'.written[id], s'.sent, s'.framer.queue, s'.receivers[id], id)
  {
    hide Inv, EndOK, Framer.PopFrames, Settled, ListFin, UpTo, Finishes;
    SettledStreams(s);
    EndOf(s', id);
    assert s'.written == s.written && s'.receivers == s.receivers;
    EndKeys(s, id);
    EndOf(s, id);
    var st, w := s.framer.streams[id], s.written[id];
    NoneAt(s.framer.queue, id, st.writeOffset, |w|);
    if st.finSent && !BareSent(s.sent, id) { EndLists(st, w, s.sent, s.framer.queue, s.receivers[id], id); }
    var resent, added := PopFramesParts(s.framer, order, maxLen, id, |w|);
    FramedEnd(st, w, s.sent, s.framer.queue, s.receivers[id], id,
      s'.framer.streams[id], resent, added, s'.framer.queue);
  }

  lemma EndKeys(s: System, id: StreamID)
    requires Inv(s) && id in s.receivers
    ensures id in s.framer.streams && id in s.written
  {
  }

  lemma EndLists(st: StreamState, w: seq<Byte>, sent: set<Frame>, queue: seq<Frame>, r: Receiver, id: StreamID)
    requires EndOK(st, w, sent, queue, r, id) && st.finSent && !BareSent(sent, id)
    ensures ListFin(queue, id, |w|)
  {
  }

  // One stream, when neither its frames nor its receiver are touched.
  lemma SameEnd(st: StreamState, w: seq<Byte>, sent: set<Frame>, queue: seq<Frame>, r: Receiver, id: StreamID,
                st': StreamState, w': seq<Byte>, sent': set<Frame>, queue': seq<Frame>)
    requires EndOK(st, w, sent, queue, r, id) && st'.writeOffset >= st.writeOffset
    requires st'.finSent == st.finSent && (st.finSent ==> w' == w)
    requires sent <= sent' && forall f :: f in sent' && f.streamID == id && st.finSent ==> f in sent
    requires forall i :: 0 <= i < |queue'| ==> queue'[i] in queue || queue'[i] in sent
    ensures EndOK(st', w', sent', queue', r, id)
  {
    assert BareSent(sent, id) ==> BareSent(sent', id);
    if st.finSent && !BareSent(sent, id) {
      forall i | 0 <= i < |queue'| && EndsAt(queue'[i], id, |w|) ensures queue'[i].fin {
        if queue'[i] in queue { var j :| 0 <= j < |queue| && queue[j] == queue'[i]; }
      }
    }
  }

  lemma CryptoKeeps(st: StreamState, maxBytes: nat)
    requires st.finSent ==> st.pending.None?
    ensures CryptoFrame(st, maxBytes).Some? ==>
      && !st.finSent && CryptoFrame(st, maxBytes).value.streamID == 1
      && Streams.AfterTaking(st, maxBytes).writeOffset >= st.writeOffset && !Streams.AfterTaking(st, maxBytes).finSent
  {
  }

  predicate OnlySenders(e: Event)
  {
    e.Write? || e.Local? || e.PopCrypto? || e.Lose? || e.WindowUpdate?
  }

  // The steps that only concern senders, other than framing, leave what ends a stream as it is.
  lemma SenderStep(s: System, e: Event, s': System, id: StreamID)
    requires Inv(s) && Next(s, e, s') && OnlySenders(e) && id in s.framer.streams && id in s.written
    ensures s'.receivers == s.receivers && id in s'.framer.streams && id in s'.written && s.sent <= s'.sent
    ensures var st, st' := s.framer.streams[id], s'.framer.streams[id];
      && st'.writeOffset >= st.writeOffset && st'.finSent == st.finSent
      && (st.finSent ==> s'.written[id] == s.written[id])
      && (forall f :: f in s'.sent && f.streamID == id && st.finSent ==> f in s.sent)
    ensures forall i :: 0 <= i < |s'.framer.queue| ==>
      s'.framer.queue[i] in s.framer.queue || s'.framer.queue[i] in s.sent
  {
    hide Inv, SenderOK, Termination.Apply, Streams.Written, CryptoFrame, Streams.AfterTaking;
    var st, w := s.framer.streams[id], s.written[id];
    SenderIsOK(s, id);
    if e.Local? && e.id == id {
      LocalKeeps(st, w, e.event);
    } else if e.Write? && e.id == id {
      WriteKeeps(st, w, e.data);
    } else if e.PopCrypto? {
      EndOf(s, 1);
      CryptoKeeps(s.framer.streams[1], e.maxBytes);
    }
  }

  lemma SenderEnd(s: System, e: Event, s': System, id: StreamID)
    requires Inv(s) && EndInv(s) && Next(s, e, s') && OnlySenders(e)
    requires id in s'.receivers && id in s'.framer.streams && id in s'.written
    ensures EndOK(s'.framer.streams[id], s'.written[id], s'.sent, s'.framer.queue, s'.receivers[id], id)
  {
    hide Inv, Next, EndOK;
    NextExtends(s, e, s');
    OthersSame(s, e, s');
    EndKeys(s, id);
    SenderStep(s, e, s', id);
    SameEnd(s.framer.streams[id], s.written[id], s.sent, s.framer.queue, s.receivers[id], id,
      s'.framer.streams[id], s'.written[id], s'.sent, s'.framer.queue);
  }

  lemma SenderIsOK(s: System, id: StreamID)
    requires Inv(s) && id in s.framer.streams
    ensures id in s.written && SenderOK(s.framer.streams[id], s.written[id])
  {
  }

  // ---------------------------------------------------------------- steps of the receiver

  lemma PushEnd(r: Receiver, f: Frame, q: Sorter.State, res: Sorter.PushResult, framed: nat)
    requires WithinFramed(r, framed) && f.End() <= framed
    requires Sorter.PushSpec(r.queue, f, q, res) && res != Sorter.TooManyGaps
    ensures WithinFramed(r.(queue := q), framed)
    ensures EndSeen(r, framed) && (f.data != [] && f.End() == framed ==> f.fin) ==> EndSeen(r.(queue := q), framed)
  {
    hide Sorter.PushSpec, Sorter.Missing, Sorter.FirstMissing, Sorter.PastLastMissing;
    if f.data == [] {
      SorterProps.EmptyPushFacts(r.queue, f, q, res);
    } else if res == Sorter.Ok {
      SorterProps.PushFacts(r.queue, f, q, Sorter.FirstMissing(r.queue.gaps, f.offset, f.End()),
        Sorter.PastLastMissing(r.queue.gaps, f.offset, f.End()));
    } else {
      SorterProps.DuplicateFacts(r.queue, f, q, res);
    }
  }

  lemma DeliverEnd(s: System, f: Frame, s': System)
    requires Inv(s) && EndInv(s) && Next(s, Deliver(f), s')
    ensures var id := f.streamID;
      && id in s'.receivers && id in s'.framer.streams && id in s'.written
      && EndOK(s'.framer.streams[id], s'.written[id], s'.sent, s'.framer.queue, s'.receivers[id], id)
  {
    hide Inv, Sorter.PushSpec, Sorter.Missing, WithinFramed, EndSeen;
    var id := f.streamID;
    var r := s.receivers[id];
    var q, res :| Sorter.PushSpec(r.queue, f, q, res) && res != Sorter.TooManyGaps
      && s' == s.(receivers := s.receivers[id := r.(queue := q)]);
    EndKeys(s, id);
    EndOf(s, id);
    PushEnd(r, f, q, res, s.framer.streams[id].writeOffset);
  }

  lemma ReadFrameEnd(r: Receiver, n: nat, framed: nat)
    requires WithinFramed(r, framed) && !r.eof && Streams.ReaderValid(r.queue, r.readOffset)
    requires Sorter.HeadOf(r.queue).Some? && n > 0
    ensures var step := Streams.ReadFrame(r.queue, r.readOffset, n);
      var r' := Receiver(step.queue, step.readOffset, step.fin, r.out + step.bytes);
      WithinFramed(r', framed) && (EndSeen(r, framed) ==> EndSeen(r', framed))
  {
    hide Sorter.Valid;
    Streams.HeadOffset(r.queue);
  }

  lemma ReadEnd(s: System, id: StreamID, n: nat, s': System)
    requires Inv(s) && EndInv(s) && Next(s, Read(id, n), s')
    ensures id in s'.receivers && id in s'.framer.streams && id in s'.written
    ensures EndOK(s'.framer.streams[id], s'.written[id], s'.sent, s'.framer.queue, s'.receivers[id], id)
  {
    hide Inv, Streams.ReadFrame, Streams.ReaderValid, WithinFramed, EndSeen;
    EndKeys(s, id);
    EndOf(s, id);
    var r := s.receivers[id];
    if !r.eof && Sorter.HeadOf(r.queue).Some? { ReadFrameEnd(r, n, s.framer.streams[id].writeOffset); }
  }

  // ---------------------------------------------------------------- runs

  lemma OpenEnd(s: System, id: StreamID, contributes: bool, s': System)
    requires Inv(s) && EndInv(s) && Next(s, Open(id, contributes), s')
    ensures EndInv(s')
  {
    hide Inv, EndOK;
    NewEnd(id, s'.sent, s'.framer.queue);
    SameKeys(s);
  }

  lemma NewEnd(id: StreamID, sent: set<Frame>, queue: seq<Frame>)
    ensures EndOK(Streams.NewStream(id), [], sent, queue, Receiver(Sorter.Init(), 0, false, []), id)
  {
  }

  lemma NextEnd(s: System, e: Event, s': System)
    requires Inv(s) && EndInv(s) && Next(s, e, s') && Inv(s')
    ensures EndInv(s')
  {
    hide Inv, EndOK, Next, EndInv;
    if e.Open? {
      OpenEnd(s, e.id, e.contributes, s');
    } else {
      forall id | id in s'.receivers && id in s'.framer.streams && id in s'.written
        ensures EndOK(s'.framer.streams[id], s'.written[id], s'.sent, s'.framer.queue, s'.receivers[id], id)
      {
        OneEnd(s, e, s', id);
      }
      EndAll(s');
    }
  }

  lemma EndAll(s: System)
    requires forall id :: id in s.receivers && id in s.framer.streams && id in s.written ==>
      EndOK(s.framer.streams[id], s.written[id], s.sent, s.framer.queue, s.receivers[id], id)
    ensures EndInv(s)
  {
  }

  lemma OneEnd(s: System, e: Event, s': System, id: StreamID)
    requires Inv(s) && EndInv(s) && Next(s, e, s') && Inv(s') && !e.Open?
    requires id in s'.receivers && id in s'.framer.streams && id in s'.written
    ensures EndOK(s'.framer.streams[id], s'.written[id], s'.sent, s'.framer.queue, s'.receivers[id], id)
  {
    hide Inv, EndOK, Sorter.PushSpec, Streams.ReadFrame, Streams.ReaderValid, Framer.PopFrames, Termination.Apply;
    match e
    case PopFrames(order, maxLen) => PopFramesEnd(s, s', order, maxLen, id);
    case Deliver(f) => DeliverEnd(s, f, s');
    case Read(k, n) => ReadEnd(s, k, n, s');
    case _ => SenderEnd(s, e, s', id);
  }

  lemma {:induction false} RunEnd(states: seq<System>, events: seq<Event>, i: nat)
    requires IsRun(states, events) && i < |states|
    ensures EndInv(states[i])
  {
    hide Next, Inv, EndOK, IsRun;
    RunInv(states, events, i);
    if i == 0 {
      RunStart(states, events);
    } else {
      RunEnd(states, events, i - 1);
      RunInv(states, events, i - 1);
      RunStep(states, events, i - 1);
      hide EndInv;
      NextEnd(states[i - 1], events[i - 1], states[i]);
    }
  }

  // ---------------------------------------------------------------- a FIN on its own

  // The FIN at e is queued, or has been read.
  ghost predicate BareThere(r: Receiver, e: nat)
  {
    r.eof || (e in r.queue.queued && IsBare(r.queue.queued[e], r.queue.queued[e].streamID))
  }

  lemma PushBare(r: Receiver, f: Frame, q: Sorter.State, res: Sorter.PushResult, e: nat)
    requires Sorter.PushSpec(r.queue, f, q, res) && res != Sorter.TooManyGaps && f.End() <= e
    requires BareThere(r, e) || (f.data == [] && f.fin && f.offset == e)
    ensures BareThere(r.(queue := q), e)
  {
    hide Sorter.PushSpec, Sorter.Missing, Sorter.FirstMissing, Sorter.PastLastMissing;
    if f.data == [] {
      SorterProps.EmptyPushFacts(r.queue, f, q, res);
    } else if res == Sorter.Ok {
      SorterProps.PushFacts(r.queue, f, q, Sorter.FirstMissing(r.queue.gaps, f.offset, f.End()),
        Sorter.PastLastMissing(r.queue.gaps, f.offset, f.End()));
    } else {
      SorterProps.DuplicateFacts(r.queue, f, q, res);
    }
  }

  lemma ReadBare(r: Receiver, n: nat, e: nat)
    requires BareThere(r, e) && !r.eof && Streams.ReaderValid(r.queue, r.readOffset)
    requires Sorter.HeadOf(r.queue).Some? && n > 0
    ensures var step := Streams.ReadFrame(r.queue, r.readOffset, n);
      BareThere(Receiver(step.queue, step.readOffset, step.fin, r.out + step.bytes), e)
  {
    hide Sorter.Valid;
    Streams.HeadOffset(r.queue);
  }

  // Frames do not go past the end of their stream, and FIN stands at it.
  lemma SentIsOK(s: System, f: Frame)
    requires Inv(s) && f in s.sent
    ensures f.streamID in s.framer.streams && f.streamID in s.written
    ensures f.End() <= |s.written[f.streamID]|
    ensures f.fin ==> s.framer.streams[f.streamID].finSent && f.End() == |s.written[f.streamID]|
  {
    assert FrameOK(f, s.framer.streams, s.written);
    assert SenderOK(s.framer.streams[f.streamID], s.written[f.streamID]);
  }

  lemma DeliverBare(s: System, f: Frame, s': System)
    requires Inv(s) && Next(s, Deliver(f), s') && f.streamID in s.written
    requires BareThere(s.receivers[f.streamID], |s.written[f.streamID]|) || IsBare(f, f.streamID)
    ensures f.streamID in s'.receivers && BareThere(s'.receivers[f.streamID], |s.written[f.streamID]|)
  {
    hide Inv, Sorter.PushSpec, BareThere;
    var id := f.streamID;
    var r := s.receivers[id];
    var q, res :| Sorter.PushSpec(r.queue, f, q, res) && res != Sorter.TooManyGaps
      && s' == s.(receivers := s.receivers[id := r.(queue := q)]);
    SentIsOK(s, f);
    PushBare(r, f, q, res, |s.written[id]|);
  }

  lemma ReadStepBare(s: System, id: StreamID, n: nat, s': System, e: nat)
    requires Next(s, Read(id, n), s') && BareThere(s.receivers[id], e)
    ensures id in s'.receivers && BareThere(s'.receivers[id], e)
  {
    hide Streams.ReadFrame, Streams.ReaderValid, BareThere;
    var r := s.receivers[id];
    if !r.eof && Sorter.HeadOf(r.queue).Some? { ReadBare(r, n, e); }
  }

  lemma NextBare(s: System, e: Event, s': System, id: StreamID)
    requires Inv(s) && Next(s, e, s') && id in s.receivers && id in s.framer.streams && id in s.written
    requires s.framer.streams[id].finSent
    requires BareThere(s.receivers[id], |s.written[id]|) || (e.Deliver? && IsBare(e.frame, id))
    ensures id in s'.receivers && id in s'.framer.streams && id in s'.written && s'.framer.streams[id].finSent
    ensures s'.written[id] == s.written[id] && BareThere(s'.receivers[id], |s'.written[id]|)
  {
    hide Inv, Next, BareThere;
    NextExtends(s, e, s');
    ReceiversStay(s, e, s', id);
    if Target(e) == Some(id) && e.Deliver? {
      DeliverBare(s, e.frame, s');
    } else if Target(e) == Some(id) && e.Read? {
      ReadStepBare(s, id, e.n, s', |s.written[id]|);
    } else if !e.Open? {
      OthersSame(s, e, s');
    }
  }

  lemma {:induction false} RunBare(states: seq<System>, events: seq<Event>, k: nat, i: nat, id: StreamID)
    requires IsRun(states, events) && k < i < |states| && events[k].Deliver? && IsBare(events[k].frame, id)
    ensures var s := states[i];
      && id in s.receivers && id in s.framer.streams && id in s.written && s.framer.streams[id].finSent
      && BareThere(s.receivers[id], |s.written[id]|)
    decreases i
  {
    hide Inv, BareThere, IsRun;
    RunInv(states, events, i - 1);
    RunStep(states, events, i - 1);
    if k < i - 1 {
      RunBare(states, events, k, i - 1, id);
    } else {
      SentIsOK(states[k], events[k].frame);
    }
    hide Next;
    NextBare(states[i - 1], events[i - 1], states[i], id);
  }

  // ---------------------------------------------------------------- the end of the stream is read

  // A read that gets to a FIN queued on its own reports it.
  lemma {:induction false} ReadsBare(q: Sorter.State, readOffset: nat, n: nat, e: nat)
    requires Streams.ReaderValid(q, readOffset) && e in q.queued && q.queued[e].data == [] && q.queued[e].fin
    requires readOffset + n > e && Streams.ReadLoop(q, readOffset, n).step.readOffset == e
    ensures Streams.ReadLoop(q, readOffset, n).step.fin
    decreases n, |q.queued|
  {
    hide Sorter.Valid;
    Streams.DrainedIff(q, readOffset, n);
    if n > 0 && Sorter.HeadOf(q).Some? {
      Streams.HeadOffset(q);
      var first := Streams.ReadFrame(q, readOffset, n);
      if !first.fin { ReadsBare(first.queue, first.readOffset, n - |first.bytes|, e); }
    }
  }

  // Every queued frame stays within e, and those with data up to e carry FIN.
  ghost predicate LastFin(q: Sorter.State, e: nat)
  {
    forall k :: k in q.queued ==>
      q.queued[k].End() <= e && (q.queued[k].data != [] && q.queued[k].End() == e ==> q.queued[k].fin)
  }

  lemma ReadTowardsLast(q: Sorter.State, readOffset: nat, n: nat, e: nat)
    requires Streams.ReaderValid(q, readOffset) && readOffset < e && LastFin(q, e)
    requires n > 0 && Sorter.HeadOf(q).Some?
    ensures var first := Streams.ReadFrame(q, readOffset, n);
      first.fin || (first.readOffset < e && LastFin(first.queue, e))
  {
    hide Sorter.Valid;
    Streams.HeadOffset(q);
  }

  // So does one that gets to the last byte, if every frame that holds it carries FIN.
  lemma {:induction false} ReadsLast(q: Sorter.State, readOffset: nat, n: nat, e: nat)
    requires Streams.ReaderValid(q, readOffset) && readOffset < e && LastFin(q, e)
    requires Streams.ReadLoop(q, readOffset, n).step.readOffset == e
    ensures Streams.ReadLoop(q, readOffset, n).step.fin
    decreases n, |q.queued|
  {
    hide Streams.ReaderValid, Streams.ReadFrame, Sorter.HeadOf, LastFin;
    if n > 0 && Sorter.HeadOf(q).Some? {
      ReadTowardsLast(q, readOffset, n, e);
      var first := Streams.ReadFrame(q, readOffset, n);
      if !first.fin { ReadsLast(first.queue, first.readOffset, n - |first.bytes|, e); }
    }
  }

  /** The end of a stream arrives: if FIN was sent and every frame of the stream that was sent has
      arrived, with FIN intact, then the reader has seen the end of file, or a read that asks for more
      than is left returns all the rest and reports it. */
  lemma EofArrives(states: seq<System>, events: seq<Event>, i: nat, id: StreamID, n: nat)
    requires IsRun(states, events) && i < |states| && id in states[i].framer.streams
    requires forall k :: 0 <= k < |events| ==> FinIntact(states[k], events[k])
    requires AllDelivered(states, events, i, id) && states[i].framer.streams[id].finSent
    requires id in states[i].receivers && id in states[i].written
    requires states[i].receivers[id].readOffset + n > |states[i].written[id]|
    ensures var r, w := states[i].receivers[id], states[i].written[id];
      && Streams.ReaderValid(r.queue, r.readOffset)
      && var step := Streams.ReadLoop(r.queue, r.readOffset, n).step;
         if r.eof then r.out == w else step.fin && r.out + step.bytes == w
  {
    hide Next, Inv, FinIntact, IsRun, Streams.ReaderValid, Streams.ReadLoop, EndSeen, BareThere, QueueOK;
    var s := states[i];
    var r, w := s.receivers[id], s.written[id];
    RunInv(states, events, i);
    EndOf(s, id);
    EverythingArrives(states, events, i, id, n);
    ReaderReady(states, events, i, id);
    ReadsWhatArrived(r.queue, r.readOffset, n, w);
    var o := Streams.ReadLoop(r.queue, r.readOffset, n).step;
    assert w[..|w|] == w;
    assert r.out + o.bytes == w && o.readOffset == |w|;
    if r.eof {
      EofIsTheEnd(states, events, i, id);
    } else if BareSent(s.sent, id) {
      var f :| f in s.sent && IsBare(f, id);
      assert |states| == |events| + 1 by { RunLength(states, events); }
      var k :| 0 <= k < i && events[k] == Deliver(f);
      RunBare(states, events, k, i, id);
      BareIsRead(r, n, |w|);
    } else {
      RunEnd(states, events, i);
      LastIsRead(r, n, |w|);
    }
  }

  lemma RunLength(states: seq<System>, events: seq<Event>)
    requires IsRun(states, events)
    ensures |states| == |events| + 1
  {
    hide Next;
  }

  lemma BareIsRead(r: Receiver, n: nat, e: nat)
    requires BareThere(r, e) && !r.eof && Streams.ReaderValid(r.queue, r.readOffset) && r.readOffset + n > e
    requires Streams.ReadLoop(r.queue, r.readOffset, n).step.readOffset == e
    ensures Streams.ReadLoop(r.queue, r.readOffset, n).step.fin
  {
    hide Streams.ReadLoop, Streams.ReaderValid;
    ReadsBare(r.queue, r.readOffset, n, e);
  }

  lemma LastIsRead(r: Receiver, n: nat, e: nat)
    requires EndSeen(r, e) && WithinFramed(r, e) && !r.eof && Streams.ReaderValid(r.queue, r.readOffset)
    requires Streams.ReadLoop(r.queue, r.readOffset, n).step.readOffset == e
    ensures Streams.ReadLoop(r.queue, r.readOffset, n).step.fin
  {
    hide Streams.ReadLoop, Streams.ReaderValid;
    ReadsLast(r.queue, r.readOffset, n, e);
  }
}
