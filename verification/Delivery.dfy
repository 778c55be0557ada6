// End of stream, and how much a reader gets.
module Delivery {
  import opened Common
  import opened Frames
  import Sorter
  import SorterProps
  import Streams
  import Framer
  import Termination
  import opened Transport

  // ---------------------------------------------------------------- end of stream

  // FIN in a receiver's queue, and an end of file already reported, mark the end of what was written.
  ghost predicate EofOK(r: Receiver, st: StreamState, w: seq<Byte>)
  {
    && (forall k :: k in r.queue.queued && r.queue.queued[k].fin ==> st.finSent && r.queue.queued[k].End() == |w|)
    && (r.eof ==> st.finSent && r.readOffset == |w|)
  }

  ghost predicate EofInv(s: System)
  {
    forall id :: id in s.receivers && id in s.framer.streams && id in s.written ==>
      EofOK(s.receivers[id], s.framer.streams[id], s.written[id])
  }

  // A frame with data and FIN brings the last byte of the stream, or nothing at all.
  ghost predicate FinIntact(s: System, e: Event)
  {
    e.Deliver? && e.frame.streamID in s.receivers && e.frame.data != [] && e.frame.fin ==>
      var gaps := s.receivers[e.frame.streamID].queue.gaps;
      || Sorter.Missing(gaps, e.frame.End() - 1)
      || forall x :: e.frame.offset <= x < e.frame.End() ==> !Sorter.Missing(gaps, x)
  }

  lemma DeliverEof(r: Receiver, st: StreamState, w: seq<Byte>, f: Frame, q: Sorter.State, res: Sorter.PushResult)
    requires EofOK(r, st, w) && (f.fin ==> st.finSent && f.End() == |w|)
    requires Sorter.PushSpec(r.queue, f, q, res) && res != Sorter.TooManyGaps
    requires f.data != [] && f.fin && res == Sorter.Ok ==> Sorter.Missing(r.queue.gaps, f.End() - 1)
    ensures EofOK(r.(queue := q), st, w)
  {
    hide Sorter.PushSpec, Sorter.Missing;
    if f.data == [] {
      SorterProps.EmptyPushFacts(r.queue, f, q, res);
    } else if res == Sorter.Ok {
      SorterProps.FinSurvivesIff(r.queue, f, q, |w|);
      FinFrom(r.queue, f, q);
    } else {
      SorterProps.DuplicateFacts(r.queue, f, q, res);
    }
  }

  // FIN in the queue after a push was there before or came with the frame.
  lemma FinFrom(s: Sorter.State, f: Frame, s': Sorter.State)
    requires f.data != [] && Sorter.PushSpec(s, f, s', Sorter.Ok)
    ensures forall k :: k in s'.queued && s'.queued[k].fin ==>
      f.fin || (k in s.queued && s.queued[k] == s'.queued[k])
  {
    hide Sorter.PushSpec, Sorter.Missing, Sorter.FirstMissing, Sorter.PastLastMissing;
    SorterProps.PushFacts(s, f, s', Sorter.FirstMissing(s.gaps, f.offset, f.End()), Sorter.PastLastMissing(s.gaps,
      f.offset, f.End()));
  }

  lemma ReadEof(r: Receiver, st: StreamState, w: seq<Byte>, n: nat)
    requires EofOK(r, st, w) && !r.eof && Streams.ReaderValid(r.queue, r.readOffset)
    requires Sorter.HeadOf(r.queue).Some? && n > 0
    ensures var step := Streams.ReadFrame(r.queue, r.readOffset, n);
      EofOK(Receiver(step.queue, step.readOffset, step.fin, r.out + step.bytes), st, w)
  {
    hide Sorter.Valid;
    Streams.HeadOffset(r.queue);
  }

  // Only a delivery and a read touch a receiver; everything else keeps the end of its stream.
  lemma SenderEof(r: Receiver, st: StreamState, w: seq<Byte>, st': StreamState, w': seq<Byte>)
    requires EofOK(r, st, w) && (st.finSent ==> st'.finSent && w' == w)
    ensures EofOK(r, st', w')
  {
  }

  lemma GrowsExtends(a: map<StreamID, StreamState>, b: map<StreamID, StreamState>, w: map<StreamID, seq<Byte>>)
    requires Grows(a, b)
    ensures Extends(a, w, b, w)
  {
  }

  // The senders of s' go on from those of s.
  lemma NextExtends(s: System, e: Event, s': System)
    requires Inv(s) && Next(s, e, s')
    ensures Extends(s.framer.streams, s.written, s'.framer.streams, s'.written)
  {
    hide FrameOK, FlowOK, ReceiversOK, FramesOK, SentSetOK, SendersOK, Framer.PopFrames, Streams.AfterTaking, Extends;
    match e
    case Open(id, contributes) => OpenSender(s.framer.streams, s.written, id);
    case Local(id, ev) => LocalExtends(s, id, ev);
    case Write(id, p) => WriteExtends(s, id, p);
    case PopFrames(order, maxLen) =>
      PopFramesKeeps(s.framer, order, maxLen, s.written, s.granted);
      GrowsExtends(s.framer.streams, s'.framer.streams, s.written);
    case PopCrypto(maxBytes) => CryptoExtends(s, maxBytes, s');
    case _ => GrowsExtends(s.framer.streams, s'.framer.streams, s.written);
  }

  lemma LocalExtends(s: System, id: StreamID, ev: Termination.Event)
    requires SendersOK(s.framer.streams, s.written) && id in s.framer.streams && !ev.Send? && !ev.Write?
    ensures Extends(s.framer.streams, s.written,
                    s.framer.streams[id := Termination.Apply(s.framer.streams[id], ev).0], s.written)
  {
    hide Termination.Apply, SenderOK;
    LocalKeeps(s.framer.streams[id], s.written[id], ev);
  }

  lemma WriteExtends(s: System, id: StreamID, p: seq<Byte>)
    requires SendersOK(s.framer.streams, s.written) && id in s.framer.streams && id in s.written
    requires CanWrite(s.framer.streams[id], p) && |s.written[id]| + |p| < MAX_BYTE_COUNT
    ensures Extends(s.framer.streams, s.written, Wrote(s, id, p).framer.streams, Wrote(s, id, p).written)
  {
    hide SenderOK, Streams.Written;
    WriteKeeps(s.framer.streams[id], s.written[id], p);
  }

  lemma CryptoExtends(s: System, maxBytes: nat, s': System)
    requires SendersOK(s.framer.streams, s.written) && Next(s, PopCrypto(maxBytes), s')
    ensures Extends(s.framer.streams, s.written, s'.framer.streams, s'.written)
  {
    hide SenderOK, SendersOK, Streams.AfterTaking, Streams.DataTaken, Extends;
    var st := s.framer.streams[1];
    if CryptoFrame(st, maxBytes).Some? { Framer.TakeFacts(st, maxBytes); }
    GrowsExtends(s.framer.streams, s'.framer.streams, s.written);
  }

  // A receiver that a step leaves alone.
  lemma EofCarry(s: System, s': System, id: StreamID)
    requires EofInv(s) && Extends(s.framer.streams, s.written, s'.framer.streams, s'.written)
    requires id in s.receivers && id in s.framer.streams && id in s.written
    requires id in s'.receivers && s'.receivers[id] == s.receivers[id]
    ensures EofOK(s'.receivers[id], s'.framer.streams[id], s'.written[id])
  {
    hide EofOK;
    SenderEof(s.receivers[id], s.framer.streams[id], s.written[id], s'.framer.streams[id], s'.written[id]);
  }

  lemma SameKeys(s: System)
    requires Inv(s)
    ensures s.receivers.Keys == s.written.Keys == s.framer.streams.Keys
  {
  }

  lemma DeliverInvEof(s: System, f: Frame, s': System)
    requires Inv(s) && EofInv(s) && Next(s, Deliver(f), s') && FinIntact(s, Deliver(f))
    requires f.streamID in s.framer.streams && f.streamID in s.written && f.streamID in s'.receivers
    ensures EofOK(s'.receivers[f.streamID], s.framer.streams[f.streamID], s.written[f.streamID])
  {
    hide SendersOK, FramesOK, FlowOK, ReceiversOK, EofOK, Sorter.PushSpec, Sorter.Missing;
    SameKeys(s);
    assert FrameOK(f, s.framer.streams, s.written);
    var r := s.receivers[f.streamID];
    var q, res :| Sorter.PushSpec(r.queue, f, q, res) && res != Sorter.TooManyGaps
      && s' == s.(receivers := s.receivers[f.streamID := r.(queue := q)]);
    SorterProps.DuplicateFacts(r.queue, f, q, res);
    DeliverEof(r, s.framer.streams[f.streamID], s.written[f.streamID], f, q, res);
  }

  lemma ReadInvEof(s: System, id: StreamID, n: nat, s': System)
    requires Inv(s) && EofInv(s) && Next(s, Read(id, n), s')
    requires id in s.framer.streams && id in s.written && id in s'.receivers
    ensures EofOK(s'.receivers[id], s.framer.streams[id], s.written[id])
  {
    hide SendersOK, FramesOK, FlowOK, ReceiversOK, EofOK, Streams.ReadFrame, Streams.ReaderValid;
    SameKeys(s);
    var r := s.receivers[id];
    if !r.eof && Sorter.HeadOf(r.queue).Some? {
      ReadEof(r, s.framer.streams[id], s.written[id], n);
    }
  }

  // The receiver that a step works on, if there is one.
  function Target(e: Event): Option<StreamID>
  {
    match e
    case Open(id, _) => Some(id)
    case Deliver(f) => Some(f.streamID)
    case Read(id, _) => Some(id)
    case _ => None
  }

  lemma OthersSame(s: System, e: Event, s': System)
    requires Next(s, e, s')
    ensures forall id :: id in s'.receivers && Some(id) != Target(e) ==>
      id in s.receivers && s'.receivers[id] == s.receivers[id]
  {
    hide Sorter.PushSpec, Streams.ReadFrame, Streams.ReaderValid, Framer.PopFrames, Termination.Apply;
  }

  lemma NextEof(s: System, e: Event, s': System)
    requires Inv(s) && EofInv(s) && Next(s, e, s') && FinIntact(s, e)
    ensures EofInv(s')
  {
    hide Inv, Next, FinIntact, EofOK, Extends;
    NextExtends(s, e, s');
    OthersSame(s, e, s');
    SameKeys(s);
    forall id | id in s'.receivers && id in s'.framer.streams && id in s'.written
      ensures EofOK(s'.receivers[id], s'.framer.streams[id], s'.written[id])
    {
      if Some(id) != Target(e) {
        EofCarry(s, s', id);
      } else {
        TargetEof(s, e, s', id);
      }
    }
  }

  lemma TargetEof(s: System, e: Event, s': System, id: StreamID)
    requires Inv(s) && EofInv(s) && Next(s, e, s') && FinIntact(s, e)
    requires Target(e) == Some(id) && id in s'.receivers && id in s'.framer.streams && id in s'.written
    ensures EofOK(s'.receivers[id], s'.framer.streams[id], s'.written[id])
  {
    hide Inv, EofInv, FinIntact, EofOK, Sorter.PushSpec, Streams.ReadFrame, Streams.ReaderValid, Framer.PopFrames;
    if e.Open? { FreshEof(s'.framer.streams[id], s'.written[id]); }
    match e
    case Deliver(f) => DeliverInvEof(s, f, s');
    case Read(_, n) => ReadInvEof(s, id, n, s');
    case _ =>
  }

  lemma FreshEof(st: StreamState, w: seq<Byte>)
    ensures EofOK(Receiver(Sorter.Init(), 0, false, []), st, w)
  {
  }

  lemma {:induction false} RunEof(states: seq<System>, events: seq<Event>, i: nat)
    requires IsRun(states, events) && i < |states|
    requires forall k :: 0 <= k < |events| ==> FinIntact(states[k], events[k])
    ensures EofInv(states[i])
  {
    hide Next, Inv, EofInv, FinIntact, IsRun;
    if i == 0 {
      RunStart(states, events);
      InitEof(states[0]);
    } else {
      RunEof(states, events, i - 1);
      RunInv(states, events, i - 1);
      RunStep(states, events, i - 1);
      NextEof(states[i - 1], events[i - 1], states[i]);
    }
  }

  lemma InitEof(s: System)
    requires exists w, c :: s == Init(w, c)
    ensures EofInv(s)
  {
  }

  /** If no frame with FIN arrives whose last byte is already there while an earlier one is not,
      then a reader that has seen the end of file has read everything that was written. */
  lemma EofIsTheEnd(states: seq<System>, events: seq<Event>, i: nat, id: StreamID)
    requires IsRun(states, events) && i < |states| && id in states[i].receivers && states[i].receivers[id].eof
    requires forall k :: 0 <= k < |events| ==> FinIntact(states[k], events[k])
    ensures id in states[i].written && states[i].receivers[id].out == states[i].written[id]
  {
    hide Next, FinIntact, Streams.ReaderValid, IsRun, FrameOK, FlowOK;
    RunInv(states, events, i);
    RunEof(states, events, i);
    SameKeys(states[i]);
    var w := states[i].written[id];
    assert w[..|w|] == w;
  }

  lemma IntactPush(r: Receiver, st: StreamState, w: seq<Byte>, f: Frame, q: Sorter.State, res: Sorter.PushResult)
    requires EofOK(r, st, w) && EofOK(r.(queue := q), st, w) && f.data != [] && f.fin && f.End() == |w|
    requires Sorter.PushSpec(r.queue, f, q, res) && res != Sorter.TooManyGaps
    ensures Sorter.Missing(r.queue.gaps, f.End() - 1) ||
      forall x :: f.offset <= x < f.End() ==> !Sorter.Missing(r.queue.gaps, x)
  {
    hide Sorter.PushSpec, Sorter.Missing;
    SorterProps.DuplicateFacts(r.queue, f, q, res);
    if res == Sorter.Ok { SorterProps.FinSurvivesIff(r.queue, f, q, |w|); }
  }

  // A delivery after which FIN still marks the end was intact.
  lemma IntactDelivery(s: System, f: Frame, s': System)
    requires Inv(s) && EofInv(s) && Next(s, Deliver(f), s') && EofInv(s')
    ensures FinIntact(s, Deliver(f))
  {
    hide SendersOK, FramesOK, FlowOK, ReceiversOK, Sorter.PushSpec, Sorter.Missing, EofOK;
    SameKeys(s);
    assert FrameOK(f, s.framer.streams, s.written);
    if f.data != [] && f.fin {
      var id := f.streamID;
      var r := s.receivers[id];
      var q, res :| Sorter.PushSpec(r.queue, f, q, res) && res != Sorter.TooManyGaps
        && s' == s.(receivers := s.receivers[id := r.(queue := q)]);
      assert EofOK(s'.receivers[id], s'.framer.streams[id], s'.written[id]);
      IntactPush(r, s.framer.streams[id], s.written[id], f, q, res);
    }
  }

  /** Throughout a run every FIN that is queued or was reported marks the true end of its stream
      exactly if every arriving frame with FIN brings the last byte of the stream or nothing new. */
  lemma FinMarksEndIff(states: seq<System>, events: seq<Event>)
    requires IsRun(states, events)
    ensures (forall i :: 0 <= i < |states| ==> EofInv(states[i])) <==>
      (forall k :: 0 <= k < |events| ==> FinIntact(states[k], events[k]))
  {
    hide Next, Inv, EofInv, FinIntact;
    if forall i :: 0 <= i < |states| ==> EofInv(states[i]) {
      forall k | 0 <= k < |events| ensures FinIntact(states[k], events[k]) {
        RunInv(states, events, k);
        RunStep(states, events, k);
        IntactStep(states[k], events[k], states[k + 1]);
      }
    }
    if forall k :: 0 <= k < |events| ==> FinIntact(states[k], events[k]) {
      forall i | 0 <= i < |states| ensures EofInv(states[i]) { RunEof(states, events, i); }
    }
  }

  lemma IntactStep(s: System, e: Event, s': System)
    requires Inv(s) && EofInv(s) && Next(s, e, s') && EofInv(s')
    ensures FinIntact(s, e)
  {
    hide Next, Inv, EofInv;
    if e.Deliver? { IntactDelivery(s, e.frame, s'); }
  }

  // ---------------------------------------------------------------- how much a reader gets

  ghost predicate QueueOK(q: Sorter.State, w: seq<Byte>)
  {
    && (forall k :: k in q.queued ==> q.queued[k].Agrees(w))
    && SorterProps.FinAtEnd(q, |w|)
  }

  // One pass of the read loop hands out the next bytes of w, all of which have arrived.
  lemma ReadFrameFacts(q: Sorter.State, readOffset: nat, n: nat, w: seq<Byte>)
    requires Streams.ReaderValid(q, readOffset) && Sorter.HeadOf(q).Some? && n > 0
    requires readOffset <= |w| && QueueOK(q, w)
    ensures var step := Streams.ReadFrame(q, readOffset, n);
      && step.readOffset <= |w| && step.bytes == w[readOffset..step.readOffset]
      && step.queue.gaps == q.gaps && QueueOK(step.queue, w)
      && (forall x :: readOffset <= x < step.readOffset ==> !Sorter.Missing(q.gaps, x))
      && (step.fin ==> step.readOffset == |w|)
  {
    hide Sorter.Missing, Sorter.Canonical, Sorter.RunsTiled;
    Streams.HeadOffset(q);
    var f := Sorter.HeadOf(q).value;
    var step := Streams.ReadFrame(q, readOffset, n);
    SorterProps.SliceAgrees(w, f, readOffset, step.readOffset);
  }

  lemma FirstMissingSkip(gaps: seq<Sorter.Interval>, lo: nat, mid: nat, hi: nat)
    requires lo <= mid <= hi && forall x :: lo <= x < mid ==> !Sorter.Missing(gaps, x)
    ensures Sorter.FirstMissing(gaps, lo, hi) == Sorter.FirstMissing(gaps, mid, hi)
  {
    hide Sorter.Missing, Sorter.FirstMissing;
  }

  // Nothing is queued past the end of w.
  lemma EndIsMissing(q: Sorter.State, w: seq<Byte>)
    requires Sorter.Valid(q) && QueueOK(q, w) && q.readPosition == |w|
    ensures Sorter.Missing(q.gaps, |w|)
  {
    SorterProps.HeadIffReceived(q);
    Streams.HeadOffset(q);
  }

  lemma MissingIsFirst(gaps: seq<Sorter.Interval>, lo: nat)
    requires lo < MAX_BYTE_COUNT && Sorter.Missing(gaps, lo)
    ensures Sorter.FirstMissing(gaps, lo, MAX_BYTE_COUNT) == lo
  {
  }

  lemma FinMeansEnd(q: Sorter.State, readOffset: nat, n: nat, w: seq<Byte>)
    requires Streams.ReaderValid(q, readOffset) && Sorter.HeadOf(q).Some? && n > 0
    requires readOffset <= |w| && QueueOK(q, w) && Streams.ReadFrame(q, readOffset, n).fin
    ensures Sorter.Missing(q.gaps, |w|)
  {
    hide Sorter.Valid;
    ReadFrameFacts(q, readOffset, n, w);
    Streams.HeadOffset(q);
    Streams.PopKeepsReader(q);
    EndIsMissing(Sorter.Popped(q), w);
  }

  /** A read returns exactly the bytes that have arrived without a gap from the read offset on, up
      to the number asked for. */
  lemma {:induction false} ReadsWhatArrived(q: Sorter.State, readOffset: nat, n: nat, w: seq<Byte>)
    requires Streams.ReaderValid(q, readOffset) && readOffset <= |w| < MAX_BYTE_COUNT && QueueOK(q, w)
    ensures var o := Streams.ReadLoop(q, readOffset, n).step;
      && o.readOffset == Min(readOffset + n, Sorter.FirstMissing(q.gaps, readOffset, MAX_BYTE_COUNT)) <= |w|
      && o.bytes == w[readOffset..o.readOffset]
    decreases n, |q.queued|
  {
    hide Sorter.Missing, Sorter.FirstMissing, Streams.ReaderValid, QueueOK, Streams.ReadFrame;
    if n == 0 {
    } else if Sorter.HeadOf(q).None? {
      Streams.DrainedIsMissing(q, readOffset);
      MissingIsFirst(q.gaps, readOffset);
    } else {
      var step := Streams.ReadFrame(q, readOffset, n);
      ReadFrameFacts(q, readOffset, n, w);
      FirstMissingSkip(q.gaps, readOffset, step.readOffset, MAX_BYTE_COUNT);
      if step.fin {
        FinMeansEnd(q, readOffset, n, w);
        MissingIsFirst(q.gaps, |w|);
      } else {
        ReadsWhatArrived(step.queue, step.readOffset, n - |step.bytes|, w);
        var o := Streams.ReadLoop(step.queue, step.readOffset, n - |step.bytes|).step;
        assert w[readOffset..o.readOffset] == step.bytes + w[step.readOffset..o.readOffset];
      }
    }
  }
}
