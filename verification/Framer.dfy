// Cutting stream data into frames, and resending lost frames within a byte budget.
module Framer {
  import opened Common
  import opened Frames
  import opened Streams
  import opened FlowControl

  // ---------------------------------------------------------------- retransmissions

  // The first n bytes of a frame, without FIN.
  function SplitFront(f: Frame, n: nat): Frame
    requires n <= |f.data|
  {
    f.Slice(f.offset, f.offset + n).(fin := false)
  }

  function SplitBack(f: Frame, n: nat): Frame
    requires n <= |f.data|
  {
    f.Slice(f.offset + n, f.End())
  }

  // The frames taken from the queue, the queue left behind, and the length reached.
  datatype Popped = Popped(frames: seq<Frame>, queue: seq<Frame>, len: nat)

  /** Takes frames from the queue after cur of maxLen bytes have been used. */
  function Retransmit(queue: seq<Frame>, maxLen: nat, cur: nat): Popped
    decreases |queue|
  {
    if queue == [] then Popped([], [], cur) else
    var f := queue[0].(dataLenPresent := true);
    var hdr := MinLength(f);
    if cur + hdr >= maxLen then Popped([], [f] + queue[1..], cur)
    else
      var n := maxLen - cur - hdr;
      if n < |f.data| then Popped([SplitFront(f, n)], [SplitBack(f, n)] + queue[1..], maxLen)
      else
        var rest := Retransmit(queue[1..], maxLen, cur + WireLength(f));
        rest.(frames := [f] + rest.frames)
  }

  // What a frame carries: its bytes with their positions, then its FIN.
  datatype Item = ByteAt(id: StreamID, offset: nat, value: Byte) | FinAt(id: StreamID, offset: nat)

  ghost function Bytes(id: StreamID, offset: nat, data: seq<Byte>): seq<Item>
  {
    seq(|data|, i requires 0 <= i < |data| => ByteAt(id, offset + i, data[i]))
  }

  ghost function FrameContent(f: Frame): seq<Item>
  {
    Bytes(f.streamID, f.offset, f.data) + if f.fin then [FinAt(f.streamID, f.End())] else []
  }

  ghost function Content(frames: seq<Frame>): seq<Item>
  {
    if frames == [] then [] else FrameContent(frames[0]) + Content(frames[1..])
  }

  function TotalLength(frames: seq<Frame>): nat
  {
    if frames == [] then 0 else WireLength(frames[0]) + TotalLength(frames[1..])
  }

  lemma SplitContent(f: Frame, n: nat)
    requires n <= |f.data|
    ensures FrameContent(SplitFront(f, n)) + FrameContent(SplitBack(f, n)) == FrameContent(f)
  {
    assert f.data[..n] + f.data[n..] == f.data;
  }

  lemma FlaggedContent(f: Frame)
    ensures FrameContent(f.(dataLenPresent := true)) == FrameContent(f)
  {
  }

  lemma ContentCons(f: Frame, fs: seq<Frame>)
    ensures Content([f] + fs) == FrameContent(f) + Content(fs)
  {
    assert ([f] + fs)[1..] == fs;
  }

  lemma TotalLengthCons(f: Frame, fs: seq<Frame>)
    ensures TotalLength([f] + fs) == WireLength(f) + TotalLength(fs)
  {
    assert ([f] + fs)[1..] == fs;
  }

  /** Nothing is lost, added, moved or reordered by a retransmission: the frames taken followed by
      the queue left carry what the queue carried, FIN markers included. */
  lemma {:induction false} RetransmitConserves(queue: seq<Frame>, maxLen: nat, cur: nat)
    ensures var r := Retransmit(queue, maxLen, cur); Content(r.frames) + Content(r.queue) == Content(queue)
    decreases |queue|
  {
    hide FrameContent, SplitFront, SplitBack, MinLength, WireLength;
    if queue != [] {
      var f := queue[0].(dataLenPresent := true);
      var hdr := MinLength(f);
      FlaggedContent(queue[0]);
      if cur + hdr >= maxLen {
        ContentCons(f, queue[1..]);
      } else if maxLen - cur - hdr < |f.data| {
        var n := maxLen - cur - hdr;
        SplitContent(f, n);
        ContentCons(SplitFront(f, n), []);
        ContentCons(SplitBack(f, n), queue[1..]);
      } else {
        RetransmitConserves(queue[1..], maxLen, cur + WireLength(f));
        ContentCons(f, Retransmit(queue[1..], maxLen, cur + WireLength(f)).frames);
      }
    }
  }

  /** The length returned is the wire length of the frames taken and stays within the budget. */
  lemma {:induction false} RetransmitFits(queue: seq<Frame>, maxLen: nat, cur: nat)
    ensures var r := Retransmit(queue, maxLen, cur);
      && r.len == cur + TotalLength(r.frames)
      && (cur <= maxLen ==> r.len <= maxLen)
      && (forall i :: 0 <= i < |r.frames| ==> r.frames[i].dataLenPresent)
    decreases |queue|
  {
    hide OffsetLength, StreamIDLength, Retransmit, TotalLength;
    RetransmitUnfold(queue, maxLen, cur);
    NoLength();
    if queue != [] {
      var f := queue[0].(dataLenPresent := true);
      var hdr := MinLength(f);
      if cur + hdr < maxLen && maxLen - cur - hdr < |f.data| {
        var front := SplitFront(f, maxLen - cur - hdr);
        TotalLengthCons(front, []);
        assert [front] + [] == [front] && WireLength(front) == maxLen - cur;
      } else if cur + hdr < maxLen {
        RetransmitFits(queue[1..], maxLen, cur + WireLength(f));
        TotalLengthCons(f, Retransmit(queue[1..], maxLen, cur + WireLength(f)).frames);
      }
    }
  }

  /** Frames are taken until the queue is empty or the next header does not fit. */
  lemma {:induction false} RetransmitGreedy(queue: seq<Frame>, maxLen: nat, cur: nat)
    ensures var r := Retransmit(queue, maxLen, cur); r.queue != [] ==> r.len + MinLength(r.queue[0]) >= maxLen
    decreases |queue|
  {
    hide OffsetLength, StreamIDLength, Retransmit;
    RetransmitUnfold(queue, maxLen, cur);
    if queue != [] {
      var f := queue[0].(dataLenPresent := true);
      if cur + MinLength(f) < maxLen && maxLen - cur - MinLength(f) >= |f.data| {
        RetransmitGreedy(queue[1..], maxLen, cur + WireLength(f));
      }
    }
  }

  lemma NoLength()
    ensures TotalLength([]) == 0
  {
  }

  // What is left to resend, counting every frame at least once.
  function Backlog(queue: seq<Frame>): nat
  {
    if queue == [] then 0 else 1 + |queue[0].data| + Backlog(queue[1..])
  }

  /** A budget beyond the longest header always gets something of the queue resent. */
  lemma {:induction false} RetransmitProgress(queue: seq<Frame>, maxLen: nat, cur: nat)
    requires queue != [] && cur + 15 < maxLen
    ensures var r := Retransmit(queue, maxLen, cur); r.frames != [] && Backlog(r.queue) < Backlog(queue)
  {
    hide OffsetLength, StreamIDLength;
    var f := queue[0].(dataLenPresent := true);
    assert MinLength(f) <= 15 by { HeaderBound(f); }
    var n := maxLen - cur - MinLength(f);
    if n < |f.data| {
      assert ([SplitBack(f, n)] + queue[1..])[1..] == queue[1..];
    } else {
      BacklogShrinks(queue[1..], maxLen, cur + WireLength(f));
    }
  }

  lemma HeaderBound(f: Frame)
    ensures MinLength(f) <= 15
  {
  }

  lemma {:induction false} BacklogShrinks(queue: seq<Frame>, maxLen: nat, cur: nat)
    ensures Backlog(Retransmit(queue, maxLen, cur).queue) <= Backlog(queue)
    decreases |queue|
  {
    hide OffsetLength, StreamIDLength, MinLength;
    if queue != [] {
      var f := queue[0].(dataLenPresent := true);
      var hdr := MinLength(f);
      if cur + hdr >= maxLen {
        assert ([f] + queue[1..])[1..] == queue[1..];
      } else if maxLen - cur - hdr < |f.data| {
        assert ([SplitBack(f, maxLen - cur - hdr)] + queue[1..])[1..] == queue[1..];
      } else {
        BacklogShrinks(queue[1..], maxLen, cur + WireLength(f));
      }
    }
  }

  // ---------------------------------------------------------------- new data

  datatype Sent = Sent(stream: StreamState, frame: Option<Frame>, cont: bool)

  /** Frames the next data of a stream, and its FIN when everything has been framed. The result
      says whether another stream may still be tried. */
  function Send(s: StreamState, maxBytes: nat, window: nat): Sent
  {
    var frame := Frame(s.id, false, true, s.writeOffset, []);
    var hdr := MinLength(frame);
    if s.id == 1 then Sent(s, None, true)
    else if hdr > maxBytes then Sent(s, None, false)
    else
      var maxLen := if s.PendingLen() != 0 then Min(maxBytes - hdr, window) else maxBytes - hdr;
      if maxLen == 0 then Sent(s, None, true)
      else
        var data := if s.PendingLen() != 0 then DataTaken(s, maxLen) else None;
        var s1 := if s.PendingLen() != 0 then AfterTaking(s, maxLen) else s;
        var fin := s1.ShouldSendFin();
        if data.None? && !fin then Sent(s1, None, true)
        else
          var bytes := if data.Some? then data.value else [];
          Sent(s1.(finSent := s1.finSent || fin), Some(frame.(fin := fin, data := bytes)), hdr + |bytes| != maxBytes)
  }

  lemma SendFits(s: StreamState, maxBytes: nat, window: nat)
    ensures var r := Send(s, maxBytes, window);
      r.frame.Some? ==> WireLength(r.frame.value) <= maxBytes && r.frame.value.dataLenPresent
  {
    hide OffsetLength, StreamIDLength;
  }

  // The data of a stream that has not been framed yet.
  function Unsent(pending: Option<seq<Byte>>): seq<Byte>
  {
    if pending.Some? then pending.value else []
  }

  // s hands out d, the front of what is pending, and becomes t.
  ghost predicate Takes(s: StreamState, d: seq<Byte>, t: StreamState)
  {
    && Unsent(s.pending) == d + Unsent(t.pending)
    && t == s.(writeOffset := s.writeOffset + |d|, pending := t.pending)
    && s.pending.Some?
  }

  lemma TakeFacts(s: StreamState, n: nat)
    requires s.PendingLen() != 0
    ensures var d := DataTaken(s, n);
      && d.Some? && |d.value| == Min(n, s.PendingLen()) && Takes(s, d.value, AfterTaking(s, n))
      && (AfterTaking(s, n).pending.None? <==> |d.value| == s.PendingLen())
  {
    if |s.pending.value| > n { TakePart(s, n); } else { TakeWhole(s, n); }
  }

  lemma TakePart(s: StreamState, n: nat)
    requires s.PendingLen() > n
    ensures Takes(s, s.pending.value[..n], AfterTaking(s, n))
  {
    assert s.pending.value == s.pending.value[..n] + s.pending.value[n..];
  }

  lemma TakeWhole(s: StreamState, n: nat)
    requires 0 < s.PendingLen() <= n
    ensures Takes(s, s.pending.value, AfterTaking(s, n))
  {
    assert s.pending.value == s.pending.value + [];
  }

  /** What Send does to a stream: a frame starts at the write offset and takes its data off the
      front of what is pending; without a frame nothing changes. */
  lemma SendFacts(s: StreamState, maxBytes: nat, window: nat)
    ensures var r := Send(s, maxBytes, window);
      match r.frame
      case None => r.stream == s
      case Some(f) =>
        && f.streamID == s.id && f.offset == s.writeOffset && s.id != 1 && !s.err
        && Unsent(s.pending) == f.data + Unsent(r.stream.pending)
        && (s.pending.None? ==> r.stream.pending.None? && f.fin)
        && (f.data != [] ==> |f.data| <= window)
        && (f.fin ==> s.finishedWriting && !s.finSent && r.stream.pending.None?)
        && r.stream == s.(writeOffset := f.End(), pending := r.stream.pending, finSent := s.finSent || f.fin)
  {
    hide MinLength, DataTaken, AfterTaking, Unsent;
    if s.PendingLen() != 0 {
      var hdr := MinLength(Frame(s.id, false, true, s.writeOffset, []));
      if hdr <= maxBytes { TakeFacts(s, Min(maxBytes - hdr, window)); }
    }
    assert [] + Unsent(s.pending) == Unsent(s.pending);
  }

  // The length of the header of the stream's next frame.
  function HeaderLength(s: StreamState): nat
  {
    1 + StreamIDLength(s.id) + OffsetLength(s.writeOffset) + 2
  }

  // There is room beyond the header, and data that the window lets through or a FIN to send.
  predicate CanSend(s: StreamState, maxBytes: nat, window: nat)
  {
    && s.id != 1 && !s.err && HeaderLength(s) < maxBytes
    && if Unsent(s.pending) != [] then window > 0 else s.finishedWriting && !s.finSent && s.pending.None?
  }

  /** When and what Send frames: there is a frame exactly if the stream can send; it takes as much data
      as is pending, the window allows and there is room for; FIN is on it exactly if the stream is
      closed, FIN is unsent and nothing is left; and the walk stops exactly if the header does not fit
      or the frame uses up the budget. */
  lemma SendExact(s: StreamState, maxBytes: nat, window: nat)
    ensures var r := Send(s, maxBytes, window);
      && (r.frame.Some? <==> CanSend(s, maxBytes, window))
      && (r.frame.Some? ==>
          var n, pending, room := |r.frame.value.data|, |Unsent(s.pending)|, maxBytes - HeaderLength(s);
          && n <= pending && n <= window && n <= room && (n == pending || n == window || n == room)
          && (r.frame.value.fin <==> s.finishedWriting && !s.finSent && n == pending))
      && (!r.cont <==>
          && s.id != 1
          && (HeaderLength(s) > maxBytes || (r.frame.Some? && HeaderLength(s) + |r.frame.value.data| == maxBytes)))
  {
    hide StreamIDLength, OffsetLength, DataTaken, AfterTaking;
    var hdr := HeaderLength(s);
    if s.PendingLen() != 0 && hdr <= maxBytes { TakeFacts(s, Min(maxBytes - hdr, window)); }
  }

  // The BLOCKED frames that a sent frame gives rise to; stream 0 stands for the connection.
  function BlockedBy(flow: Flow, window: nat, f: Frame): seq<StreamID>
  {
    if flow.ConnRemaining() == 0 then [0]
    else if !f.fin && window == |f.data| then [f.streamID]
    else []
  }

  /** The framer's state, the streams it serves included. */
  datatype State = State(
    queue: seq<Frame>,
    blocked: seq<StreamID>,
    streams: map<StreamID, StreamState>,
    flow: Flow)

  datatype SentAll = SentAll(state: State, frames: seq<Frame>)

  function SendOne(s: State, id: StreamID, maxBytes: nat): (State, Sent)
    requires id in s.streams
    ensures var (s', r) := SendOne(s, id, maxBytes);
      && s'.streams.Keys == s.streams.Keys && s'.queue == s.queue
      && (r.frame.Some? ==> WireLength(r.frame.value) <= maxBytes && r.frame.value.dataLenPresent)
  {
    var window := s.flow.SendWindowSize(id);
    SendFits(s.streams[id], maxBytes, window);
    var r := Send(s.streams[id], maxBytes, window);
    var s1 := s.(streams := s.streams[id := r.stream]);
    match r.frame
    case None => (s1, r)
    case Some(f) =>
      var flow := s.flow.AddBytesSent(id, |f.data|);
      (s1.(flow := flow, blocked := s.blocked + BlockedBy(flow, window, f)), r)
  }

  /** A BLOCKED frame is queued exactly if a frame has used up the connection's window, or the window of
      its stream without carrying FIN. */
  lemma BlockedExact(s: State, id: StreamID, maxBytes: nat)
    requires id in s.streams && s.streams[id].id == id
    ensures var (s1, r) := SendOne(s, id, maxBytes);
      s1.blocked == s.blocked +
        if r.frame.None? then []
        else if s1.flow.ConnRemaining() == 0 then [0]
        else if !r.frame.value.fin && s1.flow.SendWindowSize(id) == 0 then [id]
        else []
  {
    hide Send;
    var window := s.flow.SendWindowSize(id);
    SendFacts(s.streams[id], maxBytes, window);
    SendExact(s.streams[id], maxBytes, window);
  }

  /** Offers the budget to the streams in the given order, until one of them says stop. */
  function SendAll(s: State, order: seq<StreamID>, maxBytes: nat): SentAll
    requires forall id :: id in order ==> id in s.streams
    decreases |order|
  {
    if order == [] then SentAll(s, []) else
    var (s1, r) := SendOne(s, order[0], maxBytes);
    var first := if r.frame.Some? then [r.frame.value] else [];
    if !r.cont then SentAll(s1, first)
    else
      TotalLengthOne(r.frame);
      var rest := SendAll(s1, order[1..], maxBytes - TotalLength(first));
      rest.(frames := first + rest.frames)
  }

  lemma SendAllUnfold(s: State, order: seq<StreamID>, i: nat, maxBytes: nat)
    requires i <= |order| && forall id :: id in order ==> id in s.streams
    ensures i == |order| ==> SendAll(s, order[i..], maxBytes) == SentAll(s, [])
    ensures i < |order| ==>
      var (s1, r) := SendOne(s, order[i], maxBytes);
      match r.frame
      case None =>
        SendAll(s, order[i..], maxBytes) ==
          if r.cont then SendAll(s1, order[i + 1..], maxBytes) else SentAll(s1, [])
      case Some(f) =>
        && WireLength(f) <= maxBytes
        && SendAll(s, order[i..], maxBytes) ==
           if !r.cont then SentAll(s1, [f])
           else var rest := SendAll(s1, order[i + 1..], maxBytes - WireLength(f)); rest.(frames := [f] + rest.frames)
  {
    hide SendOne, WireLength;
    if i < |order| {
      assert order[i..][0] == order[i] && order[i..][1..] == order[i + 1..];
      var (s1, r) := SendOne(s, order[i], maxBytes);
      TotalLengthOne(r.frame);
      var rest := SendAll(s1, order[i + 1..], maxBytes);
      assert [] + rest.frames == rest.frames;
    }
  }

  // The bytes of sent frames are charged to their streams.
  function Charged(flow: Flow, frames: seq<Frame>): Flow
    decreases |frames|
  {
    if frames == [] then flow else Charged(flow.AddBytesSent(frames[0].streamID, |frames[0].data|), frames[1..])
  }

  // Every stream of the order is there under its own ID, and none comes twice.
  ghost predicate IsPass(s: State, order: seq<StreamID>)
  {
    && (forall id :: id in order ==> id in s.streams && s.streams[id].id == id)
    && (forall i, j :: 0 <= i < j < |order| ==> order[i] != order[j])
  }

  // The frames belong to the given streams.
  ghost predicate FramesOf(frames: seq<Frame>, ids: seq<StreamID>)
  {
    forall i :: 0 <= i < |frames| ==> frames[i].streamID in ids
  }

  // Some stream before the k-th one had a header for which there was no room.
  ghost predicate StoppedBefore(s: State, order: seq<StreamID>, k: nat, left: nat)
    requires k <= |order| && forall id :: id in order ==> id in s.streams
  {
    exists j :: 0 <= j < k && order[j] != 1 && left < HeaderLength(s.streams[order[j]])
  }

  // At the turn of the k-th stream n frames have been made: it gets the next frame exactly if it can
  // send within the budget and window that these have left, unless the walk has stopped before it.
  ghost predicate IsTurn(s: State, order: seq<StreamID>, maxBytes: nat, frames: seq<Frame>, k: nat, n: nat)
    requires k < |order| && n <= |frames| && TotalLength(frames[..n]) <= maxBytes
    requires forall id :: id in order ==> id in s.streams
  {
    var id, left := order[k], maxBytes - TotalLength(frames[..n]);
    var window := Charged(s.flow, frames[..n]).SendWindowSize(id);
    && FramesOf(frames[..n], order[..k]) && FramesOf(frames[n..], order[k..])
    && if n < |frames| && frames[n].streamID == id then
         CanSend(s.streams[id], left, window) && Send(s.streams[id], left, window).frame == Some(frames[n])
       else !CanSend(s.streams[id], left, window) || (n == |frames| && StoppedBefore(s, order, k, left))
  }

  // One stream at a time: the others stay as they are, and the frame is charged.
  lemma PassOne(s: State, order: seq<StreamID>, maxBytes: nat)
    requires IsPass(s, order) && order != []
    ensures var (s1, r) := SendOne(s, order[0], maxBytes);
      var first := if r.frame.Some? then [r.frame.value] else [];
      && r == Send(s.streams[order[0]], maxBytes, s.flow.SendWindowSize(order[0]))
      && (forall id :: id in s.streams && id != order[0] ==> s1.streams[id] == s.streams[id])
      && s1.flow == Charged(s.flow, first) && FramesOf(first, order[..1])
      && IsPass(s1, order[1..]) && order[0] !in order[1..]
  {
    hide Send;
    SendFacts(s.streams[order[0]], maxBytes, s.flow.SendWindowSize(order[0]));
    var (s1, r) := SendOne(s, order[0], maxBytes);
    if r.frame.Some? { assert [r.frame.value][1..] == []; }
    forall id | id in order[1..] ensures id in s1.streams && s1.streams[id].id == id && id != order[0] {
      assert id in order;
    }
  }

  lemma {:induction false} ChargedConcat(flow: Flow, a: seq<Frame>, b: seq<Frame>)
    ensures Charged(flow, a + b) == Charged(Charged(flow, a), b)
    decreases |a|
  {
    if a == [] {
      assert a + b == b;
    } else {
      assert (a + b)[1..] == a[1..] + b;
      ChargedConcat(flow.AddBytesSent(a[0].streamID, |a[0].data|), a[1..], b);
    }
  }

  /** The frames belong to the streams of the order, and what they carry is charged. */
  lemma {:induction false} SendAllCharges(s: State, order: seq<StreamID>, maxBytes: nat)
    requires IsPass(s, order)
    ensures var r := SendAll(s, order, maxBytes);
      FramesOf(r.frames, order) && r.state.flow == Charged(s.flow, r.frames)
    decreases |order|
  {
    hide SendOne, SendAll, TotalLength, Charged;
    SendAllUnfold(s, order, 0, maxBytes);
    assert order[0..] == order;
    if order == [] {
      NothingCharged(s.flow);
    } else {
      var (s1, r) := SendOne(s, order[0], maxBytes);
      var first := if r.frame.Some? then [r.frame.value] else [];
      PassOne(s, order, maxBytes);
      TotalLengthOne(r.frame);
      NoLength();
      if r.cont {
        SendAllCharges(s1, order[1..], maxBytes - TotalLength(first));
        var rest := SendAll(s1, order[1..], maxBytes - TotalLength(first)).frames;
        ChargedConcat(s.flow, first, rest);
        assert [] + rest == rest;
      }
    }
  }

  lemma NothingCharged(flow: Flow)
    ensures Charged(flow, []) == flow
  {
  }

  lemma FirstTurn(s: State, order: seq<StreamID>, maxBytes: nat)
    requires IsPass(s, order) && order != []
    ensures TotalLength([]) == 0 && IsTurn(s, order, maxBytes, SendAll(s, order, maxBytes).frames, 0, 0)
  {
    hide SendOne, SendAll, Send, CanSend, WireLength, HeaderLength;
    SendAllCharges(s, order, maxBytes);
    SendAllUnfold(s, order, 0, maxBytes);
    assert order[0..] == order;
    PassOne(s, order, maxBytes);
    var (s1, r) := SendOne(s, order[0], maxBytes);
    SendExact(s.streams[order[0]], maxBytes, s.flow.SendWindowSize(order[0]));
    if r.frame.None? && r.cont {
      SendAllCharges(s1, order[1..], maxBytes);
    }
    var frames := SendAll(s, order, maxBytes).frames;
    assert frames[..0] == [] && frames[0..] == frames;
  }

  lemma LastTurn(s: State, order: seq<StreamID>, maxBytes: nat, k: nat)
    requires IsPass(s, order) && 0 < k < |order| && !SendOne(s, order[0], maxBytes).1.cont
    ensures var frames := SendAll(s, order, maxBytes).frames;
      TotalLength(frames) <= maxBytes && IsTurn(s, order, maxBytes, frames, k, |frames|)
  {
    hide SendOne, SendAll, Send, CanSend;
    SendAllUnfold(s, order, 0, maxBytes);
    assert order[0..] == order;
    PassOne(s, order, maxBytes);
    SendExact(s.streams[order[0]], maxBytes, s.flow.SendWindowSize(order[0]));
    SendAllFits(s, order, maxBytes);
  }

  lemma LaterTurn(s: State, order: seq<StreamID>, maxBytes: nat, first: seq<Frame>, s1: State, rest: seq<Frame>,
                  k: nat, n: nat)
    requires IsPass(s, order) && 0 < k < |order| && n <= |rest| && IsPass(s1, order[1..])
    requires forall id :: id in order[1..] ==> s1.streams[id] == s.streams[id]
    requires s1.flow == Charged(s.flow, first) && FramesOf(first, order[..1])
    requires TotalLength(first) <= maxBytes && TotalLength(rest[..n]) <= maxBytes - TotalLength(first)
    requires IsTurn(s1, order[1..], maxBytes - TotalLength(first), rest, k - 1, n)
    ensures TotalLength((first + rest)[..|first| + n]) <= maxBytes
    ensures IsTurn(s, order, maxBytes, first + rest, k, |first| + n)
  {
    hide Send, CanSend, TotalLength, Charged, HeaderLength, Flow.SendWindowSize;
    var frames := first + rest;
    assert frames[..|first| + n] == first + rest[..n] && frames[|first| + n..] == rest[n..];
    TotalLengthConcat(first, rest[..n]);
    ChargedConcat(s.flow, first, rest[..n]);
    assert order[1..][..k - 1] == order[1..k] && order[1..][k - 1..] == order[k..];
  }

  /** Every stream of the order gets a frame exactly if it can send within the budget and the window
      left at its turn, unless the header of a stream before it did not fit. */
  lemma {:induction false} SendAllServes(s: State, order: seq<StreamID>, maxBytes: nat, k: nat) returns (n: nat)
    requires IsPass(s, order) && k < |order|
    ensures var r := SendAll(s, order, maxBytes);
      n <= |r.frames| && TotalLength(r.frames[..n]) <= maxBytes && IsTurn(s, order, maxBytes, r.frames, k, n)
    decreases |order|
  {
    hide SendOne, SendAll, Send, TotalLength, WireLength, IsTurn, Charged, FramesOf;
    SendAllUnfold(s, order, 0, maxBytes);
    assert order[0..] == order;
    var (s1, r) := SendOne(s, order[0], maxBytes);
    var first := if r.frame.Some? then [r.frame.value] else [];
    PassOne(s, order, maxBytes);
    TotalLengthOne(r.frame);
    NoLength();
    var frames := SendAll(s, order, maxBytes).frames;
    if k == 0 {
      n := 0;
      assert frames[..0] == [];
      FirstTurn(s, order, maxBytes);
    } else if !r.cont {
      n := |first|;
      assert frames[..n] == frames;
      LastTurn(s, order, maxBytes, k);
    } else {
      var rest := SendAll(s1, order[1..], maxBytes - TotalLength(first)).frames;
      n := SendAllServes(s1, order[1..], maxBytes - TotalLength(first), k - 1);
      LaterTurn(s, order, maxBytes, first, s1, rest, k, n);
      n := |first| + n;
      assert [] + rest == rest;
    }
  }

  // Retransmissions first, then new data in what is left of the budget.
  function PopFrames(s: State, order: seq<StreamID>, maxLen: nat): SentAll
    requires forall id :: id in order ==> id in s.streams
  {
    RetransmitFits(s.queue, maxLen, 0);
    var p := Retransmit(s.queue, maxLen, 0);
    var r := SendAll(s.(queue := p.queue, flow := Resent(s.flow, p.frames)), order, maxLen - p.len);
    r.(frames := p.frames + r.frames)
  }

  // Retransmitted bytes are counted apart from sent bytes.
  function Resent(flow: Flow, frames: seq<Frame>): (r: Flow)
    ensures r == flow.(streams := r.streams, connRetrans := r.connRetrans) && r.streams.Keys == flow.streams.Keys
    ensures forall id :: id in flow.streams ==> r.streams[id] == flow.streams[id].(retrans := r.streams[id].retrans)
    decreases |frames|
  {
    if frames == [] then flow else Resent(flow.AddBytesRetrans(frames[0].streamID, |frames[0].data|), frames[1..])
  }

  // The number of bytes that frames carry for some streams.
  function DataOf(frames: seq<Frame>, ids: set<StreamID>): nat
  {
    if frames == [] then 0
    else (if frames[0].streamID in ids then |frames[0].data| else 0) + DataOf(frames[1..], ids)
  }

  // The streams that count for the connection.
  function Contributing(flow: Flow): set<StreamID>
  {
    set id | id in flow.streams && flow.streams[id].contributes
  }

  /** Every byte resent is counted once, for its stream and, if that contributes, for the connection;
      the same holds for bytes sent. */
  lemma {:induction false} ResentExact(flow: Flow, frames: seq<Frame>)
    ensures var r := Resent(flow, frames);
      && r.connRetrans == flow.connRetrans + DataOf(frames, Contributing(flow))
      && forall id :: id in flow.streams ==>
           id in r.streams && r.streams[id].retrans == flow.streams[id].retrans + DataOf(frames, {id})
    decreases |frames|
  {
    if frames != [] {
      var next := flow.AddBytesRetrans(frames[0].streamID, |frames[0].data|);
      assert Contributing(next) == Contributing(flow);
      ResentExact(next, frames[1..]);
    }
  }

  lemma {:induction false} ChargedExact(flow: Flow, frames: seq<Frame>)
    ensures var r := Charged(flow, frames);
      && r.connSent == flow.connSent + DataOf(frames, Contributing(flow))
      && r == flow.(connSent := r.connSent, streams := r.streams) && r.streams.Keys == flow.streams.Keys
      && forall id :: id in flow.streams ==>
           r.streams[id] == flow.streams[id].(sent := flow.streams[id].sent + DataOf(frames, {id}))
    decreases |frames|
  {
    if frames != [] {
      var next := flow.AddBytesSent(frames[0].streamID, |frames[0].data|);
      assert Contributing(next) == Contributing(flow);
      ChargedExact(next, frames[1..]);
    }
  }

  lemma TotalLengthOne(f: Option<Frame>)
    ensures f.Some? ==> TotalLength([f.value]) == WireLength(f.value)
  {
  }

  // The two flows differ in what was resent only.
  ghost predicate SameCharges(a: Flow, b: Flow)
  {
    && b == a.(streams := b.streams, connRetrans := b.connRetrans) && b.streams.Keys == a.streams.Keys
    && forall id :: id in a.streams ==> b.streams[id] == a.streams[id].(retrans := b.streams[id].retrans)
  }

  lemma {:induction false} SameWindows(a: Flow, b: Flow, frames: seq<Frame>, id: StreamID)
    requires SameCharges(a, b)
    ensures Charged(a, frames).SendWindowSize(id) == Charged(b, frames).SendWindowSize(id)
    decreases |frames|
  {
    if frames != [] {
      var f := frames[0];
      SameWindows(a.AddBytesSent(f.streamID, |f.data|), b.AddBytesSent(f.streamID, |f.data|), frames[1..], id);
    }
  }

  /** A packet starts with the m frames that are resent, and then every stream of the order gets a frame
      exactly if it can send in what these and the streams before it have left of budget and window. */
  lemma PopFramesServes(s: State, order: seq<StreamID>, maxLen: nat, k: nat) returns (m: nat, n: nat)
    requires IsPass(s, order) && k < |order|
    ensures var r, p := PopFrames(s, order, maxLen), Retransmit(s.queue, maxLen, 0);
      && m <= |r.frames| && r.frames[..m] == p.frames && r.state.queue == p.queue
      && TotalLength(r.frames[..m]) <= maxLen && n <= |r.frames[m..]|
      && TotalLength(r.frames[m..][..n]) <= maxLen - TotalLength(r.frames[..m])
      && IsTurn(s, order, maxLen - TotalLength(r.frames[..m]), r.frames[m..], k, n)
  {
    hide SendAll, Retransmit, TotalLength, Resent, Charged, CanSend, Send, FramesOf, Flow.SendWindowSize;
    RetransmitFits(s.queue, maxLen, 0);
    var p := Retransmit(s.queue, maxLen, 0);
    var s1 := s.(queue := p.queue, flow := Resent(s.flow, p.frames));
    var r := SendAll(s1, order, maxLen - p.len);
    m := |p.frames|;
    assert (p.frames + r.frames)[..m] == p.frames && (p.frames + r.frames)[m..] == r.frames;
    SendAllKeepsQueue(s1, order, maxLen - p.len);
    n := SendAllServes(s1, order, maxLen - p.len, k);
    SameWindows(s.flow, s1.flow, r.frames[..n], order[k]);
  }

  lemma TotalLengthConcat(a: seq<Frame>, b: seq<Frame>)
    ensures TotalLength(a + b) == TotalLength(a) + TotalLength(b)
  {
    if a == [] {
      assert a + b == b;
    } else {
      assert (a + b)[1..] == a[1..] + b;
    }
  }

  predicate AllSized(frames: seq<Frame>)
  {
    forall i :: 0 <= i < |frames| ==> frames[i].dataLenPresent
  }

  lemma {:induction false} SendAllFits(s: State, order: seq<StreamID>, maxBytes: nat)
    requires forall id :: id in order ==> id in s.streams
    ensures var r := SendAll(s, order, maxBytes); TotalLength(r.frames) <= maxBytes && AllSized(r.frames)
    decreases |order|
  {
    hide SendOne, WireLength;
    if order != [] {
      var (s1, r) := SendOne(s, order[0], maxBytes);
      TotalLengthOne(r.frame);
      var first := if r.frame.Some? then [r.frame.value] else [];
      if r.cont {
        SendAllFits(s1, order[1..], maxBytes - TotalLength(first));
        TotalLengthConcat(first, SendAll(s1, order[1..], maxBytes - TotalLength(first)).frames);
      }
    }
  }

  /** The frames popped for a packet fit the budget, each counted with its length field. */
  lemma PopFramesFits(s: State, order: seq<StreamID>, maxLen: nat)
    requires forall id :: id in order ==> id in s.streams
    ensures var r := PopFrames(s, order, maxLen); TotalLength(r.frames) <= maxLen && AllSized(r.frames)
  {
    hide SendAll, Retransmit, TotalLength;
    RetransmitFits(s.queue, maxLen, 0);
    var p := Retransmit(s.queue, maxLen, 0);
    var s1 := s.(queue := p.queue, flow := Resent(s.flow, p.frames));
    SendAllFits(s1, order, maxLen - p.len);
    TotalLengthConcat(p.frames, SendAll(s1, order, maxLen - p.len).frames);
  }

  lemma {:induction false} SendAllKeepsQueue(s: State, order: seq<StreamID>, maxBytes: nat)
    requires forall id :: id in order ==> id in s.streams
    ensures SendAll(s, order, maxBytes).state.queue == s.queue
    decreases |order|
  {
    hide SendOne, WireLength;
    if order != [] {
      var (s1, r) := SendOne(s, order[0], maxBytes);
      TotalLengthOne(r.frame);
      if r.cont {
        SendAllKeepsQueue(s1, order[1..], maxBytes - TotalLength(if r.frame.Some? then [r.frame.value] else []));
      }
    }
  }

  // Without a frame popped, what is queued for retransmission stays.
  lemma NothingPopped(s: State, order: seq<StreamID>, maxLen: nat)
    requires forall id :: id in order ==> id in s.streams
    requires PopFrames(s, order, maxLen).frames == []
    ensures Content(PopFrames(s, order, maxLen).state.queue) == Content(s.queue)
  {
    hide SendAll, Retransmit, Content;
    RetransmitFits(s.queue, maxLen, 0);
    RetransmitConserves(s.queue, maxLen, 0);
    var p := Retransmit(s.queue, maxLen, 0);
    SendAllKeepsQueue(s.(queue := p.queue, flow := Resent(s.flow, p.frames)), order, maxLen - p.len);
    NoContent();
  }

  lemma NoContent()
    ensures Content([]) == []
  {
  }

  // ---------------------------------------------------------------- the framer

  class StreamFramer {
    var retransmissionQueue: seq<Frame>
    var blockedFrameQueue: seq<StreamID>
    var streams: map<StreamID, Stream>
    var flow: Flow

    ghost function Streams(): set<Stream>
      reads this
    {
      set id | id in streams :: streams[id]
    }

    ghost predicate Valid()
      reads this
    {
      forall id :: id in streams ==> streams[id].streamID == id
    }

    ghost function Value(): State
      reads this, Streams()
    {
      State(retransmissionQueue, blockedFrameQueue, map id | id in streams :: streams[id].Value(), flow)
    }

    /** Queues a lost frame. */
    method AddFrameForRetransmission(frame: Frame)
      requires Valid()
      modifies this`retransmissionQueue
      ensures Valid() && Value() == old(Value()).(queue := old(retransmissionQueue) + [frame])
    {
      retransmissionQueue := retransmissionQueue + [frame];
    }

    // Splits off the first n bytes of the frame at the head of the queue, if it is longer than that.
    method MaybeSplitOffFrame(n: nat) returns (front: Option<Frame>)
      requires |retransmissionQueue| > 0
      modifies this`retransmissionQueue
      ensures var f := old(retransmissionQueue)[0];
        if n >= |f.data| then front == None && retransmissionQueue == old(retransmissionQueue)
        else front == Some(SplitFront(f, n)) && retransmissionQueue == [SplitBack(f, n)] + old(retransmissionQueue)[1..]
    {
      var frame := retransmissionQueue[0];
      if n >= |frame.data| {
        return None;
      }
      front := Some(Frame(frame.streamID, false, frame.dataLenPresent, frame.offset, frame.data[..n]));
      frame := frame.(data := frame.data[n..], offset := frame.offset + n);
      assert frame == SplitBack(old(retransmissionQueue)[0], n);
      retransmissionQueue := [frame] + retransmissionQueue[1..];
    }

    method MaybePopFramesForRetransmission(maxLen: nat) returns (res: seq<Frame>, currentLen: nat)
      requires Valid()
      modifies this`retransmissionQueue, this`flow
      ensures Valid()
      ensures Retransmit(old(retransmissionQueue), maxLen, 0) == Popped(res, retransmissionQueue, currentLen)
      ensures flow == Resent(old(flow), res)
    {
      hide MinLength, SplitFront, SplitBack, Retransmit, Resent;
      ghost var p := Retransmit(retransmissionQueue, maxLen, 0);
      res, currentLen := [], 0;
      assert flow == Resent(flow, res) by { ResentNone(flow); }
      while |retransmissionQueue| > 0
        invariant flow == Resent(old(flow), res)
        invariant var rest := Retransmit(retransmissionQueue, maxLen, currentLen);
          p == rest.(frames := res + rest.frames)
        decreases |retransmissionQueue|
      {
        RetransmitUnfold(retransmissionQueue, maxLen, currentLen);
        var frame := retransmissionQueue[0].(dataLenPresent := true);
        retransmissionQueue := [frame] + retransmissionQueue[1..];
        var frameHeaderLen := MinLength(frame);
        if currentLen + frameHeaderLen >= maxLen {
          return;
        }
        currentLen := currentLen + frameHeaderLen;
        var splitFrame := MaybeSplitOffFrame(maxLen - currentLen);
        if splitFrame.Some? {
          ResentSnoc(old(flow), res, splitFrame.value);
          res := res + [splitFrame.value];
          currentLen := currentLen + |splitFrame.value.data|;
          flow := flow.AddBytesRetrans(splitFrame.value.streamID, |splitFrame.value.data|);
          return;
        }
        retransmissionQueue := retransmissionQueue[1..];
        ResentSnoc(old(flow), res, frame);
        res := res + [frame];
        currentLen := currentLen + |frame.data|;
        flow := flow.AddBytesRetrans(frame.streamID, |frame.data|);
      }
      RetransmitUnfold(retransmissionQueue, maxLen, currentLen);
    }

    // Frames what stream s has to send, at most window bytes of data.
    method FrameStream(s: Stream, maxBytes: nat, window: nat) returns (frame: Option<Frame>, cont: bool)
      modifies s`dataForWriting, s`writeOffset, s`finSent
      ensures Sent(s.Value(), frame, cont) == Send(old(s.Value()), maxBytes, window)
      ensures frame.Some? ==> frame.value.streamID == s.streamID
    {
      hide MinLength;
      if s.streamID == 1 {
        return None, true;
      }
      var f := Frame(s.streamID, false, true, s.writeOffset, []);
      var frameHeaderBytes := MinLength(f);
      if frameHeaderBytes > maxBytes {
        return None, false;
      }
      var maxLen := maxBytes - frameHeaderBytes;
      var lenStreamData := if s.err || s.dataForWriting.None? then 0 else |s.dataForWriting.value|;
      if lenStreamData != 0 {
        maxLen := Min(maxLen, window);
      }
      if maxLen == 0 {
        return None, true;
      }
      var data := None;
      if lenStreamData != 0 {
        data := s.GetDataForWriting(maxLen);
      }
      var shouldSendFin := s.finishedWriting && !s.finSent && !s.err && s.dataForWriting.None?;
      if data.None? && !shouldSendFin {
        return None, true;
      }
      if shouldSendFin {
        f := f.(fin := true);
        s.finSent := true;
      }
      f := f.(data := if data.Some? then data.value else []);
      return Some(f), frameHeaderBytes + |f.data| != maxBytes;
    }

    // Frames what stream s has to send, charges it and notes when it is blocked.
    method SendStream(s: Stream, maxBytes: nat) returns (frame: Option<Frame>, cont: bool)
      requires Valid() && s.streamID in streams && streams[s.streamID] == s
      modifies this`flow, this`blockedFrameQueue, s`dataForWriting, s`writeOffset, s`finSent
      ensures Valid()
      ensures var (v, r) := SendOne(old(Value()), s.streamID, maxBytes);
        Value() == v && frame == r.frame && cont == r.cont
    {
      hide Flow.SendWindowSize, Send, Stream.Value;
      var window := flow.SendWindowSize(s.streamID);
      frame, cont := FrameStream(s, maxBytes, window);
      OthersUnchanged(s);
      ghost var vs := Value().streams;
      assert vs == old(Value()).streams[s.streamID := s.Value()];
      if frame.Some? {
        var f := frame.value;
        flow := flow.AddBytesSent(s.streamID, |f.data|);
        if flow.ConnRemaining() == 0 {
          blockedFrameQueue := blockedFrameQueue + [0];
        } else if !f.fin && window == |f.data| {
          blockedFrameQueue := blockedFrameQueue + [s.streamID];
        }
        assert old(blockedFrameQueue) + [] == old(blockedFrameQueue);
        assert Value().streams == vs;
      }
    }

    /** Frames new data of the streams, offered in the given order, up to maxBytes in all. */
    method MaybePopNormalFrames(order: seq<StreamID>, maxBytes: nat) returns (res: seq<Frame>)
      requires Valid() && forall id :: id in order ==> id in streams
      modifies this`flow, this`blockedFrameQueue, Streams()
      ensures Valid() && streams == old(streams)
      ensures SentAll(Value(), res) == SendAll(old(Value()), order, maxBytes)
    {
      hide SendOne, SendAll, TotalLength, Stream.Value;
      res := [];
      var currentLen := 0;
      var i := 0;
      while i < |order|
        invariant i <= |order| && currentLen <= maxBytes && Valid() && streams == old(streams)
        invariant var rest := SendAll(Value(), order[i..], maxBytes - currentLen);
          SendAll(old(Value()), order, maxBytes) == rest.(frames := res + rest.frames)
      {
        SendAllUnfold(Value(), order, i, maxBytes - currentLen);
        var frame, cont := SendStream(streams[order[i]], maxBytes - currentLen);
        if frame.Some? {
          res := res + [frame.value];
          currentLen := currentLen + MinLength(frame.value) + |frame.value.data|;
        }
        i := i + 1;
        if !cont {
          return;
        }
      }
      SendAllUnfold(Value(), order, i, maxBytes - currentLen);
    }

    /** Frames for one packet: retransmissions first, then new data. */
    method PopStreamFrames(maxLen: nat, order: seq<StreamID>) returns (res: seq<Frame>)
      requires Valid() && forall id :: id in order ==> id in streams
      modifies this`retransmissionQueue, this`flow, this`blockedFrameQueue, Streams()
      ensures Valid() && streams == old(streams)
      ensures SentAll(Value(), res) == PopFrames(old(Value()), order, maxLen)
    {
      hide Stream.Value, Retransmit, SendAll, Resent;
      RetransmitFits(retransmissionQueue, maxLen, 0);
      var fs, currentLen := MaybePopFramesForRetransmission(maxLen);
      assert Value().streams == old(Value()).streams;
      var normal := MaybePopNormalFrames(order, maxLen - currentLen);
      res := fs + normal;
    }

    twostate lemma OthersUnchanged(s: Stream)
      requires old(Valid()) && Valid() && streams == old(streams)
      requires s.streamID in streams && streams[s.streamID] == s
      requires forall id :: id in streams && streams[id] != s ==> unchanged(streams[id])
      ensures forall id :: id in streams && id != s.streamID ==> streams[id].Value() == old(streams[id].Value())
    {
    }
  }

  lemma ResentNone(flow: Flow)
    ensures Resent(flow, []) == flow
  {
  }

  // The three ways a pass over the head of the retransmission queue can go.
  lemma RetransmitUnfold(queue: seq<Frame>, maxLen: nat, cur: nat)
    ensures queue == [] ==> Retransmit(queue, maxLen, cur) == Popped([], [], cur)
    ensures queue != [] ==>
      var f, tail := queue[0].(dataLenPresent := true), queue[1..];
      var hdr := MinLength(f);
      if cur + hdr >= maxLen then Retransmit(queue, maxLen, cur) == Popped([], [f] + tail, cur)
      else if maxLen - cur - hdr < |f.data| then
        var n := maxLen - cur - hdr;
        && Retransmit(queue, maxLen, cur) == Popped([SplitFront(f, n)], [SplitBack(f, n)] + tail, maxLen)
        && |SplitFront(f, n).data| == n
      else
        var rest := Retransmit(tail, maxLen, cur + hdr + |f.data|);
        Retransmit(queue, maxLen, cur) == rest.(frames := [f] + rest.frames)
  {
    hide OffsetLength, StreamIDLength;
  }

  lemma {:induction false} ResentSnoc(flow: Flow, frames: seq<Frame>, f: Frame)
    ensures Resent(flow, frames + [f]) == Resent(flow, frames).AddBytesRetrans(f.streamID, |f.data|)
    decreases |frames|
  {
    if frames == [] {
      assert [f][1..] == [];
    } else {
      ResentSnoc(flow.AddBytesRetrans(frames[0].streamID, |frames[0].data|), frames[1..], f);
      assert (frames + [f])[1..] == frames[1..] + [f];
    }
  }
}
