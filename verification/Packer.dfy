// Filling one packet with control frames and stream frames.
module Packer {
  import opened Common
  import opened Frames
  import Framer

  const MAX_PACKET_SIZE: nat := 1350

  type PathID = nat

  /** A frame in a packet. `len` is the exact encoded length of a frame that is not modelled further. */
  datatype PacketFrame =
    | StopWaiting(len: nat)
    | Ack(len: nat)
    | Control(tag: nat, len: nat)
    | Blocked(id: StreamID)
    | Data(frame: Frame)
  {
    function EncodedLength(): nat
    {
      match this
      case StopWaiting(len) => len
      case Ack(len) => len
      case Control(_, len) => len
      case Blocked(_) => 5
      case Data(f) => WireLength(f)
    }
  }

  function EncodedLength(fs: seq<PacketFrame>): nat
  {
    if fs == [] then 0 else fs[0].EncodedLength() + EncodedLength(fs[1..])
  }

  function Reversed(fs: seq<PacketFrame>): seq<PacketFrame>
  {
    if fs == [] then [] else [fs[|fs| - 1]] + Reversed(fs[..|fs| - 1])
  }

  function DataFrames(fs: seq<Frame>): seq<PacketFrame>
  {
    if fs == [] then [] else [Data(fs[0])] + DataFrames(fs[1..])
  }

  function BlockedFrames(ids: seq<StreamID>): seq<PacketFrame>
  {
    if ids == [] then [] else [Blocked(ids[0])] + BlockedFrames(ids[1..])
  }

  // The last frame of a packet needs no length field.
  function LastUnsized(fs: seq<Frame>): seq<Frame>
  {
    if fs == [] then [] else fs[|fs| - 1 := fs[|fs| - 1].(dataLenPresent := false)]
  }

  // How many control frames are left when they are taken from the back as long as they fit.
  function Left(controls: seq<PacketFrame>, payload: nat, maxSize: nat): (k: nat)
    ensures k <= |controls|
    decreases |controls|
  {
    if controls == [] then 0
    else
      var last := controls[|controls| - 1];
      if payload + last.EncodedLength() > maxSize then |controls|
      else Left(controls[..|controls| - 1], payload + last.EncodedLength(), maxSize)
  }

  // The frames that go first: STOP_WAITING and ACK of the path.
  function Always(stopWaiting: Option<PacketFrame>, ack: Option<PacketFrame>): seq<PacketFrame>
  {
    (if stopWaiting.Some? then [stopWaiting.value] else []) + (if ack.Some? then [ack.value] else [])
  }

  /** What goes into a packet, the control frames that stay, and what becomes of the framer. */
  datatype Composition = Composition(frames: seq<PacketFrame>, controls: seq<PacketFrame>, framer: Framer.State)

  function Compose(always: seq<PacketFrame>, controls: seq<PacketFrame>, framer: Framer.State, order: seq<StreamID>,
                   maxSize: nat, canSendStreamFrames: bool): Composition
    requires EncodedLength(always) <= maxSize && forall id :: id in order ==> id in framer.streams
  {
    var k := Left(controls, EncodedLength(always), maxSize);
    var first := always + Reversed(controls[k..]);
    if !canSendStreamFrames then Composition(first, controls[..k], framer)
    else
      TakenFits(controls, EncodedLength(always), maxSize);
      LengthConcat(always, Reversed(controls[k..]));
      var p := Framer.PopFrames(framer, order, maxSize + 2 - EncodedLength(first));
      Composition(first + DataFrames(LastUnsized(p.frames)), controls[..k] + BlockedFrames(p.state.blocked),
                  p.state.(blocked := []))
  }

  lemma {:induction false} TakenFits(controls: seq<PacketFrame>, payload: nat, maxSize: nat)
    requires payload <= maxSize
    ensures payload + EncodedLength(Reversed(controls[Left(controls, payload, maxSize)..])) <= maxSize
    decreases |controls|
  {
    hide PacketFrame.EncodedLength;
    var k := Left(controls, payload, maxSize);
    if controls != [] && k < |controls| {
      var n := |controls| - 1;
      var front, last := controls[..n], controls[n];
      TakenFits(front, payload + last.EncodedLength(), maxSize);
      assert controls[k..][|controls| - k - 1] == last && controls[k..][..|controls| - k - 1] == front[k..];
      LengthConcat([last], Reversed(front[k..]));
      LengthOne(last);
    }
  }

  // ---------------------------------------------------------------- lengths

  lemma {:induction false} LengthConcat(a: seq<PacketFrame>, b: seq<PacketFrame>)
    ensures EncodedLength(a + b) == EncodedLength(a) + EncodedLength(b)
    decreases |a|
  {
    if a == [] {
      assert a + b == b;
    } else {
      LengthConcat(a[1..], b);
      assert (a + b)[1..] == a[1..] + b;
    }
  }

  lemma LengthOne(f: PacketFrame)
    ensures EncodedLength([f]) == f.EncodedLength()
  {
    assert [f][1..] == [];
  }

  lemma {:induction false} DataLength(fs: seq<Frame>)
    ensures EncodedLength(DataFrames(fs)) == Framer.TotalLength(fs)
    decreases |fs|
  {
    if fs != [] {
      DataLength(fs[1..]);
      assert ([Data(fs[0])] + DataFrames(fs[1..]))[1..] == DataFrames(fs[1..]);
    }
  }

  // Dropping the last length field saves its two bytes.
  lemma LastSaves(fs: seq<Frame>)
    requires fs != [] && Framer.AllSized(fs)
    ensures Framer.TotalLength(LastUnsized(fs)) + 2 == Framer.TotalLength(fs)
  {
    hide OffsetLength, StreamIDLength;
    var n := |fs| - 1;
    var g := fs[n].(dataLenPresent := false);
    assert fs == fs[..n] + [fs[n]] && LastUnsized(fs) == fs[..n] + [g];
    Framer.TotalLengthConcat(fs[..n], [fs[n]]);
    Framer.TotalLengthConcat(fs[..n], [g]);
    Framer.TotalLengthOne(Some(fs[n]));
    Framer.TotalLengthOne(Some(g));
  }

  // ---------------------------------------------------------------- what a packet carries

  // The packet starts with STOP_WAITING and ACK, then come the last control frames from the back, down to
  // k, and no more of them would fit.
  ghost predicate IsFront(always: seq<PacketFrame>, controls: seq<PacketFrame>, maxSize: nat, front: seq<PacketFrame>,
                          k: nat)
    requires k <= |controls|
  {
    && |front| == |always| + |controls| - k && EncodedLength(front) <= maxSize
    && (forall i :: 0 <= i < |always| ==> front[i] == always[i])
    && (forall i :: |always| <= i < |front| ==> front[i] == controls[|controls| - 1 - (i - |always|)])
    && (k > 0 ==> EncodedLength(front) + controls[k - 1].EncodedLength() > maxSize)
  }

  // Then comes every frame that the framer popped, whole and in order, of which only the last one lacks
  // its length field. A BLOCKED frame for every ID that the framer noted is queued behind the control
  // frames that stay.
  ghost predicate IsTail(p: Framer.SentAll, data: seq<PacketFrame>, blocked: seq<PacketFrame>, framer: Framer.State)
  {
    && |data| == |p.frames| && |blocked| == |p.state.blocked| && framer == p.state.(blocked := [])
    && (forall i :: 0 <= i < |data| ==> data[i] == Data(p.frames[i].(dataLenPresent := i + 1 < |data|)))
    && (forall i :: 0 <= i < |blocked| ==> blocked[i] == Blocked(p.state.blocked[i]))
  }

  ghost predicate IsComposed(always: seq<PacketFrame>, controls: seq<PacketFrame>, framer: Framer.State,
                             order: seq<StreamID>, maxSize: nat, canSend: bool, c: Composition, k: nat)
    requires k <= |controls| && forall id :: id in order ==> id in framer.streams
  {
    var n := |always| + |controls| - k;
    && n <= |c.frames| && IsFront(always, controls, maxSize, c.frames[..n], k)
    && k <= |c.controls| && c.controls[..k] == controls[..k]
    && if !canSend then |c.frames| == n && |c.controls| == k && c.framer == framer
       else IsTail(Framer.PopFrames(framer, order, maxSize + 2 - EncodedLength(c.frames[..n])),
                   c.frames[n..], c.controls[k..], c.framer)
  }

  lemma FrontExact(always: seq<PacketFrame>, controls: seq<PacketFrame>, maxSize: nat)
    requires EncodedLength(always) <= maxSize
    ensures var k := Left(controls, EncodedLength(always), maxSize);
      IsFront(always, controls, maxSize, always + Reversed(controls[k..]), k)
  {
    hide EncodedLength, PacketFrame.EncodedLength, Left, Reversed;
    var k := Left(controls, EncodedLength(always), maxSize);
    ReversedAt(controls[k..]);
    TakenFits(controls, EncodedLength(always), maxSize);
    LengthConcat(always, Reversed(controls[k..]));
    LeftStops(controls, EncodedLength(always), maxSize);
  }

  lemma TailExact(p: Framer.SentAll)
    requires Framer.AllSized(p.frames)
    ensures IsTail(p, DataFrames(LastUnsized(p.frames)), BlockedFrames(p.state.blocked), p.state.(blocked := []))
  {
    hide DataFrames, LastUnsized, BlockedFrames;
    DataFramesAt(p.frames);
    BlockedFramesAt(p.state.blocked);
  }

  /** What a packet is composed of. */
  lemma ComposeExact(always: seq<PacketFrame>, controls: seq<PacketFrame>, framer: Framer.State, order: seq<StreamID>,
                     maxSize: nat, canSend: bool) returns (k: nat)
    requires EncodedLength(always) <= maxSize && forall id :: id in order ==> id in framer.streams
    ensures k <= |controls|
    ensures IsComposed(always, controls, framer, order, maxSize, canSend,
                       Compose(always, controls, framer, order, maxSize, canSend), k)
  {
    hide EncodedLength, Left, Reversed, DataFrames, LastUnsized, BlockedFrames, Framer.PopFrames, IsTail;
    var c := Compose(always, controls, framer, order, maxSize, canSend);
    k := Left(controls, EncodedLength(always), maxSize);
    FrontExact(always, controls, maxSize);
    var first := always + Reversed(controls[k..]);
    var n := |first|;
    assert n == |always| + |controls| - k && EncodedLength(first) <= maxSize;
    hide IsFront;
    assert c.frames[..n] == first && c.controls[..k] == controls[..k];
    if canSend {
      var p := Framer.PopFrames(framer, order, maxSize + 2 - EncodedLength(first));
      Framer.PopFramesFits(framer, order, maxSize + 2 - EncodedLength(first));
      TailExact(p);
      assert c.frames[n..] == DataFrames(LastUnsized(p.frames)) && c.controls[k..] == BlockedFrames(p.state.blocked);
    }
  }

  lemma {:induction false} ReversedAt(fs: seq<PacketFrame>)
    ensures |Reversed(fs)| == |fs| && forall i :: 0 <= i < |fs| ==> Reversed(fs)[i] == fs[|fs| - 1 - i]
    decreases |fs|
  {
    if fs != [] { ReversedAt(fs[..|fs| - 1]); }
  }

  lemma {:induction false} LeftStops(controls: seq<PacketFrame>, payload: nat, maxSize: nat)
    ensures var k := Left(controls, payload, maxSize);
      k > 0 ==> payload + EncodedLength(Reversed(controls[k..])) + controls[k - 1].EncodedLength() > maxSize
    decreases |controls|
  {
    hide PacketFrame.EncodedLength;
    var k := Left(controls, payload, maxSize);
    if controls != [] && k < |controls| {
      var n := |controls| - 1;
      var front, last := controls[..n], controls[n];
      LeftStops(front, payload + last.EncodedLength(), maxSize);
      assert controls[k..][|controls| - k - 1] == last && controls[k..][..|controls| - k - 1] == front[k..];
      LengthConcat([last], Reversed(front[k..]));
      LengthOne(last);
    } else {
      assert controls[k..] == [];
    }
  }

  lemma DataFramesAt(fs: seq<Frame>)
    requires Framer.AllSized(fs)
    ensures var ds := DataFrames(LastUnsized(fs));
      |ds| == |fs| && forall i :: 0 <= i < |fs| ==> ds[i] == Data(fs[i].(dataLenPresent := i + 1 < |fs|))
  {
    hide DataFrames;
    DataAt(LastUnsized(fs));
  }

  lemma {:induction false} DataAt(fs: seq<Frame>)
    ensures |DataFrames(fs)| == |fs| && forall i :: 0 <= i < |fs| ==> DataFrames(fs)[i] == Data(fs[i])
    decreases |fs|
  {
    if fs != [] { DataAt(fs[1..]); }
  }

  lemma {:induction false} BlockedFramesAt(ids: seq<StreamID>)
    ensures |BlockedFrames(ids)| == |ids| && forall i :: 0 <= i < |ids| ==> BlockedFrames(ids)[i] == Blocked(ids[i])
    decreases |ids|
  {
    if ids != [] { BlockedFramesAt(ids[1..]); }
  }

  // ---------------------------------------------------------------- the packer

  datatype Composed = Frames(frames: seq<PacketFrame>) | TooLarge

  datatype Packed = Packet(frames: seq<PacketFrame>, size: nat) | NoPacket | PayloadTooLarge | PacketTooLarge

  class PacketPacker {
    var controlFrames: seq<PacketFrame>
    var stopWaiting: map<PathID, PacketFrame>
    var ackFrame: map<PathID, PacketFrame>
    const streamFramer: Framer.StreamFramer

    constructor (framer: Framer.StreamFramer)
      ensures controlFrames == [] && stopWaiting == map[] && ackFrame == map[] && streamFramer == framer
    {
      controlFrames, stopWaiting, ackFrame, streamFramer := [], map[], map[], framer;
    }

    ghost function AlwaysOf(path: PathID): seq<PacketFrame>
      reads this
    {
      Always(if path in stopWaiting then Some(stopWaiting[path]) else None,
             if path in ackFrame then Some(ackFrame[path]) else None)
    }

    /** Composes the payload of a packet. It never exceeds the size it was asked to fit, although
        stream frames are given two bytes more than that; the control frames in the packet and
        those left are those that were queued; and it fails only if STOP_WAITING and ACK do not fit. */
    method ComposeNextPacket(maxFrameSize: nat, canSendStreamFrames: bool, path: PathID, order: seq<StreamID>)
        returns (r: Composed)
      requires streamFramer.Valid() && forall id :: id in order ==> id in streamFramer.streams
      modifies this`controlFrames, streamFramer, streamFramer.Streams()
      ensures streamFramer.Valid()
      ensures r.TooLarge? <==> EncodedLength(AlwaysOf(path)) > maxFrameSize
      ensures r.TooLarge? ==> controlFrames == old(controlFrames) && streamFramer.Value() == old(streamFramer.Value())
      ensures r.Frames? ==>
        && Composition(r.frames, controlFrames, streamFramer.Value()) ==
           Compose(AlwaysOf(path), old(controlFrames), old(streamFramer.Value()), order, maxFrameSize,
             canSendStreamFrames)
        && EncodedLength(r.frames) <= maxFrameSize
    {
      hide EncodedLength, Left, Reversed, Framer.PopFrames, LastUnsized, DataFrames, BlockedFrames,
           PacketFrame.EncodedLength;
      var payloadFrames: seq<PacketFrame>, payloadLength := [], 0;
      if path in stopWaiting {
        payloadFrames, payloadLength := [stopWaiting[path]], stopWaiting[path].EncodedLength();
      }
      if path in ackFrame {
        payloadFrames, payloadLength := payloadFrames + [ackFrame[path]],
          payloadLength + ackFrame[path].EncodedLength();
      }
      AlwaysLength(if path in stopWaiting then Some(stopWaiting[path]) else None,
                   if path in ackFrame then Some(ackFrame[path]) else None);
      ghost var always := AlwaysOf(path);
      assert payloadFrames == always && payloadLength == EncodedLength(always);
      var taken, takenLength := TakeControlFrames(payloadLength, maxFrameSize);
      payloadFrames, payloadLength := payloadFrames + taken, payloadLength + takenLength;
      LengthConcat(always, taken);
      if payloadLength > maxFrameSize {
        return TooLarge;
      }
      if !canSendStreamFrames {
        return Frames(payloadFrames);
      }
      payloadFrames := AddStreamFrames(payloadFrames, payloadLength, maxFrameSize, order);
      return Frames(payloadFrames);
    }

    // Fills what is left of the payload with stream frames, the last one without a length field.
    method AddStreamFrames(payloadFrames: seq<PacketFrame>, payloadLength: nat, maxFrameSize: nat, order: seq<StreamID>)
        returns (frames: seq<PacketFrame>)
      requires streamFramer.Valid() && forall id :: id in order ==> id in streamFramer.streams
      requires payloadLength == EncodedLength(payloadFrames) <= maxFrameSize
      modifies this`controlFrames, streamFramer, streamFramer.Streams()
      ensures streamFramer.Valid() && EncodedLength(frames) <= maxFrameSize
      ensures var p := Framer.PopFrames(old(streamFramer.Value()), order, maxFrameSize + 2 - payloadLength);
        && frames == payloadFrames + DataFrames(LastUnsized(p.frames))
        && controlFrames == old(controlFrames) + BlockedFrames(p.state.blocked)
        && streamFramer.Value() == p.state.(blocked := [])
    {
      hide EncodedLength, Framer.PopFrames, LastUnsized, DataFrames, BlockedFrames, Framer.TotalLength, Framer.AllSized;
      var maxLen := maxFrameSize + 2 - payloadLength;
      Framer.PopFramesFits(streamFramer.Value(), order, maxLen);
      var fs := streamFramer.PopStreamFrames(maxLen, order);
      FitsWithoutLast(fs, maxLen);
      ghost var v := streamFramer.Value();
      LengthConcat(payloadFrames, DataFrames(LastUnsized(fs)));
      QueueBlockedFrames();
      assert streamFramer.Value() == v.(blocked := []);
      return payloadFrames + DataFrames(LastUnsized(fs));
    }

    /** Packs a packet that starts with neither crypto data nor a PING. The check on the size of the
        whole packet never fails, a packet on which nothing but STOP_WAITING would go out is not
        sent, and then no queued frame is lost. */
    method PackPacket(path: PathID, headerLength: nat, overhead: nat, canSendData: bool, order: seq<StreamID>)
        returns (r: Packed)
      requires streamFramer.Valid() && forall id :: id in order ==> id in streamFramer.streams
      requires headerLength + overhead <= MAX_PACKET_SIZE
      modifies this, streamFramer, streamFramer.Streams()
      ensures streamFramer.Valid()
      ensures r != PacketTooLarge
      ensures r.PayloadTooLarge? <==> EncodedLength(old(AlwaysOf(path))) > MAX_PACKET_SIZE - overhead - headerLength
      ensures r.PayloadTooLarge? ==>
        && controlFrames == old(controlFrames) && stopWaiting == old(stopWaiting) && ackFrame == old(ackFrame)
        && streamFramer.Value() == old(streamFramer.Value())
      ensures !r.PayloadTooLarge? ==>
        var c := Compose(old(AlwaysOf(path)), old(controlFrames), old(streamFramer.Value()), order,
                         MAX_PACKET_SIZE - overhead - headerLength, canSendData);
        && controlFrames == c.controls && streamFramer.Value() == c.framer
        && (r.NoPacket? <==> |c.frames| == 0 || (|c.frames| == 1 && path in old(stopWaiting)))
        && (r.Packet? ==> r.frames == c.frames)
      ensures r.Packet? ==>
        && r.size == headerLength + EncodedLength(r.frames) + overhead <= MAX_PACKET_SIZE
        && old(AlwaysOf(path)) <= r.frames && r.frames != [] && (path in old(stopWaiting) ==> |r.frames| > 1)
        && stopWaiting == old(stopWaiting) - {path} && ackFrame == old(ackFrame) - {path}
      ensures r.NoPacket? ==>
        && old(controlFrames) <= controlFrames && stopWaiting == old(stopWaiting) && ackFrame == old(ackFrame)
        && Framer.Content(streamFramer.Value().queue) == Framer.Content(old(streamFramer.Value()).queue)
    {
      hide EncodedLength, Compose, Framer.Content, Always, Framer.StreamFramer.Valid;
      var maxSize := MAX_PACKET_SIZE - overhead - headerLength;
      var composed := ComposeNextPacket(maxSize, canSendData, path, order);
      if composed.TooLarge? {
        return PayloadTooLarge;
      }
      var payloadFrames := composed.frames;
      ComposeNothing(AlwaysOf(path), old(controlFrames), old(streamFramer.Value()), order, maxSize, canSendData);
      AlwaysCount(if path in stopWaiting then Some(stopWaiting[path]) else None,
                  if path in ackFrame then Some(ackFrame[path]) else None);
      if |payloadFrames| == 0 {
        return NoPacket;
      }
      if |payloadFrames| == 1 && path in stopWaiting {
        return NoPacket;
      }
      Forget(path);
      var size := headerLength + EncodedLength(payloadFrames) + overhead;
      if size > MAX_PACKET_SIZE {
        return PacketTooLarge;
      }
      return Packet(payloadFrames, size);
    }

    // STOP_WAITING and ACK of the path are on their way.
    method Forget(path: PathID)
      requires streamFramer.Valid()
      modifies this`stopWaiting, this`ackFrame
      ensures stopWaiting == old(stopWaiting) - {path} && ackFrame == old(ackFrame) - {path}
      ensures streamFramer.Valid() && streamFramer.Value() == old(streamFramer.Value())
    {
      stopWaiting, ackFrame := stopWaiting - {path}, ackFrame - {path};
    }

    // Takes control frames from the back of the queue as long as they fit.
    method TakeControlFrames(payload: nat, maxFrameSize: nat) returns (taken: seq<PacketFrame>, length: nat)
      modifies this`controlFrames
      ensures var k := Left(old(controlFrames), payload, maxFrameSize);
        && taken == Reversed(old(controlFrames)[k..]) && controlFrames == old(controlFrames)[..k]
        && length == EncodedLength(taken)
      ensures payload <= maxFrameSize ==> payload + length <= maxFrameSize
      ensures payload > maxFrameSize ==> taken == [] && controlFrames == old(controlFrames)
    {
      hide PacketFrame.EncodedLength;
      taken, length := [], 0;
      while |controlFrames| > 0
        invariant |controlFrames| <= |old(controlFrames)| && controlFrames == old(controlFrames)[..|controlFrames|]
        invariant taken == Reversed(old(controlFrames)[|controlFrames|..]) && length == EncodedLength(taken)
        invariant Left(old(controlFrames), payload, maxFrameSize) == Left(controlFrames, payload + length, maxFrameSize)
        invariant payload <= maxFrameSize ==> payload + length <= maxFrameSize
        invariant payload > maxFrameSize ==> taken == [] && controlFrames == old(controlFrames)
        decreases |controlFrames|
      {
        var frame := controlFrames[|controlFrames| - 1];
        var minLength := frame.EncodedLength();
        if payload + length + minLength > maxFrameSize {
          break;
        }
        ReversedSnoc(old(controlFrames), |controlFrames| - 1);
        LengthConcat(taken, [frame]);
        LengthOne(frame);
        taken, length := taken + [frame], length + minLength;
        controlFrames := controlFrames[..|controlFrames| - 1];
      }
    }

    // Moves the BLOCKED frames of the framer to the control frames.
    method QueueBlockedFrames()
      modifies this`controlFrames, streamFramer`blockedFrameQueue
      ensures controlFrames == old(controlFrames) + BlockedFrames(old(streamFramer.blockedFrameQueue))
      ensures streamFramer.blockedFrameQueue == []
    {
      while |streamFramer.blockedFrameQueue| > 0
        invariant controlFrames + BlockedFrames(streamFramer.blockedFrameQueue) ==
          old(controlFrames) + BlockedFrames(old(streamFramer.blockedFrameQueue))
        decreases |streamFramer.blockedFrameQueue|
      {
        controlFrames := controlFrames + [Blocked(streamFramer.blockedFrameQueue[0])];
        streamFramer.blockedFrameQueue := streamFramer.blockedFrameQueue[1..];
      }
    }
  }

  lemma AlwaysLength(stopWaiting: Option<PacketFrame>, ack: Option<PacketFrame>)
    ensures EncodedLength(Always(stopWaiting, ack)) ==
      (if stopWaiting.Some? then stopWaiting.value.EncodedLength() else 0) +
      (if ack.Some? then ack.value.EncodedLength() else 0)
  {
    LengthConcat(if stopWaiting.Some? then [stopWaiting.value] else [], if ack.Some? then [ack.value] else []);
    if stopWaiting.Some? { LengthOne(stopWaiting.value); }
    if ack.Some? { LengthOne(ack.value); }
  }

  // Taking one more frame from the back.
  lemma {:induction false} ReversedSnoc(fs: seq<PacketFrame>, i: nat)
    requires i < |fs|
    ensures Reversed(fs[i..]) == Reversed(fs[i + 1..]) + [fs[i]]
    decreases |fs| - i
  {
    if i + 1 < |fs| {
      var n := |fs| - 1;
      ReversedSnoc(fs[..n], i);
      assert fs[i..][..n - i] == fs[..n][i..] && fs[i + 1..][..n - i - 1] == fs[..n][i + 1..];
    }
  }

  // Stream frames that fit two bytes more than the room fit the room without the last length field.
  lemma FitsWithoutLast(fs: seq<Frame>, maxLen: nat)
    requires Framer.TotalLength(fs) <= maxLen && Framer.AllSized(fs) && maxLen >= 2
    ensures EncodedLength(DataFrames(LastUnsized(fs))) <= maxLen - 2
  {
    DataLength(LastUnsized(fs));
    if fs != [] { LastSaves(fs); }
  }

  lemma AlwaysCount(stopWaiting: Option<PacketFrame>, ack: Option<PacketFrame>)
    ensures |Always(stopWaiting, ack)| == (if stopWaiting.Some? then 1 else 0) + if ack.Some? then 1 else 0
  {
  }

  // STOP_WAITING and ACK go first, and if nothing goes with them then nothing is lost.
  lemma ComposeNothing(always: seq<PacketFrame>, controls: seq<PacketFrame>, framer: Framer.State, order: seq<StreamID>,
                       maxSize: nat, canSend: bool)
    requires EncodedLength(always) <= maxSize && forall id :: id in order ==> id in framer.streams
    ensures var c := Compose(always, controls, framer, order, maxSize, canSend);
      && always <= c.frames
      && (|c.frames| == |always| ==>
          controls <= c.controls && Framer.Content(c.framer.queue) == Framer.Content(framer.queue))
  {
    hide EncodedLength, Left, Reversed, Framer.PopFrames, LastUnsized, DataFrames, Framer.Content, BlockedFrames;
    var k := Left(controls, EncodedLength(always), maxSize);
    var first := always + Reversed(controls[k..]);
    NoneTaken(controls, k);
    if canSend {
      TakenFits(controls, EncodedLength(always), maxSize);
      LengthConcat(always, Reversed(controls[k..]));
      var maxLen := maxSize + 2 - EncodedLength(first);
      var p := Framer.PopFrames(framer, order, maxLen);
      NoData(p.frames);
      if p.frames == [] { Framer.NothingPopped(framer, order, maxLen); }
    }
  }

  lemma NoneTaken(controls: seq<PacketFrame>, k: nat)
    requires k <= |controls|
    ensures Reversed(controls[k..]) == [] ==> controls[..k] == controls
  {
  }

  lemma NoData(fs: seq<Frame>)
    ensures DataFrames(LastUnsized(fs)) == [] ==> fs == []
  {
  }
}
