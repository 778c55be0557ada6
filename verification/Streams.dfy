// One stream: the sender's state, its termination signals, and the reader.
module Streams {
  import opened Common
  import opened Frames
  import Sorter
  import SorterProps

  // ---------------------------------------------------------------- sender

  /** The part of a stream that decides what is sent. `err` says that an error is set. */
  datatype StreamState = StreamState(
    id: StreamID,
    writeOffset: nat,
    pending: Option<seq<Byte>>,
    err: bool,
    cancelled: bool,
    finishedReading: bool,
    finishedWriting: bool,
    resetLocally: bool,
    resetRemotely: bool,
    finSent: bool,
    rstSent: bool)
  {
    function PendingLen(): nat
    {
      if err || pending.None? then 0 else |pending.value|
    }

    predicate ShouldSendFin()
    {
      finishedWriting && !finSent && !err && pending.None?
    }

    predicate FinishedWriteAndSentFin()
    {
      finishedWriting && finSent
    }

    predicate ShouldSendReset()
    {
      !rstSent && (resetLocally || resetRemotely) && !FinishedWriteAndSentFin()
    }

    predicate Finished()
    {
      || cancelled
      || (finishedReading && FinishedWriteAndSentFin())
      || (resetRemotely && rstSent)
      || (finishedReading && rstSent)
      || (FinishedWriteAndSentFin() && resetRemotely)
    }
  }

  function NewStream(id: StreamID): StreamState
  {
    StreamState(id, 0, None, false, false, false, false, false, false, false, false)
  }

  // Write hands its data over; nothing happens on a failed, closed or empty write.
  function Written(s: StreamState, p: seq<Byte>): StreamState
  {
    if s.resetLocally || s.err || s.finishedWriting || p == [] then s else s.(pending := Some(p))
  }

  // The error of a reset or cancelled stream, which may be nil; a closed stream; nothing to write; or data
  // that has been handed over.
  datatype WriteResult = WriteFailed | WriteClosed | WroteNothing | WriteWaits

  // Up to maxBytes of the pending data.
  function DataTaken(s: StreamState, maxBytes: nat): Option<seq<Byte>>
  {
    if s.err || s.pending.None? then None
    else if |s.pending.value| > maxBytes then Some(s.pending.value[..maxBytes])
    else s.pending
  }

  function AfterTaking(s: StreamState, maxBytes: nat): StreamState
  {
    if s.err || s.pending.None? then s
    else if |s.pending.value| > maxBytes then
      s.(pending := Some(s.pending.value[maxBytes..]), writeOffset := s.writeOffset + maxBytes)
    else s.(pending := None, writeOffset := s.writeOffset + |s.pending.value|)
  }

  // A reset sends RST_STREAM with the current offset, if one is due.
  function ResetSent(s: StreamState): (StreamState, Option<nat>)
  {
    if s.ShouldSendReset() then (s.(rstSent := true), Some(s.writeOffset)) else (s, None)
  }

  function ResetLocally(s: StreamState, err: bool): (StreamState, Option<nat>)
  {
    if s.resetLocally then (s, None) else ResetSent(s.(resetLocally := true, err := s.err || err))
  }

  function ResetRemotely(s: StreamState, err: bool): (StreamState, Option<nat>)
  {
    if s.resetRemotely then (s, None) else ResetSent(s.(resetRemotely := true, err := s.err || err))
  }

  /** RST_STREAM goes out with a reset exactly if it is the first reset from that side, none went out
      before and FIN has not been sent on a closed stream; it announces the bytes framed so far. The
      first error stays, and nothing else changes. */
  lemma ResetExact(s: StreamState, err: bool)
    ensures var (s', rst) := ResetLocally(s, err);
      && (rst.Some? <==> !s.resetLocally && !s.rstSent && !(s.finishedWriting && s.finSent))
      && (rst.Some? ==> rst.value == s.writeOffset) && s'.resetLocally && s'.rstSent == (s.rstSent || rst.Some?)
      && s' == s.(resetLocally := true, err := s.err || (err && !s.resetLocally), rstSent := s'.rstSent)
    ensures var (s', rst) := ResetRemotely(s, err);
      && (rst.Some? <==> !s.resetRemotely && !s.rstSent && !(s.finishedWriting && s.finSent))
      && (rst.Some? ==> rst.value == s.writeOffset) && s'.resetRemotely && s'.rstSent == (s.rstSent || rst.Some?)
      && s' == s.(resetRemotely := true, err := s.err || (err && !s.resetRemotely), rstSent := s'.rstSent)
  {
  }

  // ---------------------------------------------------------------- reader

  datatype AddResult = FlowControlError | Pushed(result: Sorter.PushResult)

  datatype ReadResult = Done | Failed | Eof | Blocked | Bug

  // What one pass of the read loop returns and leaves behind.
  datatype ReadStep = ReadStep(bytes: seq<Byte>, queue: Sorter.State, readOffset: nat, fin: bool)

  // What the whole read loop returns; it is drained if it stopped for lack of a frame.
  datatype ReadOutcome = ReadOutcome(step: ReadStep, drained: bool)

  // The read offset lies at the read position or inside the frame queued there.
  ghost predicate ReaderValid(q: Sorter.State, readOffset: nat)
  {
    && Sorter.Valid(q) && q.readPosition <= readOffset
    && (q.readPosition < readOffset ==>
        Sorter.HeadOf(q).Some? && readOffset < q.readPosition + |Sorter.HeadOf(q).value.data|)
  }

  lemma HeadOffset(q: Sorter.State)
    requires Sorter.Valid(q)
    ensures Sorter.HeadOf(q).Some? ==> Sorter.HeadOf(q).value.offset == q.readPosition
  {
  }

  lemma PopKeepsReader(q: Sorter.State)
    requires Sorter.Valid(q)
    ensures var q' := Sorter.Popped(q); ReaderValid(q', q'.readPosition)
  {
    SorterProps.PopKeepsValid(q);
  }

  // Reads up to n bytes from the frame at the head of the queue.
  ghost function ReadFrame(q: Sorter.State, readOffset: nat, n: nat): (r: ReadStep)
    requires ReaderValid(q, readOffset) && Sorter.HeadOf(q).Some? && n > 0
    ensures ReaderValid(r.queue, r.readOffset) && |r.bytes| <= n && r.readOffset == readOffset + |r.bytes|
    ensures r.bytes == [] ==> |r.queue.queued| < |q.queued|
  {
    HeadOffset(q);
    PopKeepsReader(q);
    var f := Sorter.HeadOf(q).value;
    var pos := readOffset - f.offset;
    if n < |f.data| - pos then ReadStep(f.data[pos..pos + n], q, readOffset + n, false)
    else ReadStep(f.data[pos..], Sorter.Popped(q), f.End(), f.fin)
  }

  // Reads up to n bytes; stops early after a frame with FIN, or when there is no frame at the head.
  ghost function ReadLoop(q: Sorter.State, readOffset: nat, n: nat): (r: ReadOutcome)
    requires ReaderValid(q, readOffset)
    ensures ReaderValid(r.step.queue, r.step.readOffset)
    decreases n, |q.queued|
  {
    if n == 0 || Sorter.HeadOf(q).None? then ReadOutcome(ReadStep([], q, readOffset, false), n > 0)
    else
      var first := ReadFrame(q, readOffset, n);
      if first.fin then ReadOutcome(first, false)
      else Prepend(first.bytes, ReadLoop(first.queue, first.readOffset, n - |first.bytes|))
  }

  // One pass of the loop, after some bytes have been read.
  lemma ReadOnce(q: Sorter.State, readOffset: nat, n: nat, bytes: seq<Byte>)
    requires ReaderValid(q, readOffset)
    ensures n == 0 || Sorter.HeadOf(q).None? ==>
      Prepend(bytes, ReadLoop(q, readOffset, n)) == ReadOutcome(ReadStep(bytes, q, readOffset, false), n > 0)
    ensures n > 0 && Sorter.HeadOf(q).Some? ==>
      var first := ReadFrame(q, readOffset, n);
      Prepend(bytes, ReadLoop(q, readOffset, n)) ==
        if first.fin then ReadOutcome(first.(bytes := bytes + first.bytes), false)
        else Prepend(bytes + first.bytes, ReadLoop(first.queue, first.readOffset, n - |first.bytes|))
  {
    hide ReaderValid, Sorter.HeadOf, ReadFrame;
    assert bytes + [] == bytes;
    if n > 0 && Sorter.HeadOf(q).Some? {
      var first := ReadFrame(q, readOffset, n);
      if !first.fin {
        var rest := ReadLoop(first.queue, first.readOffset, n - |first.bytes|).step.bytes;
        assert bytes + (first.bytes + rest) == (bytes + first.bytes) + rest;
      }
    }
  }

  // Without a frame at the head the byte at the read offset has not arrived.
  lemma DrainedIsMissing(q: Sorter.State, readOffset: nat)
    requires ReaderValid(q, readOffset) && Sorter.HeadOf(q).None?
    ensures Sorter.Missing(q.gaps, readOffset)
  {
    SorterProps.HeadIffReceived(q);
  }

  /** The loop runs dry exactly if it stops short of n bytes without having read a FIN, and then the
      next byte has not arrived. */
  lemma {:induction false} DrainedIff(q: Sorter.State, readOffset: nat, n: nat)
    requires ReaderValid(q, readOffset)
    ensures var o := ReadLoop(q, readOffset, n);
      && |o.step.bytes| <= n && o.step.readOffset == readOffset + |o.step.bytes|
      && (o.drained <==> |o.step.bytes| < n && !o.step.fin)
      && (o.drained ==> Sorter.Missing(o.step.queue.gaps, o.step.readOffset))
    decreases n, |q.queued|
  {
    hide ReaderValid, Sorter.HeadOf, ReadFrame, Sorter.Missing;
    if n > 0 && Sorter.HeadOf(q).None? {
      DrainedIsMissing(q, readOffset);
    } else if n > 0 {
      var first := ReadFrame(q, readOffset, n);
      if !first.fin { DrainedIff(first.queue, first.readOffset, n - |first.bytes|); }
    }
  }

  function Prepend(bytes: seq<Byte>, r: ReadOutcome): ReadOutcome
  {
    r.(step := r.step.(bytes := bytes + r.step.bytes))
  }

  // ---------------------------------------------------------------- the stream

  class Stream {
    const streamID: StreamID
    const frameQueue: Sorter.StreamFrameSorter
    var readOffset: nat
    var writeOffset: nat
    var dataForWriting: Option<seq<Byte>>
    var err: bool
    var cancelled: bool
    var finishedReading: bool
    var finishedWriting: bool
    var resetLocally: bool
    var resetRemotely: bool
    var finSent: bool
    var rstSent: bool

    ghost function Value(): StreamState
      reads this
    {
      StreamState(streamID, writeOffset, dataForWriting, err, cancelled, finishedReading, finishedWriting,
                  resetLocally, resetRemotely, finSent, rstSent)
    }

    ghost predicate Valid()
      reads this, frameQueue
    {
      ReaderValid(frameQueue.Value(), readOffset)
    }

    constructor (id: StreamID)
      ensures Valid() && fresh(frameQueue)
      ensures Value() == NewStream(id) && readOffset == 0 && frameQueue.Value() == Sorter.Init()
    {
      streamID := id;
      frameQueue := new Sorter.StreamFrameSorter();
      readOffset, writeOffset, dataForWriting := 0, 0, None;
      err, cancelled, finishedReading, finishedWriting := false, false, false, false;
      resetLocally, resetRemotely, finSent, rstSent := false, false, false, false;
    }

    /** Takes over the data of a Write, which then waits until all of it has been framed or an error
        has occurred. */
    method Write(p: seq<Byte>) returns (r: WriteResult)
      modifies this`dataForWriting
      ensures r == WriteFailed <==> old(resetLocally || err)
      ensures r == WriteClosed <==> old(!resetLocally && !err && finishedWriting)
      ensures r == WroteNothing <==> old(!resetLocally && !err && !finishedWriting) && p == []
      ensures Value() == if r == WriteWaits then old(Value()).(pending := Some(p)) else old(Value())
      ensures Value() == Written(old(Value()), p)
    {
      if resetLocally || err {
        return WriteFailed;
      }
      if finishedWriting {
        return WriteClosed;
      }
      if |p| == 0 {
        return WroteNothing;
      }
      dataForWriting := Some(p);
      return WriteWaits;
    }

    /** The end of a Write of p that has waited: how many bytes it reports as written. */
    method FinishWrite(p: seq<Byte>) returns (n: int, failed: bool)
      requires dataForWriting.None? || err
      ensures failed == err
      ensures n == |p| - if dataForWriting.Some? then |dataForWriting.value| else 0
    {
      if err {
        return |p| - (if dataForWriting.Some? then |dataForWriting.value| else 0), true;
      }
      return |p|, false;
    }

    method GetDataForWriting(maxBytes: nat) returns (data: Option<seq<Byte>>)
      modifies this`dataForWriting, this`writeOffset
      ensures data == DataTaken(old(Value()), maxBytes)
      ensures Value() == AfterTaking(old(Value()), maxBytes)
    {
      if err || dataForWriting.None? {
        return None;
      }
      if |dataForWriting.value| > maxBytes {
        data := Some(dataForWriting.value[..maxBytes]);
        dataForWriting := Some(dataForWriting.value[maxBytes..]);
      } else {
        data := dataForWriting;
        dataForWriting := None;
      }
      writeOffset := writeOffset + |data.value|;
    }

    method Close()
      modifies this`finishedWriting
      ensures Value() == old(Value()).(finishedWriting := true)
    {
      finishedWriting := true;
    }

    method Cancel(e: bool)
      modifies this`cancelled, this`err
      ensures Value() == old(Value()).(cancelled := true, err := old(err) || e)
    {
      cancelled := true;
      if !err {
        err := e;
      }
    }

    /** Resets the stream; the result is the offset of the RST_STREAM that is sent, if any. */
    method Reset(e: bool) returns (rst: Option<nat>)
      modifies this`resetLocally, this`err, this`rstSent
      ensures (Value(), rst) == ResetLocally(old(Value()), e)
    {
      rst := None;
      if resetLocally {
        return;
      }
      resetLocally := true;
      if !err {
        err := e;
      }
      if !rstSent && (resetLocally || resetRemotely) && !(finishedWriting && finSent) {
        rst := Some(writeOffset);
        rstSent := true;
      }
    }

    method RegisterRemoteError(e: bool) returns (rst: Option<nat>)
      modifies this`resetRemotely, this`err, this`rstSent
      ensures (Value(), rst) == ResetRemotely(old(Value()), e)
    {
      rst := None;
      if resetRemotely {
        return;
      }
      resetRemotely := true;
      if !err {
        err := e;
      }
      if !rstSent && (resetLocally || resetRemotely) && !(finishedWriting && finSent) {
        rst := Some(writeOffset);
        rstSent := true;
      }
    }

    /** Adds a received frame to the queue, unless flow control refuses it. A duplicate is no error. */
    method AddStreamFrame(frame: Frame, withinWindow: bool) returns (ok: bool, r: AddResult)
      requires Valid() && frame.End() <= MAX_BYTE_COUNT
      modifies frameQueue
      ensures r.FlowControlError? <==> !withinWindow
      ensures r.FlowControlError? ==> !ok && frameQueue.Value() == old(frameQueue.Value())
      ensures r.Pushed? ==> (ok <==> r.result == Sorter.Ok || r.result == Sorter.Duplicate)
      ensures r.Pushed? && (frame.data == [] || frame.End() < MAX_BYTE_COUNT) ==>
        Sorter.PushSpec(old(frameQueue.Value()), frame, frameQueue.Value(), r.result)
      ensures r.Pushed? && frame.data != [] && frame.End() == MAX_BYTE_COUNT ==>
        r.result == Sorter.BugNoEndGap && Sorter.EndNotFound(old(frameQueue.Value()), frame, frameQueue.Value())
    {
      if !withinWindow {
        return false, FlowControlError;
      }
      var result := frameQueue.Push(frame);
      if result != Sorter.Ok && result != Sorter.Duplicate {
        return false, Pushed(result);
      }
      return true, Pushed(result);
    }

    /** Reads up to n bytes. Blocked means that nothing was read and Read would wait for data. */
    method Read(n: nat) returns (bytes: seq<Byte>, r: ReadResult)
      requires Valid()
      modifies this`readOffset, this`finishedReading, frameQueue
      ensures Valid()
      ensures old(cancelled || resetLocally || finishedReading) ==>
        && bytes == [] && Value() == old(Value()) && readOffset == old(readOffset)
        && frameQueue.Value() == old(frameQueue.Value())
        && r == if old(!cancelled && !resetLocally) then Eof else if err then Failed else Done
      ensures !old(cancelled || resetLocally || finishedReading) ==>
        var o := ReadLoop(old(frameQueue.Value()), old(readOffset), n);
        && Value() == old(Value()).(finishedReading := o.step.fin)
        && o.step == ReadStep(bytes, frameQueue.Value(), readOffset, finishedReading)
      ensures !old(cancelled || resetLocally) ==>
        && (r == Eof <==> finishedReading)
        && (r == Blocked <==> n > 0 && bytes == [] && !finishedReading)
        && (r == Failed <==> err && 0 < |bytes| < n && !finishedReading)
        && (r == Blocked ==> Sorter.Missing(frameQueue.gaps, readOffset)) && r != Bug
    {
      if cancelled || resetLocally {
        return [], if err then Failed else Done;
      }
      if finishedReading {
        return [], Eof;
      }
      bytes, r := ReadQueued(n);
    }

    // The loop of Read.
    method ReadQueued(n: nat) returns (bytes: seq<Byte>, r: ReadResult)
      requires Valid() && !finishedReading
      modifies this`readOffset, this`finishedReading, frameQueue
      ensures Valid()
      ensures var o := ReadLoop(old(frameQueue.Value()), old(readOffset), n);
        && o.step == ReadStep(bytes, frameQueue.Value(), readOffset, finishedReading)
      ensures r == Eof <==> finishedReading
      ensures r == Blocked <==> n > 0 && bytes == [] && !finishedReading
      ensures r == Failed <==> err && 0 < |bytes| < n && !finishedReading
      ensures (r == Blocked ==> Sorter.Missing(frameQueue.gaps, readOffset)) && r != Bug
    {
      hide ReaderValid, Sorter.HeadOf, Sorter.Popped, ReadFrame, ReadLoop;
      ghost var o := ReadLoop(frameQueue.Value(), readOffset, n);
      bytes := [];
      while |bytes| < n
        invariant |bytes| <= n && Valid() && !finishedReading
        invariant Prepend(bytes, ReadLoop(frameQueue.Value(), readOffset, n - |bytes|)) == o
        decreases n - |bytes|, |frameQueue.queuedFrames|
      {
        ReadOnce(frameQueue.Value(), readOffset, n - |bytes|, bytes);
        var frame := frameQueue.Head();
        if frame.None? {
          DrainedIsMissing(frameQueue.Value(), readOffset);
          return bytes, if |bytes| == 0 then Blocked else if err then Failed else Done;
        }
        var more, bug := ReadHead(frame.value, n - |bytes|);
        if bug {
          return bytes, Bug;
        }
        bytes := bytes + more;
        if finishedReading {
          return bytes, Eof;
        }
      }
      ReadOnce(frameQueue.Value(), readOffset, 0, bytes);
      return bytes, Done;
    }

    // One pass of the loop of Read, over the frame at the head of the queue.
    method ReadHead(frame: Frame, n: nat) returns (bytes: seq<Byte>, bug: bool)
      requires Valid() && !finishedReading && n > 0 && Sorter.HeadOf(frameQueue.Value()) == Some(frame)
      modifies this`readOffset, this`finishedReading, frameQueue
      ensures Valid() && !bug
      ensures ReadFrame(old(frameQueue.Value()), old(readOffset), n) ==
        ReadStep(bytes, frameQueue.Value(), readOffset, finishedReading)
    {
      HeadOffset(frameQueue.Value());
      PopKeepsReader(frameQueue.Value());
      bug := false;
      var readPosInFrame := readOffset - frame.offset;
      var m := if n < |frame.data| - readPosInFrame then n else |frame.data| - readPosInFrame;
      if readPosInFrame > |frame.data| {
        return [], true;
      }
      bytes := frame.data[readPosInFrame..readPosInFrame + m];
      readPosInFrame := readPosInFrame + m;
      readOffset := readOffset + m;
      if readPosInFrame >= |frame.data| {
        assert bytes == frame.data[readPosInFrame - m..];
        var _ := frameQueue.Pop();
        if frame.fin {
          finishedReading := true;
        }
      }
    }
  }
}
