// Reassembly of a stream from frames that arrive in any order.
module Sorter {
  import opened Common
  import opened Frames

  datatype Interval = Interval(start: nat, end: nat)

  datatype PushResult = Ok | Duplicate | Empty | TooManyGaps | BugNoGap | BugNoEndGap

  /** The value of a sorter: what a run of pushes and pops is a sequence of. */
  datatype State = State(queued: map<nat, Frame>, readPosition: nat, gaps: seq<Interval>)

  // ---------------------------------------------------------------- gaps

  // Byte x has not been received yet.
  ghost predicate Missing(gaps: seq<Interval>, x: int)
  {
    exists i :: 0 <= i < |gaps| && gaps[i].start <= x < gaps[i].end
  }

  // Non-empty gaps in increasing order, no two of them touching, the last one open ended.
  ghost predicate Canonical(gaps: seq<Interval>)
  {
    && |gaps| > 0
    && gaps[|gaps| - 1].end == MAX_BYTE_COUNT
    && (forall i :: 0 <= i < |gaps| ==> gaps[i].start < gaps[i].end)
    && (forall i, j :: 0 <= i < j < |gaps| ==> gaps[i].end < gaps[j].start)
  }

  // First missing byte of [lo, hi), or hi.
  ghost function FirstMissing(gaps: seq<Interval>, lo: nat, hi: nat): (m: nat)
    requires lo <= hi
    ensures lo <= m <= hi
    ensures m < hi ==> Missing(gaps, m)
    ensures forall x :: lo <= x < m ==> !Missing(gaps, x)
    decreases hi - lo
  {
    if lo == hi || Missing(gaps, lo) then lo else FirstMissing(gaps, lo + 1, hi)
  }

  // One past the last missing byte of [lo, hi), or lo.
  ghost function PastLastMissing(gaps: seq<Interval>, lo: nat, hi: nat): (m: nat)
    requires lo <= hi
    ensures lo <= m <= hi
    ensures lo < m ==> Missing(gaps, m - 1)
    ensures forall x :: m <= x < hi ==> !Missing(gaps, x)
  {
    if lo == hi || Missing(gaps, hi - 1) then hi else PastLastMissing(gaps, lo, hi - 1)
  }

  // k is received and the byte before it is not.
  ghost predicate RunStart(gaps: seq<Interval>, k: nat)
  {
    k > 0 && Missing(gaps, k - 1) && !Missing(gaps, k)
  }

  // ---------------------------------------------------------------- specification of Push

  // The queue without the frames at the run starts strictly inside (lo, hi).
  ghost function Bridged(queued: map<nat, Frame>, gaps: seq<Interval>, lo: nat, hi: nat): map<nat, Frame>
  {
    map k | k in queued && !(lo < k < hi && RunStart(gaps, k)) :: queued[k]
  }

  // gaps' are the gaps left once [lo, hi) has arrived.
  ghost predicate Filled(gaps: seq<Interval>, lo: nat, hi: nat, gaps': seq<Interval>)
  {
    && Canonical(gaps')
    && forall x: int :: Missing(gaps', x) <==> Missing(gaps, x) && !(lo <= x < hi)
  }

  /** What a push of f does, in terms of which bytes are missing: the frame is cut to the
      span from its first to its last missing byte, and that piece is queued. */
  ghost predicate PushSpec(s: State, f: Frame, s': State, r: PushResult)
  {
    if f.data == [] then
      if f.fin then r == Ok && s' == s.(queued := s.queued[f.offset := f])
      else r == Empty && s' == s
    else
      var lo := FirstMissing(s.gaps, f.offset, f.End());
      var hi := PastLastMissing(s.gaps, f.offset, f.End());
      if lo == f.End() then r == Duplicate && s' == s
      else
        && lo < hi
        && s'.readPosition == s.readPosition
        && Filled(s.gaps, f.offset, f.End(), s'.gaps)
        && r == (if |s'.gaps| > MAX_SORTER_GAPS then TooManyGaps else Ok)
        && s'.queued ==
           if r == TooManyGaps then Bridged(s.queued, s.gaps, lo, hi)
           else Bridged(s.queued, s.gaps, lo, hi)[lo := f.Slice(lo, hi)]
  }

  function HeadOf(s: State): Option<Frame>
  {
    if s.readPosition in s.queued then Some(s.queued[s.readPosition]) else None
  }

  function Popped(s: State): State
  {
    match HeadOf(s)
    case None => s
    case Some(f) => s.(readPosition := s.readPosition + |f.data|, queued := s.queued - {s.readPosition})
  }

  // ---------------------------------------------------------------- invariant

  // A chain of non-empty queued frames leads from a to exactly b.
  ghost predicate Tiled(queued: map<nat, Frame>, a: nat, b: nat)
    decreases b - a
  {
    a == b ||
    (a < b && a in queued && queued[a].data != [] && a + |queued[a].data| <= b &&
     Tiled(queued, a + |queued[a].data|, b))
  }

  ghost predicate QueuedReceived(queued: map<nat, Frame>, gaps: seq<Interval>)
  {
    && (forall k :: k in queued ==> queued[k].offset == k)
    && (forall k, x :: k in queued && k <= x < k + |queued[k].data| ==> !Missing(gaps, x))
  }

  // [a, b) is a maximal received run, or what is left of one at the read position.
  ghost predicate IsRun(s: State, a: nat, b: nat)
  {
    && a <= b && Missing(s.gaps, b)
    && (a == s.readPosition || RunStart(s.gaps, a))
    && forall x :: a <= x < b ==> !Missing(s.gaps, x)
  }

  // Every received run at or after the read position is tiled from its start.
  ghost predicate RunsTiled(s: State)
  {
    && (forall x :: 0 <= x < s.readPosition ==> !Missing(s.gaps, x))
    && forall a, b :: IsRun(s, a, b) ==> Tiled(s.queued, a, b)
  }

  ghost predicate Valid(s: State)
  {
    Canonical(s.gaps) && QueuedReceived(s.queued, s.gaps) && RunsTiled(s)
  }

  function Init(): State
  {
    State(map[], 0, [Interval(0, MAX_BYTE_COUNT)])
  }

  lemma InitValid()
    ensures Valid(Init())
    ensures forall x :: 0 <= x < MAX_BYTE_COUNT ==> Missing(Init().gaps, x)
  {
    var g := Init().gaps;
    forall x | 0 <= x < MAX_BYTE_COUNT ensures Missing(g, x) { MissingAt(g, 0, x); }
    forall a: nat, b: nat | IsRun(Init(), a, b) ensures a == b {
      assert a < b ==> Missing(g, a);
    }
  }

  // ---------------------------------------------------------------- the sorter

  class StreamFrameSorter {
    var queuedFrames: map<nat, Frame>
    var readPosition: nat
    var gaps: seq<Interval>

    ghost function Value(): State
      reads this
    {
      State(queuedFrames, readPosition, gaps)
    }

    constructor ()
      ensures Value() == Init()
      ensures Valid(Value())
    {
      queuedFrames := map[];
      readPosition := 0;
      gaps := [Interval(0, MAX_BYTE_COUNT)];
      InitValid();
    }

    /** The frame at the read position, if there is one. */
    method Head() returns (frame: Option<Frame>)
      ensures frame == HeadOf(Value())
    {
      if readPosition in queuedFrames {
        return Some(queuedFrames[readPosition]);
      }
      return None;
    }

    /** Takes the frame at the read position out and moves past it. */
    method Pop() returns (frame: Option<Frame>)
      requires Valid(Value())
      modifies this`queuedFrames, this`readPosition
      ensures frame == HeadOf(old(Value()))
      ensures Value() == Popped(old(Value()))
    {
      frame := Head();
      if frame.Some? {
        readPosition := readPosition + |frame.value.data|;
        queuedFrames := queuedFrames - {frame.value.offset};
      }
    }

    // Skips the gaps before [start, end). The index past the list means that no gap was found.
    method FindGap(start: nat, end: nat) returns (gi: nat, duplicate: bool)
      requires start < end
      ensures gi <= |gaps|
      ensures forall j :: 0 <= j < gi ==> gaps[j].end < start
      ensures gi < |gaps| ==> (duplicate <==> end <= gaps[gi].start)
      ensures gi < |gaps| && !duplicate ==> start <= gaps[gi].end
      ensures gi == |gaps| ==> !duplicate
    {
      gi := 0;
      while gi < |gaps|
        invariant gi <= |gaps|
        invariant forall j :: 0 <= j < gi ==> gaps[j].end < start
      {
        if end <= gaps[gi].start {
          return gi, true;
        }
        if end > gaps[gi].start && start <= gaps[gi].end {
          break;
        }
        gi := gi + 1;
      }
      duplicate := false;
    }

    method RemoveGap(i: nat)
      requires i < |gaps|
      modifies this`gaps
      ensures gaps == Without(old(gaps), i)
    {
      gaps := gaps[..i] + gaps[i + 1..];
    }

    // Walks from the gap at gi to the last gap that starts before end, dropping the gaps in
    // between and the queued frame that starts each run bridged on the way. Returns that last
    // gap, whether it is the one at gi and whether it is still in the list; ok is false if the
    // list ended first.
    method BridgeGaps(gi: nat, end: nat) returns (endGap: Interval, same: bool, listed: bool, ghost m: nat, ok: bool)
      requires Canonical(gaps) && gi < |gaps| && gaps[gi].start < end <= MAX_BYTE_COUNT
      modifies this`gaps, this`queuedFrames
      ensures ok <==> end < MAX_BYTE_COUNT
      ensures ok ==>
        && gi <= m < |old(gaps)| && endGap == old(gaps)[m]
        && endGap.start < end
        && (m + 1 < |old(gaps)| ==> end <= old(gaps)[m + 1].start)
        && same == (m == gi) && listed == (same || end < endGap.end)
        && Spliced(old(gaps), gi, if listed && gi < m then m else m + 1, gaps)
        && queuedFrames == old(queuedFrames) - GapEnds(old(gaps), gi, m)
      ensures !ok ==> HalfEdited(State(old(queuedFrames), readPosition, old(gaps)), gi, Value())
    {
      hide Canonical, Spliced, GapEnds, Without;
      ghost var g0 := gaps;
      SplicedSelf(g0, gi);
      endGap := gaps[gi];
      listed := true;
      var ei := gi;
      m := gi;
      ok := true;
      assert GapEnds(g0, gi, gi) == {} by { NoGapEnds(g0, gi); }
      while end >= endGap.end
        invariant gi <= m < |g0| && endGap == g0[m] && endGap.start < end
        invariant ok && listed
        invariant ei == (if m == gi then gi else gi + 1)
        invariant Spliced(g0, gi, if gi < m then m else m + 1, gaps)
        invariant queuedFrames == old(queuedFrames) - GapEnds(g0, gi, m)
        decreases |g0| - m
      {
        SplicedAt(g0, gi, if gi < m then m else m + 1, gaps);
        LastGap(g0, m);
        if ei + 1 == |gaps| {
          ok, same := false, false;
          return;
        }
        var nextEndGap := gaps[ei + 1];
        if ei != gi {
          SplicedWithout(g0, gi, m, gaps);
          RemoveGap(ei);
          listed := false;
        }
        if end <= nextEndGap.start {
          break;
        }
        DropKey(queuedFrames, old(queuedFrames), g0, gi, m);
        queuedFrames := queuedFrames - {endGap.end};
        endGap := nextEndGap;
        ei := gi + 1;
        listed := true;
        m := m + 1;
      }
      same := ei == gi;
      LastGap(g0, m);
    }

    // Takes [start, end) out of the gap at gi and out of endGap, the last gap that it reaches.
    method ShrinkGaps(gi: nat, endGap: Interval, same: bool, start: nat, end: nat, ghost g0: seq<Interval>,
                      ghost m: nat)
      requires Canonical(g0) && gi <= m < |g0| && endGap == g0[m] && same == (gi == m)
      requires Spliced(g0, gi, if gi < m && end < endGap.end then m else m + 1, gaps)
      requires g0[gi].start <= start < g0[gi].end && start < end && g0[m].start < end <= g0[m].end
      modifies this`gaps
      ensures Edited(g0, gi, m, start, end, gaps)
    {
      hide Canonical, With, Spliced, Edited;
      LastGap(g0, gi);
      GapOrder(g0, gi, m);
      SplicedAt(g0, gi, if gi < m && end < endGap.end then m else m + 1, gaps);
      var gap := gaps[gi];
      if start == gap.start {
        ShrinkFromStart(gi, endGap, same, end, g0, m);
      } else if end == endGap.end {
        EditedAtEnd(g0, gi, m, start, gaps);
        gaps := gaps[gi := gap.(end := start)];
      } else if same {
        EditedInside(g0, gi, start, end, gaps);
        gaps := With(gaps, gi + 1, Interval(end, gap.end));
        gaps := gaps[gi := gap.(end := start)];
      } else {
        EditedAcross(g0, gi, m, start, end, gaps);
        gaps := gaps[gi := gap.(end := start)];
        gaps := gaps[gi + 1 := gaps[gi + 1].(start := end)];
      }
    }

    // The case of a frame that starts with the gap at gi.
    method ShrinkFromStart(gi: nat, endGap: Interval, same: bool, end: nat, ghost g0: seq<Interval>, ghost m: nat)
      requires gi <= m < |g0| && endGap == g0[m] && same == (gi == m)
      requires gi < m ==> g0[gi].end < g0[m].start
      requires Spliced(g0, gi, if gi < m && end < endGap.end then m else m + 1, gaps)
      requires g0[gi].start < end && g0[m].start < end <= g0[m].end
      modifies this`gaps
      ensures Edited(g0, gi, m, g0[gi].start, end, gaps)
    {
      hide Without;
      var ei := if same then gi else gi + 1;
      if end >= gaps[gi].end {
        RemoveGap(gi);
        ei := gi;
      }
      if end < endGap.end {
        gaps := gaps[ei := gaps[ei].(start := end)];
      }
    }

    /** Adds a received frame. The only error that a well-formed sorter can still report, apart from
        an empty frame and too many gaps, is the one for a frame that ends at the largest byte count. */
    method Push(frame: Frame) returns (r: PushResult)
      requires Valid(Value())
      requires frame.End() <= MAX_BYTE_COUNT
      modifies this
      ensures frame.data != [] && frame.End() == MAX_BYTE_COUNT ==>
        r == BugNoEndGap && EndNotFound(old(Value()), frame, Value())
      ensures frame.data == [] || frame.End() < MAX_BYTE_COUNT ==> PushSpec(old(Value()), frame, Value(), r)
    {
      hide Valid, Canonical, PushSpec, Missing, Filled, Bridged, FirstMissing, PastLastMissing,
           Spliced, Edited, GapEnds, EndNotFound;
      ghost var s0 := Value();
      if frame.data == [] {
        if frame.fin {
          queuedFrames := queuedFrames[frame.offset := frame];
          assert PushSpec(s0, frame, Value(), Ok) by { PushEmpty(s0, frame); }
          return Ok;
        }
        assert PushSpec(s0, frame, Value(), Empty) by { PushEmpty(s0, frame); }
        return Empty;
      }
      var f := frame;
      KnownHead(s0, frame);
      if f.offset in queuedFrames {
        var oldLen := |queuedFrames[f.offset].data|;
        if |f.data| <= oldLen {
          PushDuplicate(s0, frame);
          return Duplicate;
        }
        f := f.(data := f.data[oldLen..], offset := f.offset + oldLen);
        assert f == frame.Slice(f.offset, frame.End());
      }
      assert f.offset == KnownEnd(s0, frame) && f == frame.Slice(f.offset, frame.End());
      r := PushRest(f, frame);
    }

    // Adds what is left of the frame once the part that a frame at its own offset holds is cut.
    method PushRest(rest: Frame, ghost frame: Frame) returns (r: PushResult)
      requires Valid(Value()) && KnownEnd(Value(), frame) < frame.End() <= MAX_BYTE_COUNT
      requires rest == frame.Slice(KnownEnd(Value(), frame), frame.End())
      modifies this
      ensures frame.End() == MAX_BYTE_COUNT ==> r == BugNoEndGap && EndNotFound(old(Value()), frame, Value())
      ensures frame.End() < MAX_BYTE_COUNT ==> PushSpec(old(Value()), frame, Value(), r)
    {
      hide Valid, Canonical, PushSpec, Missing, Filled, Bridged, FirstMissing, PastLastMissing,
           Spliced, Edited, GapEnds, EndNotFound;
      ghost var s0 := Value();
      KnownHead(s0, frame);
      var f := rest;
      var start, end := f.offset, f.offset + |f.data|;
      var gi, duplicate := FindGap(start, end);
      if duplicate {
        NothingMissing(s0, frame, gi);
        PushDuplicate(s0, frame);
        return Duplicate;
      }
      GapFound(s0, frame, gi);
      if gi == |gaps| {
        return BugNoGap;
      }
      if start < gaps[gi].start {
        var add := gaps[gi].start - start;
        f := f.(offset := f.offset + add, data := f.data[add..]);
        assert f == frame.Slice(f.offset, frame.End());
      }
      r := FillGaps(gi, f, frame);
    }

    // Fills the gap at gi, where the new part of the frame starts, and all gaps the frame reaches.
    method FillGaps(gi: nat, part: Frame, ghost frame: Frame) returns (r: PushResult)
      requires Valid(Value()) && StartsIn(Value(), frame, gi, part.offset)
      requires part == frame.Slice(part.offset, frame.End())
      modifies this
      ensures frame.End() == MAX_BYTE_COUNT ==> r == BugNoEndGap && EndNotFound(old(Value()), frame, Value())
      ensures frame.End() < MAX_BYTE_COUNT ==> PushSpec(old(Value()), frame, Value(), r)
    {
      hide Valid, Canonical, PushSpec, Missing, Filled, Bridged, FirstMissing, PastLastMissing,
           Spliced, Edited, GapEnds, KnownEnd, Frame.Slice, HalfEdited;
      ghost var s0 := Value();
      KnownHead(s0, frame);
      SliceEnds(frame, part.offset, frame.End());
      LastGap(gaps, gi);
      var f := part;
      var start, end := f.offset, f.End();
      var endGap, same, listed, m, ok := BridgeGaps(gi, end);
      if !ok {
        return BugNoEndGap;
      }
      if end > endGap.end {
        var cutLen := end - endGap.end;
        CutTail(frame, start, endGap.end);
        f := f.(data := f.data[..|f.data| - cutLen]);
        end := end - cutLen;
      }
      assert f == frame.Slice(start, end);
      r := StoreFrame(gi, endGap, same, f, s0, frame, m);
    }

    // Takes the piece f of the frame out of the gaps and queues it.
    method StoreFrame(gi: nat, endGap: Interval, same: bool, f: Frame, ghost s0: State, ghost frame: Frame,
                      ghost m: nat)
        returns (r: PushResult)
      requires Valid(s0) && gi <= m && StartsIn(s0, frame, gi, f.offset) && EndsIn(s0, frame, m, f.End())
      requires f.offset < f.End() < MAX_BYTE_COUNT && f == frame.Slice(f.offset, f.End())
      requires endGap == s0.gaps[m] && same == (gi == m) && readPosition == s0.readPosition
      requires Spliced(s0.gaps, gi, if gi < m && f.End() < endGap.end then m else m + 1, gaps)
      requires queuedFrames == s0.queued - GapEnds(s0.gaps, gi, m)
      modifies this`gaps, this`queuedFrames
      ensures PushSpec(s0, frame, Value(), r)
    {
      hide Valid, Canonical, PushSpec, Spliced, Edited, GapEnds, KnownEnd, Frame.Slice;
      KnownHead(s0, frame);
      ShrinkGaps(gi, endGap, same, f.offset, f.End(), s0.gaps, m);
      PushDone(s0, frame, gi, m, f.offset, f.End(), gaps);
      if |gaps| > MAX_SORTER_GAPS {
        return TooManyGaps;
      }
      queuedFrames := queuedFrames[f.offset := f];
      return Ok;
    }
  }

  lemma SliceEnds(f: Frame, lo: nat, hi: nat)
    requires f.offset <= lo <= hi <= f.End()
    ensures f.Slice(lo, hi).offset == lo && f.Slice(lo, hi).End() == hi
  {
  }

  // Cutting the tail of what was left after cutting the front.
  lemma CutTail(f: Frame, lo: nat, hi: nat)
    requires f.offset <= lo <= hi <= f.End()
    ensures var g := f.Slice(lo, f.End());
      g.End() == f.End() && g.(data := g.data[..|g.data| - (f.End() - hi)]) == f.Slice(lo, hi)
  {
  }

  // What is left when the list ends before the end of a frame is found: the gaps between the one at gi
  // and the last one are gone, and so are the frames queued at the ends of the gaps before it.
  ghost predicate HalfEdited(s: State, gi: nat, s': State)
  {
    && gi < |s.gaps| && s'.readPosition == s.readPosition
    && Spliced(s.gaps, gi, if gi + 1 < |s.gaps| then |s.gaps| - 1 else |s.gaps|, s'.gaps)
    && s'.queued == s.queued - GapEnds(s.gaps, gi, |s.gaps| - 1)
  }

  // The outcome for a frame that ends at the largest byte count and whose new bytes start in gap gi.
  ghost predicate EndNotFound(s: State, f: Frame, s': State)
  {
    exists gi, lo :: StartsIn(s, f, gi, lo) && HalfEdited(s, gi, s')
  }

  // The new bytes of f start at lo, inside the gap at gi.
  ghost predicate StartsIn(s: State, f: Frame, gi: nat, lo: nat)
  {
    && gi < |s.gaps| && f.offset <= KnownEnd(s, f) < f.End() <= MAX_BYTE_COUNT
    && (forall j :: 0 <= j < gi ==> s.gaps[j].end < KnownEnd(s, f))
    && lo == (if KnownEnd(s, f) < s.gaps[gi].start then s.gaps[gi].start else KnownEnd(s, f)) < s.gaps[gi].end
    && s.gaps[gi].start < f.End() && f.offset <= lo < f.End()
  }

  // The last gap that f reaches is m, and hi is where the new bytes of f end.
  ghost predicate EndsIn(s: State, f: Frame, m: nat, hi: nat)
  {
    && m < |s.gaps| && s.gaps[m].start < f.End() && (m + 1 < |s.gaps| ==> f.End() <= s.gaps[m + 1].start)
    && hi == (if s.gaps[m].end < f.End() then s.gaps[m].end else f.End())
  }

  function With<T>(s: seq<T>, i: nat, x: T): (r: seq<T>)
    requires i <= |s|
    ensures |r| == |s| + 1 && r[i] == x
    ensures forall j :: 0 <= j < i ==> r[j] == s[j]
    ensures forall j :: i < j < |r| ==> r[j] == s[j - 1]
  {
    s[..i] + [x] + s[i..]
  }

  lemma GapOrder(gaps: seq<Interval>, i: nat, j: nat)
    requires Canonical(gaps) && i <= j < |gaps|
    ensures i < j ==> gaps[i].end < gaps[j].start
  {
  }

  // g is g0 with [start, end) taken out, which touches the gaps gi to m only.
  ghost predicate Edited(g0: seq<Interval>, gi: nat, m: nat, start: nat, end: nat, g: seq<Interval>)
    requires gi <= m < |g0|
  {
    var l := if g0[gi].start < start then 1 else 0;
    var r := if end < g0[m].end then 1 else 0;
    && |g| == gi + l + r + |g0| - m - 1
    && (forall j :: 0 <= j < gi ==> g[j] == g0[j])
    && (l == 1 ==> g[gi] == Interval(g0[gi].start, start))
    && (r == 1 ==> g[gi + l] == Interval(end, g0[m].end))
    && (forall j :: gi + l + r <= j < |g| ==> g[j] == g0[j - (gi + l + r) + m + 1])
  }


  lemma NoGapEnds(gaps: seq<Interval>, gi: nat)
    requires gi <= |gaps|
    ensures GapEnds(gaps, gi, gi) == {}
  {
  }

  lemma SplicedSelf(g0: seq<Interval>, gi: nat)
    requires gi < |g0|
    ensures Spliced(g0, gi, gi + 1, g0)
  {
  }

  lemma SplicedAt(g0: seq<Interval>, gi: nat, k: nat, g: seq<Interval>)
    requires gi < k <= |g0| && Spliced(g0, gi, k, g)
    ensures |g| == gi + 1 + |g0| - k && g[gi] == g0[gi]
    ensures gi + 1 < |g| ==> g[gi + 1] == g0[k]
    ensures gi + 2 < |g| ==> g[gi + 2] == g0[k + 1]
  {
  }

  lemma SplicedWithout(g0: seq<Interval>, gi: nat, k: nat, g: seq<Interval>)
    requires gi < k < |g0| && Spliced(g0, gi, k, g) && gi + 1 < |g|
    ensures Spliced(g0, gi, k + 1, Without(g, gi + 1))
  {
  }

  // Only the last gap can reach past every stream position.
  lemma LastGap(gaps: seq<Interval>, m: nat)
    requires Canonical(gaps) && m < |gaps|
    ensures gaps[m].start < gaps[m].end <= MAX_BYTE_COUNT
    ensures m + 1 < |gaps| ==> gaps[m].end < gaps[m + 1].start < MAX_BYTE_COUNT
    ensures m + 1 == |gaps| ==> gaps[m].end == MAX_BYTE_COUNT
  {
  }

  function Without<T>(s: seq<T>, i: nat): (r: seq<T>)
    requires i < |s|
    ensures |r| == |s| - 1
    ensures forall j :: 0 <= j < i ==> r[j] == s[j]
    ensures forall j :: i <= j < |r| ==> r[j] == s[j + 1]
  {
    s[..i] + s[i + 1..]
  }

  // g are the gaps of g0 up to and including gi, followed by those from k on.
  ghost predicate Spliced(g0: seq<Interval>, gi: nat, k: nat, g: seq<Interval>)
    requires gi < k <= |g0|
  {
    && |g| == gi + 1 + |g0| - k
    && (forall j :: 0 <= j <= gi ==> g[j] == g0[j])
    && (forall j :: gi < j < |g| ==> g[j] == g0[j + (k - gi - 1)])
  }

  ghost function GapEnds(gaps: seq<Interval>, lo: nat, hi: nat): set<nat>
    requires lo <= hi <= |gaps|
  {
    if lo == hi then {} else GapEnds(gaps, lo, hi - 1) + {gaps[hi - 1].end}
  }

  lemma DropKey(q: map<nat, Frame>, q0: map<nat, Frame>, gaps: seq<Interval>, lo: nat, m: nat)
    requires lo <= m < |gaps| && q == q0 - GapEnds(gaps, lo, m)
    ensures q - {gaps[m].end} == q0 - GapEnds(gaps, lo, m + 1)
  {
  }

  lemma EditedAtEnd(g0: seq<Interval>, gi: nat, m: nat, start: nat, g: seq<Interval>)
    requires gi <= m < |g0| && g0[gi].start < start && Spliced(g0, gi, m + 1, g)
    ensures Edited(g0, gi, m, start, g0[m].end, g[gi := g[gi].(end := start)])
  {
  }

  lemma EditedInside(g0: seq<Interval>, gi: nat, start: nat, end: nat, g: seq<Interval>)
    requires gi < |g0| && g0[gi].start < start && end < g0[gi].end && Spliced(g0, gi, gi + 1, g)
    ensures Edited(g0, gi, gi, start, end, With(g, gi + 1, Interval(end, g[gi].end))[gi := g[gi].(end := start)])
  {
    hide With;
  }

  lemma EditedAcross(g0: seq<Interval>, gi: nat, m: nat, start: nat, end: nat, g: seq<Interval>)
    requires gi < m < |g0| && g0[gi].start < start && end < g0[m].end && Spliced(g0, gi, m, g)
    ensures Edited(g0, gi, m, start, end, g[gi := g[gi].(end := start)][gi + 1 := g[gi + 1].(start := end)])
  {
  }

  // The gap of g0 that the gap at j is, or is a part of.
  ghost function Origin(g0: seq<Interval>, gi: nat, m: nat, start: nat, end: nat, j: nat): nat
    requires gi <= m < |g0|
  {
    var l := if g0[gi].start < start then 1 else 0;
    var r := if end < g0[m].end then 1 else 0;
    if j < gi then j else if j < gi + l then gi else if j < gi + l + r then m else j - (gi + l + r) + m + 1
  }

  // Every gap that is left is part of its origin.
  lemma EditedPart(g0: seq<Interval>, gi: nat, m: nat, start: nat, end: nat, g: seq<Interval>, j: nat)
    requires Canonical(g0) && gi <= m < |g0| && Edited(g0, gi, m, start, end, g) && j < |g|
    requires g0[gi].start <= start < g0[gi].end && start < end && g0[m].start < end <= g0[m].end
    ensures var o := Origin(g0, gi, m, start, end, j);
      o < |g0| && g0[o].start <= g[j].start < g[j].end <= g0[o].end && (j + 1 == |g| && end < MAX_BYTE_COUNT ==>
        g[j].end == MAX_BYTE_COUNT)
  {
    hide Canonical;
    var o := Origin(g0, gi, m, start, end, j);
    LastGap(g0, o);
    LastGap(g0, m);
  }

  // Gaps that are left stay in order and apart.
  lemma EditedOrder(g0: seq<Interval>, gi: nat, m: nat, start: nat, end: nat, g: seq<Interval>, i: nat, j: nat)
    requires Canonical(g0) && gi <= m < |g0| && Edited(g0, gi, m, start, end, g) && i < j < |g|
    requires g0[gi].start <= start < g0[gi].end && start < end && g0[m].start < end <= g0[m].end
    ensures g[i].end < g[j].start
  {
    hide Canonical;
    EditedPart(g0, gi, m, start, end, g, i);
    EditedPart(g0, gi, m, start, end, g, j);
    GapOrder(g0, Origin(g0, gi, m, start, end, i), Origin(g0, gi, m, start, end, j));
  }

  lemma EditedCanonical(g0: seq<Interval>, gi: nat, m: nat, start: nat, end: nat, g: seq<Interval>)
    requires Canonical(g0) && gi <= m < |g0| && Edited(g0, gi, m, start, end, g)
    requires g0[gi].start <= start < g0[gi].end && start < end && g0[m].start < end <= g0[m].end
    requires end < MAX_BYTE_COUNT
    ensures Canonical(g)
  {
    hide Canonical, Edited, Origin;
    forall j | 0 <= j < |g| ensures g[j].start < g[j].end { EditedPart(g0, gi, m, start, end, g, j); }
    forall i, j | 0 <= i < j < |g| ensures g[i].end < g[j].start { EditedOrder(g0, gi, m, start, end, g, i, j); }
    EditedNonEmpty(g0, gi, m, start, end, g);
    EditedPart(g0, gi, m, start, end, g, |g| - 1);
    CanonicalIntro(g);
  }

  lemma EditedNonEmpty(g0: seq<Interval>, gi: nat, m: nat, start: nat, end: nat, g: seq<Interval>)
    requires Canonical(g0) && gi <= m < |g0| && Edited(g0, gi, m, start, end, g) && end < MAX_BYTE_COUNT
    ensures |g| > 0
  {
    LastGap(g0, m);
  }

  lemma CanonicalIntro(g: seq<Interval>)
    requires |g| > 0 && g[|g| - 1].end == MAX_BYTE_COUNT
    requires forall i :: 0 <= i < |g| ==> g[i].start < g[i].end
    requires forall i, j :: 0 <= i < j < |g| ==> g[i].end < g[j].start
    ensures Canonical(g)
  {
  }

  lemma EditedMissing(g0: seq<Interval>, gi: nat, m: nat, start: nat, end: nat, g: seq<Interval>, x: int)
    requires Canonical(g0) && gi <= m < |g0| && Edited(g0, gi, m, start, end, g)
    requires g0[gi].start <= start < g0[gi].end && start < end && g0[m].start < end <= g0[m].end
    ensures Missing(g, x) <==> Missing(g0, x) && !(start <= x < end)
  {
    hide Canonical;
    LastGap(g0, gi);
    LastGap(g0, m);
    GapOrder(g0, gi, m);
    if j :| 0 <= j < |g| && g[j].start <= x < g[j].end {
      EditedFrom(g0, gi, m, start, end, g, x, j);
    }
    if i :| 0 <= i < |g0| && g0[i].start <= x < g0[i].end && !(start <= x < end) {
      EditedTo(g0, gi, m, start, end, g, x, i);
    }
  }

  lemma EditedFrom(g0: seq<Interval>, gi: nat, m: nat, start: nat, end: nat, g: seq<Interval>, x: int, j: nat)
    requires Canonical(g0) && gi <= m < |g0| && Edited(g0, gi, m, start, end, g)
    requires g0[gi].start <= start < g0[gi].end && start < end && g0[m].start < end <= g0[m].end
    requires j < |g| && g[j].start <= x < g[j].end
    ensures Missing(g0, x) && !(start <= x < end)
  {
    hide Canonical;
    var i := Origin(g0, gi, m, start, end, j);
    EditedPart(g0, gi, m, start, end, g, j);
    MissingAt(g0, i, x);
    if i < gi { GapOrder(g0, i, gi); }
    if i > m { GapOrder(g0, m, i); }
  }

  lemma EditedTo(g0: seq<Interval>, gi: nat, m: nat, start: nat, end: nat, g: seq<Interval>, x: int, i: nat)
    requires Canonical(g0) && gi <= m < |g0| && Edited(g0, gi, m, start, end, g)
    requires g0[gi].start <= start < g0[gi].end && start < end && g0[m].start < end <= g0[m].end
    requires i < |g0| && g0[i].start <= x < g0[i].end && !(start <= x < end)
    ensures Missing(g, x)
  {
    hide Canonical;
    var l := if g0[gi].start < start then 1 else 0;
    var r := if end < g0[m].end then 1 else 0;
    LastGap(g0, gi);
    GapOrder(g0, gi, if gi < i then i else gi);
    GapOrder(g0, if i < m then i else m, m);
    var j := if i < gi then i else if i == gi && x < start then gi else if i <= m then gi + l
      else i - m - 1 + gi + l + r;
    MissingAt(g, j, x);
  }

  lemma EditedFilled(g0: seq<Interval>, gi: nat, m: nat, start: nat, end: nat, g: seq<Interval>)
    requires Canonical(g0) && gi <= m < |g0| && Edited(g0, gi, m, start, end, g)
    requires g0[gi].start <= start < g0[gi].end && start < end && g0[m].start < end <= g0[m].end
    requires end < MAX_BYTE_COUNT
    ensures Filled(g0, start, end, g)
  {
    EditedCanonical(g0, gi, m, start, end, g);
    forall x: int ensures Missing(g, x) <==> Missing(g0, x) && !(start <= x < end) {
      EditedMissing(g0, gi, m, start, end, g, x);
    }
  }

  // ---------------------------------------------------------------- lemmas for Push

  // Where the bytes of f that an already queued frame at the same offset holds end.
  function KnownEnd(s: State, f: Frame): nat
  {
    if f.offset in s.queued then f.offset + |s.queued[f.offset].data| else f.offset
  }

  lemma PushEmpty(s: State, f: Frame)
    requires f.data == []
    ensures f.fin ==> PushSpec(s, f, s.(queued := s.queued[f.offset := f]), Ok)
    ensures !f.fin ==> PushSpec(s, f, s, Empty)
  {
  }

  lemma KnownHead(s: State, f: Frame)
    requires Valid(s)
    ensures forall x :: f.offset <= x < KnownEnd(s, f) ==> !Missing(s.gaps, x)
    ensures Missing(s.gaps, MAX_BYTE_COUNT - 1) && Canonical(s.gaps)
  {
    LastGap(s.gaps, |s.gaps| - 1);
  }

  lemma PushDuplicate(s: State, f: Frame)
    requires f.data != [] && forall x :: f.offset <= x < f.End() ==> !Missing(s.gaps, x)
    ensures PushSpec(s, f, s, Duplicate)
  {
  }

  lemma MissingAt(gaps: seq<Interval>, i: nat, x: int)
    requires i < |gaps| && gaps[i].start <= x < gaps[i].end
    ensures Missing(gaps, x)
  {
  }

  // Nothing is missing between the gap before i and gap i.
  lemma Received(gaps: seq<Interval>, i: nat, x: int)
    requires Canonical(gaps) && i <= |gaps|
    requires i > 0 ==> gaps[i - 1].end <= x
    requires i < |gaps| ==> x < gaps[i].start
    ensures !Missing(gaps, x)
  {
    hide Canonical;
    forall j | 0 <= j < |gaps| ensures !(gaps[j].start <= x < gaps[j].end) {
      LastGap(gaps, j);
      if j < i { GapOrder(gaps, j, i - 1); LastGap(gaps, i - 1); } else { GapOrder(gaps, i, j); LastGap(gaps, i); }
    }
  }

  lemma NothingMissing(s: State, f: Frame, gi: nat)
    requires Valid(s) && gi < |s.gaps| && KnownEnd(s, f) <= f.End() <= s.gaps[gi].start
    requires forall j :: 0 <= j < gi ==> s.gaps[j].end < KnownEnd(s, f)
    ensures forall x :: f.offset <= x < f.End() ==> !Missing(s.gaps, x)
  {
    KnownHead(s, f);
    forall x | KnownEnd(s, f) <= x < f.End() ensures !Missing(s.gaps, x) {
      Received(s.gaps, gi, x);
    }
  }

  // Each gap but the last is followed by a queued frame, so what is new in a frame never starts
  // at the end of a gap.
  lemma GapFound(s: State, f: Frame, gi: nat)
    requires Valid(s) && gi <= |s.gaps| && KnownEnd(s, f) < f.End() <= MAX_BYTE_COUNT
    requires forall j :: 0 <= j < gi ==> s.gaps[j].end < KnownEnd(s, f)
    requires gi < |s.gaps| ==> KnownEnd(s, f) <= s.gaps[gi].end
    ensures gi < |s.gaps| && KnownEnd(s, f) < s.gaps[gi].end && Canonical(s.gaps)
  {
    hide Missing, Canonical, Valid;
    KnownHead(s, f);
    LastGap(s.gaps, |s.gaps| - 1);
    assert gi < |s.gaps|;
    LastGap(s.gaps, gi);
    MissingAt(s.gaps, gi, s.gaps[gi].end - 1);
    if gi + 1 < |s.gaps| { GapEndQueued(s, gi); }
  }

  lemma GapEndQueued(s: State, i: nat)
    requires Valid(s) && i + 1 < |s.gaps|
    ensures s.gaps[i].end in s.queued && s.queued[s.gaps[i].end].data != []
  {
    hide Missing, Canonical;
    var a, b := s.gaps[i].end, s.gaps[i + 1].start;
    GapEndStartsRun(s.gaps, i);
    LastGap(s.gaps, i);
    LastGap(s.gaps, i + 1);
    MissingAt(s.gaps, i + 1, b);
    forall x | a <= x < b ensures !Missing(s.gaps, x) { Received(s.gaps, i + 1, x); }
    assert IsRun(s, a, b);
  }

  // The span from the first to the last missing byte of f.
  lemma SpanFound(s: State, f: Frame, gi: nat, m: nat, lo: nat, hi: nat)
    requires Valid(s) && gi <= m && StartsIn(s, f, gi, lo) && EndsIn(s, f, m, hi) && lo < hi
    ensures lo == FirstMissing(s.gaps, f.offset, f.End())
    ensures hi == PastLastMissing(s.gaps, f.offset, f.End())
  {
    hide Valid, Canonical, Missing, FirstMissing, PastLastMissing;
    KnownHead(s, f);
    assert Missing(s.gaps, lo) by { MissingAt(s.gaps, gi, lo); }
    assert Missing(s.gaps, hi - 1) by { LastGap(s.gaps, m); MissingAt(s.gaps, m, hi - 1); }
    forall x | KnownEnd(s, f) <= x < lo ensures !Missing(s.gaps, x) {
      Received(s.gaps, gi, x);
    }
    forall x | hi <= x < f.End() ensures !Missing(s.gaps, x) {
      Received(s.gaps, m + 1, x);
    }
  }

  lemma InGapEnds(gaps: seq<Interval>, lo: nat, hi: nat, k: nat)
    requires lo <= hi <= |gaps|
    ensures k in GapEnds(gaps, lo, hi) <==> exists j :: lo <= j < hi && gaps[j].end == k
  {
  }

  lemma BridgedBy(queued: map<nat, Frame>, gaps: seq<Interval>, gi: nat, m: nat, lo: nat, hi: nat)
    requires Canonical(gaps) && gi <= m < |gaps|
    requires gaps[gi].start <= lo < gaps[gi].end && gaps[m].start < hi <= gaps[m].end
    ensures queued - GapEnds(gaps, gi, m) == Bridged(queued, gaps, lo, hi)
  {
    forall k: nat ensures k in GapEnds(gaps, gi, m) <==> lo < k < hi && RunStart(gaps, k) {
      InGapEnds(gaps, gi, m, k);
      RunStartIsGapEnd(gaps, gi, m, lo, hi, k);
    }
  }

  lemma RunStartIsGapEnd(gaps: seq<Interval>, gi: nat, m: nat, lo: nat, hi: nat, k: nat)
    requires Canonical(gaps) && gi <= m < |gaps|
    requires gaps[gi].start <= lo < gaps[gi].end && gaps[m].start < hi <= gaps[m].end
    ensures (exists j :: gi <= j < m && gaps[j].end == k) <==> lo < k < hi && RunStart(gaps, k)
  {
    if j :| gi <= j < m && gaps[j].end == k {
      GapEndStartsRun(gaps, j);
      GapOrder(gaps, gi, j);
      GapOrder(gaps, j, m);
    }
    if lo < k < hi && RunStart(gaps, k) {
      var j :| 0 <= j < |gaps| && gaps[j].start <= k - 1 < gaps[j].end;
      GapOrder(gaps, if j < gi then j else gi, gi);
      GapOrder(gaps, if m < j then m else j, j);
      assert gaps[j].end == k;
    }
  }

  lemma GapEndStartsRun(gaps: seq<Interval>, j: nat)
    requires Canonical(gaps) && j + 1 < |gaps|
    ensures RunStart(gaps, gaps[j].end)
  {
    LastGap(gaps, j);
    Received(gaps, j + 1, gaps[j].end);
  }

  lemma PushFilled(s: State, f: Frame, lo: nat, hi: nat, gaps': seq<Interval>)
    requires f.data != [] && f.offset <= lo < hi <= f.End()
    requires lo == FirstMissing(s.gaps, f.offset, f.End())
    requires hi == PastLastMissing(s.gaps, f.offset, f.End())
    requires Filled(s.gaps, lo, hi, gaps')
    ensures |gaps'| > MAX_SORTER_GAPS ==>
      PushSpec(s, f, State(Bridged(s.queued, s.gaps, lo, hi), s.readPosition, gaps'), TooManyGaps)
    ensures |gaps'| <= MAX_SORTER_GAPS ==>
      PushSpec(s, f, State(Bridged(s.queued, s.gaps, lo, hi)[lo := f.Slice(lo, hi)], s.readPosition, gaps'), Ok)
  {
    assert Filled(s.gaps, f.offset, f.End(), gaps');
  }

  lemma PushDone(s: State, f: Frame, gi: nat, m: nat, lo: nat, hi: nat, gaps': seq<Interval>)
    requires Valid(s) && gi <= m && StartsIn(s, f, gi, lo) && EndsIn(s, f, m, hi) && lo < hi < MAX_BYTE_COUNT
    requires Edited(s.gaps, gi, m, lo, hi, gaps')
    ensures var q := s.queued - GapEnds(s.gaps, gi, m);
      if |gaps'| > MAX_SORTER_GAPS then PushSpec(s, f, State(q, s.readPosition, gaps'), TooManyGaps)
      else PushSpec(s, f, State(q[lo := f.Slice(lo, hi)], s.readPosition, gaps'), Ok)
  {
    hide Valid, Canonical, PushSpec, Missing, Filled, Bridged, FirstMissing, PastLastMissing, Edited, GapEnds;
    KnownHead(s, f);
    LastGap(s.gaps, m);
    SpanFound(s, f, gi, m, lo, hi);
    EditedFilled(s.gaps, gi, m, lo, hi, gaps');
    BridgedBy(s.queued, s.gaps, gi, m, lo, hi);
    PushFilled(s, f, lo, hi, gaps');
  }
}
