// What every push and pop of a frame sorter keeps, and what a whole run of them delivers.
module SorterProps {
  import opened Common
  import opened Frames
  import opened Sorter

  // ---------------------------------------------------------------- chains of queued frames

  lemma {:induction false} TiledConcat(queued: map<nat, Frame>, a: nat, b: nat, c: nat)
    requires Tiled(queued, a, b) && Tiled(queued, b, c)
    ensures Tiled(queued, a, c)
    decreases b - a
  {
    if a < b { TiledConcat(queued, a + |queued[a].data|, b, c); }
  }

  // A chain only depends on the non-empty frames inside its span.
  lemma {:induction false} TiledFrame(queued: map<nat, Frame>, queued': map<nat, Frame>, a: nat, b: nat)
    requires Tiled(queued, a, b)
    requires forall k :: a <= k < b && k in queued && queued[k].data != [] ==> k in queued' && queued'[k] == queued[k]
    ensures Tiled(queued', a, b)
    decreases b - a
  {
    if a < b { TiledFrame(queued, queued', a + |queued[a].data|, b); }
  }

  // k is the offset of one of the frames of the chain from a to b.
  ghost predicate OnChain(queued: map<nat, Frame>, a: nat, b: nat, k: nat)
    requires Tiled(queued, a, b)
    decreases b - a
  {
    a < b && (k == a || OnChain(queued, a + |queued[a].data|, b, k))
  }

  lemma {:induction false} TiledWithoutKey(queued: map<nat, Frame>, a: nat, b: nat, f: Frame)
    requires Tiled(queued, a, b) && f.data == []
    ensures Tiled(queued[f.offset := f], a, b) <==> !OnChain(queued, a, b, f.offset)
    decreases b - a
  {
    if a < b { TiledWithoutKey(queued, a + |queued[a].data|, b, f); }
  }

  // ---------------------------------------------------------------- pushes and pops keep the invariant

  // A zero-length FIN frame replaces whatever is queued at its offset.
  ghost predicate Overwrites(s: State, f: Frame)
  {
    f.data == [] && f.fin && f.offset in s.queued && s.queued[f.offset].data != []
  }

  lemma EmptyPushFacts(s: State, f: Frame, s': State, r: PushResult)
    requires f.data == [] && PushSpec(s, f, s', r)
    ensures s'.gaps == s.gaps && s'.readPosition == s.readPosition
    ensures s'.queued == if f.fin then s.queued[f.offset := f] else s.queued
  {
  }

  // The facts about an accepted push of new bytes that the proofs below need.
  lemma PushFacts(s: State, f: Frame, s': State, lo: nat, hi: nat)
    requires f.data != [] && PushSpec(s, f, s', Ok)
    requires lo == FirstMissing(s.gaps, f.offset, f.End())
    requires hi == PastLastMissing(s.gaps, f.offset, f.End())
    ensures f.offset <= lo < hi <= f.End()
    ensures Missing(s.gaps, lo) && Missing(s.gaps, hi - 1)
    ensures forall x: int :: Missing(s'.gaps, x) <==> Missing(s.gaps, x) && !(lo <= x < hi)
    ensures lo in s'.queued && s'.queued[lo] == f.Slice(lo, hi)
    ensures forall k :: k in s.queued && !(lo <= k < hi) ==> k in s'.queued && s'.queued[k] == s.queued[k]
    ensures forall k :: k in s'.queued && k != lo ==> k in s.queued && s'.queued[k] == s.queued[k]
    ensures s'.readPosition == s.readPosition && Canonical(s'.gaps)
  {
    hide Missing, Canonical, FirstMissing, PastLastMissing, RunStart;
  }

  lemma PushKeepsRun(s: State, f: Frame, s': State, lo: nat, hi: nat, a: nat, b: nat)
    requires Valid(s) && f.data != [] && PushSpec(s, f, s', Ok)
    requires lo == FirstMissing(s.gaps, f.offset, f.End())
    requires hi == PastLastMissing(s.gaps, f.offset, f.End())
    requires IsRun(s', a, b)
    ensures Tiled(s'.queued, a, b)
  {
    hide Missing, Canonical, PushSpec, FirstMissing, PastLastMissing;
    PushFacts(s, f, s', lo, hi);
    if b <= lo || hi <= a {
      assert IsRun(s, a, b);
      TiledFrame(s.queued, s'.queued, a, b);
    } else {
      assert a <= lo && hi <= b;
      if a < lo {
        assert IsRun(s, a, lo);
        TiledFrame(s.queued, s'.queued, a, lo);
      }
      assert Tiled(s'.queued, lo, hi);
      TiledConcat(s'.queued, a, lo, hi);
      if hi < b {
        assert IsRun(s, hi, b);
        TiledFrame(s.queued, s'.queued, hi, b);
        TiledConcat(s'.queued, a, hi, b);
      }
    }
  }

  lemma NewBytesKeepValid(s: State, f: Frame, s': State)
    requires Valid(s) && f.data != [] && PushSpec(s, f, s', Ok)
    ensures Valid(s')
  {
    hide Missing, Canonical, PushSpec, FirstMissing, PastLastMissing, Tiled, IsRun;
    var lo := FirstMissing(s.gaps, f.offset, f.End());
    var hi := PastLastMissing(s.gaps, f.offset, f.End());
    PushFacts(s, f, s', lo, hi);
    forall a: nat, b: nat | IsRun(s', a, b) ensures Tiled(s'.queued, a, b) {
      PushKeepsRun(s, f, s', lo, hi, a, b);
    }
  }

  lemma FinKeepsQueue(s: State, f: Frame)
    requires Valid(s) && f.data == []
    ensures QueuedReceived(s.queued[f.offset := f], s.gaps)
    ensures forall a, b :: IsRun(s.(queued := s.queued[f.offset := f]), a, b) <==> IsRun(s, a, b)
  {
    hide Missing;
  }

  /** A zero-length FIN keeps the sorter well formed exactly if its offset is not the offset of a
      frame that some received run is read through. */
  lemma FinKeepsValidIff(s: State, f: Frame)
    requires Valid(s) && f.data == []
    ensures Valid(s.(queued := s.queued[f.offset := f])) <==>
      forall a, b :: IsRun(s, a, b) ==> !OnChain(s.queued, a, b, f.offset)
  {
    hide Missing, IsRun, Tiled, OnChain, Canonical, QueuedReceived;
    FinKeepsQueue(s, f);
    var s' := s.(queued := s.queued[f.offset := f]);
    forall a: nat, b: nat | IsRun(s, a, b)
      ensures Tiled(s'.queued, a, b) <==> !OnChain(s.queued, a, b, f.offset)
    {
      TiledWithoutKey(s.queued, a, b, f);
    }
    if Valid(s') {
      forall a: nat, b: nat | IsRun(s, a, b) ensures !OnChain(s.queued, a, b, f.offset) {
        assert IsRun(s', a, b);
      }
    }
    if forall a, b :: IsRun(s, a, b) ==> !OnChain(s.queued, a, b, f.offset) {
      forall a: nat, b: nat | IsRun(s', a, b) ensures Tiled(s'.queued, a, b) {
        assert IsRun(s, a, b);
      }
      assert RunsTiled(s');
    }
  }

  /** A FIN that hides data: the byte at 0 has arrived, a bare FIN at 0 takes its place in the queue,
      and a reader finds a head without data there. */
  lemma FinHidesData(b: Byte, s1: State, s2: State)
    requires PushSpec(Init(), Frame(5, false, true, 0, [b]), s1, Ok)
    requires PushSpec(s1, Frame(5, true, true, 0, []), s2, Ok)
    ensures !Missing(s2.gaps, s2.readPosition) && HeadOf(s2) == Some(Frame(5, true, true, 0, [])) && !Valid(s2)
  {
    hide PushSpec, Missing, FirstMissing, PastLastMissing, Valid;
    var f := Frame(5, false, true, 0, [b]);
    InitValid();
    PushFacts(Init(), f, s1, FirstMissing(Init().gaps, 0, 1), PastLastMissing(Init().gaps, 0, 1));
    EmptyPushFacts(s1, Frame(5, true, true, 0, []), s2, Ok);
    if Valid(s2) { HeadIffReceived(s2); }
  }

  lemma {:induction false} ChainIsNonEmpty(queued: map<nat, Frame>, a: nat, b: nat, k: nat)
    requires Tiled(queued, a, b) && OnChain(queued, a, b, k)
    ensures k in queued && queued[k].data != []
    decreases b - a
  {
    if k != a { ChainIsNonEmpty(queued, a + |queued[a].data|, b, k); }
  }

  /** Every accepted push keeps the sorter well formed, unless a FIN replaces queued data. */
  lemma PushKeepsValid(s: State, f: Frame, s': State, r: PushResult)
    requires Valid(s) && PushSpec(s, f, s', r) && r != TooManyGaps && !Overwrites(s, f)
    ensures Valid(s')
  {
    if f.data != [] {
      if r == Ok { NewBytesKeepValid(s, f, s'); }
    } else if f.fin {
      forall a: nat, b: nat | IsRun(s, a, b) ensures !OnChain(s.queued, a, b, f.offset) {
        if OnChain(s.queued, a, b, f.offset) { ChainIsNonEmpty(s.queued, a, b, f.offset); }
      }
      FinKeepsValidIff(s, f);
    }
  }

  lemma PopKeepsValid(s: State)
    requires Valid(s)
    ensures Valid(Popped(s))
  {
    hide Missing, Canonical;
    var s' := Popped(s);
    if HeadOf(s).Some? {
      forall a: nat, b: nat | IsRun(s', a, b) ensures Tiled(s'.queued, a, b) {
        if a == s'.readPosition {
          assert IsRun(s, s.readPosition, b);
        } else {
          assert IsRun(s, a, b);
        }
        TiledFrame(s.queued, s'.queued, a, b);
      }
    }
  }

  // A push leaves a non-empty frame at the head alone.
  lemma PushKeepsHead(s: State, f: Frame, s': State, r: PushResult)
    requires Valid(s) && PushSpec(s, f, s', r) && r != TooManyGaps && !Overwrites(s, f)
    requires HeadOf(s).Some? && HeadOf(s).value.data != []
    ensures HeadOf(s') == HeadOf(s)
  {
    hide Missing, PushSpec, FirstMissing, PastLastMissing;
    if f.data == [] {
      EmptyPushFacts(s, f, s', r);
    } else if r == Ok {
      var lo := FirstMissing(s.gaps, f.offset, f.End());
      var hi := PastLastMissing(s.gaps, f.offset, f.End());
      PushFacts(s, f, s', lo, hi);
      assert !Missing(s.gaps, s.readPosition);
    } else {
      DuplicateFacts(s, f, s', r);
    }
  }

  /** The head of the queue holds data exactly if the byte at the read position has arrived. */
  lemma HeadIffReceived(s: State)
    requires Valid(s)
    ensures (HeadOf(s).Some? && HeadOf(s).value.data != []) <==> !Missing(s.gaps, s.readPosition)
  {
    hide Missing, Canonical;
    assert Missing(s.gaps, MAX_BYTE_COUNT - 1) by { LastMissing(s.gaps); }
    assert s.readPosition < MAX_BYTE_COUNT;
    var b := FirstMissing(s.gaps, s.readPosition, MAX_BYTE_COUNT);
    assert b < MAX_BYTE_COUNT;
    assert IsRun(s, s.readPosition, b);
  }

  lemma LastMissing(gaps: seq<Interval>)
    requires Canonical(gaps)
    ensures Missing(gaps, MAX_BYTE_COUNT - 1)
  {
    MissingAt(gaps, |gaps| - 1, MAX_BYTE_COUNT - 1);
  }

  // ---------------------------------------------------------------- the gap list is canonical

  /** The missing bytes determine the gap list, so a push has exactly one outcome. */
  lemma PushDeterministic(s: State, f: Frame, s1: State, r1: PushResult, s2: State, r2: PushResult)
    requires PushSpec(s, f, s1, r1) && PushSpec(s, f, s2, r2)
    ensures s1 == s2 && r1 == r2
  {
    if f.data != [] && r1 != Duplicate {
      assert forall x: int :: Missing(s1.gaps, x) <==> Missing(s2.gaps, x);
      CanonicalUnique(s1.gaps, s2.gaps);
    }
  }

  lemma {:induction false} CanonicalUnique(g: seq<Interval>, h: seq<Interval>)
    requires Canonical(g) && Canonical(h)
    requires forall x: int :: Missing(g, x) <==> Missing(h, x)
    ensures g == h
  {
    hide Missing;
    FirstGapUnique(g, h);
    if |g| > 1 && |h| > 1 {
      forall x: int ensures Missing(g[1..], x) <==> Missing(h[1..], x) {
        MissingTail(g, x);
        MissingTail(h, x);
      }
      CanonicalUnique(g[1..], h[1..]);
      assert g == [g[0]] + g[1..] && h == [h[0]] + h[1..];
    } else {
      LastGap(g, 0);
      LastGap(h, 0);
    }
  }

  lemma FirstGapUnique(g: seq<Interval>, h: seq<Interval>)
    requires Canonical(g) && Canonical(h)
    requires forall x: int :: Missing(g, x) <==> Missing(h, x)
    ensures g[0] == h[0]
  {
    hide Missing, Canonical;
    FirstGap(g);
    FirstGap(h);
    assert Missing(h, g[0].start) && Missing(g, h[0].start);
    assert !Missing(h, g[0].end) && !Missing(g, h[0].end);
  }

  // What tells the first gap apart from any other interval.
  lemma FirstGap(g: seq<Interval>)
    requires Canonical(g)
    ensures |g| > 0 && g[0].start < g[0].end
    ensures forall x: int :: g[0].start <= x < g[0].end ==> Missing(g, x)
    ensures forall x: int :: x < g[0].start ==> !Missing(g, x)
    ensures !Missing(g, g[0].end)
  {
    hide Missing;
    LastGap(g, 0);
    forall x: int | g[0].start <= x < g[0].end ensures Missing(g, x) { MissingAt(g, 0, x); }
    forall x: int | x < g[0].start ensures !Missing(g, x) { Received(g, 0, x); }
    Received(g, 1, g[0].end);
  }

  lemma MissingTail(g: seq<Interval>, x: int)
    requires Canonical(g) && |g| > 1
    ensures Missing(g[1..], x) <==> Missing(g, x) && g[0].end <= x
    ensures Canonical(g[1..])
  {
    if i :| 0 <= i < |g| && g[i].start <= x < g[i].end && g[0].end <= x {
      assert g[1..][i - 1].start <= x;
    }
  }

  // ---------------------------------------------------------------- FIN

  // Every queued frame that carries FIN ends at n.
  ghost predicate FinAtEnd(s: State, n: nat)
  {
    forall k :: k in s.queued && s.queued[k].fin ==> s.queued[k].End() == n
  }

  /** A FIN that ends at n still marks n after the push exactly if the last byte of its frame is
      new: otherwise the tail of the frame is cut off and FIN stays on what is left. */
  lemma FinSurvivesIff(s: State, f: Frame, s': State, n: nat)
    requires f.data != [] && PushSpec(s, f, s', Ok) && FinAtEnd(s, n) && (f.fin ==> f.End() == n)
    ensures FinAtEnd(s', n) <==> (f.fin ==> Missing(s.gaps, f.End() - 1))
  {
    hide Missing, PushSpec, FirstMissing, PastLastMissing;
    var lo := FirstMissing(s.gaps, f.offset, f.End());
    var hi := PastLastMissing(s.gaps, f.offset, f.End());
    PushFacts(s, f, s', lo, hi);
  }

  // ---------------------------------------------------------------- runs

  datatype Event = Push(frame: Frame, result: PushResult) | Pop

  ghost predicate Step(s: State, e: Event, s': State)
  {
    match e
    case Push(f, r) => (f.data == [] || f.End() < MAX_BYTE_COUNT) && PushSpec(s, f, s', r)
    case Pop => s' == Popped(s)
  }

  ghost predicate IsTrace(states: seq<State>, events: seq<Event>)
  {
    && |states| == |events| + 1 && states[0] == Init()
    && forall i :: 0 <= i < |events| ==> Step(states[i], events[i], states[i + 1])
  }

  // The frame is part of the stream `source`, and a bare FIN marks its end.
  ghost predicate Consistent(source: seq<Byte>, f: Frame)
  {
    f.Agrees(source) && (f.data == [] && f.fin ==> f.offset == |source|)
  }

  // The bytes taken out of the sorter, in order.
  ghost function Output(states: seq<State>, events: seq<Event>): seq<Byte>
    requires |states| == |events| + 1
  {
    if events == [] then [] else
    var n := |events| - 1;
    var head := HeadOf(states[n]);
    Output(states[..n + 1], events[..n]) + if events[n].Pop? && head.Some? then head.value.data else []
  }

  ghost predicate Arrived(events: seq<Event>, x: int)
  {
    exists i :: 0 <= i < |events| && events[i].Push? && events[i].frame.offset <= x < events[i].frame.End()
  }

  ghost predicate Delivered(source: seq<Byte>, s: State, out: seq<Byte>)
  {
    && Valid(s)
    && (forall k :: k in s.queued ==> s.queued[k].Agrees(source))
    && s.readPosition <= |source| && out == source[..s.readPosition]
  }

  lemma StepDelivers(source: seq<Byte>, s: State, e: Event, s': State, out: seq<Byte>)
    requires |source| < MAX_BYTE_COUNT && Delivered(source, s, out) && Step(s, e, s')
    requires e.Push? ==> Consistent(source, e.frame) && e.result != TooManyGaps
    ensures Delivered(source, s', out + if e.Pop? && HeadOf(s).Some? then HeadOf(s).value.data else [])
  {
    hide Missing, Canonical, PushSpec, IsRun, Tiled, Valid;
    KeysAreOffsets(s);
    match e
    case Push(f, r) =>
      PushKeepsValid(s, f, s', r);
      PushKeepsSource(source, s, f, s', r);
    case Pop =>
      PopKeepsValid(s);
  }

  lemma KeysAreOffsets(s: State)
    requires Valid(s)
    ensures forall k :: k in s.queued ==> s.queued[k].offset == k
  {
  }

  lemma SliceAgrees(source: seq<Byte>, f: Frame, lo: nat, hi: nat)
    requires f.Agrees(source) && f.offset <= lo <= hi <= f.End()
    ensures f.Slice(lo, hi).Agrees(source)
  {
    SliceOfSlice(source, f.offset, f.End(), lo - f.offset, hi - f.offset);
  }

  lemma SliceOfSlice(s: seq<Byte>, a: nat, b: nat, i: nat, j: nat)
    requires i <= j <= b - a && b <= |s|
    ensures s[a..b][i..j] == s[a + i..a + j]
  {
    forall k | 0 <= k < j - i
      ensures s[a..b][i..j][k] == s[a + i..a + j][k]
    {
    }
  }

  lemma PushKeepsSource(source: seq<Byte>, s: State, f: Frame, s': State, r: PushResult)
    requires PushSpec(s, f, s', r) && r != TooManyGaps && f.Agrees(source)
    requires forall k :: k in s.queued ==> s.queued[k].Agrees(source)
    ensures forall k :: k in s'.queued ==> s'.queued[k].Agrees(source)
    ensures s'.readPosition == s.readPosition
  {
    hide Missing, PushSpec, FirstMissing, PastLastMissing;
    if f.data == [] {
      EmptyPushFacts(s, f, s', r);
    } else if r == Ok {
      var lo := FirstMissing(s.gaps, f.offset, f.End());
      var hi := PastLastMissing(s.gaps, f.offset, f.End());
      PushFacts(s, f, s', lo, hi);
      SliceAgrees(source, f, lo, hi);
    } else {
      DuplicateFacts(s, f, s', r);
    }
  }

  /** A push is reported as a duplicate exactly if the frame has data and none of it is new, and
      then it changes nothing. */
  lemma DuplicateFacts(s: State, f: Frame, s': State, r: PushResult)
    requires PushSpec(s, f, s', r)
    ensures r == Duplicate <==> f.data != [] && forall x :: f.offset <= x < f.End() ==> !Missing(s.gaps, x)
    ensures r == Duplicate ==> s' == s
    ensures r != BugNoGap && r != BugNoEndGap && (f.data != [] ==> r != Empty)
  {
  }

  // What a run has received and handed out, against the stream the frames were cut from.
  ghost predicate RunDelivers(source: seq<Byte>, states: seq<State>, events: seq<Event>)
    requires |states| == |events| + 1
  {
    var s := states[|events|];
    && Delivered(source, s, Output(states, events))
    && forall x :: 0 <= x < MAX_BYTE_COUNT ==> (Missing(s.gaps, x) <==> !Arrived(events, x))
  }

  /** For every run of pushes of frames of one stream and of pops, in any order: the gaps are in
      normal form and exactly the bytes that have not arrived, every received run is tiled by
      queued frames, and the popped data is the prefix of the stream up to the read position. */
  lemma {:induction false} SorterDelivers(source: seq<Byte>, states: seq<State>, events: seq<Event>)
    requires |source| < MAX_BYTE_COUNT && IsTrace(states, events)
    requires forall i :: 0 <= i < |events| && events[i].Push? ==>
      Consistent(source, events[i].frame) && events[i].result != TooManyGaps
    ensures RunDelivers(source, states, events)
  {
    hide Missing, Step, Valid;
    if events == [] {
      InitValid();
    } else {
      var n := |events| - 1;
      var ss, es := states[..n + 1], events[..n];
      assert IsTrace(ss, es);
      SorterDelivers(source, ss, es);
      StepDelivers(source, states[n], events[n], states[n + 1], Output(ss, es));
      forall x | 0 <= x < MAX_BYTE_COUNT ensures Missing(states[n + 1].gaps, x) <==> !Arrived(events, x) {
        StepMissing(states[n], events[n], states[n + 1], x);
        ArrivedSnoc(es, events[n], x);
        assert events == es + [events[n]];
      }
    }
  }

  lemma StepMissing(s: State, e: Event, s': State, x: int)
    requires Step(s, e, s') && (e.Push? ==> e.result != TooManyGaps)
    ensures Missing(s'.gaps, x) <==>
      Missing(s.gaps, x) && !(e.Push? && e.frame.offset <= x < e.frame.End())
  {
  }

  lemma ArrivedSnoc(events: seq<Event>, e: Event, x: int)
    ensures Arrived(events + [e], x) <==>
      Arrived(events, x) || (e.Push? && e.frame.offset <= x < e.frame.End())
  {
    var all := events + [e];
    if i :| 0 <= i < |events| && events[i].Push? && events[i].frame.offset <= x < events[i].frame.End() {
      assert all[i] == events[i];
    }
    if e.Push? && e.frame.offset <= x < e.frame.End() {
      assert all[|events|] == e;
    }
  }
}
