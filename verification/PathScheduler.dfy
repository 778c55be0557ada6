// Choosing the path for the next packet: lowest latency, and earliest completion first.
module PathScheduler {
  import opened Common

  type PathID = nat

  /** What the schedulers look at: times in nanoseconds, the window in bytes. An RTT of 0 means that
      the path has not been probed yet. */
  datatype Path = Path(rtt: nat, deviation: nat, cwnd: nat, failed: bool, allowed: bool)

  type Paths = map<PathID, Path>

  // A map is walked in some order that visits every key once.
  ghost predicate IsOrder(order: seq<PathID>, paths: Paths)
  {
    && (forall i, j :: 0 <= i < j < |order| ==> order[i] != order[j])
    && (forall id :: id in order <==> id in paths)
  }

  function Quota(quotas: map<PathID, nat>, id: PathID): nat
  {
    if id in quotas then quotas[id] else 0
  }

  // Looking a quota up may store a 0, which changes no quota.
  ghost predicate SameQuotas(q: map<PathID, nat>, q': map<PathID, nat>)
  {
    forall id :: Quota(q', id) == Quota(q, id)
  }

  // A path other than the initial one and `from` that has sent fewer packets than `from`.
  predicate LessUsed(quotas: map<PathID, nat>, from: PathID, id: PathID)
  {
    id != 0 && id != from && Quota(quotas, id) < Quota(quotas, from)
  }

  // ---------------------------------------------------------------- low latency

  predicate Eligible(paths: Paths, hasRetransmission: bool, id: PathID)
  {
    id in paths && (hasRetransmission || paths[id].allowed) && !paths[id].failed && id != 0
  }

  // Among ids, a probed path of least RTT if there is a probed one, else one of least quota.
  ghost predicate IsBest(paths: Paths, quotas: map<PathID, nat>, hasRetransmission: bool, ids: seq<PathID>,
                         best: Option<PathID>)
  {
    && (best.None? <==> forall id :: id in ids ==> !Eligible(paths, hasRetransmission, id))
    && (best.Some? ==>
        && best.value in ids && Eligible(paths, hasRetransmission, best.value)
        && forall id :: id in ids && Eligible(paths, hasRetransmission, id) ==>
             NotBetter(paths, quotas, id, best.value))
  }

  predicate NotBetter(paths: Paths, quotas: map<PathID, nat>, id: PathID, best: PathID)
    requires id in paths && best in paths
  {
    if paths[id].rtt > 0 then 0 < paths[best].rtt <= paths[id].rtt
    else paths[best].rtt == 0 ==> Quota(quotas, best) <= Quota(quotas, id)
  }

  lemma BestSkip(paths: Paths, quotas: map<PathID, nat>, h: bool, ids: seq<PathID>, id: PathID, best: Option<PathID>)
    requires IsBest(paths, quotas, h, ids, best)
    requires !Eligible(paths, h, id) || (best.Some? && best.value in paths && NotBetter(paths, quotas, id, best.value))
    ensures IsBest(paths, quotas, h, ids + [id], best)
  {
  }

  lemma BestTake(paths: Paths, quotas: map<PathID, nat>, h: bool, ids: seq<PathID>, id: PathID, best: Option<PathID>)
    requires IsBest(paths, quotas, h, ids, best) && Eligible(paths, h, id)
    requires best.Some? ==> best.value in paths && NotBetter(paths, quotas, best.value, id)
    ensures IsBest(paths, quotas, h, ids + [id], Some(id))
  {
    assert id in ids + [id];
  }

  /** Two orders lead to equally good choices. */
  lemma OrderIndependent(paths: Paths, quotas: map<PathID, nat>, h: bool, order1: seq<PathID>, order2: seq<PathID>,
                         r1: Option<PathID>, r2: Option<PathID>)
    requires IsOrder(order1, paths) && IsOrder(order2, paths)
    requires IsBest(paths, quotas, h, order1, r1) && IsBest(paths, quotas, h, order2, r2)
    ensures r1.None? <==> r2.None?
    ensures r1.Some? ==> r1.value in paths && r2.value in paths && paths[r1.value].rtt == paths[r2.value].rtt
    ensures r1.Some? && paths[r1.value].rtt == 0 ==> Quota(quotas, r1.value) == Quota(quotas, r2.value)
  {
    if r1.Some? { assert Eligible(paths, h, r1.value) && r1.value in order2; }
    if r2.Some? { assert Eligible(paths, h, r2.value) && r2.value in order1; }
  }

  class Scheduler {
    var quotas: map<PathID, nat>
    var waiting: nat

    constructor ()
      ensures quotas == map[] && waiting == 0
    {
      quotas, waiting := map[], 0;
    }

    // A less used path, if there is one.
    method LessUsedPath(paths: Paths, order: seq<PathID>, from: PathID) returns (r: Option<PathID>)
      requires IsOrder(order, paths)
      ensures r.Some? ==> r.value in paths && LessUsed(quotas, from, r.value)
      ensures r.None? ==> forall id :: id in paths ==> !LessUsed(quotas, from, id)
    {
      var currentQuota := Quota(quotas, from);
      for i := 0 to |order|
        invariant forall k :: 0 <= k < i ==> !LessUsed(quotas, from, order[k])
      {
        var id := order[i];
        if id == 0 || id == from {
          continue;
        }
        if Quota(quotas, id) < currentQuota {
          return Some(id);
        }
      }
      return None;
    }

    /** The choice among the eligible paths does not depend on the order in which they are seen. */
    method LowestLatency(paths: Paths, order: seq<PathID>, hasRetransmission: bool) returns (r: Option<PathID>)
      requires IsOrder(order, paths)
      modifies this`quotas
      ensures SameQuotas(old(quotas), quotas)
      ensures IsBest(paths, old(quotas), hasRetransmission, order, r)
    {
      hide IsBest, NotBetter, Eligible;
      var lowerRTT := 0;
      r := None;
      BestOfNone(paths, quotas, hasRetransmission);
      for i := 0 to |order|
        invariant SameQuotas(old(quotas), quotas)
        invariant IsBest(paths, old(quotas), hasRetransmission, order[..i], r)
        invariant r.Some? ==> r.value in paths
        invariant lowerRTT == if r.Some? then paths[r.value].rtt else 0
      {
        var id := order[i];
        assert order[..i + 1] == order[..i] + [id];
        var pth := paths[id];
        StepOfBest(paths, old(quotas), hasRetransmission, order[..i], id, r);
        if !hasRetransmission && !pth.allowed {
          continue;
        }
        if pth.failed {
          continue;
        }
        if id == 0 {
          continue;
        }
        var currentRTT := pth.rtt;
        if lowerRTT != 0 && currentRTT == 0 {
          continue;
        }
        if currentRTT == 0 {
          if id !in quotas {
            quotas := quotas[id := 0];
          }
          if r.Some? && Quota(quotas, id) > Quota(quotas, r.value) {
            continue;
          }
        }
        if currentRTT != 0 && lowerRTT != 0 && r.Some? && currentRTT >= lowerRTT {
          continue;
        }
        lowerRTT := currentRTT;
        r := Some(id);
      }
      assert order[..|order|] == order;
    }

    /** The whole choice: the initial path if it is the only one, a less used path for a packet that
        is resent while its own path is not probed, and the path of lowest latency otherwise. */
    method SelectLowLatency(paths: Paths, order: seq<PathID>, hasRetransmission: bool,
                            hasStreamRetransmission: bool, from: PathID) returns (r: Option<PathID>)
      requires IsOrder(order, paths) && (|paths| <= 1 ==> 0 in paths)
      requires hasRetransmission && hasStreamRetransmission && |paths| > 1 ==> from in paths
      modifies this`quotas
      ensures SameQuotas(old(quotas), quotas)
      ensures |paths| <= 1 ==> r == if hasRetransmission || paths[0].allowed then Some(0) else None
      ensures |paths| > 1 ==>
        if hasRetransmission && hasStreamRetransmission && paths[from].rtt == 0 &&
           exists id :: id in paths && LessUsed(old(quotas), from, id) then
          r.Some? && r.value in paths && LessUsed(old(quotas), from, r.value)
        else IsBest(paths, old(quotas), hasRetransmission, order, r)
    {
      if |paths| <= 1 {
        if !hasRetransmission && !paths[0].allowed {
          return None;
        }
        return Some(0);
      }
      if hasRetransmission && hasStreamRetransmission && paths[from].rtt == 0 {
        r := LessUsedPath(paths, order, from);
        if r.Some? {
          return;
        }
      }
      r := LowestLatency(paths, order, hasRetransmission);
    }

    /** The walk of earliest completion first over the paths. */
    method FindPaths(paths: Paths, order: seq<PathID>) returns (best: Option<PathID>, second: Option<PathID>)
      requires IsOrder(order, paths)
      modifies this`quotas
      ensures SameQuotas(old(quotas), quotas)
      ensures Found(best, second) == Search(paths, old(quotas), order)
    {
      hide Search;
      SearchNone(paths, quotas);
      best, second := None, None;
      var lowerRTT, secondLowerRTT := 0, 0;
      for i := 0 to |order|
        invariant SameQuotas(old(quotas), quotas)
        invariant Found(best, second) == Search(paths, old(quotas), order[..i])
        invariant lowerRTT == RTTOf(paths, best) && secondLowerRTT == RTTOf(paths, second)
      {
        var id := order[i];
        SearchStep(paths, old(quotas), order, i);
        var pth := paths[id];
        if pth.failed {
          continue;
        }
        if id == 0 {
          continue;
        }
        var currentRTT := pth.rtt;
        if lowerRTT != 0 && currentRTT == 0 {
          continue;
        }
        if currentRTT == 0 {
          if id !in quotas {
            quotas := quotas[id := 0];
          }
          if best.Some? && Quota(quotas, id) > Quota(quotas, best.value) {
            continue;
          }
        }
        if currentRTT >= lowerRTT {
          if (secondLowerRTT == 0 || currentRTT < secondLowerRTT) && pth.allowed {
            secondLowerRTT, second := currentRTT, Some(id);
          }
          if currentRTT != 0 && lowerRTT != 0 && best.Some? {
            continue;
          }
        }
        lowerRTT, best := currentRTT, Some(id);
      }
      assert order[..|order|] == order;
    }

    /** Earliest completion first: the initial path if it is the only one, a less used path for a packet
        that is resent while its own path is not probed, the best path if it may send or something is
        resent, and otherwise the second best path unless waiting for the best one is expected to be
        quicker. */
    method SelectEarliestCompletion(paths: Paths, order: seq<PathID>, hasRetransmission: bool,
                                    hasStreamRetransmission: bool, from: PathID, queueSize: nat)
        returns (r: Option<PathID>)
      requires IsOrder(order, paths) && (|paths| <= 1 ==> 0 in paths)
      requires hasRetransmission && hasStreamRetransmission && |paths| > 1 ==> from in paths
      modifies this
      ensures SameQuotas(old(quotas), quotas)
      ensures |paths| <= 1 ==>
        r == (if hasRetransmission || paths[0].allowed then Some(0) else None) && waiting == old(waiting)
      ensures |paths| > 1 ==>
        if hasRetransmission && hasStreamRetransmission && paths[from].rtt == 0 &&
           exists id :: id in paths && LessUsed(old(quotas), from, id) then
          r.Some? && r.value in paths && LessUsed(old(quotas), from, r.value) && waiting == old(waiting)
        else
          var f := Search(paths, old(quotas), order);
          if f.best.None? then r == None && waiting == old(waiting)
          else if hasRetransmission || paths[f.best.value].allowed then r == f.best && waiting == old(waiting)
          else if f.second.None? then r == None && waiting == old(waiting)
          else
            var d := Decide(paths[f.best.value], paths[f.second.value], queueSize, old(waiting));
            r == (if d.send then f.second else None) && waiting == d.waiting
    {
      hide Search, Decide;
      if |paths| <= 1 {
        if !hasRetransmission && !paths[0].allowed {
          return None;
        }
        return Some(0);
      }
      if hasRetransmission && hasStreamRetransmission && paths[from].rtt == 0 {
        r := LessUsedPath(paths, order, from);
        if r.Some? {
          return;
        }
      }
      NoBestNoSecond(paths, quotas, order);
      var best, second := FindPaths(paths, order);
      if best.None? {
        return second;
      }
      if hasRetransmission || paths[best.value].allowed {
        return best;
      }
      if second.None? {
        return None;
      }
      var d := Decide(paths[best.value], paths[second.value], queueSize, waiting);
      waiting := d.waiting;
      return if d.send then second else None;
    }
  }

  lemma BestOfNone(paths: Paths, quotas: map<PathID, nat>, h: bool)
    ensures IsBest(paths, quotas, h, [], None)
  {
  }

  // What one more path does to the choice.
  lemma StepOfBest(paths: Paths, quotas: map<PathID, nat>, h: bool, ids: seq<PathID>, id: PathID, best: Option<PathID>)
    requires IsBest(paths, quotas, h, ids, best) && id in paths && (best.Some? ==> best.value in paths)
    ensures var p := paths[id];
      var rtt := if best.Some? then paths[best.value].rtt else 0;
      var skip :=
        || (!h && !p.allowed) || p.failed || id == 0
        || (rtt != 0 && p.rtt == 0)
        || (p.rtt == 0 && best.Some? && Quota(quotas, id) > Quota(quotas, best.value))
        || (p.rtt != 0 && rtt != 0 && p.rtt >= rtt);
      IsBest(paths, quotas, h, ids + [id], if skip then best else Some(id))
  {
    hide IsBest;
    var p := paths[id];
    if !Eligible(paths, h, id) {
      BestSkip(paths, quotas, h, ids, id, best);
    } else if best.None? {
      BestTake(paths, quotas, h, ids, id, best);
    } else if NotBetter(paths, quotas, best.value, id) {
      BestTake(paths, quotas, h, ids, id, best);
      if NotBetter(paths, quotas, id, best.value) { BestSkip(paths, quotas, h, ids, id, best); }
    } else {
      BestSkip(paths, quotas, h, ids, id, best);
    }
  }

  // ---------------------------------------------------------------- earliest completion first

  predicate Candidate(paths: Paths, id: PathID)
  {
    id in paths && !paths[id].failed && id != 0
  }

  // A candidate whose RTT is known.
  predicate Probed(paths: Paths, id: PathID)
  {
    Candidate(paths, id) && paths[id].rtt > 0
  }

  // A candidate that may send.
  predicate Sendable(paths: Paths, id: PathID)
  {
    Candidate(paths, id) && paths[id].allowed
  }

  // What the walk over the paths has found so far.
  datatype Found = Found(best: Option<PathID>, second: Option<PathID>)

  // The RTT of a path that was found; 0 stands for none.
  function RTTOf(paths: Paths, p: Option<PathID>): nat
    requires p.Some? ==> p.value in paths
  {
    if p.Some? then paths[p.value].rtt else 0
  }

  // One more path. It becomes the best one unless it is slower, and is noted as second best if it
  // may send and is not faster than the best one so far.
  function Seen(paths: Paths, quotas: map<PathID, nat>, f: Found, id: PathID): Found
    requires id in paths && (f.best.Some? ==> f.best.value in paths) && (f.second.Some? ==> f.second.value in paths)
  {
    var rtt, lower, second := paths[id].rtt, RTTOf(paths, f.best), RTTOf(paths, f.second);
    if !Candidate(paths, id) || (lower != 0 && rtt == 0) then f
    else if rtt == 0 && f.best.Some? && Quota(quotas, id) > Quota(quotas, f.best.value) then f
    else Found(
      if 0 < lower <= rtt then f.best else Some(id),
      if rtt >= lower && paths[id].allowed && (second == 0 || rtt < second) then Some(id) else f.second)
  }

  function Search(paths: Paths, quotas: map<PathID, nat>, ids: seq<PathID>): (f: Found)
    requires forall id :: id in ids ==> id in paths
    ensures f.best.Some? ==> f.best.value in paths
    ensures f.second.Some? ==> f.second.value in paths
  {
    if ids == [] then Found(None, None)
    else Seen(paths, quotas, Search(paths, quotas, ids[..|ids| - 1]), ids[|ids| - 1])
  }

  lemma SearchNone(paths: Paths, quotas: map<PathID, nat>)
    ensures Search(paths, quotas, []) == Found(None, None)
  {
  }

  lemma SearchStep(paths: Paths, quotas: map<PathID, nat>, ids: seq<PathID>, i: nat)
    requires i < |ids| && forall id :: id in ids ==> id in paths
    ensures Search(paths, quotas, ids[..i + 1]) == Seen(paths, quotas, Search(paths, quotas, ids[..i]), ids[i])
  {
    assert ids[..i + 1][..i] == ids[..i];
  }

  /** The best path is the one of lowest latency, blocked paths included. */
  lemma {:induction false} SearchBest(paths: Paths, quotas: map<PathID, nat>, ids: seq<PathID>)
    requires forall id :: id in ids ==> id in paths
    ensures IsBest(paths, quotas, true, ids, Search(paths, quotas, ids).best)
    decreases |ids|
  {
    hide IsBest;
    if ids == [] {
      BestOfNone(paths, quotas, true);
    } else {
      var n := |ids| - 1;
      SearchBest(paths, quotas, ids[..n]);
      StepOfBest(paths, quotas, true, ids[..n], ids[n], Search(paths, quotas, ids[..n]).best);
      assert ids == ids[..n] + [ids[n]];
    }
  }

  lemma {:induction false} NoBestNoSecond(paths: Paths, quotas: map<PathID, nat>, ids: seq<PathID>)
    requires forall id :: id in ids ==> id in paths
    ensures Search(paths, quotas, ids).best.None? ==> Search(paths, quotas, ids).second.None?
    decreases |ids|
  {
    if ids != [] { NoBestNoSecond(paths, quotas, ids[..|ids| - 1]); }
  }

  // A path that may send and comes into question: a probed one that is the first probed candidate or
  // not faster than some probed candidate before it, or an unprobed one such that all candidates
  // before it are unprobed and have sent at least as much.
  predicate RecordedAt(paths: Paths, quotas: map<PathID, nat>, ids: seq<PathID>, i: nat)
    requires i < |ids| && forall id :: id in ids ==> id in paths
  {
    && Sendable(paths, ids[i])
    && if paths[ids[i]].rtt > 0 then
         || (forall j :: 0 <= j < i ==> !Probed(paths, ids[j]))
         || (exists j :: 0 <= j < i && Probed(paths, ids[j]) && paths[ids[j]].rtt <= paths[ids[i]].rtt)
       else
         forall j :: 0 <= j < i && Candidate(paths, ids[j]) ==>
           paths[ids[j]].rtt == 0 && Quota(quotas, ids[i]) <= Quota(quotas, ids[j])
  }

  // The walk looks at the best path before it.
  lemma RecordedIff(paths: Paths, quotas: map<PathID, nat>, ids: seq<PathID>)
    requires ids != [] && forall id :: id in ids ==> id in paths
    ensures var n := |ids| - 1;
      var best := Search(paths, quotas, ids[..n]).best;
      RecordedAt(paths, quotas, ids, n) <==>
        && Sendable(paths, ids[n]) && paths[ids[n]].rtt >= RTTOf(paths, best)
        && (paths[ids[n]].rtt == 0 && best.Some? ==> Quota(quotas, ids[n]) <= Quota(quotas, best.value))
  {
    hide Search;
    var n := |ids| - 1;
    var best := Search(paths, quotas, ids[..n]).best;
    SearchBest(paths, quotas, ids[..n]);
    forall j | 0 <= j < n ensures ids[j] in ids[..n] { assert ids[..n][j] == ids[j]; }
    if best.Some? {
      var k :| 0 <= k < n && ids[..n][k] == best.value;
      assert Candidate(paths, ids[k]);
    }
  }

  // The first probed path of least RTT among those that come into question, and the last of them if
  // none is probed.
  ghost predicate IsSecondAt(paths: Paths, quotas: map<PathID, nat>, ids: seq<PathID>, i: nat)
    requires i < |ids| && forall id :: id in ids ==> id in paths
  {
    && RecordedAt(paths, quotas, ids, i)
    && forall k :: 0 <= k < |ids| && k != i && RecordedAt(paths, quotas, ids, k) ==>
         var own, other := paths[ids[i]].rtt, paths[ids[k]].rtt;
         if own == 0 then k < i && other == 0
         else other > 0 ==> if k < i then own < other else own <= other
  }

  // One more path becomes the second best one if it comes into question and the one so far is unprobed
  // or slower.
  lemma SeenSecond(paths: Paths, quotas: map<PathID, nat>, ids: seq<PathID>)
    requires ids != [] && forall id :: id in ids ==> id in paths
    ensures var n := |ids| - 1;
      var before := Search(paths, quotas, ids[..n]).second;
      var takes := RTTOf(paths, before) == 0 || paths[ids[n]].rtt < RTTOf(paths, before);
      Search(paths, quotas, ids).second ==
        if RecordedAt(paths, quotas, ids, n) && takes then Some(ids[n]) else before
  {
    hide RecordedAt;
    RecordedIff(paths, quotas, ids);
  }

  // What one more path leaves of the second best one.
  lemma SecondStays(paths: Paths, quotas: map<PathID, nat>, ids: seq<PathID>, i: nat)
    requires i < |ids| - 1 && (forall id :: id in ids ==> id in paths)
    requires IsSecondAt(paths, quotas, ids[..|ids| - 1], i)
    requires RecordedAt(paths, quotas, ids, |ids| - 1) ==> 0 < paths[ids[i]].rtt <= paths[ids[|ids| - 1]].rtt
    ensures IsSecondAt(paths, quotas, ids, i)
  {
    hide RecordedAt;
    SamePrefix(paths, quotas, ids);
  }

  lemma SecondTakes(paths: Paths, quotas: map<PathID, nat>, ids: seq<PathID>, i: nat)
    requires i < |ids| - 1 && (forall id :: id in ids ==> id in paths)
    requires IsSecondAt(paths, quotas, ids[..|ids| - 1], i) && RecordedAt(paths, quotas, ids, |ids| - 1)
    requires paths[ids[i]].rtt == 0 || paths[ids[|ids| - 1]].rtt < paths[ids[i]].rtt
    ensures IsSecondAt(paths, quotas, ids, |ids| - 1)
  {
    SamePrefix(paths, quotas, ids);
    if paths[ids[|ids| - 1]].rtt == 0 { UnprobedFirst(paths, quotas, ids); }
    hide RecordedAt;
  }

  /** The second best path, exactly: there is one if some path comes into question, and it is the first
      probed one of least RTT among these, or the last of them if none is probed. */
  lemma {:induction false} SearchSecond(paths: Paths, quotas: map<PathID, nat>, ids: seq<PathID>)
    requires forall id :: id in ids ==> id in paths
    ensures var f := Search(paths, quotas, ids);
      && (f.second.None? <==> forall i :: 0 <= i < |ids| ==> !RecordedAt(paths, quotas, ids, i))
      && (f.second.Some? ==>
          exists i :: 0 <= i < |ids| && ids[i] == f.second.value && IsSecondAt(paths, quotas, ids, i))
    decreases |ids|
  {
    hide RecordedAt;
    if ids != [] {
      var n := |ids| - 1;
      var front := ids[..n];
      SearchSecond(paths, quotas, front);
      SeenSecond(paths, quotas, ids);
      hide Search;
      SamePrefix(paths, quotas, ids);
      var f := Search(paths, quotas, front);
      if f.second.Some? {
        var i :| 0 <= i < n && front[i] == f.second.value && IsSecondAt(paths, quotas, front, i);
        hide IsSecondAt;
        assert front[i] == ids[i];
        if RecordedAt(paths, quotas, ids, n) && (paths[ids[i]].rtt == 0 || paths[ids[n]].rtt < paths[ids[i]].rtt) {
          SecondTakes(paths, quotas, ids, i);
        } else {
          SecondStays(paths, quotas, ids, i);
        }
        SecondIsRecorded(paths, quotas, ids);
      }
    }
  }

  lemma SecondIsRecorded(paths: Paths, quotas: map<PathID, nat>, ids: seq<PathID>)
    requires forall id :: id in ids ==> id in paths
    ensures forall i :: 0 <= i < |ids| && IsSecondAt(paths, quotas, ids, i) ==> RecordedAt(paths, quotas, ids, i)
  {
  }

  // No unprobed path comes into question after a probed one.
  lemma UnprobedFirst(paths: Paths, quotas: map<PathID, nat>, ids: seq<PathID>)
    requires ids != [] && forall id :: id in ids ==> id in paths
    requires RecordedAt(paths, quotas, ids, |ids| - 1) && paths[ids[|ids| - 1]].rtt == 0
    ensures forall i :: 0 <= i < |ids| && RecordedAt(paths, quotas, ids, i) ==> paths[ids[i]].rtt == 0
  {
  }

  lemma SamePrefix(paths: Paths, quotas: map<PathID, nat>, ids: seq<PathID>)
    requires ids != [] && forall id :: id in ids ==> id in paths
    ensures var front := ids[..|ids| - 1];
      forall i :: 0 <= i < |ids| - 1 ==>
        front[i] == ids[i] && RecordedAt(paths, quotas, front, i) == RecordedAt(paths, quotas, ids, i)
  {
    var n := |ids| - 1;
    forall i | 0 <= i < n
      ensures ids[..n][i] == ids[i] && RecordedAt(paths, quotas, ids[..n], i) == RecordedAt(paths, quotas, ids, i)
    {
      RecordedPrefix(paths, quotas, ids, n, i);
    }
  }

  lemma RecordedPrefix(paths: Paths, quotas: map<PathID, nat>, ids: seq<PathID>, n: nat, i: nat)
    requires i < n <= |ids| && forall id :: id in ids ==> id in paths
    ensures RecordedAt(paths, quotas, ids, i) == RecordedAt(paths, quotas, ids[..n], i)
  {
    assert forall j :: 0 <= j < n ==> ids[..n][j] == ids[j];
  }

  // ---------------------------------------------------------------- when the order does not matter

  // A probed path that may send and than which no other such path is faster.
  ghost predicate Fastest(paths: Paths, id: PathID)
  {
    && Sendable(paths, id) && paths[id].rtt > 0
    && forall k :: Sendable(paths, k) && paths[k].rtt > 0 ==> paths[id].rtt <= paths[k].rtt
  }

  // A candidate that has sent no more than any other.
  ghost predicate LeastUsed(paths: Paths, quotas: map<PathID, nat>, id: PathID)
  {
    Candidate(paths, id) && forall k :: Candidate(paths, k) ==> Quota(quotas, id) <= Quota(quotas, k)
  }

  // No path may send; of the probed ones that may, two are fastest or no probed candidate is slower
  // than the fastest; or no candidate is probed and one that may send is least used.
  ghost predicate Settled(paths: Paths, quotas: map<PathID, nat>)
  {
    || (forall id :: !Sendable(paths, id))
    || (exists a, b :: a != b && Fastest(paths, a) && Fastest(paths, b))
    || (exists a :: Fastest(paths, a) && forall c :: Probed(paths, c) ==> paths[c].rtt <= paths[a].rtt)
    || ((forall c :: !Probed(paths, c)) && exists a :: Sendable(paths, a) && LeastUsed(paths, quotas, a))
  }

  // Both orders find a second best path of the same RTT, or neither finds one.
  ghost predicate SameSecond(paths: Paths, r1: Option<PathID>, r2: Option<PathID>)
    requires (r1.Some? ==> r1.value in paths) && (r2.Some? ==> r2.value in paths)
  {
    (r1.Some? <==> r2.Some?) && RTTOf(paths, r1) == RTTOf(paths, r2)
  }

  lemma {:induction false} FastestExists(paths: Paths, id: PathID) returns (a: PathID)
    requires Sendable(paths, id) && paths[id].rtt > 0
    ensures Fastest(paths, a)
    decreases paths[id].rtt
  {
    if Fastest(paths, id) {
      a := id;
    } else {
      var k :| Sendable(paths, k) && 0 < paths[k].rtt < paths[id].rtt;
      a := FastestExists(paths, k);
    }
  }

  lemma {:induction false} LeastUsedExists(paths: Paths, quotas: map<PathID, nat>, id: PathID) returns (a: PathID)
    requires Candidate(paths, id)
    ensures LeastUsed(paths, quotas, a)
    decreases Quota(quotas, id)
  {
    if LeastUsed(paths, quotas, id) {
      a := id;
    } else {
      var k :| Candidate(paths, k) && Quota(quotas, k) < Quota(quotas, id);
      a := LeastUsedExists(paths, quotas, k);
    }
  }

  // A fastest path that comes into question settles the RTT of the second best one.
  lemma FastestRecorded(paths: Paths, quotas: map<PathID, nat>, order: seq<PathID>, i: nat)
    requires IsOrder(order, paths) && i < |order|
    requires RecordedAt(paths, quotas, order, i) && Fastest(paths, order[i])
    ensures var r := Search(paths, quotas, order).second; r.Some? && RTTOf(paths, r) == paths[order[i]].rtt
  {
    hide Search;
    SearchSecond(paths, quotas, order);
    var r := Search(paths, quotas, order).second;
    var k :| 0 <= k < |order| && order[k] == r.value && IsSecondAt(paths, quotas, order, k);
    assert Sendable(paths, r.value);
  }

  // With no probed candidate, a least used path that may send always comes into question.
  lemma LeastUsedRecorded(paths: Paths, quotas: map<PathID, nat>, order: seq<PathID>, a: PathID)
    requires IsOrder(order, paths) && Sendable(paths, a) && LeastUsed(paths, quotas, a)
    requires forall c :: !Probed(paths, c)
    ensures var r := Search(paths, quotas, order).second; r.Some? && RTTOf(paths, r) == 0
  {
    hide Search;
    SearchSecond(paths, quotas, order);
    var i := PlaceIn(order, a);
    assert !Probed(paths, a);
    assert RecordedAt(paths, quotas, order, i) by {
      forall j | 0 <= j < i && Candidate(paths, order[j]) ensures paths[order[j]].rtt == 0 {
        assert !Probed(paths, order[j]);
      }
    }
    var r := Search(paths, quotas, order).second;
    var k :| 0 <= k < |order| && order[k] == r.value && IsSecondAt(paths, quotas, order, k);
    assert Sendable(paths, r.value) && !Probed(paths, r.value);
  }

  lemma TwoFastest(paths: Paths, quotas: map<PathID, nat>, order: seq<PathID>, a: PathID, b: PathID)
    requires IsOrder(order, paths) && a != b && Fastest(paths, a) && Fastest(paths, b)
    ensures var r := Search(paths, quotas, order).second; r.Some? && RTTOf(paths, r) == paths[a].rtt
  {
    hide Search;
    var i, j := PlaceIn(order, a), PlaceIn(order, b);
    assert Probed(paths, a) && Probed(paths, b);
    FastestRecorded(paths, quotas, order, if i < j then j else i);
  }

  lemma NoneSlower(paths: Paths, quotas: map<PathID, nat>, order: seq<PathID>, a: PathID)
    requires IsOrder(order, paths) && Fastest(paths, a) && forall c :: Probed(paths, c) ==> paths[c].rtt <= paths[a].rtt
    ensures var r := Search(paths, quotas, order).second; r.Some? && RTTOf(paths, r) == paths[a].rtt
  {
    hide Search;
    assert Probed(paths, a);
    FastestRecorded(paths, quotas, order, PlaceIn(order, a));
  }

  // The RTT of the second best path when the order does not matter.
  lemma SettledSecond(paths: Paths, quotas: map<PathID, nat>, order: seq<PathID>)
    requires Settled(paths, quotas) && IsOrder(order, paths)
    ensures var r := Search(paths, quotas, order).second;
      && (r.None? <==> forall id :: !Sendable(paths, id))
      && (forall a :: Fastest(paths, a) ==> RTTOf(paths, r) == paths[a].rtt)
      && ((forall c :: !Probed(paths, c)) ==> RTTOf(paths, r) == 0)
  {
    hide Search, RecordedAt;
    if forall id :: !Sendable(paths, id) {
      NoneSendable(paths, quotas, order);
    } else if a, b :| a != b && Fastest(paths, a) && Fastest(paths, b) {
      TwoFastest(paths, quotas, order, a, b);
      assert Probed(paths, a);
    } else if a :| Fastest(paths, a) && forall c :: Probed(paths, c) ==> paths[c].rtt <= paths[a].rtt {
      NoneSlower(paths, quotas, order, a);
      assert Probed(paths, a);
    } else {
      var a :| Sendable(paths, a) && LeastUsed(paths, quotas, a);
      LeastUsedRecorded(paths, quotas, order, a);
      assert forall k :: Fastest(paths, k) ==> Probed(paths, k);
    }
  }

  lemma NoneSendable(paths: Paths, quotas: map<PathID, nat>, order: seq<PathID>)
    requires IsOrder(order, paths) && forall id :: !Sendable(paths, id)
    ensures Search(paths, quotas, order).second.None?
  {
    hide Search;
    SearchSecond(paths, quotas, order);
  }

  ghost function PlaceIn(order: seq<PathID>, id: PathID): (i: nat)
    requires id in order
    ensures i < |order| && order[i] == id
  {
    var i :| 0 <= i < |order| && order[i] == id;
    i
  }

  // An order that starts as given.
  lemma {:induction false} OrderFrom(paths: Paths, first: seq<PathID>) returns (order: seq<PathID>)
    requires (forall i, j :: 0 <= i < j < |first| ==> first[i] != first[j]) && forall id :: id in first ==> id in paths
    ensures IsOrder(order, paths) && first <= order
    decreases paths.Keys - set id | id in first
  {
    if id :| id in paths && id !in first {
      assert id in paths.Keys - (set k | k in first) && id in first + [id];
      order := OrderFrom(paths, first + [id]);
    } else {
      order := first;
    }
  }

  // Seen right after a slower candidate, the fastest path does not come into question.
  lemma SlowerFirst(paths: Paths, quotas: map<PathID, nat>, order: seq<PathID>, a: PathID, c: PathID)
    requires IsOrder(order, paths) && [c, a] <= order
    requires Fastest(paths, a) && Probed(paths, c) && paths[c].rtt > paths[a].rtt
    requires forall k :: Fastest(paths, k) ==> k == a
    ensures var r := Search(paths, quotas, order).second; r.None? || RTTOf(paths, r) > paths[a].rtt
  {
    hide Search;
    assert order[0] == c && order[1] == a;
    SearchSecond(paths, quotas, order);
    var r := Search(paths, quotas, order).second;
    if r.Some? {
      var i :| 0 <= i < |order| && order[i] == r.value && IsSecondAt(paths, quotas, order, i);
      assert i != 1 && paths[r.value].rtt > 0;
      assert r.value != a && !Fastest(paths, r.value);
    }
  }

  // The first path alone, if it may send, comes into question.
  lemma FirstRecorded(paths: Paths, quotas: map<PathID, nat>, order: seq<PathID>, a: PathID)
    requires IsOrder(order, paths) && [a] <= order && Sendable(paths, a)
    ensures RecordedAt(paths, quotas, order, 0) && order[0] == a && Search(paths, quotas, order).second.Some?
  {
    hide Search;
    assert order[0] == a && RecordedAt(paths, quotas, order, 0);
    SearchSecond(paths, quotas, order);
  }

  // With no probed path that may send, a probed candidate or a less used one before the others hides
  // them.
  lemma HiddenBehind(paths: Paths, quotas: map<PathID, nat>, order: seq<PathID>, m: PathID)
    requires IsOrder(order, paths) && [m] <= order && Candidate(paths, m)
    requires forall k :: Sendable(paths, k) ==> !Probed(paths, k)
    requires forall k :: Sendable(paths, k) ==> Probed(paths, m) || Quota(quotas, m) < Quota(quotas, k)
    ensures Search(paths, quotas, order).second.None?
  {
    hide Search;
    SearchSecond(paths, quotas, order);
    assert order[0] == m;
    forall i | 0 <= i < |order| ensures !RecordedAt(paths, quotas, order, i) {
      if Sendable(paths, order[i]) { assert !Probed(paths, order[i]); }
    }
  }

  // Two orders that differ when the order matters.
  lemma UnsettledOrders(paths: Paths, quotas: map<PathID, nat>) returns (order1: seq<PathID>, order2: seq<PathID>)
    requires !Settled(paths, quotas)
    ensures IsOrder(order1, paths) && IsOrder(order2, paths)
    ensures !SameSecond(paths, Search(paths, quotas, order1).second, Search(paths, quotas, order2).second)
  {
    hide Search;
    var id :| Sendable(paths, id);
    if p :| Sendable(paths, p) && paths[p].rtt > 0 {
      var a := FastestExists(paths, p);
      var c :| Probed(paths, c) && paths[c].rtt > paths[a].rtt;
      order1 := OrderFrom(paths, [a]);
      order2 := OrderFrom(paths, [c, a]);
      FirstRecorded(paths, quotas, order1, a);
      FastestRecorded(paths, quotas, order1, 0);
      SlowerFirst(paths, quotas, order2, a, c);
    } else {
      var m;
      if c :| Probed(paths, c) { m := c; } else { m := LeastUsedExists(paths, quotas, id); }
      order1 := OrderFrom(paths, [id]);
      order2 := OrderFrom(paths, [m]);
      FirstRecorded(paths, quotas, order1, id);
      forall k | Sendable(paths, k) ensures Probed(paths, m) || Quota(quotas, m) < Quota(quotas, k) {
        if !Probed(paths, m) { assert !LeastUsed(paths, quotas, k); }
      }
      HiddenBehind(paths, quotas, order2, m);
    }
  }

  /** All orders of the map lead to equally good second best paths exactly if no path may send; or, of
      the probed paths that may, two are fastest or no probed candidate is slower than the fastest; or
      no candidate is probed and one that may send has sent least. */
  lemma OrderMattersIff(paths: Paths, quotas: map<PathID, nat>)
    ensures Settled(paths, quotas) <==> forall order1, order2 :: IsOrder(order1, paths) && IsOrder(order2, paths) ==>
      SameSecond(paths, Search(paths, quotas, order1).second, Search(paths, quotas, order2).second)
  {
    hide Search;
    if Settled(paths, quotas) {
      forall order1, order2 | IsOrder(order1, paths) && IsOrder(order2, paths)
        ensures SameSecond(paths, Search(paths, quotas, order1).second, Search(paths, quotas, order2).second)
      {
        SettledSecond(paths, quotas, order1);
        SettledSecond(paths, quotas, order2);
      }
    } else {
      var order1, order2 := UnsettledOrders(paths, quotas);
    }
  }

  // ---------------------------------------------------------------- to wait or not to wait

  const WRAP64: nat := 0x1_0000_0000_0000_0000
  const BETA: nat := 4

  // The value of a 64-bit computation.
  function U(x: nat): nat { x % WRAP64 }

  function Max(a: nat, b: nat): nat { if a < b then b else a }

  datatype Decision = Decision(send: bool, waiting: nat)

  // The first test, in 64-bit arithmetic: x bytes through the best path against delay d.
  predicate First64(rtt: nat, x: nat, cwnd: nat, d: nat, waiting: nat)
  {
    var lhs := U(rtt * U(x));
    var rhs := U(cwnd * U(d));
    U(BETA * lhs) < U(U(BETA * rhs) + U(waiting * rhs))
  }

  // The second test, in 64-bit arithmetic.
  predicate Second64(rttSecond: nat, x: nat, cwndSecond: nat, rttBest: nat, delta: nat)
  {
    U(rttSecond * x) > U(cwndSecond * U(U(2 * rttBest) + delta))
  }

  /** Send on the second best path, or wait for the best one. */
  function Decide(best: Path, second: Path, queueSize: nat, waiting: nat): Decision
  {
    var delta := Max(best.deviation, second.deviation);
    if First64(best.rtt, Min(queueSize, best.cwnd) + best.cwnd, best.cwnd, second.rtt + delta, waiting) then
      if Second64(second.rtt, Max(queueSize, second.cwnd), second.cwnd, best.rtt, delta) then Decision(false, 1)
      else Decision(true, waiting)
    else Decision(true, 0)
  }

  // Sending x bytes on the best path once its window opens is faster than sending on the second now.
  ghost predicate BestIsFaster(best: Path, second: Path, x: nat, delta: nat, waiting: nat)
    requires best.cwnd > 0
  {
    best.rtt as real * (1.0 + x as real / best.cwnd as real) <
      (1.0 + waiting as real / 4.0) * (second.rtt + delta) as real
  }

  // The second path would take longer for x bytes than two round trips of the best one.
  ghost predicate SecondIsSlow(best: Path, second: Path, x: nat, delta: nat)
    requires second.cwnd > 0
  {
    second.rtt as real * x as real / second.cwnd as real > (2 * best.rtt + delta) as real
  }

  // Round trip times and deviations below about a minute, windows of up to 16 MB, queues of up to 64 MB.
  predicate InRange(p: Path, queueSize: nat)
  {
    p.rtt <= 0x10_0000_0000 && p.deviation <= 0x10_0000_0000 && p.cwnd <= 0x100_0000 && queueSize <= 0x400_0000
  }

  lemma Product(a: nat, b: nat, x: nat, y: nat)
    requires a <= x && b <= y
    ensures a * b <= x * y
  {
    assert a * b <= x * b;
    assert x * b <= x * y;
  }

  // The two tests without wrap-around.
  predicate FirstTest(best: Path, second: Path, queueSize: nat, waiting: nat)
  {
    BETA * (best.rtt * (Min(queueSize, best.cwnd) + best.cwnd)) <
      (BETA + waiting) * (best.cwnd * (second.rtt + Max(best.deviation, second.deviation)))
  }

  predicate SecondTest(best: Path, second: Path, queueSize: nat)
  {
    second.rtt * Max(queueSize, second.cwnd) > second.cwnd * (2 * best.rtt + Max(best.deviation, second.deviation))
  }

  lemma Small(x: nat)
    requires x < WRAP64
    ensures U(x) == x
  {
  }

  lemma SmallProduct(a: nat, b: nat, x: nat, y: nat)
    requires a <= x && b <= y && x * y < WRAP64
    ensures U(a * b) == a * b
  {
    Product(a, b, x, y);
    Small(a * b);
  }

  lemma CompareExact(lhs: nat, rhs: nat, waiting: nat)
    requires lhs <= 0x2000_0000_0000_0000 && rhs <= 0x2000_0000_0000_0000 && waiting <= 1
    ensures U(BETA * lhs) < U(U(BETA * rhs) + U(waiting * rhs)) <==> BETA * lhs < (BETA + waiting) * rhs
  {
    if waiting == 0 {
      assert waiting * rhs == 0;
    } else {
      assert waiting * rhs == rhs;
    }
    Small(BETA * lhs);
    Small(BETA * rhs);
    Small(waiting * rhs);
    Small(BETA * rhs + waiting * rhs);
  }

  lemma First64Exact(rtt: nat, x: nat, cwnd: nat, d: nat, waiting: nat)
    requires rtt <= 0x10_0000_0000 && x <= 0x200_0000 && cwnd <= 0x100_0000 && d <= 0x20_0000_0000 && waiting <= 1
    ensures First64(rtt, x, cwnd, d, waiting) <==> BETA * (rtt * x) < (BETA + waiting) * (cwnd * d)
  {
    hide U;
    Product(rtt, x, 0x10_0000_0000, 0x200_0000);
    Product(cwnd, d, 0x100_0000, 0x20_0000_0000);
    Small(x);
    Small(d);
    SmallProduct(rtt, x, 0x10_0000_0000, 0x200_0000);
    SmallProduct(cwnd, d, 0x100_0000, 0x20_0000_0000);
    CompareExact(rtt * x, cwnd * d, waiting);
  }

  lemma Second64Exact(rttSecond: nat, x: nat, cwndSecond: nat, rttBest: nat, delta: nat)
    requires rttSecond <= 0x10_0000_0000 && x <= 0x400_0000 && cwndSecond <= 0x100_0000
    requires rttBest <= 0x10_0000_0000 && delta <= 0x10_0000_0000
    ensures Second64(rttSecond, x, cwndSecond, rttBest, delta) <==> rttSecond * x > cwndSecond * (2 * rttBest + delta)
  {
    hide U;
    var d := 2 * rttBest + delta;
    Small(2 * rttBest);
    Small(d);
    SmallProduct(rttSecond, x, 0x10_0000_0000, 0x400_0000);
    SmallProduct(cwndSecond, d, 0x100_0000, 0x30_0000_0000);
  }

  /** Within the range nothing overflows. */
  lemma NoOverflow(best: Path, second: Path, queueSize: nat, waiting: nat)
    requires InRange(best, queueSize) && InRange(second, queueSize) && waiting <= 1
    ensures Decide(best, second, queueSize, waiting) ==
      if !FirstTest(best, second, queueSize, waiting) then Decision(true, 0)
      else if SecondTest(best, second, queueSize) then Decision(false, 1)
      else Decision(true, waiting)
  {
    hide First64, Second64;
    var delta := Max(best.deviation, second.deviation);
    First64Exact(best.rtt, Min(queueSize, best.cwnd) + best.cwnd, best.cwnd, second.rtt + delta, waiting);
    Second64Exact(second.rtt, Max(queueSize, second.cwnd), second.cwnd, best.rtt, delta);
  }

  lemma Scale(a: real, b: real, c: real)
    requires c > 0.0
    ensures a < b <==> a * c < b * c
  {
  }

  /** Without wrap-around the tests are the rational inequalities they stand for, with the smaller of
      queue and window and the larger of the two deviations. */
  lemma FirstTestIsRational(best: Path, second: Path, queueSize: nat, waiting: nat, x: nat, delta: nat)
    requires best.cwnd > 0
    requires IsSmaller(x, queueSize, best.cwnd) && IsLarger(delta, best.deviation, second.deviation)
    ensures FirstTest(best, second, queueSize, waiting) <==> BestIsFaster(best, second, x, delta, waiting)
  {
    var rtt, c, d := best.rtt, best.cwnd, second.rtt + delta;
    assert x == Min(queueSize, c) && delta == Max(best.deviation, second.deviation);
    FirstIsRational(rtt as real, x as real, c as real, d as real, waiting as real);
    AsReal(rtt, x + c);
    AsReal(c, d);
    AsReal(BETA + waiting, c * d);
  }

  lemma SecondTestIsRational(best: Path, second: Path, queueSize: nat, x: nat, delta: nat)
    requires second.cwnd > 0
    requires IsLarger(x, queueSize, second.cwnd) && IsLarger(delta, best.deviation, second.deviation)
    ensures SecondTest(best, second, queueSize) <==> SecondIsSlow(best, second, x, delta)
  {
    var d := 2 * best.rtt + delta;
    assert x == Max(queueSize, second.cwnd) && delta == Max(best.deviation, second.deviation);
    SecondIsRational(second.rtt as real * x as real, second.cwnd as real, d as real);
    AsReal(second.rtt, x);
    AsReal(second.cwnd, d);
  }

  /** The decision: within the range, wait exactly if the best path is expected to be faster and the
      second one slow; a wait is remembered until the best path is no longer faster. */
  lemma DecideExact(best: Path, second: Path, queueSize: nat, waiting: nat, xBest: nat, xSecond: nat, delta: nat)
    requires InRange(best, queueSize) && InRange(second, queueSize) && waiting <= 1 && best.cwnd > 0 && second.cwnd > 0
    requires IsSmaller(xBest, queueSize, best.cwnd) && IsLarger(xSecond, queueSize, second.cwnd)
    requires IsLarger(delta, best.deviation, second.deviation)
    ensures var d := Decide(best, second, queueSize, waiting);
      && (!d.send <==> BestIsFaster(best, second, xBest, delta, waiting) && SecondIsSlow(best, second, xSecond, delta))
      && d.waiting == if !d.send then 1 else if BestIsFaster(best, second, xBest, delta, waiting) then waiting else 0
  {
    hide Decide, FirstTest, SecondTest, BestIsFaster, SecondIsSlow;
    NoOverflow(best, second, queueSize, waiting);
    FirstTestIsRational(best, second, queueSize, waiting, xBest, delta);
    SecondTestIsRational(best, second, queueSize, xSecond, delta);
  }

  lemma AsReal(a: nat, b: nat)
    ensures a as real * b as real == (a * b) as real
  {
  }

  lemma FirstIsRational(rtt: real, x: real, c: real, d: real, w: real)
    requires c > 0.0
    ensures rtt * (1.0 + x / c) < (1.0 + w / 4.0) * d <==> 4.0 * (rtt * (x + c)) < (4.0 + w) * (c * d)
  {
    var l, r := rtt * (1.0 + x / c), (1.0 + w / 4.0) * d;
    Scale(l, r, 4.0 * c);
    assert (1.0 + x / c) * c == c + x;
    assert l * (4.0 * c) == 4.0 * (rtt * ((1.0 + x / c) * c));
    assert (1.0 + w / 4.0) * 4.0 == 4.0 + w;
    assert r * (4.0 * c) == ((1.0 + w / 4.0) * 4.0) * (c * d);
  }

  lemma SecondIsRational(p: real, c: real, d: real)
    requires c > 0.0
    ensures p / c > d <==> p > c * d
  {
    Scale(d, p / c, c);
    assert (p / c) * c == p;
  }

  /** Once the scheduler has waited it is at least as ready to wait: whenever it would start to wait it
      would also go on waiting. */
  lemma WaitingIsSticky(best: Path, second: Path, queueSize: nat)
    requires InRange(best, queueSize) && InRange(second, queueSize)
    requires !Decide(best, second, queueSize, 0).send
    ensures !Decide(best, second, queueSize, 1).send
  {
    hide Decide, FirstTest, SecondTest;
    NoOverflow(best, second, queueSize, 0);
    NoOverflow(best, second, queueSize, 1);
    FirstTestEasier(best, second, queueSize);
  }

  lemma FirstTestEasier(best: Path, second: Path, queueSize: nat)
    ensures FirstTest(best, second, queueSize, 0) ==> FirstTest(best, second, queueSize, 1)
  {
    var rhs := best.cwnd * (second.rtt + Max(best.deviation, second.deviation));
    assert (BETA + 1) * rhs == BETA * rhs + rhs;
  }

  /** Whether a second best path is found at all can depend on the order in which paths are seen. */
  lemma OrderMatters(slow: Path, middle: Path, fast: Path)
    requires slow.rtt > middle.rtt > fast.rtt > 0 && !slow.failed && !middle.failed && !fast.failed
    requires !slow.allowed && middle.allowed && !fast.allowed
    ensures var paths := map[1 := slow, 2 := middle, 3 := fast];
      && Search(paths, map[], [1, 2, 3]) == Found(Some(3), None)
      && Search(paths, map[], [3, 2, 1]) == Found(Some(3), Some(2))
  {
    var paths := map[1 := slow, 2 := middle, 3 := fast];
    assert [1, 2, 3][..2] == [1, 2] && [1, 2][..1] == [1] && [1][..0] == [];
    assert Search(paths, map[], [1]) == Found(Some(1), None);
    assert Search(paths, map[], [1, 2]) == Found(Some(2), None);
    assert [3, 2, 1][..2] == [3, 2] && [3, 2][..1] == [3] && [3][..0] == [];
    assert Search(paths, map[], [3]) == Found(Some(3), None);
    assert Search(paths, map[], [3, 2]) == Found(Some(3), Some(2));
  }
}
