// The exact order in which the stream scheduler serves its streams.
module RoundRobin {
  import opened Common
  import opened StreamScheduler

  // ---------------------------------------------------------------- one call

  // No child has finished, and the header stream has nothing to send.
  ghost predicate Steady(s: State, env: Env)
  {
    Valid(s) && !(s.header && env.headerReady) && forall id :: id in s.children ==> !env.finished(id)
  }

  // What a call leaves alone: weights, and every node that is not among ids.
  ghost predicate Untouched(s: State, s': State, ids: seq<StreamID>)
  {
    && (forall k :: k in s.nodes ==> k in s'.nodes && s'.nodes[k].weight == s.nodes[k].weight)
    && (forall k :: k in s.nodes && k !in ids ==> s'.nodes[k] == s.nodes[k])
  }

  // The ring after the stream at place p has been picked with its quantum spent or not.
  function Turned(ring: seq<StreamID>, p: nat, spent: bool): seq<StreamID>
    requires p < |ring|
  {
    if spent then ring[p + 1..] + ring[..p + 1] else ring[p..] + ring[..p]
  }

  lemma RingFacts(s: State)
    requires Valid(s)
    ensures s.nextChild <= |s.children| && |Ring(s)| == |s.children| && NoDuplicates(Ring(s))
    ensures forall id :: id in Ring(s) <==> id in s.children
    ensures forall id :: id in Ring(s) ==> id in s.nodes
  {
  }

  // The first sendable stream of the ring is picked; the ring turns to it, or past it.
  ghost predicate Picks(s: State, env: Env, s': State, picked: StreamID)
    requires Steady(s, env)
  {
    var ring := Ring(s);
    var p := First(ring, env);
    && p < |ring| && picked == ring[p] && Steady(s', env) && picked in s.nodes && picked in s'.nodes
    && s'.nodes[picked].quantum == Spent(s.nodes[picked])
    && Ring(s') == Turned(ring, p, Spent(s.nodes[picked]) == 0)
    && Untouched(s, s', ring[..p + 1])
  }

  lemma PicksHead(s: State, env: Env)
    requires Steady(s, env) && s.children != [] && env.Sendable(Ring(s)[0])
    ensures var (s1, r) := Visit(s, env); r.Some? && Picks(s, env, s1, r.value)
  {
    hide Visit, Ring, Valid, Spent;
    Bounds(s);
    RingFacts(s);
    VisitFacts(s, env);
    var (s1, r) := Visit(s, env);
    RingFacts(s1);
    var ring := Ring(s);
    FirstIs(ring, env, 0);
    assert ring[1..] + [ring[0]] == Turned(ring, 0, true);
    assert ring == Turned(ring, 0, false);
    assert forall k :: k in ring[..1] <==> k == ring[0];
  }

  // A blocked head moves to the back and is refilled.
  lemma BlockedHead(s: State, env: Env)
    requires Steady(s, env) && s.children != [] && !env.Sendable(Ring(s)[0])
    ensures var s1, ring := Visit(s, env).0, Ring(s);
      Steady(s1, env) && Ring(s1) == ring[1..] + [ring[0]] && Untouched(s, s1, [ring[0]])
  {
    hide Visit, Ring, Valid, Spent, NoDuplicates;
    Bounds(s);
    RingFacts(s);
    VisitFacts(s, env);
    RingFacts(Visit(s, env).0);
  }

  lemma UntouchedLater(s: State, s1: State, s': State, ring: seq<StreamID>, p: nat)
    requires 0 < p < |ring| && Untouched(s, s1, [ring[0]]) && Untouched(s1, s', ring[1..p + 1])
    ensures Untouched(s, s', ring[..p + 1])
  {
    assert ring[..p + 1] == [ring[0]] + ring[1..p + 1];
  }

  // Passing over a blocked head does not change what is picked.
  lemma PicksLater(s: State, env: Env, s1: State, s': State, picked: StreamID)
    requires Steady(s, env) && s.children != [] && !env.Sendable(Ring(s)[0])
    requires s1 == Visit(s, env).0
    ensures Steady(s1, env)
    ensures Picks(s1, env, s', picked) && First(Ring(s), env) < |Ring(s)| ==> Picks(s, env, s', picked)
  {
    hide Visit, Ring, Valid, Spent, First, Turned, NoDuplicates;
    BlockedHead(s, env);
    RingFacts(s);
    var ring := Ring(s);
    var p := First(ring, env);
    FirstMovesUp(ring, env);
    if p < |ring| && Picks(s1, env, s', picked) {
      TurnedOnward(ring, p);
      DistinctHead(ring, p);
      UntouchedLater(s, s1, s', ring, p);
    }
  }

  lemma DistinctHead(ring: seq<StreamID>, p: nat)
    requires NoDuplicates(ring) && 0 < p < |ring|
    ensures ring[p] != ring[0]
  {
  }

  lemma TurnedOnward(ring: seq<StreamID>, p: nat)
    requires 0 < p < |ring|
    ensures var next := ring[1..] + [ring[0]];
      && next[p - 1] == ring[p] && next[..p] == ring[1..p + 1]
      && (forall k :: k in next[..p] ==> k in ring[..p + 1])
      && Turned(next, p - 1, true) == Turned(ring, p, true) && Turned(next, p - 1, false) == Turned(ring, p, false)
  {
    var next := ring[1..] + [ring[0]];
    assert next[..p] == ring[1..p + 1];
    assert next[p..] == ring[p + 1..] + [ring[0]];
    assert next[p - 1..] == ring[p..] + [ring[0]];
    assert next[..p - 1] == ring[1..p];
    assert [ring[0]] + ring[1..p + 1] == ring[..p + 1];
    assert [ring[0]] + ring[1..p] == ring[..p];
  }

  lemma {:induction false} LoopPicks(s: State, i: nat, env: Env)
    requires Steady(s, env) && s.rootQuantum > 0
    requires var ring := Ring(s); First(ring, env) < |ring| && i + First(ring, env) < |ring|
    ensures var (s', r) := Loop(s, i, env); r.Some? && Picks(s, env, s', r.value)
    decreases First(Ring(s), env)
  {
    hide Visit, Loop, Ring, Picks, Turned, Valid, First;
    RingFacts(s);
    Bounds(s);
    LoopOnce(s, i, env);
    var ring := Ring(s);
    var p := First(ring, env);
    var (s1, r) := Visit(s, env);
    VisitFacts(s, env);
    if p == 0 {
      PicksHead(s, env);
      PicksAnyRootQuantum(s, env, s1, r.value, s.rootQuantum - 1);
    } else {
      FirstMovesUp(ring, env);
      PicksLater(s, env, s1, Loop(s1, i + 1, env).0, ring[p]);
      LoopPicks(s1, i + 1, env);
      PicksLater(s, env, s1, Loop(s1, i + 1, env).0, Loop(s1, i + 1, env).1.value);
    }
  }

  lemma PicksAnyRootQuantum(s: State, env: Env, s': State, picked: StreamID, q: nat)
    requires Steady(s, env) && Picks(s, env, s', picked) && q <= DEFAULT_WEIGHT + 1
    ensures Picks(s, env, s'.(rootQuantum := q), picked)
  {
    hide Ring, Turned, First, Valid;
    RootQuantumValid(s', q);
  }

  // One call to schedule.
  lemma SchedulePicks(s: State, env: Env)
    requires Steady(s, env) && First(Ring(s), env) < |Ring(s)|
    ensures var (s', r) := Schedule(s, env);
      var id := Ring(s)[First(Ring(s), env)];
      r == Some(Child(id)) && Picks(s, env, s', id)
  {
    hide Loop, Ring, First, Valid, Turned, Untouched;
    RingFacts(s);
    RootRefilledValid(s);
    var s1 := RootRefilled(s);
    RingFacts(s1);
    Bounds(s1);
    LoopPicks(s1, 0, env);
    UntouchedByRefill(s, Loop(s1, 0, env).0, Ring(s)[..First(Ring(s), env) + 1]);
  }

  lemma UntouchedByRefill(s: State, s': State, ids: seq<StreamID>)
    ensures Untouched(RootRefilled(s), s', ids) <==> Untouched(s, s', ids)
  {
  }

  // ---------------------------------------------------------------- rounds

  // The streams that can send, in the order of the ring.
  function Senders(ring: seq<StreamID>, env: Env): seq<StreamID>
  {
    if ring == [] then [] else (if env.Sendable(ring[0]) then [ring[0]] else []) + Senders(ring[1..], env)
  }

  lemma {:induction false} SendersConcat(a: seq<StreamID>, b: seq<StreamID>, env: Env)
    ensures Senders(a + b, env) == Senders(a, env) + Senders(b, env)
    decreases |a|
  {
    if a == [] {
      assert a + b == b;
    } else {
      SendersConcat(a[1..], b, env);
      assert (a + b)[1..] == a[1..] + b;
    }
  }

  lemma {:induction false} SendersSplit(ring: seq<StreamID>, env: Env)
    ensures var p := First(ring, env);
      if p == |ring| then Senders(ring, env) == []
      else Senders(ring[..p], env) == [] && Senders(ring, env) == [ring[p]] + Senders(ring[p + 1..], env)
    decreases |ring|
  {
    var p := First(ring, env);
    if p > 0 {
      SendersSplit(ring[1..], env);
      assert p < |ring| ==> ring[..p][1..] == ring[1..][..p - 1] && ring[1..][p..] == ring[p + 1..];
    }
  }

  // Turning the ring to the picked stream keeps the order of the senders, turning past it moves
  // the stream to their end.
  lemma SendersTurned(ring: seq<StreamID>, env: Env)
    requires First(ring, env) < |ring|
    ensures var p := First(ring, env);
      var rest := Senders(ring[p + 1..], env);
      && Senders(ring, env) == [ring[p]] + rest
      && Senders(Turned(ring, p, true), env) == rest + [ring[p]]
      && Senders(Turned(ring, p, false), env) == [ring[p]] + rest
  {
    var p := First(ring, env);
    SendersSplit(ring, env);
    SendersConcat(ring[p + 1..], ring[..p + 1], env);
    SendersConcat(ring[..p], [ring[p]], env);
    assert ring[..p + 1] == ring[..p] + [ring[p]];
    SendersConcat(ring[p..], ring[..p], env);
    SendersConcat([ring[p]], ring[p + 1..], env);
    assert ring[p..] == [ring[p]] + ring[p + 1..];
    assert Senders([ring[p]], env) == [ring[p]];
  }

  lemma {:induction false} SendersIn(ring: seq<StreamID>, env: Env)
    ensures forall id :: id in Senders(ring, env) ==> id in ring && env.Sendable(id)
    decreases |ring|
  {
    if ring != [] { SendersIn(ring[1..], env); }
  }

  // The state after n calls, and what they returned.
  ghost function After(s: State, env: Env, n: nat): State
    requires Valid(s)
    decreases n
  {
    if n == 0 then s else
    ScheduleFinds(s, env);
    After(Schedule(s, env).0, env, n - 1)
  }

  ghost function Returned(s: State, env: Env, n: nat): seq<Option<Pick>>
    requires Valid(s)
    decreases n
  {
    if n == 0 then [] else
    ScheduleFinds(s, env);
    [Schedule(s, env).1] + Returned(Schedule(s, env).0, env, n - 1)
  }

  lemma {:induction false} CallsAdd(s: State, env: Env, m: nat, n: nat)
    requires Valid(s)
    ensures Valid(After(s, env, m))
    ensures After(s, env, m + n) == After(After(s, env, m), env, n)
    ensures Returned(s, env, m + n) == Returned(s, env, m) + Returned(After(s, env, m), env, n)
    decreases m
  {
    hide Schedule, Valid;
    if m > 0 {
      ScheduleFinds(s, env);
      CallsAdd(Schedule(s, env).0, env, m - 1, n);
    }
  }

  // The stream n times over.
  function Times(id: StreamID, n: nat): seq<Option<Pick>>
  {
    seq(n, _ => Some(Child(id)))
  }

  // Each of the streams as often as its weight says, one after the other.
  function Shares(nodes: map<StreamID, Node>, ids: seq<StreamID>): seq<Option<Pick>>
    requires forall id :: id in ids ==> id in nodes
  {
    if ids == [] then [] else Times(ids[0], nodes[ids[0]].weight + 1) + Shares(nodes, ids[1..])
  }

  // s' has the same weights as s, and the same nodes for ids.
  ghost predicate Keeps(s: State, s': State, ids: seq<StreamID>)
  {
    && (forall k :: k in s.nodes ==> k in s'.nodes && s'.nodes[k].weight == s.nodes[k].weight)
    && (forall k :: k in ids && k in s.nodes ==> s'.nodes[k] == s.nodes[k])
  }

  ghost predicate Apart(a: seq<StreamID>, b: seq<StreamID>)
  {
    forall k :: k in a ==> k !in b
  }

  lemma SendersDistinct(ring: seq<StreamID>, env: Env)
    requires NoDuplicates(ring) && First(ring, env) < |ring|
    ensures var p := First(ring, env); Apart(Senders(ring[p + 1..], env), ring[..p + 1])
  {
    var p := First(ring, env);
    var back := ring[p + 1..];
    SendersIn(back, env);
    assert Apart(back, ring[..p + 1]);
  }

  // A call, in terms of the senders: the first of them is picked, and goes to the end when spent.
  lemma OnePick(s: State, env: Env, c: StreamID, rest: seq<StreamID>)
    requires Steady(s, env) && Senders(Ring(s), env) == [c] + rest
    ensures var (s', r) := Schedule(s, env);
      && r == Some(Child(c)) && Steady(s', env) && c in s.nodes && c in s'.nodes && Keeps(s, s', rest)
      && s'.nodes[c].quantum == Spent(s.nodes[c])
      && Senders(Ring(s'), env) == if Spent(s.nodes[c]) == 0 then rest + [c] else [c] + rest
  {
    hide Schedule, Ring, First, Valid, Turned, Senders, NoDuplicates, Spent;
    RingFacts(s);
    var ring := Ring(s);
    SendersSplit(ring, env);
    var p := First(ring, env);
    SendersTurned(ring, env);
    SendersDistinct(ring, env);
    SchedulePicks(s, env);
    assert ([c] + rest)[1..] == rest;
  }

  // The calls a stream has left in its turn.
  function TurnLeft(n: Node): nat
  {
    if n.quantum == 0 then n.weight + 1 else n.quantum
  }

  // The first sender is returned until its quantum is spent.
  lemma {:induction false} Burst(s: State, env: Env, c: StreamID, rest: seq<StreamID>, n: nat)
    requires Steady(s, env) && Senders(Ring(s), env) == [c] + rest && c !in rest
    requires c in s.nodes && n == TurnLeft(s.nodes[c])
    ensures var s' := After(s, env, n);
      && Returned(s, env, n) == Times(c, n) && Steady(s', env) && Keeps(s, s', rest)
      && c in s'.nodes && s'.nodes[c].quantum == 0 && Senders(Ring(s'), env) == rest + [c]
    decreases n
  {
    hide Schedule, Ring, Senders, Valid;
    OnePick(s, env, c, rest);
    var s1 := Schedule(s, env).0;
    if n == 1 {
      assert Returned(s, env, 1) == Times(c, 1) by { assert Returned(s1, env, 0) == []; }
      assert After(s, env, 1) == s1;
    } else {
      Burst(s1, env, c, rest, n - 1);
      assert Times(c, n) == [Some(Child(c))] + Times(c, n - 1);
    }
  }

  // Every stream of ids is about to start its turn, refilled or not.
  ghost predicate Fresh(s: State, ids: seq<StreamID>)
  {
    forall id :: id in ids ==> id in s.nodes && TurnLeft(s.nodes[id]) == s.nodes[id].weight + 1
  }

  // The turns of todo come one after the other, and then those of done would.
  ghost predicate TurnsTaken(s: State, env: Env, todo: seq<StreamID>, done: seq<StreamID>)
    requires Valid(s) && forall id :: id in todo ==> id in s.nodes
  {
    var n := WeightSum(s.nodes, todo);
    var s' := After(s, env, n);
    && Returned(s, env, n) == Shares(s.nodes, todo) && Steady(s', env) && Keeps(s, s', [])
    && Senders(Ring(s'), env) == done + todo && Fresh(s', done + todo)
  }

  // One turn before the others.
  lemma TurnFirst(s: State, env: Env, c: StreamID, todo: seq<StreamID>, done: seq<StreamID>)
    requires Valid(s) && c in s.nodes && forall id :: id in todo ==> id in s.nodes
    requires var n := s.nodes[c].weight + 1;
      var s1 := After(s, env, n);
      && Returned(s, env, n) == Times(c, n) && Valid(s1) && Keeps(s, s1, [])
      && (forall id :: id in todo ==> id in s1.nodes) && TurnsTaken(s1, env, todo, done + [c])
    ensures TurnsTaken(s, env, [c] + todo, done)
  {
    hide Schedule, Ring, Senders, Valid, After, Returned, NoDuplicates, Fresh, Steady, Times;
    var n := s.nodes[c].weight + 1;
    var s1 := After(s, env, n);
    CallsAdd(s, env, n, WeightSum(s1.nodes, todo));
    SameShares(s.nodes, s1.nodes, todo);
    SameWeights(s.nodes, s1.nodes, todo);
    assert ([c] + todo)[1..] == todo;
    assert (done + [c]) + todo == done + ([c] + todo);
  }

  // The turns of the streams still to come in a round, given those that are over.
  lemma {:induction false} RestOfRound(s: State, env: Env, todo: seq<StreamID>, done: seq<StreamID>)
    requires Steady(s, env) && Senders(Ring(s), env) == todo + done && NoDuplicates(todo + done)
    requires Fresh(s, todo + done)
    ensures (forall id :: id in todo ==> id in s.nodes) && TurnsTaken(s, env, todo, done)
    decreases |todo|
  {
    hide Schedule, Ring, Senders, Valid, After, Returned, NoDuplicates, Fresh, TurnsTaken;
    FreshNodes(s, todo + done);
    if todo == [] {
      NoTurns(s, env, done);
      assert todo + done == done;
    } else {
      var c, rest := todo[0], todo[1..] + done;
      assert todo + done == [c] + rest;
      var n := s.nodes[c].weight + 1;
      Cycled(c, rest);
      Burst(s, env, c, rest, n);
      var s1 := After(s, env, n);
      FreshAfter(s, s1, c, rest);
      assert rest + [c] == todo[1..] + (done + [c]);
      RestOfRound(s1, env, todo[1..], done + [c]);
      TurnFirst(s, env, c, todo[1..], done);
      assert todo == [c] + todo[1..];
    }
  }

  lemma NoTurns(s: State, env: Env, done: seq<StreamID>)
    requires Steady(s, env) && Senders(Ring(s), env) == done && Fresh(s, done)
    ensures TurnsTaken(s, env, [], done)
  {
    hide Senders, Ring, Valid, Fresh;
    NoCalls(s, env);
    assert done + [] == done;
  }

  lemma FreshNodes(s: State, ids: seq<StreamID>)
    requires Fresh(s, ids)
    ensures forall id :: id in ids ==> id in s.nodes && TurnLeft(s.nodes[id]) == s.nodes[id].weight + 1
  {
  }

  // A stream whose turn is over is ready for its next one.
  lemma FreshAfter(s: State, s': State, c: StreamID, rest: seq<StreamID>)
    requires Fresh(s, [c] + rest) && Keeps(s, s', rest) && c in s'.nodes && s'.nodes[c].quantum == 0
    ensures Fresh(s', rest + [c])
  {
    forall id | id in rest ensures id in s'.nodes && TurnLeft(s'.nodes[id]) == s'.nodes[id].weight + 1 {
      assert id in [c] + rest;
    }
  }

  lemma NoCalls(s: State, env: Env)
    requires Steady(s, env)
    ensures After(s, env, 0) == s && Returned(s, env, 0) == []
  {
  }

  lemma Cycled(c: StreamID, rest: seq<StreamID>)
    requires NoDuplicates([c] + rest)
    ensures c !in rest && NoDuplicates(rest + [c])
  {
    var all := [c] + rest;
    forall i | 0 <= i < |rest| ensures rest[i] != c {
      assert all[0] != all[i + 1];
    }
    assert forall i :: 0 <= i < |rest| ==> rest[i] == all[i + 1];
  }

  lemma {:induction false} SameShares(nodes: map<StreamID, Node>, nodes': map<StreamID, Node>, ids: seq<StreamID>)
    requires forall id :: id in ids ==> id in nodes && id in nodes' && nodes'[id].weight == nodes[id].weight
    ensures Shares(nodes', ids) == Shares(nodes, ids)
    decreases |ids|
  {
    if ids != [] { SameShares(nodes, nodes', ids[1..]); }
  }

  lemma {:induction false} SendersNoDuplicates(ring: seq<StreamID>, env: Env)
    requires NoDuplicates(ring)
    ensures NoDuplicates(Senders(ring, env))
    decreases |ring|
  {
    if ring != [] {
      assert NoDuplicates(ring[1..]);
      SendersNoDuplicates(ring[1..], env);
      SendersIn(ring[1..], env);
      assert ring[0] !in ring[1..];
    }
  }

  // The senders of a state at the boundary of a round, none of them in the middle of its turn.
  ghost predicate AtBoundary(s: State, env: Env, senders: seq<StreamID>)
  {
    Steady(s, env) && senders == Senders(Ring(s), env) && Fresh(s, senders)
  }

  /** From the boundary of a round, as many calls as the shares of the senders add up to return each
      sender exactly weight + 1 times, all of them in a row, in the order of the ring and past the
      blocked streams, and end at the boundary of a round with the same senders in the same order. */
  lemma ExactRound(s: State, env: Env, senders: seq<StreamID>)
    requires AtBoundary(s, env, senders)
    ensures (forall id :: id in senders ==> id in s.nodes)
    ensures var n := WeightSum(s.nodes, senders);
      && Returned(s, env, n) == Shares(s.nodes, senders)
      && AtBoundary(After(s, env, n), env, senders) && Keeps(s, After(s, env, n), [])
  {
    hide Schedule, Ring, Senders, Valid, After, Returned, NoDuplicates;
    RingFacts(s);
    SendersNoDuplicates(Ring(s), env);
    assert senders + [] == senders && [] + senders == senders;
    RestOfRound(s, env, senders, []);
  }

  function Repeated<T>(xs: seq<T>, n: nat): seq<T>
  {
    if n == 0 then [] else xs + Repeated(xs, n - 1)
  }

  lemma RoundsAdd(rounds: nat, n: nat)
    requires rounds > 0
    ensures n + (rounds - 1) * n == rounds * n
  {
  }

  /** Any number of rounds repeats the first one. */
  lemma {:induction false} ExactRounds(s: State, env: Env, senders: seq<StreamID>, rounds: nat)
    requires AtBoundary(s, env, senders)
    ensures (forall id :: id in senders ==> id in s.nodes)
    ensures Returned(s, env, rounds * WeightSum(s.nodes, senders)) == Repeated(Shares(s.nodes, senders), rounds)
    decreases rounds
  {
    hide Schedule, Ring, Senders, Valid, After, Returned, NoDuplicates;
    ExactRound(s, env, senders);
    if rounds == 0 {
      NoCalls(s, env);
    } else {
      var n := WeightSum(s.nodes, senders);
      var s1 := After(s, env, n);
      ExactRounds(s1, env, senders, rounds - 1);
      SameShares(s.nodes, s1.nodes, senders);
      SameWeights(s.nodes, s1.nodes, senders);
      RoundsAdd(rounds, n);
      CallsAdd(s, env, n, (rounds - 1) * n);
    }
  }
}
