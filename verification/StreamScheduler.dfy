// Weighted round robin over streams that are all children of the root (section 5.3.2 of RFC 7540).
module StreamScheduler {
  import opened Common

  const DEFAULT_WEIGHT: nat := 15
  const WRAP32: nat := 0x1_0000_0000

  datatype NodeState = Idle | Active | Closed

  /** A stream in the tree; its share is weight + 1. */
  datatype Node = Node(weight: nat, state: NodeState, quantum: nat)

  /** What the scheduler asks of a stream during a call. */
  datatype Env = Env(headerReady: bool, open: StreamID -> bool, finished: StreamID -> bool)
  {
    predicate Sendable(id: StreamID) { open(id) && !finished(id) }
  }

  // What schedule hands out: the header stream or a child of the root.
  datatype Pick = Header | Child(id: StreamID)

  /** The scheduler's value. `header` says that the header stream is known, and `removed` counts the
      children removed so far. */
  datatype State = State(
    nodes: map<StreamID, Node>,
    children: seq<StreamID>,
    nextChild: nat,
    childrensWeight: nat,
    activeChildren: nat,
    openStreams: int,
    rootQuantum: nat,
    header: bool,
    removed: nat)

  function Init(): State
  {
    State(map[], [], 0, 0, 0, 0, 0, false, 0)
  }

  // ---------------------------------------------------------------- lists

  // The children in the order in which they are visited.
  function Ring(s: State): seq<StreamID>
    requires s.nextChild <= |s.children|
  {
    s.children[s.nextChild..] + s.children[..s.nextChild]
  }

  function WeightSum(nodes: map<StreamID, Node>, ids: seq<StreamID>): nat
    requires forall id :: id in ids ==> id in nodes
  {
    if ids == [] then 0 else nodes[ids[0]].weight + 1 + WeightSum(nodes, ids[1..])
  }

  // ---------------------------------------------------------------- operations

  function AddNode(s: State, id: StreamID): State
  {
    if id == 1 then s
    else if id == 3 then s.(header := true)
    else s.(nodes := s.nodes[id := Node(DEFAULT_WEIGHT, Idle, 0)])
  }

  function SetWeight(s: State, id: StreamID, weight: nat): State
  {
    if id == 1 || id == 3 || id !in s.nodes then s
    else
      var n := s.nodes[id];
      var s1 := s.(nodes := s.nodes[id := n.(weight := weight)]);
      if n.state != Active then s1
      else s1.(childrensWeight := (s.childrensWeight + WRAP32 + weight - n.weight) % WRAP32)
  }

  function SetActive(s: State, id: StreamID): State
  {
    if id == 1 || id == 3 || id !in s.nodes then s
    else
      s.(nodes := s.nodes[id := s.nodes[id].(state := Active)],
         childrensWeight := (s.childrensWeight + s.nodes[id].weight + 1) % WRAP32,
         activeChildren := s.activeChildren + 1,
         children := s.children + [id],
         openStreams := s.openStreams + 1)
  }

  // The place of a child in the list; one that is not there counts as the first.
  function PlaceOf(ids: seq<StreamID>, id: StreamID): (i: nat)
    ensures ids != [] ==> i < |ids|
  {
    if id in ids then IndexOf(ids, id) else 0
  }

  // Takes a child out of the tree; the weight that is subtracted is one less than the stored one.
  function RemoveWeight(s: State, id: StreamID): State
    requires s.children != [] && id in s.nodes && s.nodes[id].weight < 256 && s.activeChildren > 0
  {
    var i := PlaceOf(s.children, id);
    var children := s.children[..i] + s.children[i + 1..];
    s.(children := children,
       nextChild := if children == [] then 0 else s.nextChild % |children|,
       childrensWeight := (s.childrensWeight + WRAP32 + 1 - s.nodes[id].weight) % WRAP32,
       activeChildren := s.activeChildren - 1,
       removed := s.removed + 1)
  }

  // ---------------------------------------------------------------- invariant

  ghost predicate Valid(s: State)
  {
    && NoDuplicates(s.children)
    && (forall id :: id in s.children <==> id in s.nodes && s.nodes[id].state == Active)
    && (forall id :: id in s.nodes ==> s.nodes[id].weight < 256 && s.nodes[id].quantum <= 256 && id != 1 && id != 3)
    && s.nextChild <= |s.children| && (s.children != [] ==> s.nextChild < |s.children|)
    && s.activeChildren == |s.children| && s.openStreams == |s.children|
    && s.rootQuantum <= DEFAULT_WEIGHT + 1
    && s.childrensWeight == (WeightSum(s.nodes, s.children) + 2 * s.removed) % WRAP32
  }

  // ---------------------------------------------------------------- schedule

  function Refilled(n: Node): Node
  {
    if n.quantum == 0 then n.(quantum := n.weight + 1) else n
  }

  function Rotated(s: State): State
    requires s.children != []
  {
    s.(nextChild := (s.nextChild + 1) % |s.children|)
  }

  function WithNode(s: State, id: StreamID, n: Node): State
  {
    s.(nodes := s.nodes[id := n])
  }

  // The finished child leaves the tree.
  function Dropped(s: State, id: StreamID): State
    requires id in s.children && id in s.nodes && s.nodes[id].weight < 256 && s.activeChildren > 0
  {
    RemoveWeight(WithNode(s.(openStreams := s.openStreams - 1), id, Refilled(s.nodes[id]).(state := Closed)), id)
  }

  // A blocked child is passed over; its quantum is kept for the next round.
  function Passed(s: State, id: StreamID): State
    requires id in s.nodes && s.children != []
  {
    Rotated(WithNode(s, id, Refilled(s.nodes[id])))
  }

  // A sendable child uses up one unit and stays in place until its quantum is spent.
  function Picked(s: State, id: StreamID): State
    requires id in s.nodes && s.children != []
  {
    var n := Refilled(s.nodes[id]);
    var m := n.(quantum := n.quantum - 1);
    if m.quantum == 0 then Rotated(WithNode(s, id, m)) else WithNode(s, id, m)
  }

  /** One pass of the loop over the root's children. */
  function Visit(s: State, env: Env): (State, Option<StreamID>)
    requires s.nextChild < |s.children| && s.children[s.nextChild] in s.nodes
    requires s.nodes[s.children[s.nextChild]].weight < 256 && s.activeChildren > 0
  {
    var id := s.children[s.nextChild];
    if env.finished(id) then (Dropped(s, id), None)
    else if s.nodes[id].state == Active && env.open(id) then (Picked(s, id), Some(id))
    else (Passed(s, id), None)
  }

  // ---------------------------------------------------------------- what a visit keeps

  lemma {:induction false} SameWeights(nodes: map<StreamID, Node>, nodes': map<StreamID, Node>, ids: seq<StreamID>)
    requires forall id :: id in ids ==> id in nodes && id in nodes' && nodes'[id].weight == nodes[id].weight
    ensures WeightSum(nodes', ids) == WeightSum(nodes, ids)
    decreases |ids|
  {
    if ids != [] { SameWeights(nodes, nodes', ids[1..]); }
  }

  lemma {:induction false} WeightConcat(nodes: map<StreamID, Node>, a: seq<StreamID>, b: seq<StreamID>)
    requires forall id :: id in a || id in b ==> id in nodes
    ensures (forall id :: id in a + b ==> id in nodes) && WeightSum(nodes, a + b) ==
      WeightSum(nodes, a) + WeightSum(nodes, b)
    decreases |a|
  {
    if a == [] {
      assert a + b == b;
    } else {
      WeightConcat(nodes, a[1..], b);
      assert (a + b)[1..] == a[1..] + b;
    }
  }

  // A change to a quantum only.
  lemma QuantumValid(s: State, id: StreamID, n: Node)
    requires Valid(s) && id in s.children
    requires n.weight == s.nodes[id].weight && n.state == s.nodes[id].state && n.quantum <= 256
    ensures Valid(WithNode(s, id, n)) && Ring(WithNode(s, id, n)) == Ring(s)
  {
    hide WeightSum, NoDuplicates;
    SameWeights(s.nodes, WithNode(s, id, n).nodes, s.children);
  }

  lemma RotatedValid(s: State)
    requires Valid(s) && s.children != []
    ensures Valid(Rotated(s)) && Ring(Rotated(s)) == Ring(s)[1..] + [Ring(s)[0]]
  {
    hide WeightSum, NoDuplicates, Ring, Rotated;
    RotatedRing(s);
  }

  lemma RotatedRing(s: State)
    requires s.nextChild < |s.children|
    ensures var s' := Rotated(s);
      && s' == s.(nextChild := s'.nextChild) && s'.nextChild < |s.children|
      && |Ring(s)| == |s.children| && Ring(s') == Ring(s)[1..] + [Ring(s)[0]]
  {
    NextPlace(s.nextChild, |s.children|);
  }

  lemma NextPlace(i: nat, n: nat)
    requires i < n
    ensures (i + 1) % n == if i + 1 == n then 0 else i + 1
  {
  }

  lemma DroppedValid(s: State, id: StreamID)
    requires Valid(s) && s.children != [] && id == s.children[s.nextChild]
    ensures var s' := Dropped(s, id);
      && Valid(s') && Ring(s') == Ring(s)[1..] && s'.removed == s.removed + 1 && s'.rootQuantum == s.rootQuantum
      && s'.header == s.header
      && s'.nodes == s.nodes[id := Refilled(s.nodes[id]).(state := Closed)]
  {
    hide IndexOf, NoDuplicates, WeightSum, Ring;
    var i := s.nextChild;
    IndexUnique(s.children, i);
    var s' := Dropped(s, id);
    DroppedChildren(s.children, i, s'.children);
    DroppedWeight(s, s', i);
    DroppedRing(s, s');
    DroppedTotal(WeightSum(s.nodes, s.children), s.nodes[id].weight, s.removed);
    assert forall k :: k in s'.children <==> k in s'.nodes && s'.nodes[k].state == Active;
  }

  // The total that is kept ends up two too high.
  lemma DroppedTotal(sum: nat, weight: nat, removed: nat)
    requires weight < 256 && weight + 1 <= sum
    ensures ((sum + 2 * removed) % WRAP32 + WRAP32 + 1 - weight) % WRAP32 ==
      (sum - weight - 1 + 2 * (removed + 1)) % WRAP32
  {
    ShiftedTotal(sum + 2 * removed, 1 - weight);
  }

  lemma DroppedRing(s: State, s': State)
    requires s.nextChild < |s.children| && s'.children == s.children[..s.nextChild] + s.children[s.nextChild + 1..]
    requires s'.nextChild == if s'.children == [] then 0 else s.nextChild % |s'.children|
    ensures s'.nextChild <= |s'.children| && (s'.children != [] ==> s'.nextChild < |s'.children|)
    ensures Ring(s') == Ring(s)[1..]
  {
    var i, n := s.nextChild, |s'.children|;
    if i == n && n > 0 {
      assert i % n == 0;
    } else if i < n {
      assert i % n == i;
    }
  }

  lemma DroppedChildren(ids: seq<StreamID>, i: nat, ids': seq<StreamID>)
    requires NoDuplicates(ids) && i < |ids| && ids' == ids[..i] + ids[i + 1..]
    ensures NoDuplicates(ids') && |ids'| == |ids| - 1
    ensures forall id :: id in ids' <==> id in ids && id != ids[i]
  {
    forall id | id in ids && id != ids[i] ensures id in ids' {
      var j :| 0 <= j < |ids| && ids[j] == id;
      assert ids'[if j < i then j else j - 1] == id;
    }
  }

  lemma DroppedWeight(s: State, s': State, i: nat)
    requires Valid(s) && i < |s.children| && s'.children == s.children[..i] + s.children[i + 1..]
    requires forall id :: id in s.children ==> id in s'.nodes && s'.nodes[id].weight == s.nodes[id].weight
    ensures forall id :: id in s'.children ==> id in s'.nodes
    ensures WeightSum(s'.nodes, s'.children) + s.nodes[s.children[i]].weight + 1 == WeightSum(s.nodes, s.children)
  {
    hide WeightSum, NoDuplicates;
    WeightWithout(s.nodes, s.children, i);
    SameWeights(s.nodes, s'.nodes, s'.children);
  }

  lemma WeightWithout(nodes: map<StreamID, Node>, ids: seq<StreamID>, i: nat)
    requires i < |ids| && forall id :: id in ids ==> id in nodes
    ensures WeightSum(nodes, ids[..i] + ids[i + 1..]) + nodes[ids[i]].weight + 1 == WeightSum(nodes, ids)
  {
    hide WeightSum;
    var a, b, id := ids[..i], ids[i + 1..], ids[i];
    WeightConcat(nodes, a, b);
    WeightConcat(nodes, [id], b);
    WeightConcat(nodes, a, [id] + b);
    OneWeight(nodes, id);
    assert ids == a + ([id] + b);
  }

  // What is left of a node's quantum after it has been picked.
  function Spent(n: Node): nat
  {
    (if n.quantum == 0 then n.weight + 1 else n.quantum) - 1
  }

  /** A visit, in terms of the ring: a finished head goes, a blocked head moves to the back, and a
      sendable head is picked and moves to the back only when its quantum is spent. */
  lemma VisitFacts(s: State, env: Env)
    requires Valid(s) && s.children != []
    ensures var (s', r) := Visit(s, env);
      var id, ring := Ring(s)[0], Ring(s);
      && Valid(s') && s'.rootQuantum == s.rootQuantum && s'.header == s.header
      && (r.Some? <==> env.Sendable(id)) && (r.Some? ==> r.value == id)
      && (forall k :: k in s.nodes ==> k in s'.nodes && s'.nodes[k].weight == s.nodes[k].weight)
      && (forall k :: k in s.nodes && k != id ==> s'.nodes[k] == s.nodes[k])
      && s'.removed == s.removed + (if env.finished(id) then 1 else 0)
      && (env.finished(id) ==> s'.nodes[id].state == Closed && Ring(s') == ring[1..])
      && (env.Sendable(id) ==>
          && s'.nodes[id].quantum == Spent(s.nodes[id])
          && Ring(s') == if Spent(s.nodes[id]) == 0 then ring[1..] + [id] else ring)
      && (!env.finished(id) && !env.open(id) ==>
          && s'.nodes[id].quantum == Spent(s.nodes[id]) + 1
          && Ring(s') == ring[1..] + [id])
  {
    hide WeightSum, NoDuplicates, Ring, Dropped, Picked, Passed;
    RingHead(s);
    var id := s.children[s.nextChild];
    if env.finished(id) {
      DroppedValid(s, id);
    } else if env.open(id) {
      PickedValid(s, id);
    } else {
      PassedValid(s, id);
    }
  }

  lemma PickedValid(s: State, id: StreamID)
    requires Valid(s) && s.children != [] && id == s.children[s.nextChild]
    ensures var s' := Picked(s, id);
      && Valid(s') && s'.removed == s.removed && s'.rootQuantum == s.rootQuantum && s'.header == s.header
      && s'.nodes == s.nodes[id := s.nodes[id].(quantum := Spent(s.nodes[id]))]
      && Ring(s) != [] && Ring(s)[0] == id
      && Ring(s') == if Spent(s.nodes[id]) == 0 then Ring(s)[1..] + [id] else Ring(s)
  {
    hide WeightSum, NoDuplicates, Ring, Valid;
    Bounds(s);
    RingHead(s);
    var n := s.nodes[id].(quantum := Spent(s.nodes[id]));
    BoundedQuantum(s, id);
    QuantumValid(s, id, n);
    RotatedValid(WithNode(s, id, n));
  }

  lemma PassedValid(s: State, id: StreamID)
    requires Valid(s) && s.children != [] && id == s.children[s.nextChild]
    ensures var s' := Passed(s, id);
      && Valid(s') && s'.removed == s.removed && s'.rootQuantum == s.rootQuantum && s'.header == s.header
      && s'.nodes == s.nodes[id := Refilled(s.nodes[id])]
      && Ring(s) != [] && Ring(s)[0] == id && Ring(s') == Ring(s)[1..] + [id]
  {
    hide WeightSum, NoDuplicates, Ring, Valid;
    Bounds(s);
    RingHead(s);
    BoundedQuantum(s, id);
    QuantumValid(s, id, Refilled(s.nodes[id]));
    RotatedValid(WithNode(s, id, Refilled(s.nodes[id])));
  }

  lemma BoundedQuantum(s: State, id: StreamID)
    requires Valid(s) && id in s.children
    ensures id in s.nodes && s.nodes[id].weight < 256 && s.nodes[id].quantum <= 256 && s.nodes[id].state == Active
  {
  }

  lemma RingHead(s: State)
    requires s.nextChild < |s.children|
    ensures |Ring(s)| == |s.children| && Ring(s)[0] == s.children[s.nextChild]
    ensures forall id :: id in Ring(s) <==> id in s.children
  {
  }

  // ---------------------------------------------------------------- schedule

  // The loop over the root's children. Its bound is the current number of children.
  ghost function Loop(s: State, i: nat, env: Env): (State, Option<StreamID>)
    requires Valid(s) && s.rootQuantum > 0
    decreases |s.children| - i
  {
    if i >= |s.children| then (s, None)
    else
      VisitFacts(s, env);
      RingHead(s);
      var (s1, r) := Visit(s, env);
      RingLength(s1);
      if r.Some? then (s1.(rootQuantum := s.rootQuantum - 1), r) else Loop(s1, i + 1, env)
  }

  lemma RingLength(s: State)
    requires s.nextChild <= |s.children|
    ensures |Ring(s)| == |s.children|
  {
  }

  function RootRefilled(s: State): State
  {
    if s.rootQuantum == 0 then s.(rootQuantum := DEFAULT_WEIGHT + 1) else s
  }

  ghost function Schedule(s: State, env: Env): (State, Option<Pick>)
    requires Valid(s)
  {
    var s1 := RootRefilled(s);
    RootRefilledValid(s);
    if s.header && env.headerReady then (s1, Some(Header))
    else if s1.activeChildren > 0 then
      var (s2, r) := Loop(s1, 0, env);
      (s2, if r.Some? then Some(Child(r.value)) else None)
    else (s1, None)
  }

  lemma RootRefilledValid(s: State)
    requires Valid(s)
    ensures Valid(RootRefilled(s)) && Ring(RootRefilled(s)) == Ring(s)
  {
  }

  // Place of the first sendable stream in a ring.
  function First(ring: seq<StreamID>, env: Env): (p: nat)
    ensures p <= |ring| && (p < |ring| ==> env.Sendable(ring[p]))
    ensures forall i :: 0 <= i < p ==> !env.Sendable(ring[i])
  {
    if ring == [] || env.Sendable(ring[0]) then 0 else 1 + First(ring[1..], env)
  }

  function FinishedIn(ring: seq<StreamID>, env: Env): nat
  {
    if ring == [] then 0 else (if env.finished(ring[0]) then 1 else 0) + FinishedIn(ring[1..], env)
  }

  lemma FirstMovesUp(ring: seq<StreamID>, env: Env)
    requires ring != [] && !env.Sendable(ring[0])
    ensures var p := First(ring, env);
      && First(ring[1..], env) == p - 1
      && (p < |ring| ==> First(ring[1..] + [ring[0]], env) == p - 1 && (ring[1..] + [ring[0]])[..p - 1] == ring[1..p])
      && (p == |ring| ==> First(ring[1..] + [ring[0]], env) == |ring|)
      && FinishedIn(ring[..p], env) == (if env.finished(ring[0]) then 1 else 0) + FinishedIn(ring[1..p], env)
  {
    var p := First(ring, env);
    assert ring[..p][1..] == ring[1..p];
    FirstIs(ring[1..] + [ring[0]], env, if p < |ring| then p - 1 else |ring|);
  }

  lemma {:induction false} FirstIs(ring: seq<StreamID>, env: Env, p: nat)
    requires p <= |ring| && (p < |ring| ==> env.Sendable(ring[p])) && forall i :: 0 <= i < p ==> !env.Sendable(ring[i])
    ensures First(ring, env) == p
    decreases |ring|
  {
    if p > 0 { FirstIs(ring[1..], env, p - 1); }
  }

  // From pass i on, the loop gets to the first sendable stream: each finished stream before it
  // costs one pass and takes away another.
  predicate Reaches(ring: seq<StreamID>, i: nat, env: Env)
  {
    var p := First(ring, env);
    p < |ring| && i + p + FinishedIn(ring[..p], env) < |ring|
  }

  // The ring after its head has been visited without being picked.
  function Onward(ring: seq<StreamID>, env: Env): seq<StreamID>
    requires ring != []
  {
    if env.finished(ring[0]) then ring[1..] else ring[1..] + [ring[0]]
  }

  lemma ReachStep(ring: seq<StreamID>, i: nat, env: Env)
    requires ring != [] && !env.Sendable(ring[0])
    ensures Reaches(ring, i, env) <==> Reaches(Onward(ring, env), i + 1, env)
    ensures Reaches(ring, i, env) ==> ring[First(ring, env)] == Onward(ring, env)[First(Onward(ring, env), env)]
  {
    hide First, FinishedIn;
    FirstMovesUp(ring, env);
    var p := First(ring, env);
    assert ring[1..][..p - 1] == ring[1..p];
  }

  lemma Bounds(s: State)
    requires Valid(s)
    ensures s.nextChild <= |s.children| && |Ring(s)| == |s.children|
    ensures s.children != [] ==>
      && s.nextChild < |s.children| && s.children[s.nextChild] in s.nodes
      && s.nodes[s.children[s.nextChild]].weight < 256 && s.activeChildren > 0
    ensures s.rootQuantum <= DEFAULT_WEIGHT + 1 && s.activeChildren == |s.children|
  {
  }

  /** The loop finds the first sendable stream exactly if it gets that far. */
  lemma {:induction false} LoopFinds(s: State, i: nat, env: Env)
    requires Valid(s) && s.rootQuantum > 0
    ensures var (s', r) := Loop(s, i, env);
      && Valid(s')
      && (r.Some? <==> Reaches(Ring(s), i, env))
      && (r.Some? ==> r.value == Ring(s)[First(Ring(s), env)])
      && s'.rootQuantum == s.rootQuantum - if r.Some? then 1 else 0
    decreases |s.children| - i
  {
    hide Valid, Visit, Ring, FinishedIn;
    Bounds(s);
    if i < |s.children| {
      RingHead(s);
      VisitFacts(s, env);
      var (s1, r) := Visit(s, env);
      Bounds(s1);
      if r.None? {
        ReachStep(Ring(s), i, env);
        LoopFinds(s1, i + 1, env);
      } else {
        RootQuantumValid(s1, s.rootQuantum - 1);
        NoneFinished(env);
      }
    }
  }

  lemma NoneFinished(env: Env)
    ensures FinishedIn([], env) == 0
  {
  }

  lemma RootQuantumValid(s: State, q: nat)
    requires Valid(s) && q <= DEFAULT_WEIGHT + 1
    ensures Valid(s.(rootQuantum := q)) && Ring(s.(rootQuantum := q)) == Ring(s)
  {
  }

  /** Schedule serves a ready header stream first, and otherwise returns the first sendable stream of
      the ring exactly if the loop gets that far. */
  lemma ScheduleFinds(s: State, env: Env)
    requires Valid(s)
    ensures var (s', r) := Schedule(s, env);
      && Valid(s')
      && (s.header && env.headerReady ==> r == Some(Header))
      && (!(s.header && env.headerReady) ==>
          && (r.Some? <==> Reaches(Ring(s), 0, env))
          && (r.Some? ==> r.value == Child(Ring(s)[First(Ring(s), env)])))
      && s'.rootQuantum ==
         (if s.rootQuantum == 0 then 16 else s.rootQuantum) - if r.Some? && r.value.Child? then 1 else 0
  {
    hide Valid, Ring, First, FinishedIn, Loop, Reaches;
    Bounds(s);
    RootRefilledValid(s);
    Bounds(RootRefilled(s));
    if RootRefilled(s).activeChildren > 0 {
      LoopFinds(RootRefilled(s), 0, env);
    } else {
      NoReach(Ring(s), env);
    }
  }

  lemma NoReach(ring: seq<StreamID>, env: Env)
    ensures ring == [] ==> !Reaches(ring, 0, env)
  {
  }

  /** With no finished stream among the children, schedule returns a node whenever one is sendable. */
  lemma SendableIsFound(s: State, env: Env, id: StreamID)
    requires Valid(s) && !(s.header && env.headerReady) && id in s.children && env.Sendable(id)
    requires forall k :: k in s.children ==> !env.finished(k)
    ensures Schedule(s, env).1.Some?
  {
    hide Schedule, Loop;
    ScheduleFinds(s, env);
    RingHead(s);
    var ring := Ring(s);
    var p := First(ring, env);
    NoFinished(ring[..p], env);
  }

  lemma NoFinished(ring: seq<StreamID>, env: Env)
    requires forall id :: id in ring ==> !env.finished(id)
    ensures FinishedIn(ring, env) == 0
  {
  }

  /** A stream that has just finished can hide the one sendable stream behind it. */
  lemma FinishedHidesSendable(s: State, env: Env, a: StreamID, b: StreamID)
    requires Valid(s) && Ring(s) == [a, b] && !(s.header && env.headerReady) && env.finished(a) && env.Sendable(b)
    ensures Schedule(s, env).1 == None
  {
    hide Schedule, Loop, Valid, Ring;
    ScheduleFinds(s, env);
    FirstIs([a, b], env, 1);
    assert [a, b][..1] == [a];
    assert FinishedIn([a], env) == 1;
  }

  // ---------------------------------------------------------------- runs

  datatype Event = Add(id: StreamID) | Activate(id: StreamID) | Reweigh(id: StreamID, weight: nat) | Call(env: Env)

  // A stream is added once and not activated while it is active, and weights are bytes.
  predicate Allowed(s: State, e: Event)
  {
    match e
    case Add(id) => id !in s.nodes
    case Activate(id) => id in s.nodes ==> s.nodes[id].state != Active
    case Reweigh(_, w) => w < 256
    case Call(_) => true
  }

  ghost function Apply(s: State, e: Event): State
    requires Valid(s)
  {
    match e
    case Add(id) => AddNode(s, id)
    case Activate(id) => SetActive(s, id)
    case Reweigh(id, w) => SetWeight(s, id, w)
    case Call(env) => Schedule(s, env).0
  }

  lemma AddValid(s: State, id: StreamID)
    requires Valid(s) && id !in s.nodes
    ensures Valid(AddNode(s, id))
  {
    hide WeightSum, NoDuplicates;
    SameWeights(s.nodes, AddNode(s, id).nodes, s.children);
  }

  lemma ActivateValid(s: State, id: StreamID)
    requires Valid(s) && (id in s.nodes ==> s.nodes[id].state != Active)
    ensures Valid(SetActive(s, id))
  {
    hide WeightSum, NoDuplicates;
    if id in s.nodes {
      var s' := SetActive(s, id);
      NewIsDistinct(s.children, id);
      ActiveWeight(s.nodes, s'.nodes, s.children, id);
      AddedTotal(WeightSum(s.nodes, s.children) + 2 * s.removed, s.nodes[id].weight + 1);
    }
  }

  lemma ActiveWeight(nodes: map<StreamID, Node>, nodes': map<StreamID, Node>, ids: seq<StreamID>, id: StreamID)
    requires forall k :: k in ids || k == id ==> k in nodes && k in nodes' && nodes'[k].weight == nodes[k].weight
    ensures (forall k :: k in ids + [id] ==> k in nodes') &&
      WeightSum(nodes', ids + [id]) == WeightSum(nodes, ids) + nodes[id].weight + 1
  {
    hide WeightSum;
    SameWeights(nodes, nodes', ids);
    WeightConcat(nodes', ids, [id]);
    OneWeight(nodes', id);
  }

  lemma NewIsDistinct(ids: seq<StreamID>, id: StreamID)
    requires NoDuplicates(ids) && id !in ids
    ensures NoDuplicates(ids + [id])
  {
  }

  lemma OneWeight(nodes: map<StreamID, Node>, id: StreamID)
    requires id in nodes
    ensures WeightSum(nodes, [id]) == nodes[id].weight + 1
  {
    assert WeightSum(nodes, []) == 0;
  }

  lemma ReweighValid(s: State, id: StreamID, weight: nat)
    requires Valid(s) && weight < 256
    ensures Valid(SetWeight(s, id, weight))
  {
    hide WeightSum, NoDuplicates, IndexOf;
    if id in s.nodes && id != 1 && id != 3 {
      var s' := SetWeight(s, id, weight);
      if id in s.children {
        ReweighSum(s.nodes, s'.nodes, s.children, IndexOf(s.children, id));
        ReweighTotal(WeightSum(s.nodes, s.children), s.nodes[id].weight, weight, WeightSum(s'.nodes, s.children),
          s.removed);
      } else {
        SameWeights(s.nodes, s'.nodes, s.children);
      }
    }
  }

  lemma ReweighTotal(sum: nat, from: nat, to: nat, sum': nat, removed: nat)
    requires from < 256 && to < 256 && sum' + from == sum + to
    ensures ((sum + 2 * removed) % WRAP32 + WRAP32 + to - from) % WRAP32 == (sum' + 2 * removed) % WRAP32
  {
    ShiftedTotal(sum + 2 * removed, to - from);
  }

  // Adding a small number before or after wrapping makes no difference.
  lemma ShiftedTotal(x: nat, d: int)
    requires -256 < d < 256 && x + d >= 0
    ensures (x % WRAP32 + WRAP32 + d) % WRAP32 == (x + d) % WRAP32
  {
    var q, y := x / WRAP32, x % WRAP32 + d;
    assert x + d == q * WRAP32 + y;
    if y < 0 {
      Remainder(x + d, q - 1, y + WRAP32);
      Remainder(y + WRAP32, 0, y + WRAP32);
    } else if y < WRAP32 {
      Remainder(x + d, q, y);
      Remainder(y + WRAP32, 1, y);
    } else {
      Remainder(x + d, q + 1, y - WRAP32);
      Remainder(y + WRAP32, 2, y - WRAP32);
    }
  }

  lemma AddedTotal(x: nat, d: nat)
    requires d <= 256
    ensures (x % WRAP32 + d) % WRAP32 == (x + d) % WRAP32
  {
    var q, y := x / WRAP32, x % WRAP32 + d;
    assert x + d == q * WRAP32 + y;
    if y < WRAP32 {
      Remainder(x + d, q, y);
      Remainder(y, 0, y);
    } else {
      Remainder(x + d, q + 1, y - WRAP32);
      Remainder(y, 1, y - WRAP32);
    }
  }

  lemma Remainder(a: nat, q: int, y: int)
    requires a == q * WRAP32 + y && 0 <= y < WRAP32
    ensures a % WRAP32 == y
  {
  }

  lemma ReweighSum(nodes: map<StreamID, Node>, nodes': map<StreamID, Node>, ids: seq<StreamID>, i: nat)
    requires NoDuplicates(ids) && i < |ids|
    requires forall id :: id in ids ==> id in nodes && id in nodes' && (id != ids[i] ==> nodes'[id] == nodes[id])
    ensures WeightSum(nodes', ids) + nodes[ids[i]].weight == WeightSum(nodes, ids) + nodes'[ids[i]].weight
  {
    var a, b, id := ids[..i], ids[i + 1..], ids[i];
    assert ids == a + ([id] + b) && id !in a && id !in b;
    SameWeights(nodes, nodes', a);
    SameWeights(nodes, nodes', b);
    WeightConcat(nodes, a, [id] + b);
    WeightConcat(nodes, [id], b);
    WeightConcat(nodes', a, [id] + b);
    WeightConcat(nodes', [id], b);
    OneWeight(nodes, id);
    OneWeight(nodes', id);
  }

  // Nothing but the entry of one stream and the stored total differs.
  ghost predicate OnlyNode(s: State, s': State, id: StreamID)
  {
    && s' == s.(nodes := s'.nodes, childrensWeight := s'.childrensWeight)
    && s'.nodes.Keys == s.nodes.Keys + {id}
    && forall k :: k in s.nodes && k != id ==> s'.nodes[k] == s.nodes[k]
  }

  /** A new stream gets weight 15, is idle and has no quantum; the crypto stream is ignored, and the
      header stream is only noted. Nothing else changes, so no stream is listed or visited yet. */
  lemma AddNodeExact(s: State, id: StreamID)
    requires Valid(s) && id !in s.nodes
    ensures var s' := AddNode(s, id);
      && Valid(s')
      && (id == 1 ==> s' == s)
      && (id == 3 ==> s'.header && s' == s.(header := true))
      && (id != 1 && id != 3 ==>
          && OnlyNode(s, s', id) && s'.childrensWeight == s.childrensWeight
          && s'.nodes[id].weight == 15 && s'.nodes[id].state == Idle && s'.nodes[id].quantum == 0)
  {
    hide Valid;
    AddValid(s, id);
  }

  /** The weight of a known stream becomes the one given, and the stored total follows it if the
      stream is active; its state and quantum, every other stream, the list and the next child stay.
      The crypto stream, the header stream and unknown streams change nothing. */
  lemma SetWeightExact(s: State, id: StreamID, weight: nat)
    requires Valid(s) && weight < 256
    ensures var s' := SetWeight(s, id, weight);
      && (id == 1 || id == 3 || id !in s.nodes ==> s' == s)
      && (id != 1 && id != 3 && id in s.nodes ==>
          && OnlyNode(s, s', id)
          && s'.nodes[id].weight == weight
          && s'.nodes[id].state == s.nodes[id].state && s'.nodes[id].quantum == s.nodes[id].quantum
          && Ring(s') == Ring(s)
          && s'.childrensWeight == (WeightSum(s'.nodes, s'.children) + 2 * s'.removed) % WRAP32)
  {
    hide WeightSum, NoDuplicates;
    ReweighValid(s, id, weight);
  }

  /** A stream that is not active becomes so and is listed last, with its weight and quantum as they
      were; the next child and every other stream stay. */
  lemma SetActiveExact(s: State, id: StreamID)
    requires Valid(s) && (id in s.nodes ==> s.nodes[id].state != Active)
    ensures var s' := SetActive(s, id);
      && Valid(s')
      && (id == 1 || id == 3 || id !in s.nodes ==> s' == s)
      && (id != 1 && id != 3 && id in s.nodes ==>
          && s'.nodes.Keys == s.nodes.Keys && (forall k :: k in s.nodes && k != id ==> s'.nodes[k] == s.nodes[k])
          && s'.nodes[id].state == Active
          && s'.nodes[id].weight == s.nodes[id].weight && s'.nodes[id].quantum == s.nodes[id].quantum
          && s'.children == s.children + [id] && s'.nextChild == s.nextChild
          && s'.header == s.header && s'.rootQuantum == s.rootQuantum && s'.removed == s.removed)
  {
    hide Valid;
    ActivateValid(s, id);
  }

  /** Removing a child leaves the others in their order. The one that goes is the given child, or the
      first of the list if that child is not listed. */
  lemma RemoveExact(s: State, id: StreamID)
    requires NoDuplicates(s.children) && s.children != [] && s.activeChildren > 0
    requires id in s.nodes && s.nodes[id].weight < 256
    ensures var s' := RemoveWeight(s, id);
      var gone := if id in s.children then id else s.children[0];
      && NoDuplicates(s'.children) && |s'.children| == |s.children| - 1
      && (forall k :: k in s'.children <==> k in s.children && k != gone)
      && (exists a, b :: s.children == a + [gone] + b && s'.children == a + b)
      && s'.nodes == s.nodes && s'.activeChildren == s.activeChildren - 1
      && (s'.children != [] ==> s'.nextChild < |s'.children|)
  {
    var i := PlaceOf(s.children, id);
    var s' := RemoveWeight(s, id);
    DroppedChildren(s.children, i, s'.children);
    assert s.children == s.children[..i] + [s.children[i]] + s.children[i + 1..];
  }

  lemma ApplyValid(s: State, e: Event)
    requires Valid(s) && Allowed(s, e)
    ensures Valid(Apply(s, e))
  {
    hide Valid, Schedule;
    match e
    case Add(id) => AddValid(s, id);
    case Activate(id) => ActivateValid(s, id);
    case Reweigh(id, w) => ReweighValid(s, id, w);
    case Call(env) => ScheduleFinds(s, env);
  }

  ghost predicate IsRun(states: seq<State>, events: seq<Event>)
  {
    && |states| == |events| + 1 && states[0] == Init()
    && forall i :: 0 <= i < |events| ==>
      Valid(states[i]) && Allowed(states[i], events[i]) ==> states[i + 1] == Apply(states[i], events[i])
  }

  /** In every state of every run that adds each stream once and activates none that is active: the
      root's children are distinct and are exactly the active streams, both counters are their number, the next child
      is one of them, and the stored weight is the sum of the shares plus 2 for every removal. */
  lemma {:induction false} Structure(states: seq<State>, events: seq<Event>, i: nat)
    requires IsRun(states, events) && i < |states|
    requires forall k :: 0 <= k < |events| ==> Allowed(states[k], events[k])
    ensures Valid(states[i])
  {
    hide Valid, Apply;
    if i == 0 {
      InitValid();
    } else {
      Structure(states, events, i - 1);
      assert Allowed(states[i - 1], events[i - 1]) && states[i - 1 + 1] == Apply(states[i - 1], events[i - 1]);
      ApplyValid(states[i - 1], events[i - 1]);
    }
  }

  lemma InitValid()
    ensures Valid(Init())
  {
  }

  /** The stored weight is the sum of the children's shares exactly as long as nothing was removed. */
  lemma WeightExactIff(s: State)
    requires Valid(s) && WeightSum(s.nodes, s.children) + 2 * s.removed < WRAP32
    ensures s.childrensWeight == WeightSum(s.nodes, s.children) <==> s.removed == 0
  {
  }

  /** Activating a stream keeps the tree well formed exactly if the stream is not active; otherwise
      it is listed twice. */
  lemma ActivateKeepsIff(s: State, id: StreamID)
    requires Valid(s) && id in s.nodes
    ensures Valid(SetActive(s, id)) <==> s.nodes[id].state != Active
    ensures NoDuplicates(SetActive(s, id).children) <==> id !in s.children
  {
    if s.nodes[id].state != Active {
      ActivateValid(s, id);
    } else {
      var s' := SetActive(s, id);
      var i := IndexOf(s.children, id);
      assert s'.children[i] == s'.children[|s.children|];
    }
  }

  // ---------------------------------------------------------------- the scheduler

  class Scheduler {
    var nodeMap: map<StreamID, Node>
    var children: seq<StreamID>
    var nextChild: nat
    var childrensWeight: nat
    var activeChildren: nat
    var openStreams: int
    var quantum: nat
    var headerStream: bool
    ghost var removed: nat

    ghost function Value(): State
      reads this
    {
      State(nodeMap, children, nextChild, childrensWeight, activeChildren, openStreams, quantum, headerStream, removed)
    }

    constructor ()
      ensures Value() == Init() && Valid(Value())
    {
      nodeMap, children, nextChild, childrensWeight := map[], [], 0, 0;
      activeChildren, openStreams, quantum, headerStream, removed := 0, 0, 0, false, 0;
      InitValid();
    }

    /** Adds a stream below the root; the header stream becomes the stream of the root itself. */
    method AddStream(id: StreamID)
      modifies this`nodeMap, this`headerStream
      ensures Value() == AddNode(old(Value()), id)
    {
      if id == 1 {
        return;
      }
      if id == 3 {
        headerStream := true;
        return;
      }
      nodeMap := nodeMap[id := Node(DEFAULT_WEIGHT, Idle, 0)];
    }

    /** Changes the weight of a stream; false for an unknown one. */
    method MaybeSetWeight(id: StreamID, weight: nat) returns (ok: bool)
      requires weight < 256 && Valid(Value())
      modifies this`nodeMap, this`childrensWeight
      ensures Value() == SetWeight(old(Value()), id, weight)
      ensures ok <==> id == 1 || id == 3 || id in nodeMap
    {
      if id == 1 || id == 3 {
        return true;
      }
      if id !in nodeMap {
        return false;
      }
      var n := nodeMap[id];
      if n.weight == weight {
        assert nodeMap == nodeMap[id := n];
        assert childrensWeight < WRAP32;
        return true;
      }
      if n.state == Active {
        childrensWeight := (childrensWeight + WRAP32 + weight - n.weight) % WRAP32;
      }
      nodeMap := nodeMap[id := n.(weight := weight)];
      return true;
    }

    /** Lists a stream with the root's children; false for an unknown one. */
    method Activate(id: StreamID) returns (ok: bool)
      modifies this
      ensures Value() == SetActive(old(Value()), id)
      ensures ok <==> id == 1 || id == 3 || id in old(nodeMap)
    {
      if id == 1 || id == 3 {
        return true;
      }
      if id !in nodeMap {
        return false;
      }
      nodeMap := nodeMap[id := nodeMap[id].(state := Active)];
      childrensWeight := (childrensWeight + nodeMap[id].weight + 1) % WRAP32;
      activeChildren := activeChildren + 1;
      children := children + [id];
      openStreams := openStreams + 1;
      return true;
    }

    // The place of a child in the list of the root; 0 if it is not listed.
    method FindChild(child: StreamID) returns (index: nat)
      ensures index == PlaceOf(children, child)
    {
      hide PlaceOf;
      for i := 0 to |children|
        invariant forall k :: 0 <= k < i ==> children[k] != child
      {
        if children[i] == child {
          PlaceFound(children, child, i);
          return i;
        }
      }
      NoPlace(children, child);
      return 0;
    }

    // Takes the child out of the list of the root, or the first one if it is not listed.
    method RemoveChild(child: StreamID)
      requires children != [] && child in nodeMap && nodeMap[child].weight < 256 && activeChildren > 0
      modifies this
      ensures Value() == RemoveWeight(old(Value()), child)
    {
      hide PlaceOf;
      var index := FindChild(child);
      children := children[..index] + children[index + 1..];
      nextChild := if |children| == 0 then 0 else nextChild % |children|;
      childrensWeight := (childrensWeight + WRAP32 + 1 - nodeMap[child].weight) % WRAP32;
      activeChildren := activeChildren - 1;
      removed := removed + 1;
    }

    // Visits the next child of the root.
    method TraverseChild(env: Env) returns (r: Option<StreamID>)
      requires Valid(Value()) && children != []
      modifies this
      ensures (Value(), r) == Visit(old(Value()), env)
    {
      hide Valid;
      Bounds(Value());
      var c := children[nextChild];
      BoundedQuantum(Value(), c);
      var n := nodeMap[c];
      if n.quantum == 0 {
        n := n.(quantum := n.weight + 1);
      }
      if env.finished(c) {
        openStreams := openStreams - 1;
        nodeMap := nodeMap[c := n.(state := Closed)];
        RemoveChild(c);
        return None;
      }
      r := None;
      if n.state == Active && n.quantum > 0 && env.open(c) {
        n := n.(quantum := n.quantum - 1);
        r := Some(c);
      }
      nodeMap := nodeMap[c := n];
      if (r.None? || n.quantum == 0) && |children| > 0 {
        nextChild := (nextChild + 1) % |children|;
      }
    }

    /** The next stream that may send, if the walk over the children comes across one. */
    method ScheduleNext(env: Env) returns (r: Option<Pick>)
      requires Valid(Value())
      modifies this
      ensures Valid(Value()) && (Value(), r) == Schedule(old(Value()), env)
    {
      hide Visit, Valid;
      RootRefilledValid(Value());
      if quantum == 0 {
        quantum := DEFAULT_WEIGHT + 1;
      }
      if headerStream && env.headerReady {
        return Some(Header);
      }
      if activeChildren > 0 && quantum > 0 {
        var i := 0;
        while i < |children|
          invariant Valid(Value()) && quantum > 0
          invariant Loop(RootRefilled(old(Value())), 0, env) == Loop(Value(), i, env)
          decreases |children| - i
        {
          Bounds(Value());
          LoopOnce(Value(), i, env);
          var picked := TraverseChild(env);
          if picked.Some? {
            quantum := quantum - 1;
            return Some(Child(picked.value));
          }
          i := i + 1;
        }
      }
      return None;
    }
  }

  lemma PlaceFound(ids: seq<StreamID>, id: StreamID, i: nat)
    requires i < |ids| && ids[i] == id && forall k :: 0 <= k < i ==> ids[k] != id
    ensures PlaceOf(ids, id) == i
  {
    assert id in ids;
  }

  lemma NoPlace(ids: seq<StreamID>, id: StreamID)
    ensures id !in ids ==> PlaceOf(ids, id) == 0
  {
  }

  lemma LoopOnce(s: State, i: nat, env: Env)
    requires Valid(s) && s.rootQuantum > 0 && i < |s.children| && s.nextChild < |s.children|
    ensures var (s1, r) := Visit(s, env);
      && Valid(s1) && s1.rootQuantum == s.rootQuantum && |s1.children| <= |s.children|
      && Valid(s1.(rootQuantum := s.rootQuantum - 1))
      && Loop(s, i, env) == if r.Some? then (s1.(rootQuantum := s.rootQuantum - 1), r) else Loop(s1, i + 1, env)
  {
    hide Visit, Valid, Ring;
    Bounds(s);
    VisitKeeps(s, env);
    RootQuantumValid(Visit(s, env).0, s.rootQuantum - 1);
  }

  lemma VisitKeeps(s: State, env: Env)
    requires Valid(s) && s.children != []
    ensures var s1 := Visit(s, env).0;
      Valid(s1) && s1.rootQuantum == s.rootQuantum <= DEFAULT_WEIGHT + 1 && |s1.children| <= |s.children|
  {
    hide Visit, Valid, Ring;
    VisitFacts(s, env);
    Bounds(s);
    Bounds(Visit(s, env).0);
    RingHead(s);
  }
}
