// The streams of a connection: how IDs come and go, and the plain round robin over them.
module StreamsMap {
  import opened Common

  const MAX_NEW_STREAM_ID_DELTA: nat := 4000

  datatype Outcome = Found | Opened | Closed | InvalidID | TooMany | ConnectionClosed

  /** What a callback answers for a stream; Fail stands for an error. */
  datatype Answer = Continue | Stop | Fail

  /** The value of a streams map. `created` lists every ID a stream was ever made for, in order. */
  datatype State = State(
    server: bool,
    streams: set<StreamID>,
    open: seq<StreamID>,
    index: nat,
    next: StreamID,
    highest: StreamID,
    outgoing: nat,
    incoming: nat,
    maxIncoming: nat,
    maxOutgoing: nat,
    created: seq<StreamID>)

  function Init(server: bool, maxIncoming: nat, maxOutgoing: nat): State
  {
    State(server, {}, [], 0, if server then 2 else 1, 0, 0, 0, maxIncoming, maxOutgoing, [])
  }

  // The client opens odd streams, the server even ones.
  predicate IsPeer(server: bool, id: StreamID)
  {
    id % 2 == if server then 1 else 0
  }

  // The first ID the peer may use.
  function FirstPeer(server: bool): StreamID { if server then 1 else 2 }

  function NextPeer(s: State): StreamID
  {
    if s.highest == 0 then FirstPeer(s.server) else s.highest + 2
  }

  // ---------------------------------------------------------------- operations

  // An ID that is already there is refused.
  function Put(s: State, id: StreamID): State
  {
    if id in s.streams then s else
    s.(streams := s.streams + {id}, open := s.open + [id], created := s.created + [id])
  }

  function OpenRemote(s: State, id: StreamID): State
  {
    Put(if s.server then s.(incoming := s.incoming + 1, highest := id)
        else s.(outgoing := s.outgoing + 1, highest := id), id)
  }

  // Opens the peer's streams up to id, one after the other, until the limit is reached.
  function OpenUpTo(s: State, id: StreamID): (State, Outcome)
    decreases id + 2 - NextPeer(s)
  {
    if NextPeer(s) > id then (s, Opened)
    else if s.incoming >= s.maxIncoming then (s, TooMany)
    else OpenUpTo(OpenRemote(s, NextPeer(s)), id)
  }

  function GetOrOpen(s: State, id: StreamID): (State, Outcome)
  {
    if id in s.streams then (s, Found)
    else if !IsPeer(s.server, id) then (s, if id <= s.next then Closed else InvalidID)
    else if id <= s.highest then (s, Closed)
    else OpenUpTo(s, id)
  }

  function Open(s: State): (State, Outcome)
  {
    if s.outgoing >= s.maxOutgoing then (s, TooMany)
    else
      var s1 := if s.server then s.(outgoing := s.outgoing + 1) else s.(incoming := s.incoming + 1);
      (Put(s1.(next := s.next + 2), s.next), Opened)
  }

  function Without(open: seq<StreamID>, i: nat): seq<StreamID>
    requires i < |open|
  {
    open[..i] + open[i + 1..]
  }

  function Remove(s: State, id: StreamID): State
    requires Valid(s)
  {
    if id !in s.streams then s else
    var i := IndexOf(s.open, id);
    CountWithout(s.open, i);
    s.(outgoing := if id % 2 == 0 then s.outgoing - 1 else s.outgoing,
       incoming := if id % 2 == 0 then s.incoming else s.incoming - 1,
       open := Without(s.open, i),
       index := if i < s.index then s.index - 1 else s.index,
       streams := s.streams - {id})
  }

  // ---------------------------------------------------------------- invariant

  function CountParity(ids: seq<StreamID>, parity: nat): nat
  {
    if ids == [] then 0 else (if ids[0] % 2 == parity then 1 else 0) + CountParity(ids[1..], parity)
  }

  // The IDs of one side that were created, in order.
  function PeerIDs(server: bool, ids: seq<StreamID>): seq<StreamID>
  {
    if ids == [] then [] else
    PeerIDs(server, ids[..|ids| - 1]) + if IsPeer(server, ids[|ids| - 1]) then [ids[|ids| - 1]] else []
  }

  // first, first + 2, first + 4, ... up to last.
  function Steps(first: nat, last: nat): seq<nat>
    decreases last
  {
    if last < first then [] else (if last >= 2 then Steps(first, last - 2) else []) + [last]
  }

  ghost predicate Valid(s: State)
  {
    && NoDuplicates(s.open) && (forall id :: id in s.open <==> id in s.streams)
    && s.outgoing == CountParity(s.open, 0) && s.incoming == CountParity(s.open, 1)
    && s.index <= |s.open|
    && s.next >= 1 && s.next % 2 == (if s.server then 0 else 1)
    && (s.highest == 0 || IsPeer(s.server, s.highest))
    && (forall id :: id in s.streams ==> id in s.created)
    && NoDuplicates(s.created)
    && (forall id :: id in s.created <==> WasCreated(s, id))
    && PeerIDs(s.server, s.created) == Steps(FirstPeer(s.server), s.highest)
  }

  // Which IDs have been used, read off the two counters.
  predicate WasCreated(s: State, id: StreamID)
  {
    if IsPeer(s.server, id) then 0 < id <= s.highest else id < s.next && 0 < id
  }

  // ---------------------------------------------------------------- lemmas

  lemma {:induction false} CountConcat(a: seq<StreamID>, b: seq<StreamID>, parity: nat)
    ensures CountParity(a + b, parity) == CountParity(a, parity) + CountParity(b, parity)
    decreases |a|
  {
    if a == [] {
      assert a + b == b;
    } else {
      CountConcat(a[1..], b, parity);
      assert (a + b)[1..] == a[1..] + b;
    }
  }

  lemma CountWithout(ids: seq<StreamID>, i: nat)
    requires i < |ids|
    ensures forall p :: CountParity(Without(ids, i), p) + (if ids[i] % 2 == p then 1 else 0) == CountParity(ids, p)
  {
    forall p ensures CountParity(Without(ids, i), p) + (if ids[i] % 2 == p then 1 else 0) == CountParity(ids, p) {
      CountConcat(ids[..i], ids[i + 1..], p);
      CountConcat(ids[..i], [ids[i]] + ids[i + 1..], p);
      CountConcat([ids[i]], ids[i + 1..], p);
      assert ids == ids[..i] + ([ids[i]] + ids[i + 1..]);
    }
  }

  lemma OpenIsCounted(s: State, id: StreamID)
    requires Valid(s) && id in s.streams
    ensures id in s.open && if id % 2 == 0 then s.outgoing > 0 else s.incoming > 0
  {
    hide CountParity;
    CountWithout(s.open, IndexOf(s.open, id));
  }

  // A stream is put under an ID that no stream had before.
  lemma PutFacts(s: State, id: StreamID)
    requires Valid(s) && id !in s.created
    ensures var t := Put(s, id);
      && NoDuplicates(t.open) && (forall k :: k in t.open <==> k in t.streams)
      && NoDuplicates(t.created) && (forall k :: k in t.streams ==> k in t.created)
      && (forall k :: k in t.created <==> k in s.created || k == id)
      && CountParity(t.open, 0) == CountParity(s.open, 0) + (if id % 2 == 0 then 1 else 0)
      && CountParity(t.open, 1) == CountParity(s.open, 1) + (if id % 2 == 1 then 1 else 0)
      && PeerIDs(s.server, t.created) == PeerIDs(s.server, s.created) + if IsPeer(s.server, id) then [id] else []
  {
    CountConcat(s.open, [id], 0);
    CountConcat(s.open, [id], 1);
    assert (s.created + [id])[..|s.created|] == s.created;
    assert id !in s.open;
  }

  // Using the next ID of the peer, or the next own ID, adds just that one.
  lemma PeerCreated(s: State, s': State)
    requires s.highest == 0 || IsPeer(s.server, s.highest)
    requires s'.server == s.server && s'.next == s.next && s'.highest == NextPeer(s)
    ensures IsPeer(s.server, s'.highest) && !WasCreated(s, s'.highest)
    ensures forall id :: WasCreated(s', id) <==> WasCreated(s, id) || id == s'.highest
  {
  }

  lemma OwnCreated(s: State, s': State)
    requires s.next >= 1 && s.next % 2 == (if s.server then 0 else 1)
    requires s'.server == s.server && s'.next == s.next + 2 && s'.highest == s.highest
    ensures !IsPeer(s.server, s.next) && !WasCreated(s, s.next)
    ensures forall id :: WasCreated(s', id) <==> WasCreated(s, id) || id == s.next
  {
  }

  lemma OpenRemoteValid(s: State)
    requires Valid(s)
    ensures Valid(OpenRemote(s, NextPeer(s)))
  {
    hide PeerIDs, CountParity, NoDuplicates, WasCreated, Steps;
    var s' := OpenRemote(s, NextPeer(s));
    PeerCreated(s, s');
    PutFacts(s, NextPeer(s));
    StepsNext(s.server, s.highest);
  }

  lemma StepsNext(server: bool, highest: nat)
    requires highest == 0 || IsPeer(server, highest)
    ensures var id := if highest == 0 then FirstPeer(server) else highest + 2;
      Steps(FirstPeer(server), id) == Steps(FirstPeer(server), highest) + [id]
  {
  }

  lemma OpenValid(s: State)
    requires Valid(s)
    ensures Valid(Open(s).0)
  {
    hide PeerIDs, CountParity, NoDuplicates, WasCreated, Steps;
    if s.outgoing < s.maxOutgoing {
      OwnCreated(s, Open(s).0);
      PutFacts(s, s.next);
    }
  }

  lemma RemoveValid(s: State, id: StreamID)
    requires Valid(s)
    ensures Valid(Remove(s, id))
  {
    if id in s.streams {
      var i := IndexOf(s.open, id);
      CountWithout(s.open, i);
      WithoutFacts(s.open, i);
      hide PeerIDs, CountParity, NoDuplicates, Without;
    }
  }

  lemma WithoutFacts(ids: seq<StreamID>, i: nat)
    requires i < |ids| && NoDuplicates(ids)
    ensures NoDuplicates(Without(ids, i)) && |Without(ids, i)| == |ids| - 1
    ensures forall k :: k in Without(ids, i) <==> k in ids && k != ids[i]
  {
    var w := Without(ids, i);
    forall k | k in ids && k != ids[i] ensures k in w {
      var j :| 0 <= j < |ids| && ids[j] == k;
      assert w[if j < i then j else j - 1] == k;
    }
  }

  // Opening the peer's streams up to id: what is added, in which order, and where it stops.
  lemma {:induction false} OpenUpToFacts(s: State, id: StreamID)
    requires Valid(s)
    ensures var (s', r) := OpenUpTo(s, id);
      && Valid(s') && s'.server == s.server && s'.next == s.next
      && s'.maxIncoming == s.maxIncoming && s'.maxOutgoing == s.maxOutgoing
      && s.created <= s'.created && s.streams <= s'.streams && s.highest <= s'.highest
      && (r == Opened || r == TooMany)
      && (forall k :: k in s'.streams && k !in s.streams ==> k !in s.created)
      && (r == Opened && id > s.highest && IsPeer(s.server, id) ==> s'.highest == id && id in s'.streams)
      && (r == TooMany ==> s'.incoming >= s'.maxIncoming && s'.highest < id)
      && (s.server && s.incoming <= s.maxIncoming ==> s'.incoming <= s'.maxIncoming && s'.outgoing == s.outgoing)
    decreases id + 2 - NextPeer(s)
  {
    hide PeerIDs, CountParity, NoDuplicates, WasCreated, Steps;
    if NextPeer(s) <= id && s.incoming < s.maxIncoming {
      var t := OpenRemote(s, NextPeer(s));
      OpenRemoteValid(s);
      PeerCreated(s, t);
      OpenUpToFacts(t, id);
    }
    LastOpened(s, id);
  }

  lemma LastOpened(s: State, id: StreamID)
    requires Valid(s)
    ensures IsPeer(s.server, id) && id > s.highest ==> NextPeer(s) <= id
  {
  }

  // ---------------------------------------------------------------- what each operation answers

  // An ID of the side that this map is on.
  predicate IsOwn(server: bool, id: StreamID)
  {
    id % 2 == if server then 0 else 1
  }

  // The streams that are open afterwards are those before and the peer's up to the highest one reached.
  lemma {:induction false} OpenUpToStreams(s: State, id: StreamID)
    requires Valid(s)
    ensures var s' := OpenUpTo(s, id).0;
      forall k :: k in s'.streams <==> k in s.streams || (s.highest < k <= s'.highest && !IsOwn(s.server, k))
    decreases id + 2 - NextPeer(s)
  {
    hide Valid, IsOwn, NextPeer;
    if NextPeer(s) <= id && s.incoming < s.maxIncoming {
      OpenRemoteValid(s);
      NextPeerOnly(s);
      OpenUpToStreams(OpenRemote(s, NextPeer(s)), id);
      OpenUpToFacts(OpenRemote(s, NextPeer(s)), id);
    }
  }

  // The peer's next ID is the only one of its own between it and the highest so far, and it is new.
  lemma NextPeerOnly(s: State)
    requires Valid(s)
    ensures forall k :: s.highest < k <= NextPeer(s) ==> (!IsOwn(s.server, k) <==> k == NextPeer(s))
    ensures s.highest < NextPeer(s) < NextPeer(OpenRemote(s, NextPeer(s))) && NextPeer(s) !in s.streams
  {
    PeerCreated(s, s.(highest := NextPeer(s)));
  }

  /** What GetOrOpenStream answers: the stream if it is open, an error for an own ID that was not used
      yet, nil for one that was used before or comes next, and otherwise all streams of the peer up to
      the ID are opened, unless the limit stops it first. */
  lemma GetOrOpenExact(s: State, id: StreamID)
    requires Valid(s)
    ensures var (s', r) := GetOrOpen(s, id);
      && (r == Found <==> id in s.streams)
      && (r == InvalidID <==> IsOwn(s.server, id) && id > s.next)
      && (r == Closed <==> id !in s.streams && (id in s.created || id == 0 || id == s.next))
      && (r == Found || r == InvalidID || r == Closed ==> s' == s)
      && (r == Opened <==> id !in s.streams && id in s'.streams)
      && (r == TooMany ==> s'.incoming >= s'.maxIncoming && id !in s'.created)
      && r != ConnectionClosed
      && (forall k :: k in s'.streams <==> k in s.streams || (s.highest < k <= s'.highest && !IsOwn(s.server, k)))
  {
    hide PeerIDs, CountParity, NoDuplicates, Steps, OpenUpTo;
    OpenUpToFacts(s, id);
    OpenUpToStreams(s, id);
    assert id in s.created <==> WasCreated(s, id);
    var s' := OpenUpTo(s, id).0;
    assert id in s'.created <==> WasCreated(s', id);
  }

  /** All streams of the peer up to the ID are opened exactly if they fit the limit on a server, and
      on a client exactly if its own streams leave room. */
  lemma {:induction false} OpensAllIff(s: State, id: StreamID)
    requires Valid(s) && !IsOwn(s.server, id) && s.highest < id
    ensures OpenUpTo(s, id).1 == Opened <==>
      if s.server then s.incoming + (id - s.highest + 1) / 2 <= s.maxIncoming else s.incoming < s.maxIncoming
    decreases id - s.highest
  {
    hide PeerIDs, CountParity, NoDuplicates, WasCreated, Steps, PeerIDs;
    LastOpened(s, id);
    if s.incoming < s.maxIncoming {
      OpenRemoteValid(s);
      var t := OpenRemote(s, NextPeer(s));
      if NextPeer(s) < id { OpensAllIff(t, id); }
      assert OpenUpTo(s, id) == OpenUpTo(t, id);
      HalfStep(s, id);
    }
  }

  lemma HalfStep(s: State, id: StreamID)
    requires Valid(s) && !IsOwn(s.server, id) && s.highest < id
    ensures NextPeer(s) <= id && (id - s.highest + 1) / 2 == (id - NextPeer(s) + 1) / 2 + 1
  {
  }

  /** What OpenStream answers: a stream under an own ID that was never used, unless the limit is
      reached. */
  lemma OpenExact(s: State)
    requires Valid(s)
    ensures var (s', r) := Open(s);
      && (r == TooMany <==> s.outgoing >= s.maxOutgoing) && (r == TooMany ==> s' == s)
      && (r != TooMany ==>
          && r == Opened && IsOwn(s.server, s.next) && s.next !in s.created && s'.streams == s.streams + {s.next}
          && s'.open == s.open + [s.next] && s'.highest == s.highest && s'.index == s.index && s'.next == s.next + 2
          && s'.incoming + s'.outgoing == s.incoming + s.outgoing + 1)
  {
    OwnIsNew(s);
    assert s.next !in s.streams;
    hide Valid, Run;
  }

  /** What RemoveStream does: just that stream goes, the others keep their order, and the round robin
      goes on with the stream it stood at, or with its successor if that is the one that went. */
  lemma RemoveExact(s: State, id: StreamID)
    requires Valid(s) && id in s.streams
    ensures var s' := Remove(s, id);
      && s'.streams == s.streams - {id} && s'.created == s.created && s'.next == s.next && s'.highest == s.highest
      && (exists i :: 0 <= i < |s.open| && s.open[i] == id && s'.open == s.open[..i] + s.open[i + 1..])
      && (s.index < |s.open| && s.open[s.index] != id ==>
          s'.index < |s'.open| && s'.open[s'.index] == s.open[s.index])
      && (s.index + 1 < |s.open| && s.open[s.index] == id ==>
          s'.index < |s'.open| && s'.open[s'.index] == s.open[s.index + 1])
  {
    hide PeerIDs, CountParity, NoDuplicates, Steps, IndexOf;
    var i := IndexOf(s.open, id);
    assert Remove(s, id).open == s.open[..i] + s.open[i + 1..];
    if s.index < |s.open| && s.open[s.index] == id { IndexUnique(s.open, s.index); }
  }

  // ---------------------------------------------------------------- runs

  datatype Event = Get(id: StreamID) | OpenOwn | Close(id: StreamID)

  function Apply(s: State, e: Event): State
    requires Valid(s)
  {
    match e
    case Get(id) => GetOrOpen(s, id).0
    case OpenOwn => Open(s).0
    case Close(id) => Remove(s, id)
  }

  lemma ApplyFacts(s: State, e: Event)
    requires Valid(s)
    ensures var s' := Apply(s, e);
      && Valid(s') && s'.server == s.server && s'.maxIncoming == s.maxIncoming && s'.maxOutgoing == s.maxOutgoing
      && s.created <= s'.created && s.highest <= s'.highest && s.next <= s'.next
      && (forall k :: k in s'.streams && k !in s.streams ==> k !in s.created)
      && (s.server && WithinLimits(s) ==> WithinLimits(s'))
  {
    hide PeerIDs, CountParity, NoDuplicates, WasCreated, Steps, OpenUpTo;
    match e
    case Get(id) => OpenUpToFacts(s, id);
    case OpenOwn =>
      OpenValid(s);
      OwnIsNew(s);
    case Close(id) => RemoveValid(s, id);
  }

  lemma OwnIsNew(s: State)
    requires Valid(s)
    ensures s.next !in s.created
  {
    OwnCreated(s, s.(next := s.next + 2));
  }

  predicate WithinLimits(s: State)
  {
    s.incoming <= s.maxIncoming && s.outgoing <= s.maxOutgoing
  }

  function Run(s: State, events: seq<Event>): (s': State)
    requires Valid(s)
    ensures Valid(s')
    decreases |events|
  {
    if events == [] then s else
    ApplyFacts(s, events[0]);
    Run(Apply(s, events[0]), events[1..])
  }

  lemma InitValid(server: bool, maxIncoming: nat, maxOutgoing: nat)
    ensures Valid(Init(server, maxIncoming, maxOutgoing))
  {
  }

  lemma {:induction false} RunFacts(s: State, events: seq<Event>)
    requires Valid(s)
    ensures var s' := Run(s, events);
      && s'.server == s.server && s.created <= s'.created && s.highest <= s'.highest && s.next <= s'.next
      && (forall k :: k in s'.streams && k !in s.streams ==> k !in s.created)
      && (s.server && WithinLimits(s) ==> WithinLimits(s'))
    decreases |events|
  {
    hide Valid, Apply;
    if events != [] {
      ApplyFacts(s, events[0]);
      RunFacts(Apply(s, events[0]), events[1..]);
    }
  }

  /** Over every run: no ID is used twice, the peer's IDs come in increasing order without gaps,
      even when a limit stopped an earlier attempt half way, the open list matches the map, and the
      counters are the numbers of open even and odd streams. A server keeps both within its limits. */
  lemma Lifecycle(server: bool, maxIncoming: nat, maxOutgoing: nat, events: seq<Event>)
    ensures Valid(Init(server, maxIncoming, maxOutgoing))
    ensures var s := Run(Init(server, maxIncoming, maxOutgoing), events);
      && NoDuplicates(s.created)
      && PeerIDs(server, s.created) == Steps(FirstPeer(server), s.highest)
      && NoDuplicates(s.open) && (forall id :: id in s.open <==> id in s.streams)
      && s.outgoing == CountParity(s.open, 0) && s.incoming == CountParity(s.open, 1)
      && (server ==> WithinLimits(s))
  {
    InitValid(server, maxIncoming, maxOutgoing);
    RunFacts(Init(server, maxIncoming, maxOutgoing), events);
  }

  /** A stream that is gone stays gone: in every continuation its ID is not reused, and asking for
      it gives nil and opens nothing. */
  lemma GoneForever(s: State, id: StreamID, events: seq<Event>)
    requires Valid(s) && id in s.created && id !in s.streams
    ensures var s' := Run(s, events); id !in s'.streams && GetOrOpen(s', id) == (s', Closed)
  {
    RunFacts(s, events);
    var s' := Run(s, events);
    assert WasCreated(s, id);
    hide Run, Valid;
  }

  // How many streams a client lets its peer open: none once its own use up the limit, or all.
  lemma {:induction false} ClientOpensUpTo(s: State, id: StreamID)
    requires Valid(s) && !s.server && id % 2 == 0 && s.highest <= id
    ensures OpenUpTo(s, id).0.outgoing == s.outgoing + if s.incoming >= s.maxIncoming then 0 else (id - s.highest) / 2
    decreases id - s.highest
  {
    hide PeerIDs, CountParity, NoDuplicates, WasCreated, Steps;
    if s.highest < id && s.incoming < s.maxIncoming {
      OpenRemoteValid(s);
      ClientOpensUpTo(OpenRemote(s, NextPeer(s)), id);
    }
  }

  /** On a client the check on the peer's streams looks at the client's own: their number stays within
      the limit exactly if the client itself has used it up, or all streams up to the ID fit. */
  lemma ClientPeerLimitIff(s: State, id: StreamID)
    requires Valid(s) && !s.server && s.outgoing <= s.maxIncoming && id % 2 == 0 && s.highest < id
    ensures GetOrOpen(s, id).0.outgoing <= s.maxIncoming <==>
      s.incoming >= s.maxIncoming || s.outgoing + (id - s.highest) / 2 <= s.maxIncoming
  {
    ClientOpensUpTo(s, id);
    assert !WasCreated(s, id);
    hide OpenUpTo, PeerIDs, CountParity, NoDuplicates, Steps;
  }

  /** On a client the checks look at the other side's counter: opening a stream keeps the number of
      own streams within the limit exactly if there is room, or the peer has used up the limit. */
  lemma ClientLimitIff(s: State)
    requires Valid(s) && !s.server && s.incoming <= s.maxOutgoing
    ensures Open(s).0.incoming <= s.maxOutgoing <==> s.incoming < s.maxOutgoing || s.outgoing >= s.maxOutgoing
  {
  }

  /** So a client whose peer opens nothing can open any number of streams. */
  lemma {:induction false} ClientUnlimited(maxIncoming: nat, maxOutgoing: nat, n: nat)
    requires maxOutgoing > 0
    ensures Valid(Init(false, maxIncoming, maxOutgoing))
    ensures exists es :: |es| == n && Run(Init(false, maxIncoming, maxOutgoing), es).incoming == n
  {
    InitValid(false, maxIncoming, maxOutgoing);
    OpenMany(Init(false, maxIncoming, maxOutgoing), n);
  }

  lemma {:induction false} OpenMany(s: State, n: nat)
    requires Valid(s) && !s.server && s.outgoing < s.maxOutgoing
    ensures Run(s, seq(n, _ => OpenOwn)).incoming == s.incoming + n
    decreases n
  {
    hide Valid;
    if n > 0 {
      OpenValid(s);
      OpenMany(Open(s).0, n - 1);
      assert seq(n, _ => OpenOwn)[1..] == seq(n - 1, _ => OpenOwn);
    }
  }

  // ---------------------------------------------------------------- round robin

  // The place i steps after place r in a ring of n.
  function Slot(r: nat, i: nat, n: nat): (k: nat)
    requires r < n && i <= n
    ensures k < n
  {
    if r + i < n then r + i else r + i - n
  }

  // The index as a place; it may be one past the end after the last stream was removed.
  function Place(s: State): nat
  {
    if s.index == |s.open| then 0 else s.index
  }

  // The streams offered from step i on, starting at place r; streams 1 and 3 are not in the ring.
  function Walk(open: seq<StreamID>, r: nat, i: nat, cont: StreamID -> Answer): (offered: seq<StreamID>)
    requires i <= |open| && (open != [] ==> r < |open|)
    ensures |offered| <= |open| - i
    decreases |open| - i
  {
    if i == |open| then [] else
    var id := open[Slot(r, i, |open|)];
    if id == 1 || id == 3 then Walk(open, r, i + 1, cont)
    else [id] + if cont(id) == Continue then Walk(open, r, i + 1, cont) else []
  }

  // Streams 1 and 3 come first, and either of them may end the call.
  predicate Passes(s: State, cont: StreamID -> Answer)
  {
    (1 in s.streams ==> cont(1) == Continue) && (3 in s.streams ==> cont(3) == Continue)
  }

  function Specials(s: State, cont: StreamID -> Answer): seq<StreamID>
  {
    if 1 in s.streams && cont(1) != Continue then [1]
    else (if 1 in s.streams then [1] else []) + if 3 in s.streams then [3] else []
  }

  function Iterate(s: State, cont: StreamID -> Answer): (State, seq<StreamID>)
    requires s.index <= |s.open|
  {
    if !Passes(s, cont) then (s, Specials(s, cont)) else
    var offered := Offered(s, cont);
    (s.(index := Moved(s, offered, cont)), Specials(s, cont) + offered)
  }

  // The streams of the ring that are offered.
  function Offered(s: State, cont: StreamID -> Answer): (offered: seq<StreamID>)
    requires s.index <= |s.open|
    ensures |offered| <= |s.open|
  {
    if s.open == [] then [] else Walk(s.open, Place(s), 0, cont)
  }

  // The index moves past every stream that was offered, unless its callback failed.
  function Moved(s: State, offered: seq<StreamID>, cont: StreamID -> Answer): nat
    requires |offered| <= |s.open| && s.index <= |s.open|
  {
    After(s.index, Passed(offered, cont), |s.open|)
  }

  // Where an index stands after c steps in a ring of n; an index past the end counts as 0.
  function After(index: nat, c: nat, n: nat): nat
    requires index <= n && c <= n
  {
    if c == 0 then index else Slot(if index == n then 0 else index, c, n)
  }

  function Passed(offered: seq<StreamID>, cont: StreamID -> Answer): (n: nat)
    ensures n <= |offered|
  {
    if offered == [] then 0
    else if cont(offered[|offered| - 1]) == Fail then |offered| - 1 else |offered|
  }

  // The call ends with the error of a callback.
  predicate Failed(s: State, cont: StreamID -> Answer)
    requires s.index <= |s.open|
  {
    if !Passes(s, cont) then cont(Specials(s, cont)[|Specials(s, cont)| - 1]) == Fail
    else Offered(s, cont) != [] && cont(Offered(s, cont)[|Offered(s, cont)| - 1]) == Fail
  }

  // How many steps the ring still has to go to reach a stream.
  function Distance(s: State, id: StreamID): nat
    requires id in s.open && s.index <= |s.open|
  {
    var i, r := IndexOf(s.open, id), Place(s);
    if i >= r then i - r else i + |s.open| - r
  }

  // A walk either offers the stream d steps ahead or stops with at most d offers.
  lemma {:induction false} WalkReaches(open: seq<StreamID>, r: nat, i: nat, d: nat, cont: StreamID -> Answer)
    requires i <= d < |open| && r < |open|
    requires open[Slot(r, d, |open|)] != 1 && open[Slot(r, d, |open|)] != 3
    ensures var w := Walk(open, r, i, cont);
      w != [] && (open[Slot(r, d, |open|)] in w || |w| <= d - i)
    decreases |open| - i
  {
    if i < d {
      WalkReaches(open, r, i + 1, d, cont);
    }
  }

  // The ring without streams 1 and 3.
  function Others(ids: seq<StreamID>): seq<StreamID>
  {
    if ids == [] then [] else (if ids[0] == 1 || ids[0] == 3 then [] else [ids[0]]) + Others(ids[1..])
  }

  // w is the part of the ring up to the first stream whose callback does not say continue.
  ghost predicate UpToStop(w: seq<StreamID>, ring: seq<StreamID>, cont: StreamID -> Answer)
  {
    && w <= ring && (forall j :: 0 <= j < |w| - 1 ==> cont(w[j]) == Continue)
    && (w == ring || (w != [] && cont(w[|w| - 1]) != Continue))
  }

  lemma {:induction false} WalkUpToStop(open: seq<StreamID>, r: nat, i: nat, cont: StreamID -> Answer)
    requires i <= |open| && r < |open|
    ensures UpToStop(Walk(open, r, i, cont), Others((open[r..] + open[..r])[i..]), cont)
    decreases |open| - i
  {
    if i < |open| {
      var ring := open[r..] + open[..r];
      WalkUpToStop(open, r, i + 1, cont);
      assert ring[i..][0] == open[Slot(r, i, |open|)] && ring[i..][1..] == ring[i + 1..];
    }
  }

  /** The streams offered: 1 and 3 first, as far as they are there, and then the others in the order of
      the ring, each only as long as all before it have answered continue. */
  lemma IterateExact(s: State, cont: StreamID -> Answer)
    requires Valid(s)
    ensures var (s', offered) := Iterate(s, cont);
      var first := (if 1 in s.streams then [1] else []) + if 3 in s.streams then [3] else [];
      var r := if s.index == |s.open| then 0 else s.index;
      && UpToStop(offered, first + Others(s.open[r..] + s.open[..r]), cont) && s' == s.(index := s'.index)
      && (Failed(s, cont) <==> offered != [] && cont(offered[|offered| - 1]) == Fail)
  {
    hide Valid, Walk, Others, UpToStop, Moved;
    RingSize(s);
    var first := (if 1 in s.streams then [1] else []) + if 3 in s.streams then [3] else [];
    var r := if s.index == |s.open| then 0 else s.index;
    var ring := s.open[r..] + s.open[..r];
    if s.open != [] {
      WalkUpToStop(s.open, r, 0, cont);
      assert ring[0..] == ring;
    } else {
      assert Others(ring) == [] by { NoOthers(); }
    }
    assert UpToStop(Offered(s, cont), Others(ring), cont) by { NothingToWalk(cont); }
    hide Offered;
    if Passes(s, cont) {
      StopAfter(first, Offered(s, cont), Others(ring), cont);
      FailsAtTheEnd(first, Offered(s, cont), cont);
    } else {
      StopsAtOnce(s, cont, Others(ring));
    }
  }

  lemma NothingToWalk(cont: StreamID -> Answer)
    ensures UpToStop([], [], cont)
  {
  }

  // With streams that answered continue before it, the last answer is that of the ring.
  lemma FailsAtTheEnd(first: seq<StreamID>, w: seq<StreamID>, cont: StreamID -> Answer)
    requires forall j :: 0 <= j < |first| ==> cont(first[j]) == Continue
    ensures var all := first + w;
      (all != [] && cont(all[|all| - 1]) == Fail) <==> w != [] && cont(w[|w| - 1]) == Fail
  {
  }

  lemma StopsAtOnce(s: State, cont: StreamID -> Answer, ring: seq<StreamID>)
    requires !Passes(s, cont)
    ensures var first := (if 1 in s.streams then [1] else []) + if 3 in s.streams then [3] else [];
      UpToStop(Specials(s, cont), first + ring, cont)
  {
  }

  lemma NoOthers()
    ensures Others([]) == []
  {
  }

  lemma StopAfter(first: seq<StreamID>, w: seq<StreamID>, ring: seq<StreamID>, cont: StreamID -> Answer)
    requires UpToStop(w, ring, cont) && forall j :: 0 <= j < |first| ==> cont(first[j]) == Continue
    ensures UpToStop(first + w, first + ring, cont)
  {
    var all := first + w;
    forall j | 0 <= j < |all| - 1 ensures cont(all[j]) == Continue {
      if j >= |first| { assert all[j] == w[j - |first|]; }
    }
    if w == [] { assert all == first; }
  }

  lemma IterateApproaches(s: State, id: StreamID, cont: StreamID -> Answer)
    requires s.index <= |s.open| && id in s.open && id != 1 && id != 3 && Passes(s, cont) && !Failed(s, cont)
    ensures var (s', offered) := Iterate(s, cont);
      && s'.open == s.open && s'.index <= |s'.open|
      && (id in offered || Distance(s', id) < Distance(s, id))
  {
    var d, r := Distance(s, id), Place(s);
    assert s.open[Slot(r, d, |s.open|)] == id;
    WalkReaches(s.open, r, 0, d, cont);
    hide Walk, IndexOf, Specials;
    var w := Walk(s.open, r, 0, cont);
    if id !in w {
      assert 0 < |w| <= d;
    }
  }

  lemma RemoveApproaches(s: State, gone: StreamID, id: StreamID)
    requires Valid(s) && id in s.open && gone != id
    ensures var s' := Remove(s, gone);
      id in s'.open && s'.index <= |s'.open| && Distance(s', id) <= Distance(s, id)
  {
    hide IndexOf, CountParity, PeerIDs, Steps, NoDuplicates;
    RemoveValid(s, gone);
    if gone in s.streams {
      var i, k := IndexOf(s.open, gone), IndexOf(s.open, id);
      WithoutFacts(s.open, i);
      IndexUnique(Without(s.open, i), if k < i then k else k - 1);
    }
  }

  datatype Turn = Call(cont: StreamID -> Answer) | Drop(id: StreamID)

  // Calls and removals, as long as streams 1 and 3 let the calls pass, no callback fails and id
  // itself stays.
  ghost predicate Fair(s: State, turns: seq<Turn>, id: StreamID)
    requires Valid(s)
    decreases |turns|
  {
    turns == [] ||
    match turns[0]
    case Call(cont) =>
      Passes(s, cont) && !Failed(s, cont) && (IterateValid(s, cont); Fair(Iterate(s, cont).0, turns[1..], id))
    case Drop(gone) =>
      gone != id && (RemoveValid(s, gone); Fair(Remove(s, gone), turns[1..], id))
  }

  lemma IterateValid(s: State, cont: StreamID -> Answer)
    requires Valid(s)
    ensures Valid(Iterate(s, cont).0)
  {
    hide PeerIDs, CountParity, NoDuplicates, Steps, Walk;
  }

  // The stream is offered in one of the calls.
  ghost predicate OfferedIn(s: State, turns: seq<Turn>, id: StreamID)
    requires Valid(s)
    decreases |turns|
  {
    turns != [] &&
    match turns[0]
    case Call(cont) =>
      id in Iterate(s, cont).1 || (IterateValid(s, cont); OfferedIn(Iterate(s, cont).0, turns[1..], id))
    case Drop(gone) => RemoveValid(s, gone); OfferedIn(Remove(s, gone), turns[1..], id)
  }

  function Calls(turns: seq<Turn>): nat
  {
    if turns == [] then 0 else (if turns[0].Call? then 1 else 0) + Calls(turns[1..])
  }

  lemma {:induction false} ReachedByDistance(s: State, turns: seq<Turn>, id: StreamID)
    requires Valid(s) && id in s.open && id != 1 && id != 3
    requires Fair(s, turns, id) && Calls(turns) > Distance(s, id)
    ensures OfferedIn(s, turns, id)
    decreases |turns|
  {
    hide Valid, Distance, Iterate, Passes, Remove;
    assert s.index <= |s.open| by { IndexBound(s); }
    match turns[0] {
      case Call(cont) =>
        IterateApproaches(s, id, cont);
        IterateValid(s, cont);
        if id !in Iterate(s, cont).1 { ReachedByDistance(Iterate(s, cont).0, turns[1..], id); }
      case Drop(gone) =>
        RemoveApproaches(s, gone, id);
        RemoveValid(s, gone);
        ReachedByDistance(Remove(s, gone), turns[1..], id);
    }
  }

  lemma IndexBound(s: State)
    requires Valid(s)
    ensures s.index <= |s.open| && forall id :: id in s.open ==> Distance(s, id) < |s.open|
  {
  }

  /** No starvation: with n streams open and none added, every stream but 1 and 3 is offered within
      n calls that are neither cut short by streams 1 and 3 nor end with an error, wherever the
      callbacks stop them and whichever other streams are removed in between. */
  lemma NoStarvation(s: State, turns: seq<Turn>, id: StreamID)
    requires Valid(s) && id in s.open && id != 1 && id != 3
    requires Fair(s, turns, id) && Calls(turns) >= |s.open|
    ensures OfferedIn(s, turns, id)
  {
    IndexBound(s);
    ReachedByDistance(s, turns, id);
  }

  // ---------------------------------------------------------------- the map

  class Map {
    const server: bool
    const maxIncoming: nat
    const maxOutgoing: nat
    var streams: set<StreamID>
    var openStreams: seq<StreamID>
    var roundRobinIndex: nat
    var nextStream: StreamID
    var highestStreamOpenedByPeer: StreamID
    var numOutgoingStreams: nat
    var numIncomingStreams: nat
    var closed: bool
    ghost var created: seq<StreamID>

    ghost function Value(): State
      reads this
    {
      State(server, streams, openStreams, roundRobinIndex, nextStream, highestStreamOpenedByPeer,
            numOutgoingStreams, numIncomingStreams, maxIncoming, maxOutgoing, created)
    }

    constructor (server: bool, maxIncoming: nat, maxOutgoing: nat)
      ensures Value() == Init(server, maxIncoming, maxOutgoing) && !closed
    {
      this.server, this.maxIncoming, this.maxOutgoing := server, maxIncoming, maxOutgoing;
      streams, openStreams, roundRobinIndex := {}, [], 0;
      nextStream := if server then 2 else 1;
      highestStreamOpenedByPeer, numOutgoingStreams, numIncomingStreams := 0, 0, 0;
      created, closed := [], false;
    }

    /** The connection is closed with an error; the streams stay listed. */
    method CloseWithError()
      modifies this`closed
      ensures closed
    {
      closed := true;
    }

    /** Adds a stream; false if there is one with that ID. */
    method PutStream(id: StreamID) returns (ok: bool)
      modifies this`streams, this`openStreams, this`created
      ensures Value() == Put(old(Value()), id) && ok == (id !in old(streams))
    {
      if id in streams {
        return false;
      }
      streams := streams + {id};
      openStreams := openStreams + [id];
      created := created + [id];
      return true;
    }

    /** An existing stream, a newly opened one, or nil if the stream is closed. */
    method GetOrOpenStream(id: StreamID) returns (r: Outcome)
      modifies this
      ensures (Value(), r) == GetOrOpen(old(Value()), id)
    {
      if id in streams {
        return Found;
      }
      if server {
        if id % 2 == 0 {
          return if id <= nextStream then Closed else InvalidID;
        }
      } else {
        if id % 2 == 1 {
          return if id <= nextStream then Closed else InvalidID;
        }
      }
      if id <= highestStreamOpenedByPeer {
        return Closed;
      }
      var sid := highestStreamOpenedByPeer + 2;
      if sid == 2 && server {
        sid := 1;
      }
      while sid <= id
        invariant sid == NextPeer(Value())
        invariant OpenUpTo(old(Value()), id) == OpenUpTo(Value(), id)
        decreases id + 2 - sid
      {
        if numIncomingStreams >= maxIncoming {
          return TooMany;
        }
        if sid + MAX_NEW_STREAM_ID_DELTA < highestStreamOpenedByPeer {
          return InvalidID;
        }
        if server {
          numIncomingStreams := numIncomingStreams + 1;
        } else {
          numOutgoingStreams := numOutgoingStreams + 1;
        }
        if sid > highestStreamOpenedByPeer {
          highestStreamOpenedByPeer := sid;
        }
        var _ := PutStream(sid);
        sid := sid + 2;
      }
      return Opened;
    }

    method OpenStream() returns (r: Outcome)
      modifies this
      ensures (Value(), r) == if old(closed) then (old(Value()), ConnectionClosed) else Open(old(Value()))
      ensures closed == old(closed)
    {
      if closed {
        return ConnectionClosed;
      }
      var id := nextStream;
      if numOutgoingStreams >= maxOutgoing {
        return TooMany;
      }
      if server {
        numOutgoingStreams := numOutgoingStreams + 1;
      } else {
        numIncomingStreams := numIncomingStreams + 1;
      }
      nextStream := nextStream + 2;
      var _ := PutStream(id);
      return Opened;
    }

    method RemoveStream(id: StreamID) returns (ok: bool)
      requires Valid(Value())
      modifies this
      ensures Value() == Remove(old(Value()), id) && ok == (id in old(streams))
    {
      if id !in streams {
        return false;
      }
      hide IndexOf, CountParity, Valid;
      OpenIsCounted(Value(), id);
      ghost var k := IndexOf(openStreams, id);
      if id % 2 == 0 {
        numOutgoingStreams := numOutgoingStreams - 1;
      } else {
        numIncomingStreams := numIncomingStreams - 1;
      }
      var i := 0;
      while openStreams[i] != id
        invariant i <= k
        decreases k - i
      {
        i := i + 1;
      }
      openStreams := openStreams[..i] + openStreams[i + 1..];
      if i < roundRobinIndex {
        roundRobinIndex := roundRobinIndex - 1;
      }
      streams := streams - {id};
      return true;
    }

    /** Offers the open streams to a callback, streams 1 and 3 first, until it says stop or fails. */
    method RoundRobinIterate(cont: StreamID -> Answer) returns (offered: seq<StreamID>, failed: bool)
      requires Valid(Value())
      modifies this`roundRobinIndex
      ensures (Value(), offered) == Iterate(old(Value()), cont) && failed == Failed(old(Value()), cont)
    {
      hide Valid, Offered, Moved;
      RingSize(Value());
      offered := [];
      if 1 in streams {
        offered := [1];
        if cont(1) != Continue {
          return offered, cont(1) == Fail;
        }
      }
      if 3 in streams {
        offered := offered + [3];
        if cont(3) != Continue {
          return offered, cont(3) == Fail;
        }
      }
      assert Passes(Value(), cont) && offered == Specials(Value(), cont);
      var ring;
      ring, failed := WalkRing(cont);
      offered := offered + ring;
      LastFails(ring, cont);
    }

    // The walk over the ring of the other streams.
    method WalkRing(cont: StreamID -> Answer) returns (offered: seq<StreamID>, failed: bool)
      requires roundRobinIndex <= |openStreams| == |streams|
      modifies this`roundRobinIndex
      ensures offered == Offered(old(Value()), cont)
      ensures roundRobinIndex == Moved(old(Value()), offered, cont)
      ensures failed == (Passed(offered, cont) < |offered|)
    {
      hide Walk, Slot, After, Passed;
      var numStreams := |streams|;
      var startIndex := roundRobinIndex;
      ghost var r := Place(Value());
      offered, failed := [], false;
      Standing(startIndex, numStreams, cont);
      var i := 0;
      while i < numStreams
        invariant i <= numStreams && |offered| <= i
        invariant numStreams > 0 ==> Walk(openStreams, r, 0, cont) == offered + Walk(openStreams, r, i, cont)
        invariant Passed(offered, cont) == |offered|
        invariant roundRobinIndex == After(startIndex, |offered|, numStreams)
      {
        SlotIsMod(startIndex, i, numStreams);
        WalkStep(openStreams, r, i, cont, offered);
        var id := openStreams[(i + startIndex) % numStreams];
        i := i + 1;
        if id != 1 && id != 3 {
          ghost var k := |offered|;
          NextIsMod(startIndex, k, numStreams);
          PassedOne(offered, id, cont);
          offered := offered + [id];
          if cont(id) == Fail {
            return offered, true;
          }
          roundRobinIndex := (roundRobinIndex + 1) % numStreams;
          if cont(id) == Stop {
            return;
          }
        }
      }
    }
  }

  // A list without duplicates is as long as the set of its elements.
  lemma {:induction false} SizesMatch(ids: seq<StreamID>, all: set<StreamID>)
    requires NoDuplicates(ids) && forall id :: id in ids <==> id in all
    ensures |ids| == |all|
    decreases |ids|
  {
    if ids == [] {
      assert all == {};
    } else {
      assert forall i :: 0 <= i < |ids[1..]| ==> ids[1..][i] == ids[i + 1];
      SizesMatch(ids[1..], all - {ids[0]});
    }
  }

  lemma WalkStep(open: seq<StreamID>, r: nat, i: nat, cont: StreamID -> Answer, offered: seq<StreamID>)
    requires i < |open| && r < |open|
    ensures var id := open[Slot(r, i, |open|)];
      offered + Walk(open, r, i, cont) ==
        if id == 1 || id == 3 then offered + Walk(open, r, i + 1, cont)
        else if cont(id) == Continue then offered + [id] + Walk(open, r, i + 1, cont) else offered + [id]
    ensures Walk(open, r, |open|, cont) == []
  {
  }

  lemma ModOnce(x: nat, n: nat)
    requires n > 0 && x < 2 * n
    ensures x % n == if x < n then x else x - n
  {
    if x >= n {
      assert x == 1 * n + (x - n);
      assert x / n == 1;
    }
  }

  lemma SlotIsMod(index: nat, i: nat, n: nat)
    requires index <= n && i < n
    ensures (i + index) % n == Slot(if index == n then 0 else index, i, n)
  {
    ModOnce(i + index, n);
  }

  lemma Standing(index: nat, n: nat, cont: StreamID -> Answer)
    requires index <= n
    ensures After(index, 0, n) == index && Passed([], cont) == 0
  {
  }

  lemma PassedOne(offered: seq<StreamID>, id: StreamID, cont: StreamID -> Answer)
    ensures Passed(offered + [id], cont) == |offered| + if cont(id) == Fail then 0 else 1
  {
  }

  lemma LastFails(offered: seq<StreamID>, cont: StreamID -> Answer)
    ensures Passed(offered, cont) < |offered| <==> offered != [] && cont(offered[|offered| - 1]) == Fail
  {
  }

  lemma RingSize(s: State)
    requires Valid(s)
    ensures s.index <= |s.open| == |s.streams|
  {
    SizesMatch(s.open, s.streams);
  }

  lemma NextIsMod(index: nat, c: nat, n: nat)
    requires index <= n && c < n
    ensures (After(index, c, n) + 1) % n == After(index, c + 1, n)
  {
    if n > 1 {
      ModOnce(After(index, c, n) + 1, n);
    }
  }
}
