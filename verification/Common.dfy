// Small definitions that several modules share.
module Common {
  datatype Option<+T> = None | Some(value: T)

  type StreamID = nat

  function Min(a: nat, b: nat): nat { if a < b then a else b }

  // m is the larger, or the smaller, of the two numbers.
  predicate IsLarger(m: nat, a: nat, b: nat)
  {
    m >= a && m >= b && (m == a || m == b)
  }

  predicate IsSmaller(m: nat, a: nat, b: nat)
  {
    m <= a && m <= b && (m == a || m == b)
  }

  ghost predicate NoDuplicates(ids: seq<StreamID>)
  {
    forall i, j :: 0 <= i < j < |ids| ==> ids[i] != ids[j]
  }

  // The first place of an ID in a list.
  function IndexOf(ids: seq<StreamID>, id: StreamID): (i: nat)
    requires id in ids
    ensures i < |ids| && ids[i] == id && id !in ids[..i]
  {
    if ids[0] == id then 0 else 1 + IndexOf(ids[1..], id)
  }

  lemma IndexUnique(ids: seq<StreamID>, k: nat)
    requires NoDuplicates(ids) && k < |ids|
    ensures IndexOf(ids, ids[k]) == k
  {
    assert ids[IndexOf(ids, ids[k])] == ids[k];
  }
}
