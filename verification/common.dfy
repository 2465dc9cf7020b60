/** Small shared vocabulary: an optional value, standing in for TypeScript's `undefined`. */
module Common {

  datatype Option<T> = None | Some(value: T)
}

/**
  The index structures both client registries build from their static data tables:
  a string-keyed dictionary of lists (`Dictionary<List<Entry>>`) filled in data order,
  and a string-keyed dictionary of single entries (`Dictionary<Entry>`).
  Entries are referred to by their position in the data table, which is how the
  registries share one entry object between all of their indexes.
 */
module Indexing {
  import opened Common

  /** The positions `i` with `keys[i] == k`, in ascending order. */
  function Positions(keys: seq<string>, k: string): (r: seq<nat>)
    ensures forall j :: 0 <= j < |r| ==> r[j] < |keys| && keys[r[j]] == k
    ensures forall i :: 0 <= i < |keys| && keys[i] == k ==> i in r
    ensures forall a, b :: 0 <= a < b < |r| ==> r[a] < r[b]
    decreases |keys|
  {
    if |keys| == 0 then []
    else
      var n := |keys| - 1;
      Positions(keys[..n], k) + (if keys[n] == k then [n] else [])
  }

  /** Appending one key extends each position list by at most that key's position. */
  lemma PositionsSnoc(keys: seq<string>, i: nat, k: string)
    requires i < |keys|
    ensures Positions(keys[..i + 1], k) == Positions(keys[..i], k) + (if keys[i] == k then [i] else [])
  {
    assert keys[..i + 1][..i] == keys[..i];
  }

  /** `p` is the last position of `ids` that holds `id`: where a last-wins dictionary points. */
  predicate LastIndexOf(ids: seq<string>, id: string, p: nat)
  {
    p < |ids| && ids[p] == id && forall j :: p < j < |ids| ==> ids[j] != id
  }

  predicate Distinct(ids: seq<string>)
  {
    forall a, b :: 0 <= a < b < |ids| ==> ids[a] != ids[b]
  }

  /** With distinct ids, the last position of `ids[i]` is `i` itself. */
  lemma LastIndexOfDistinct(ids: seq<string>, i: nat, p: nat)
    requires Distinct(ids) && i < |ids| && LastIndexOf(ids, ids[i], p)
    ensures p == i
  {
  }

  /**
    Creates an empty list for every key of `listKeys`, then appends the position of every
    item to the list of its key. Asking for a key that has no list yields `undefined`, and
    appending to it throws: the whole build fails, which is `None` here.
   */
  method GroupBy(listKeys: seq<string>, itemKeys: seq<string>) returns (r: Option<map<string, seq<nat>>>)
    ensures r.Some? <==> forall i :: 0 <= i < |itemKeys| ==> itemKeys[i] in listKeys
    ensures r.Some? ==> r.value.Keys == set k | k in listKeys
    ensures r.Some? ==> forall k :: k in r.value ==> r.value[k] == Positions(itemKeys, k)
  {
    var m: map<string, seq<nat>> := map[];
    var j := 0;
    while j < |listKeys|
      invariant 0 <= j <= |listKeys|
      invariant m.Keys == set k | k in listKeys[..j]
      invariant forall k :: k in m ==> m[k] == []
    {
      assert listKeys[..j + 1] == listKeys[..j] + [listKeys[j]];
      m := m[listKeys[j] := []];
      j := j + 1;
    }
    assert listKeys[..j] == listKeys;
    var i := 0;
    while i < |itemKeys|
      invariant 0 <= i <= |itemKeys|
      invariant m.Keys == set k | k in listKeys
      invariant forall k :: k in m ==> m[k] == Positions(itemKeys[..i], k)
      invariant forall j :: 0 <= j < i ==> itemKeys[j] in listKeys
    {
      if itemKeys[i] !in m {
        return None;
      }
      forall k | k in m
        ensures Positions(itemKeys[..i + 1], k) == Positions(itemKeys[..i], k) + (if itemKeys[i] == k then [i] else [])
      {
        PositionsSnoc(itemKeys, i, k);
      }
      m := m[itemKeys[i] := m[itemKeys[i]] + [i]];
      i := i + 1;
    }
    assert itemKeys[..i] == itemKeys;
    return Some(m);
  }

  /** Adds every id with its position to a dictionary in data order; a repeated id keeps the last position. */
  method IndexByID(ids: seq<string>) returns (m: map<string, nat>)
    ensures m.Keys == set id | id in ids
    ensures forall id :: id in m ==> LastIndexOf(ids, id, m[id])
  {
    m := map[];
    var i := 0;
    while i < |ids|
      invariant 0 <= i <= |ids|
      invariant m.Keys == set id | id in ids[..i]
      invariant forall id :: id in m ==> m[id] < i && ids[m[id]] == id && forall j :: m[id] < j < i ==> ids[j] != id
    {
      assert ids[..i + 1] == ids[..i] + [ids[i]];
      m := m[ids[i] := i];
      i := i + 1;
    }
    assert ids[..i] == ids;
  }
}
