/**
  The client's card registry: one entry per card of the static card table, indexed by
  position, id, card type and faction, each entry carrying how many copies of the card
  a deck may hold, one counter per unlock source.
 */
module CardRegistry {
  import opened Common
  import opened Indexing

  /** The unlock sources: LEVEL is 0 and CONTRACT is 1. */
  type UnlockType = t: nat | t < 2
  const Level: UnlockType := 0
  const Contract: UnlockType := 1

  /**
    An entry pushes one zero counter per key of `Object.keys(CARD_UNLOCK_TYPE)`. A numeric
    TypeScript enum also carries its reverse (number-to-name) keys, so that list has four keys
    and every entry four counters; the two past CONTRACT are never addressed.
   */
  const CountSlots := 4

  type Counts = s: seq<nat> | |s| == CountSlots witness [0, 0, 0, 0]

  /** A card entry: its position in the card table, its id, and its counters. */
  datatype CardEntry = CardEntry(position: nat, id: string, count: Counts)

  /** Sum of a sequence of counters. */
  function Sum(s: seq<nat>): nat
  {
    if |s| == 0 then 0 else Sum(s[..|s| - 1]) + s[|s| - 1]
  }

  /** Replacing one counter moves the sum by the difference. */
  lemma {:induction false} SumUpdate(s: seq<nat>, i: nat, v: nat)
    requires i < |s|
    ensures Sum(s[i := v]) + s[i] == Sum(s) + v
  {
    var n := |s| - 1;
    if i == n {
      assert s[i := v][..n] == s[..n];
    } else {
      assert s[i := v][..n] == s[..n][i := v];
      SumUpdate(s[..n], i, v);
    }
  }

  /** The allowance of an entry is the sum of its four counters. */
  lemma SumOfSlots(c: Counts)
    ensures Sum(c) == c[0] + c[1] + c[2] + c[3]
  {
    assert Sum(c[..1]) == c[0] by { assert c[..1][..0] == []; }
    assert Sum(c[..2]) == c[0] + c[1] by { assert c[..2][..1] == c[..1]; }
    assert Sum(c[..3]) == c[0] + c[1] + c[2] by { assert c[..3][..2] == c[..2]; }
    assert c[..3] == c[..|c| - 1];
  }

  /** A fresh entry: every counter zero, so nothing is allowed yet. */
  function NewEntry(pos: nat, id: string): (e: CardEntry)
    ensures e.position == pos && e.id == id
    ensures forall u :: 0 <= u < CountSlots ==> e.count[u] == 0
    ensures Sum(e.count) == 0
  {
    var e := CardEntry(pos, id, [0, 0, 0, 0]);
    SumOfSlots(e.count);
    e
  }

  /** The getter `CountAllowed`: adds the counters up one by one. */
  method CountAllowed(e: CardEntry) returns (value: nat)
    ensures value == e.count[0] + e.count[1] + e.count[2] + e.count[3]
  {
    value := 0;
    var i := 0;
    while i < |e.count|
      invariant 0 <= i <= |e.count|
      invariant value == Sum(e.count[..i])
    {
      assert e.count[..i + 1][..i] == e.count[..i];
      value := value + e.count[i];
      i := i + 1;
    }
    assert e.count[..i] == e.count;
    SumOfSlots(e.count);
  }

  /** Sets the counter of one source to zero. */
  function ClearCount(e: CardEntry, t: UnlockType): (r: CardEntry)
    ensures r.position == e.position && r.id == e.id
    ensures r.count[t] == 0
    ensures forall u :: 0 <= u < CountSlots && u != t ==> r.count[u] == e.count[u]
    ensures Sum(r.count) + e.count[t] == Sum(e.count)
  {
    SumUpdate(e.count, t, 0);
    e.(count := e.count[t := 0])
  }

  /** Raises the counter of one source. */
  function AddCount(e: CardEntry, t: UnlockType, value: nat): (r: CardEntry)
    ensures r.position == e.position && r.id == e.id
    ensures r.count[t] == e.count[t] + value
    ensures forall u :: 0 <= u < CountSlots && u != t ==> r.count[u] == e.count[u]
    ensures Sum(r.count) == Sum(e.count) + value
  {
    SumUpdate(e.count, t, e.count[t] + value);
    e.(count := e.count[t := e.count[t] + value])
  }

  /** One row of the card table: id, type key and faction key (each as its `toString()`). */
  datatype CardDef = CardDef(id: string, cardType: string, faction: string)

  datatype FactionEntry = FactionEntry(position: nat, id: string)

  /**
    The registry. The type and faction lists and the id dictionary hold positions into
    `all`, so every index shares the one entry that the counters live in.
   */
  datatype Registry = Registry(
    factionsAll: seq<FactionEntry>,
    factionsViaID: map<string, nat>,
    all: seq<CardEntry>,
    viaID: map<string, nat>,
    viaType: map<string, seq<nat>>,
    viaFaction: map<string, seq<nat>>)

  /** Every index points into `all`, and the id dictionary points at an entry with that id. */
  predicate Wf(r: Registry)
  {
    && (forall p :: 0 <= p < |r.all| ==> r.all[p].position == p)
    && (forall id :: id in r.viaID ==> r.viaID[id] < |r.all| && r.all[r.viaID[id]].id == id)
    && (forall k, j :: k in r.viaType && 0 <= j < |r.viaType[k]| ==> r.viaType[k][j] < |r.all|)
    && (forall f, j :: f in r.viaFaction && 0 <= j < |r.viaFaction[f]| ==> r.viaFaction[f][j] < |r.all|)
  }

  /** Everything but the counters is the same: the indexes and every entry's position and id. */
  predicate SameShape(r: Registry, r': Registry)
  {
    && r'.factionsAll == r.factionsAll && r'.factionsViaID == r.factionsViaID
    && r'.viaID == r.viaID && r'.viaType == r.viaType && r'.viaFaction == r.viaFaction
    && |r'.all| == |r.all|
    && forall p :: 0 <= p < |r.all| ==> r'.all[p].position == r.all[p].position && r'.all[p].id == r.all[p].id
  }

  function Ids(cards: seq<CardDef>): seq<string>
  {
    seq(|cards|, i requires 0 <= i < |cards| => cards[i].id)
  }

  function TypeKeys(cards: seq<CardDef>): seq<string>
  {
    seq(|cards|, i requires 0 <= i < |cards| => cards[i].cardType)
  }

  function FactionKeys(cards: seq<CardDef>): seq<string>
  {
    seq(|cards|, i requires 0 <= i < |cards| => cards[i].faction)
  }

  /**
    What the constructor builds from the card table `cards`, the type keys
    (`Object.keys(CARD_TYPE)`) and the faction table's ids.
   */
  predicate Indexed(r: Registry, cards: seq<CardDef>, typeKeys: seq<string>, factionIds: seq<string>)
  {
    && |r.factionsAll| == |factionIds|
    && (forall i :: 0 <= i < |factionIds| ==> r.factionsAll[i] == FactionEntry(i, factionIds[i]))
    && r.factionsViaID.Keys == (set f | f in factionIds)
    && (forall f :: f in r.factionsViaID ==> LastIndexOf(factionIds, f, r.factionsViaID[f]))
    && (forall i :: 0 <= i < |cards| ==> cards[i].cardType in typeKeys && cards[i].faction in factionIds)
    && |r.all| == |cards|
    && (forall i :: 0 <= i < |cards| ==> r.all[i].position == i && r.all[i].id == cards[i].id)
    && r.viaID.Keys == (set id | id in Ids(cards))
    && (forall id :: id in r.viaID ==> LastIndexOf(Ids(cards), id, r.viaID[id]))
    && r.viaType.Keys == (set k | k in typeKeys)
    && (forall k :: k in r.viaType ==> r.viaType[k] == Positions(TypeKeys(cards), k))
    && r.viaFaction.Keys == (set f | f in factionIds)
    && (forall f :: f in r.viaFaction ==> r.viaFaction[f] == Positions(FactionKeys(cards), f))
  }

  /**
    The registry constructor. It fails (throws, here `None`) exactly when some card names a
    type or faction that has no list.
   */
  method Build(cards: seq<CardDef>, typeKeys: seq<string>, factionIds: seq<string>) returns (r: Option<Registry>)
    ensures r.Some? <==> forall i :: 0 <= i < |cards| ==> cards[i].cardType in typeKeys && cards[i].faction in factionIds
    ensures r.Some? ==> Indexed(r.value, cards, typeKeys, factionIds)
    ensures r.Some? ==> forall p :: 0 <= p < |r.value.all| ==> Sum(r.value.all[p].count) == 0
  {
    var byType := GroupBy(typeKeys, TypeKeys(cards));
    var byFaction := GroupBy(factionIds, FactionKeys(cards));
    if byType.None? || byFaction.None? {
      if byType.None? {
        var i :| 0 <= i < |cards| && TypeKeys(cards)[i] !in typeKeys;
        assert cards[i].cardType !in typeKeys;
      } else {
        var i :| 0 <= i < |cards| && FactionKeys(cards)[i] !in factionIds;
        assert cards[i].faction !in factionIds;
      }
      return None;
    }
    forall i | 0 <= i < |cards|
      ensures cards[i].cardType in typeKeys && cards[i].faction in factionIds
    {
      assert TypeKeys(cards)[i] in typeKeys && FactionKeys(cards)[i] in factionIds;
    }
    var factionIndex := IndexByID(factionIds);
    var cardIndex := IndexByID(Ids(cards));
    var factions := seq(|factionIds|, i requires 0 <= i < |factionIds| => FactionEntry(i, factionIds[i]));
    var entries := seq(|cards|, i requires 0 <= i < |cards| => NewEntry(i, cards[i].id));
    r := Some(Registry(factions, factionIndex, entries, cardIndex, byType.value, byFaction.value));
  }

  /** `GetEntryByPos`: the entry at a position, `undefined` past the end. */
  function GetEntryByPos(r: Registry, index: int): (e: Option<CardEntry>)
    requires Wf(r)
    ensures e.Some? <==> 0 <= index < |r.all|
    ensures e.Some? ==> e.value.position == index
  {
    if 0 <= index < |r.all| then Some(r.all[index]) else None
  }

  /** `GetEntryByID`: the entry the id dictionary holds, `undefined` for an unknown id. */
  function GetEntryByID(r: Registry, id: string): (e: Option<CardEntry>)
    requires Wf(r)
    ensures e.Some? <==> id in r.viaID
    ensures e.Some? ==> e.value.id == id
  {
    if id in r.viaID then Some(r.all[r.viaID[id]]) else None
  }

  /**
    `GetEntryByType`: the `index`-th entry of a type's list. An unknown type (the source
    throws) and an index past the end (the source yields `undefined`) are both `None`.
   */
  function GetEntryByType(r: Registry, cardType: string, index: int): (e: Option<CardEntry>)
    requires Wf(r)
    ensures e.Some? <==> cardType in r.viaType && 0 <= index < |r.viaType[cardType]|
  {
    if cardType in r.viaType && 0 <= index < |r.viaType[cardType]| then Some(r.all[r.viaType[cardType][index]])
    else None
  }

  /** `GetEntryByFaction`: the `index`-th entry of a faction's list, as `GetEntryByType`. */
  function GetEntryByFaction(r: Registry, faction: string, index: int): (e: Option<CardEntry>)
    requires Wf(r)
    ensures e.Some? <==> faction in r.viaFaction && 0 <= index < |r.viaFaction[faction]|
  {
    if faction in r.viaFaction && 0 <= index < |r.viaFaction[faction]| then Some(r.all[r.viaFaction[faction][index]])
    else None
  }

  /** After construction the i-th card sits at position i and is found under its id. */
  lemma LookupByPosAndID(r: Registry, cards: seq<CardDef>, typeKeys: seq<string>, factionIds: seq<string>, i: nat)
    requires Indexed(r, cards, typeKeys, factionIds) && i < |cards|
    ensures Wf(r)
    ensures GetEntryByPos(r, i) == Some(r.all[i]) && r.all[i].id == cards[i].id
    ensures GetEntryByID(r, cards[i].id).Some? && GetEntryByID(r, cards[i].id).value.id == cards[i].id
    ensures Distinct(Ids(cards)) ==> GetEntryByID(r, cards[i].id) == Some(r.all[i])
  {
    assert Ids(cards)[i] == cards[i].id;
    if Distinct(Ids(cards)) {
      LastIndexOfDistinct(Ids(cards), i, r.viaID[cards[i].id]);
    }
  }

  /**
    After construction, card i is listed under its own type and under no other, and every
    type list runs in data order (so it holds each card at most once).
   */
  lemma TypeListsPartition(r: Registry, cards: seq<CardDef>, typeKeys: seq<string>, factionIds: seq<string>, i: nat)
    requires Indexed(r, cards, typeKeys, factionIds) && i < |cards|
    ensures forall k :: k in r.viaType ==> (i in r.viaType[k] <==> k == cards[i].cardType)
    ensures forall k, a, b :: k in r.viaType && 0 <= a < b < |r.viaType[k]| ==> r.viaType[k][a] < r.viaType[k][b]
    ensures Wf(r) && exists n :: GetEntryByType(r, cards[i].cardType, n) == Some(r.all[i])
  {
    assert TypeKeys(cards)[i] == cards[i].cardType;
    var keys := TypeKeys(cards);
    var k := cards[i].cardType;
    var list := r.viaType[k];
    assert i in list;
    var n :| 0 <= n < |list| && list[n] == i;
    assert GetEntryByType(r, k, n) == Some(r.all[i]);
  }

  /** The same for factions: card i is listed under its own faction only, in data order. */
  lemma FactionListsPartition(r: Registry, cards: seq<CardDef>, typeKeys: seq<string>, factionIds: seq<string>, i: nat)
    requires Indexed(r, cards, typeKeys, factionIds) && i < |cards|
    ensures forall f :: f in r.viaFaction ==> (i in r.viaFaction[f] <==> f == cards[i].faction)
    ensures forall f, a, b :: f in r.viaFaction && 0 <= a < b < |r.viaFaction[f]| ==> r.viaFaction[f][a] < r.viaFaction[f][b]
    ensures Wf(r) && exists n :: GetEntryByFaction(r, cards[i].faction, n) == Some(r.all[i])
  {
    assert FactionKeys(cards)[i] == cards[i].faction;
    var f := cards[i].faction;
    var list := r.viaFaction[f];
    assert i in list;
    var n :| 0 <= n < |list| && list[n] == i;
    assert GetEntryByFaction(r, f, n) == Some(r.all[i]);
  }

  /** `ResetAllowedCount`: clears one source's counter on every entry. */
  function ResetAllowedCount(r: Registry, t: UnlockType): (r': Registry)
    ensures SameShape(r, r')
    ensures forall p :: 0 <= p < |r.all| ==> r'.all[p].count[t] == 0
    ensures forall p, u :: 0 <= p < |r.all| && 0 <= u < CountSlots && u != t ==> r'.all[p].count[u] == r.all[p].count[u]
  {
    r.(all := seq(|r.all|, p requires 0 <= p < |r.all| => ClearCount(r.all[p], t)))
  }

  lemma ResetAllowedCountIdempotent(r: Registry, t: UnlockType)
    ensures ResetAllowedCount(ResetAllowedCount(r, t), t) == ResetAllowedCount(r, t)
  {
    var once := ResetAllowedCount(r, t);
    var twice := ResetAllowedCount(once, t);
    forall p | 0 <= p < |r.all|
      ensures twice.all[p] == once.all[p]
    {
      assert twice.all[p].count == once.all[p].count;
    }
  }

  /** `GetEntryByID(id).AddCount(t, v)`: `None` when the id is unknown, since the call then throws. */
  function AddCountByID(r: Registry, id: string, t: UnlockType, value: nat): (r': Option<Registry>)
    requires Wf(r)
    ensures r'.Some? <==> id in r.viaID
    ensures r'.Some? ==> SameShape(r, r'.value) && Wf(r'.value)
    ensures r'.Some? ==> r'.value.all[r.viaID[id]].count[t] == r.all[r.viaID[id]].count[t] + value
    ensures r'.Some? ==> forall p, u ::
      0 <= p < |r.all| && 0 <= u < CountSlots && (p != r.viaID[id] || u != t) ==> r'.value.all[p].count[u] == r.all[p].count[u]
  {
    if id !in r.viaID then None
    else
      var p := r.viaID[id];
      Some(r.(all := r.all[p := AddCount(r.all[p], t, value)]))
  }
}
