/**
  The client's contract-unlock registry: one entry per NFT contract that unlocks cards,
  with an ownership flag recomputed from the player's wallet (owned wearables) and avatar
  (worn wearables), and the recomputation of every card's CONTRACT allowance from the
  contracts the player holds.
 */
module ContractRegistry {
  import opened Common
  import opened Indexing
  import Cards = CardRegistry

  /** One card a contract provides, and how many copies. */
  datatype ProvidedCard = ProvidedCard(id: string, count: nat)

  /** One row of the contract table: id, activation key (`type.toString()`), NFT URN, provided cards. */
  datatype ContractDef = ContractDef(id: string, activation: string, urn: string, providedCards: seq<ProvidedCard>)

  /** A contract entry: its position in the contract table, its id, and whether the player holds it. */
  datatype ContractEntry = ContractEntry(position: nat, id: string, isOwned: bool)

  /** The registry; the id dictionary and the activation lists hold positions into `all`. */
  datatype Registry = Registry(all: seq<ContractEntry>, viaID: map<string, nat>, viaType: map<string, seq<nat>>)

  /** `CONTRACT_ACTIVATION_TYPE.OWN.toString()` and `.WEAR.toString()` of the numeric enum. */
  const OwnKey := "0"
  const WearKey := "1"

  /** Every index points into `all`, and entry p reads its definition from `data[p]`. */
  predicate Wf(r: Registry, data: seq<ContractDef>)
  {
    && |r.all| == |data|
    && (forall p :: 0 <= p < |r.all| ==> r.all[p].position == p)
    && (forall id :: id in r.viaID ==> r.viaID[id] < |r.all|)
    && (forall k, j :: k in r.viaType && 0 <= j < |r.viaType[k]| ==> r.viaType[k][j] < |r.all|)
  }

  /** Everything but the ownership flags is the same. */
  predicate SameShape(r: Registry, r': Registry)
  {
    && r'.viaID == r.viaID && r'.viaType == r.viaType
    && |r'.all| == |r.all|
    && forall p :: 0 <= p < |r.all| ==> r'.all[p].position == r.all[p].position && r'.all[p].id == r.all[p].id
  }

  function Ids(data: seq<ContractDef>): seq<string>
  {
    seq(|data|, i requires 0 <= i < |data| => data[i].id)
  }

  function ActivationKeys(data: seq<ContractDef>): seq<string>
  {
    seq(|data|, i requires 0 <= i < |data| => data[i].activation)
  }

  /** What the constructor builds from the contract table and `Object.keys(CONTRACT_ACTIVATION_TYPE)`. */
  predicate Indexed(r: Registry, data: seq<ContractDef>, activationKeys: seq<string>)
  {
    && (forall i :: 0 <= i < |data| ==> data[i].activation in activationKeys)
    && |r.all| == |data|
    && (forall i :: 0 <= i < |data| ==> r.all[i].position == i && r.all[i].id == data[i].id)
    && r.viaID.Keys == (set id | id in Ids(data))
    && (forall id :: id in r.viaID ==> LastIndexOf(Ids(data), id, r.viaID[id]))
    && r.viaType.Keys == (set k | k in activationKeys)
    && (forall k :: k in r.viaType ==> r.viaType[k] == Positions(ActivationKeys(data), k))
  }

  /** Every card some contract provides is registered in the card registry. */
  predicate ProvidesRegistered(cards: Cards.Registry, data: seq<ContractDef>)
  {
    forall i, j :: 0 <= i < |data| && 0 <= j < |data[i].providedCards| ==> data[i].providedCards[j].id in cards.viaID
  }

  /**
    The first provided card, in data order, that the card registry does not know: the
    display-panel refresh at the end of construction looks each one up and throws there.
   */
  method FindUnregistered(cards: Cards.Registry, data: seq<ContractDef>) returns (r: Option<(nat, nat)>)
    ensures r.None? <==> ProvidesRegistered(cards, data)
    ensures r.Some? ==>
      && r.value.0 < |data| && r.value.1 < |data[r.value.0].providedCards|
      && data[r.value.0].providedCards[r.value.1].id !in cards.viaID
  {
    var i := 0;
    while i < |data|
      invariant 0 <= i <= |data|
      invariant forall a, b :: 0 <= a < i && 0 <= b < |data[a].providedCards| ==> data[a].providedCards[b].id in cards.viaID
    {
      var j := 0;
      while j < |data[i].providedCards|
        invariant 0 <= j <= |data[i].providedCards|
        invariant forall b :: 0 <= b < j ==> data[i].providedCards[b].id in cards.viaID
      {
        if data[i].providedCards[j].id !in cards.viaID {
          return Some((i, j));
        }
        j := j + 1;
      }
      i := i + 1;
    }
    return None;
  }

  /**
    The registry constructor: every entry starts not owned. It fails (throws, here `None`)
    when a contract names an activation type that has no list, and when the display panel,
    refreshed at the end, looks up a provided card the card registry does not hold.
   */
  method Build(data: seq<ContractDef>, activationKeys: seq<string>, cards: Cards.Registry) returns (r: Option<Registry>)
    ensures r.Some? <==> (forall i :: 0 <= i < |data| ==> data[i].activation in activationKeys) && ProvidesRegistered(cards, data)
    ensures r.Some? ==> Indexed(r.value, data, activationKeys) && Wf(r.value, data)
    ensures r.Some? ==> forall p :: 0 <= p < |r.value.all| ==> !r.value.all[p].isOwned
  {
    var byType := GroupBy(activationKeys, ActivationKeys(data));
    if byType.None? {
      var i :| 0 <= i < |data| && ActivationKeys(data)[i] !in activationKeys;
      assert data[i].activation !in activationKeys;
      return None;
    }
    forall i | 0 <= i < |data|
      ensures data[i].activation in activationKeys
    {
      assert ActivationKeys(data)[i] in activationKeys;
    }
    var index := IndexByID(Ids(data));
    var entries := seq(|data|, i requires 0 <= i < |data| => ContractEntry(i, data[i].id, false));
    var unknown := FindUnregistered(cards, data);
    if unknown.Some? {
      return None;
    }
    r := Some(Registry(entries, index, byType.value));
  }

  /** `GetEntryByPos`: the entry at a position, `undefined` past the end. */
  function GetEntryByPos(r: Registry, index: int): (e: Option<ContractEntry>)
    ensures e.Some? <==> 0 <= index < |r.all|
  {
    if 0 <= index < |r.all| then Some(r.all[index]) else None
  }

  /** `GetEntryByID`: the entry the id dictionary holds, `undefined` for an unknown id. */
  function GetEntryByID(r: Registry, id: string): (e: Option<ContractEntry>)
    requires forall k :: k in r.viaID ==> r.viaID[k] < |r.all|
    ensures e.Some? <==> id in r.viaID
  {
    if id in r.viaID then Some(r.all[r.viaID[id]]) else None
  }

  /**
    After construction contract i sits at position i, is found under its id, and is listed
    under its own activation type and no other; each activation list runs in data order.
   */
  lemma ConstructedLookups(r: Registry, data: seq<ContractDef>, activationKeys: seq<string>, i: nat)
    requires Indexed(r, data, activationKeys) && i < |data|
    ensures GetEntryByPos(r, i).Some? && GetEntryByPos(r, i).value.position == i
    ensures GetEntryByID(r, data[i].id).Some? && GetEntryByID(r, data[i].id).value.id == data[i].id
    ensures Distinct(Ids(data)) ==> GetEntryByID(r, data[i].id) == Some(r.all[i])
    ensures data[i].activation in r.viaType
    ensures forall k :: k in r.viaType ==> (i in r.viaType[k] <==> k == data[i].activation)
    ensures forall k, a, b :: k in r.viaType && 0 <= a < b < |r.viaType[k]| ==> r.viaType[k][a] < r.viaType[k][b]
  {
    assert Ids(data)[i] == data[i].id;
    assert ActivationKeys(data)[i] == data[i].activation;
    var p := r.viaID[data[i].id];
    assert LastIndexOf(Ids(data), data[i].id, p);
    assert r.all[p].id == data[i].id by { assert Ids(data)[p] == data[p].id; }
    if Distinct(Ids(data)) {
      LastIndexOfDistinct(Ids(data), i, p);
    }
  }

  /**
    The URN-matching loop for one fetched URN: the index, in the activation list, of the
    first entry whose contract has that URN (the loop `break`s there), or `None`.
   */
  function FirstMatch(data: seq<ContractDef>, list: seq<nat>, urn: string): (r: Option<nat>)
    requires forall j :: 0 <= j < |list| ==> list[j] < |data|
    ensures r.Some? ==> r.value < |list| && data[list[r.value]].urn == urn
    ensures forall j :: 0 <= j < |list| && (r.None? || j < r.value) ==> data[list[j]].urn != urn
    decreases |list|
  {
    if |list| == 0 then None
    else if data[list[0]].urn == urn then Some(0)
    else
      match FirstMatch(data, list[1..], urn)
      case None => None
      case Some(j) => Some(j + 1)
  }

  /** The positions some URN of `urns` unlocks: for each URN, the first matching entry of the list. */
  function Unlocked(data: seq<ContractDef>, list: seq<nat>, urns: seq<string>): set<nat>
    requires forall j :: 0 <= j < |list| ==> list[j] < |data|
  {
    set u | u in urns && FirstMatch(data, list, u).Some? :: list[FirstMatch(data, list, u).value]
  }

  function SetOwned(r: Registry, p: nat): (r': Registry)
    requires p < |r.all|
  {
    r.(all := r.all[p := r.all[p].(isOwned := true)])
  }

  /**
    Runs the URN-matching loop over every fetched URN in order. Flags only ever go from false
    to true: afterwards an entry is owned iff it was owned before or some URN unlocked it.
   */
  function MatchUrns(r: Registry, data: seq<ContractDef>, list: seq<nat>, urns: seq<string>): (r': Registry)
    requires Wf(r, data) && forall j :: 0 <= j < |list| ==> list[j] < |r.all|
    ensures Wf(r', data) && SameShape(r, r')
    ensures forall p :: 0 <= p < |r.all| ==> (r'.all[p].isOwned <==> r.all[p].isOwned || p in Unlocked(data, list, urns))
    decreases |urns|
  {
    if |urns| == 0 then r
    else
      var r1 := match FirstMatch(data, list, urns[0])
        case None => r
        case Some(j) => SetOwned(r, list[j]);
      assert Unlocked(data, list, urns) == Unlocked(data, list, [urns[0]]) + Unlocked(data, list, urns[1..]) by {
        assert forall u :: u in urns <==> u == urns[0] || u in urns[1..];
      }
      MatchUrns(r1, data, list, urns[1..])
  }

  /** One fetched URN unlocks at most one entry: the first of the list with that URN. */
  lemma OneUrnUnlocksFirstMatch(data: seq<ContractDef>, list: seq<nat>, urn: string)
    requires forall j :: 0 <= j < |list| ==> list[j] < |data|
    ensures FirstMatch(data, list, urn).None? ==> Unlocked(data, list, [urn]) == {}
    ensures FirstMatch(data, list, urn).Some? ==> Unlocked(data, list, [urn]) == {list[FirstMatch(data, list, urn).value]}
  {
  }

  /**
    An entry whose URN repeats that of an earlier entry of the same list is never unlocked by
    the matching loop: the earlier one always wins the `break`.
   */
  lemma ShadowedEntryNeverUnlocked(data: seq<ContractDef>, list: seq<nat>, urns: seq<string>, a: nat, b: nat)
    requires forall j :: 0 <= j < |list| ==> list[j] < |data|
    requires a < b < |list| && data[list[a]].urn == data[list[b]].urn
    requires forall j :: 0 <= j < |list| && j != b ==> list[j] != list[b]
    ensures list[b] !in Unlocked(data, list, urns)
  {
  }

  /** `Array.prototype.toString` of a string array: the elements joined by `sep`. */
  function JoinWith(xs: seq<string>, sep: char): string
  {
    if |xs| == 0 then ""
    else if |xs| == 1 then xs[0]
    else xs[0] + [sep] + JoinWith(xs[1..], sep)
  }

  /** `String.prototype.split` with a one-character separator: no piece holds `sep`, and there is always one piece. */
  function Split(s: string, sep: char): (r: seq<string>)
    ensures |r| >= 1
    ensures forall i :: 0 <= i < |r| ==> sep !in r[i]
    decreases |s|
  {
    if |s| == 0 then [""]
    else
      var rest := Split(s[1..], sep);
      if s[0] == sep then [""] + rest
      else [[s[0]] + rest[0]] + rest[1..]
  }

  lemma JoinConsChar(c: char, xs: seq<string>, sep: char)
    requires |xs| >= 1
    ensures JoinWith([[c] + xs[0]] + xs[1..], sep) == [c] + JoinWith(xs, sep)
  {
    var ys := [[c] + xs[0]] + xs[1..];
    assert ys[1..] == xs[1..];
  }

  /** Joining the pieces of a split gives the string back. */
  lemma {:induction false} JoinSplit(s: string, sep: char)
    ensures JoinWith(Split(s, sep), sep) == s
    decreases |s|
  {
    if |s| > 0 {
      var rest := Split(s[1..], sep);
      JoinSplit(s[1..], sep);
      if s[0] == sep {
        assert ([""] + rest)[1..] == rest;
        assert s == [sep] + s[1..];
      } else {
        JoinConsChar(s[0], rest, sep);
        assert s == [s[0]] + s[1..];
      }
    }
  }

  lemma {:induction false} SplitPrefix(a: string, tail: string, sep: char)
    requires sep !in a
    ensures Split(a + tail, sep) == [a + Split(tail, sep)[0]] + Split(tail, sep)[1..]
    decreases |a|
  {
    if |a| > 0 {
      assert (a + tail)[0] == a[0];
      assert (a + tail)[1..] == a[1..] + tail;
      SplitPrefix(a[1..], tail, sep);
      assert [a[0]] + (a[1..] + Split(tail, sep)[0]) == a + Split(tail, sep)[0];
    } else {
      var t := Split(tail, sep);
      assert a + tail == tail;
      assert a + t[0] == t[0];
      assert t == [t[0]] + t[1..];
    }
  }

  /** Splitting the joined wearable list gives the list back, when it is non-empty and no URN holds `sep`. */
  lemma {:induction false} SplitJoin(xs: seq<string>, sep: char)
    requires |xs| >= 1
    requires forall i :: 0 <= i < |xs| ==> sep !in xs[i]
    ensures Split(JoinWith(xs, sep), sep) == xs
    decreases |xs|
  {
    if |xs| == 1 {
      SplitPrefix(xs[0], "", sep);
      assert xs[0] + "" == xs[0];
    } else {
      var tail := [sep] + JoinWith(xs[1..], sep);
      SplitJoin(xs[1..], sep);
      assert Split(tail, sep) == [""] + xs[1..] by {
        assert tail[1..] == JoinWith(xs[1..], sep);
      }
      SplitPrefix(xs[0], tail, sep);
      assert xs[0] + [sep] + JoinWith(xs[1..], sep) == xs[0] + tail;
      assert xs[0] + "" == xs[0];
    }
  }

  /** The worn URNs as processed: the avatar's wearables array turned to a string and split on ','. */
  function WornUrns(wearables: seq<string>): (r: seq<string>)
    ensures |wearables| >= 1 && (forall i :: 0 <= i < |wearables| ==> ',' !in wearables[i]) ==> r == wearables
    ensures |wearables| == 0 ==> r == [""]
  {
    if |wearables| >= 1 && forall i :: 0 <= i < |wearables| ==> ',' !in wearables[i] then
      SplitJoin(wearables, ',');
      Split(JoinWith(wearables, ','), ',')
    else
      Split(JoinWith(wearables, ','), ',')
  }

  /**
    What the player's wallet and avatar supplied: whether the player is connected with a
    web3 wallet, the URNs of the owned wearables (`None` when the fetch or its JSON failed),
    and the worn wearables array (`None` when the fetch failed or held no avatar).
   */
  datatype Wallet = Wallet(web3: bool, owned: Option<seq<string>>, worn: Option<seq<string>>)

  function ResetOwnership(r: Registry): (r': Registry)
    ensures SameShape(r, r')
    ensures forall p :: 0 <= p < |r'.all| ==> !r'.all[p].isOwned
  {
    r.(all := seq(|r.all|, p requires 0 <= p < |r.all| => r.all[p].(isOwned := false)))
  }

  /** `ProcessContractRewardsOwn`: skipped when there is no OWN list or nothing was fetched. */
  function ProcessOwned(r: Registry, data: seq<ContractDef>, owned: Option<seq<string>>): (r': Registry)
    requires Wf(r, data)
    ensures Wf(r', data) && SameShape(r, r')
  {
    if OwnKey !in r.viaType || owned.None? then r
    else MatchUrns(r, data, r.viaType[OwnKey], owned.value)
  }

  /** `ProcessContractRewardsWorn`: skipped when there is no WEAR list or nothing was fetched. */
  function ProcessWorn(r: Registry, data: seq<ContractDef>, worn: Option<seq<string>>): (r': Registry)
    requires Wf(r, data)
    ensures Wf(r', data) && SameShape(r, r')
  {
    if WearKey !in r.viaType || worn.None? then r
    else MatchUrns(r, data, r.viaType[WearKey], WornUrns(worn.value))
  }

  /** The entries a wallet unlocks: owned URNs against the OWN list, worn URNs against the WEAR list. */
  function WalletUnlocks(r: Registry, data: seq<ContractDef>, w: Wallet): set<nat>
    requires Wf(r, data)
  {
    (if OwnKey in r.viaType && w.owned.Some? then Unlocked(data, r.viaType[OwnKey], w.owned.value) else {})
    + (if WearKey in r.viaType && w.worn.Some? then Unlocked(data, r.viaType[WearKey], WornUrns(w.worn.value)) else {})
  }

  /**
    `assertOwnedNFTs`: without a web3 wallet nothing changes; otherwise every flag is cleared
    first, so afterwards an entry is owned exactly when the wallet unlocks it.
   */
  function AssertOwnedNFTs(r: Registry, data: seq<ContractDef>, w: Wallet): (r': Registry)
    requires Wf(r, data)
    ensures Wf(r', data) && SameShape(r, r')
    ensures !w.web3 ==> r' == r
    ensures w.web3 ==> forall p :: 0 <= p < |r.all| ==> (r'.all[p].isOwned <==> p in WalletUnlocks(r, data, w))
  {
    if !w.web3 then r
    else ProcessWorn(ProcessOwned(ResetOwnership(r), data, w.owned), data, w.worn)
  }

  /** Two registries of the same shape lose all difference once their flags are cleared. */
  lemma ResetOwnershipForgetsFlags(r: Registry, r': Registry)
    requires SameShape(r, r')
    ensures ResetOwnership(r) == ResetOwnership(r')
  {
    assert ResetOwnership(r).all == ResetOwnership(r').all;
  }

  /** Re-asserting ownership from the same wallet changes nothing. */
  lemma AssertOwnedNFTsIdempotent(r: Registry, data: seq<ContractDef>, w: Wallet)
    requires Wf(r, data)
    ensures AssertOwnedNFTs(AssertOwnedNFTs(r, data, w), data, w) == AssertOwnedNFTs(r, data, w)
  {
    if w.web3 {
      ResetOwnershipForgetsFlags(r, AssertOwnedNFTs(r, data, w));
    }
  }

  /** The provided cards of the owned contracts among the first `n` entries, in registry order. */
  function Grants(r: Registry, data: seq<ContractDef>, n: nat): seq<ProvidedCard>
    requires Wf(r, data) && n <= |r.all|
  {
    if n == 0 then []
    else Grants(r, data, n - 1) + (if r.all[n - 1].isOwned then data[r.all[n - 1].position].providedCards else [])
  }

  function OwnedGrants(r: Registry, data: seq<ContractDef>): seq<ProvidedCard>
    requires Wf(r, data)
  {
    Grants(r, data, |r.all|)
  }

  /** Total count over the grants that name card `id`. */
  function GrantTotal(grants: seq<ProvidedCard>, id: string): nat
  {
    if |grants| == 0 then 0
    else (if grants[0].id == id then grants[0].count else 0) + GrantTotal(grants[1..], id)
  }

  predicate AllRegistered(cards: Cards.Registry, grants: seq<ProvidedCard>)
  {
    forall j :: 0 <= j < |grants| ==> grants[j].id in cards.viaID
  }

  /** Card position p is where its own id leads (always so when card ids are distinct). */
  predicate Resolves(cards: Cards.Registry, p: nat)
    requires p < |cards.all|
  {
    cards.all[p].id in cards.viaID && cards.viaID[cards.all[p].id] == p
  }

  /**
    The provision loop: each grant adds its count to the CONTRACT counter of the card its id
    names. An unknown id makes `GetEntryByID` yield `undefined`; the call on it throws, and the
    enclosing catch ends the whole pass there.
   */
  function ApplyGrants(cards: Cards.Registry, grants: seq<ProvidedCard>): (c': Cards.Registry)
    requires Cards.Wf(cards)
    ensures Cards.Wf(c') && Cards.SameShape(cards, c')
    ensures forall p, u ::
      0 <= p < |cards.all| && 0 <= u < Cards.CountSlots && u != Cards.Contract ==> c'.all[p].count[u] == cards.all[p].count[u]
    decreases |grants|
  {
    if |grants| == 0 then cards
    else
      match Cards.AddCountByID(cards, grants[0].id, Cards.Contract, grants[0].count)
      case None => cards
      case Some(c1) => ApplyGrants(c1, grants[1..])
  }

  /**
    When every grant names a registered card, the pass adds to each card's CONTRACT counter
    exactly the total of the grants naming it.
   */
  lemma {:induction false} ApplyGrantsTotals(cards: Cards.Registry, grants: seq<ProvidedCard>)
    requires Cards.Wf(cards) && AllRegistered(cards, grants)
    ensures forall p :: 0 <= p < |cards.all| ==>
      ApplyGrants(cards, grants).all[p].count[Cards.Contract]
        == cards.all[p].count[Cards.Contract] + (if Resolves(cards, p) then GrantTotal(grants, cards.all[p].id) else 0)
    decreases |grants|
  {
    if |grants| > 0 {
      var g := grants[0];
      var c1 := Cards.AddCountByID(cards, g.id, Cards.Contract, g.count).value;
      assert AllRegistered(c1, grants[1..]) by {
        forall j | 0 <= j < |grants[1..]|
          ensures grants[1..][j].id in c1.viaID
        {
          assert grants[1..][j] == grants[j + 1];
        }
      }
      ApplyGrantsTotals(c1, grants[1..]);
      forall p | 0 <= p < |cards.all|
        ensures ApplyGrants(cards, grants).all[p].count[Cards.Contract]
          == cards.all[p].count[Cards.Contract] + (if Resolves(cards, p) then GrantTotal(grants, cards.all[p].id) else 0)
      {
        assert Resolves(c1, p) == Resolves(cards, p);
        var q := cards.viaID[g.id];
        assert cards.all[q].id == g.id;
        if Resolves(cards, p) {
          assert (p == q) == (g.id == cards.all[p].id);
        } else {
          assert p != q;
        }
      }
    }
  }

  /**
    A grant for an unknown card ends the pass: the grants after it are never applied. A
    registry that `Build` returned never meets such a grant (see `ConstructedProvisionCounts`),
    so this case is reached only when the card registry has changed since construction.
   */
  lemma {:induction false} UnknownCardEndsPass(cards: Cards.Registry, grants: seq<ProvidedCard>, k: nat)
    requires Cards.Wf(cards) && k < |grants| && grants[k].id !in cards.viaID
    ensures ApplyGrants(cards, grants) == ApplyGrants(cards, grants[..k])
    decreases k
  {
    if k > 0 {
      assert grants[..k][0] == grants[0];
      match Cards.AddCountByID(cards, grants[0].id, Cards.Contract, grants[0].count)
      case None =>
      case Some(c1) =>
        assert grants[1..][k - 1] == grants[k];
        assert grants[..k][1..] == grants[1..][..k - 1];
        UnknownCardEndsPass(c1, grants[1..], k - 1);
    }
  }

  /** The result of a recomputation: the card registry and the contract registry. */
  datatype Provision = Provision(cards: Cards.Registry, contracts: Registry)

  /**
    `CalculateCardProvisionCounts`: clears every card's CONTRACT counter, re-asserts contract
    ownership, then adds the provided cards of every owned contract. LEVEL counters are never
    touched; when every provided card is registered, each card's CONTRACT counter ends as the
    total its owned contracts grant it.
   */
  function CalculateCardProvisionCounts(cards: Cards.Registry, contracts: Registry, data: seq<ContractDef>, w: Wallet): (r: Provision)
    requires Cards.Wf(cards) && Wf(contracts, data)
    ensures Cards.Wf(r.cards) && Cards.SameShape(cards, r.cards)
    ensures Wf(r.contracts, data) && SameShape(contracts, r.contracts)
    ensures !w.web3 ==> r.contracts == contracts
    ensures w.web3 ==> forall p :: 0 <= p < |contracts.all| ==> (r.contracts.all[p].isOwned <==> p in WalletUnlocks(contracts, data, w))
    ensures forall p, u ::
      0 <= p < |cards.all| && 0 <= u < Cards.CountSlots && u != Cards.Contract ==> r.cards.all[p].count[u] == cards.all[p].count[u]
    ensures AllRegistered(cards, OwnedGrants(r.contracts, data)) ==> forall p :: 0 <= p < |cards.all| ==>
      r.cards.all[p].count[Cards.Contract] == (if Resolves(cards, p) then GrantTotal(OwnedGrants(r.contracts, data), cards.all[p].id) else 0)
  {
    var cleared := Cards.ResetAllowedCount(cards, Cards.Contract);
    var owned := AssertOwnedNFTs(contracts, data, w);
    var grants := OwnedGrants(owned, data);
    assert forall p :: 0 <= p < |cards.all| ==> (Resolves(cleared, p) <==> Resolves(cards, p));
    if AllRegistered(cards, grants) then
      ApplyGrantsTotals(cleared, grants);
      Provision(ApplyGrants(cleared, grants), owned)
    else
      Provision(ApplyGrants(cleared, grants), owned)
  }

  /** The grants of any ownership state name only provided cards, so they are registered when those are. */
  lemma {:induction false} GrantsRegistered(cards: Cards.Registry, r: Registry, data: seq<ContractDef>, n: nat)
    requires ProvidesRegistered(cards, data) && Wf(r, data) && n <= |r.all|
    ensures AllRegistered(cards, Grants(r, data, n))
  {
    if n > 0 {
      GrantsRegistered(cards, r, data, n - 1);
      var p := r.all[n - 1].position;
      var more := if r.all[n - 1].isOwned then data[p].providedCards else [];
      forall j | 0 <= j < |Grants(r, data, n)|
        ensures Grants(r, data, n)[j].id in cards.viaID
      {
        var prev := Grants(r, data, n - 1);
        if j >= |prev| {
          assert Grants(r, data, n)[j] == more[j - |prev|];
        } else {
          assert Grants(r, data, n)[j] == prev[j];
        }
      }
    }
  }

  /**
    With a contract registry that construction accepted, every provided card is registered,
    so the recomputation always completes: each card's CONTRACT counter ends as exactly the
    total its owned contracts grant it.
   */
  lemma ConstructedProvisionCounts(cards: Cards.Registry, contracts: Registry, data: seq<ContractDef>, w: Wallet)
    requires Cards.Wf(cards) && Wf(contracts, data) && ProvidesRegistered(cards, data)
    ensures
      var r := CalculateCardProvisionCounts(cards, contracts, data, w);
      forall p :: 0 <= p < |cards.all| ==>
        r.cards.all[p].count[Cards.Contract] == (if Resolves(cards, p) then GrantTotal(OwnedGrants(r.contracts, data), cards.all[p].id) else 0)
  {
    var r := CalculateCardProvisionCounts(cards, contracts, data, w);
    GrantsRegistered(cards, r.contracts, data, |r.contracts.all|);
  }

  /** Clearing CONTRACT counters forgets every difference confined to CONTRACT counters. */
  lemma ResetForgetsContractCounts(c: Cards.Registry, c': Cards.Registry)
    requires Cards.SameShape(c, c')
    requires forall p, u ::
      0 <= p < |c.all| && 0 <= u < Cards.CountSlots && u != Cards.Contract ==> c'.all[p].count[u] == c.all[p].count[u]
    ensures Cards.ResetAllowedCount(c', Cards.Contract) == Cards.ResetAllowedCount(c, Cards.Contract)
  {
    var a := Cards.ResetAllowedCount(c, Cards.Contract);
    var b := Cards.ResetAllowedCount(c', Cards.Contract);
    forall p | 0 <= p < |c.all|
      ensures a.all[p] == b.all[p]
    {
      assert a.all[p].count == b.all[p].count;
    }
    assert a.all == b.all;
  }

  /** Recomputing with the same wallet gives the same counters and flags again. */
  lemma ProvisionIdempotent(cards: Cards.Registry, contracts: Registry, data: seq<ContractDef>, w: Wallet)
    requires Cards.Wf(cards) && Wf(contracts, data)
    ensures var once := CalculateCardProvisionCounts(cards, contracts, data, w);
      CalculateCardProvisionCounts(once.cards, once.contracts, data, w) == once
  {
    var once := CalculateCardProvisionCounts(cards, contracts, data, w);
    AssertOwnedNFTsIdempotent(contracts, data, w);
    ResetForgetsContractCounts(cards, once.cards);
  }
}
