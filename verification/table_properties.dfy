/**
  Properties of the table and profile routes that relate several requests, or a route to
  the store around it: what a concurrent join loses, what a failed write still reports,
  what a settled match pays, and that tables keep their number of seats.
 */
module TableProperties {
  import opened Common
  import opened TableModel
  import opened TableStore
  import opened TableServer

  /** Loading a table twice in one request changes nothing the first load did not. */
  lemma LoadTableIdempotent(db: Db, key: TableKey, env: Env)
    ensures LoadTable(LoadTable(db, key, env).db, key, env) == LoadTable(db, key, env)
  {
  }

  /**
    Two joins for the same free slot that both read the table before either writes both
    answer `true`, and the one that writes last owns the slot: the other player was told
    they joined and was silently dropped.
   */
  lemma JoinRace(db: Db, key: TableKey, env1: Env, env2: Env, i: int, a: string, aName: string, b: string, bName: string)
    requires TableStoreOk(env1) && TableStoreOk(env2)
    requires key in db.tables
    requires !Expired(env1.now, db.tables[key].lastInteraction) && !Expired(env2.now, db.tables[key].lastInteraction)
    requires db.tables[key].state == Idle && 0 <= i < |db.tables[key].teams| && !Occupied(db.tables[key].teams[i])
    ensures Step(db, key, JoinReq(i, a, aName), env1).outcome == Accepted
    ensures Step(db, key, JoinReq(i, b, bName), env2).outcome == Accepted
    ensures
      var first := Step(db, key, JoinReq(i, a, aName), env1).db;
      var late := UpdateTable(first, key, JoinTable(db.tables[key], i, b, bName, env2.now).table, env2);
      && late.tables[key].teams[i].playerID == b
      && late.tables[key].teams[i].playerName == bName
  {
    var t := db.tables[key];
    assert LoadTable(db, key, env1) == Loaded(t, db);
    assert LoadTable(db, key, env2) == Loaded(t, db);
  }

  /** The same two joins one after the other: the second finds the slot taken and changes nothing. */
  lemma SequentialJoinsRejectSecond(db: Db, key: TableKey, env1: Env, env2: Env, i: int, a: string, aName: string, b: string, bName: string)
    requires TableStoreOk(env1) && TableStoreOk(env2)
    requires key in db.tables
    requires !Expired(env1.now, db.tables[key].lastInteraction) && !Expired(env2.now, env1.now)
    requires db.tables[key].state == Idle && 0 <= i < |db.tables[key].teams| && !Occupied(db.tables[key].teams[i])
    requires a != ""
    ensures
      var first := Step(db, key, JoinReq(i, a, aName), env1);
      var second := Step(first.db, key, JoinReq(i, b, bName), env2);
      && first.outcome == Accepted
      && second.outcome == Rejected
      && second.db == first.db
      && second.db.tables[key].teams[i].playerID == a
  {
    var t := db.tables[key];
    assert LoadTable(db, key, env1) == Loaded(t, db);
    var first := Step(db, key, JoinReq(i, a, aName), env1);
    var joined := JoinTable(t, i, a, aName, env1.now).table;
    assert first.db.tables[key] == joined;
    assert LoadTable(first.db, key, env2) == Loaded(joined, first.db);
  }

  /**
    A write that fails is swallowed after the decision is made: a join that passes its
    tests answers `true` although nothing was stored.
   */
  lemma FailedWriteStillAccepted(db: Db, key: TableKey, env: Env, i: int, player: string, name: string)
    requires TableReadsOk(env) && TableWrite in env.failing
    requires key in db.tables && !Expired(env.now, db.tables[key].lastInteraction)
    requires db.tables[key].state == Idle && 0 <= i < |db.tables[key].teams| && !Occupied(db.tables[key].teams[i])
    ensures Step(db, key, JoinReq(i, player, name), env) == Reply(Accepted, None, db)
  {
    assert LoadTable(db, key, env) == Loaded(db.tables[key], db);
  }

  /** Whatever the write outcome, a route that writes after loading leaves exactly what the load left, or its decision. */
  lemma FailedWriteKeepsLoadedTable(db: Db, key: TableKey, req: TableRequest, env: Env)
    requires TableWrite in env.failing
    requires !req.GetTableReq? && !req.SetTableReq? && !req.EndGameReq?
    ensures Step(db, key, req, env).db == LoadTable(db, key, env).db
  {
  }

  /**
    The slot routes test the state before they touch the slot: a table that is not idle
    answers `false` to any team index, while an idle one throws for an index with no team.
   */
  lemma SlotRoutesCheckStateFirst(db: Db, key: TableKey, req: TableRequest, env: Env)
    requires req.JoinReq? || req.LeaveReq? || req.SetReadyReq?
    ensures LoadTable(db, key, env).value.state != Idle ==> Step(db, key, req, env) == Reply(Rejected, None, LoadTable(db, key, env).db)
    ensures
      var t := LoadTable(db, key, env).value;
      t.state == Idle && !(0 <= req.teamID < |t.teams|) ==> Step(db, key, req, env) == Reply(Fault, None, LoadTable(db, key, env).db)
  {
  }

  /** `end-game` decides from the client's table alone: the stored table cannot change its answer. */
  lemma EndGameIgnoresStoredTable(db1: Db, db2: Db, key: TableKey, tableData: Option<Table>, env: Env)
    ensures Step(db1, key, EndGameReq(tableData), env).outcome == Step(db2, key, EndGameReq(tableData), env).outcome
  {
  }

  predicate DistinctPlayers(teams: seq<Team>)
  {
    forall a, b :: 0 <= a < b < |teams| ==> teams[a].playerID != teams[b].playerID
  }

  /** The profile a settlement starts from: the stored one while fresh, else the default. */
  function SettlementBase(db: Db, player: string, env: Env): Profile
  {
    if player in db.profiles && !Expired(env.now, db.profiles[player].lastLogin) then db.profiles[player]
    else env.blankProfile
  }

  /**
    One settlement step, whatever becomes of its own load and write, leaves every other
    player's settlement base as it was: one player's storage failure costs nobody else.
   */
  lemma SettleStepKeepsOthers(db: Db, team: Team, env: Env, p: string)
    requires p != team.playerID
    ensures
      var loaded := LoadProfile(db, team.playerID, env);
      var next := UpdateProfile(loaded.db, team.playerID, Rewarded(loaded.value, team), env);
      SettlementBase(next, p, env) == SettlementBase(db, p, env)
  {
  }

  /**
    One settlement step with healthy storage: the player of the first team gets the
    reward on top of their settlement base, and nobody else's base changes.
   */
  lemma SettleFirstTeam(db: Db, team: Team, env: Env)
    requires ProfileStoreOk(env, team.playerID)
    ensures
      var player := team.playerID;
      var loaded := LoadProfile(db, player, env);
      var next := UpdateProfile(loaded.db, player, Rewarded(loaded.value, team), env);
      && player in next.profiles
      && next.profiles[player].experience == SettlementBase(db, player, env).experience + Reward(team.healthCur)
      && next.profiles[player].gamesPlayed == SettlementBase(db, player, env).gamesPlayed + 1
      && next.profiles[player].lastLogin == SettlementBase(db, player, env).lastLogin
      && forall p :: p != player ==> SettlementBase(next, p, env) == SettlementBase(db, p, env)
  {
    var player := team.playerID;
    var loaded := LoadProfile(db, player, env);
    assert loaded.value == SettlementBase(db, player, env);
    forall p | p != player
      ensures SettlementBase(UpdateProfile(loaded.db, player, Rewarded(loaded.value, team), env), p, env) == SettlementBase(db, p, env)
    {
      SettleStepKeepsOthers(db, team, env, p);
    }
  }

  /**
    With one seat per player, settlement gives every player whose own profile storage is
    healthy one more game and the reward for their team, on top of the profile it started
    from, whatever happens to the other players' storage.
   */
  lemma {:induction false} SettleRewardsEachPlayer(db: Db, teams: seq<Team>, env: Env, i: int)
    requires DistinctPlayers(teams)
    requires 0 <= i < |teams|
    requires ProfileStoreOk(env, teams[i].playerID)
    ensures
      var p := teams[i].playerID;
      var r := Settle(db, teams, env);
      && p in r.profiles
      && r.profiles[p].experience == SettlementBase(db, p, env).experience + Reward(teams[i].healthCur)
      && r.profiles[p].gamesPlayed == SettlementBase(db, p, env).gamesPlayed + 1
      && r.profiles[p].lastLogin == SettlementBase(db, p, env).lastLogin
    decreases |teams|
  {
    var player := teams[0].playerID;
    var loaded := LoadProfile(db, player, env);
    var next := UpdateProfile(loaded.db, player, Rewarded(loaded.value, teams[0]), env);
    var rest := teams[1..];
    assert Settle(db, teams, env) == Settle(next, rest, env);
    if i == 0 {
      SettleFirstTeam(db, teams[0], env);
      forall j | 0 <= j < |rest| ensures rest[j].playerID != player {
        assert rest[j] == teams[j + 1];
      }
      assert player !in Players(rest);
    } else {
      assert DistinctPlayers(rest) by {
        forall a, b | 0 <= a < b < |rest| ensures rest[a].playerID != rest[b].playerID {
          assert rest[a] == teams[a + 1] && rest[b] == teams[b + 1];
        }
      }
      assert rest[i - 1] == teams[i];
      SettleStepKeepsOthers(db, teams[0], env, teams[i].playerID);
      SettleRewardsEachPlayer(next, rest, env, i - 1);
    }
  }

  /**
    A profile untouched for longer than the table timeout is reset before it is rewarded,
    so a player returning after a break ends the match with only the default's experience
    plus the reward, whatever they had earned before.
   */
  lemma StaleProfileLosesProgress(db: Db, teams: seq<Team>, env: Env, i: int)
    requires DistinctPlayers(teams)
    requires 0 <= i < |teams|
    requires ProfileStoreOk(env, teams[i].playerID)
    requires teams[i].playerID in db.profiles && Expired(env.now, db.profiles[teams[i].playerID].lastLogin)
    ensures
      var after := Settle(db, teams, env).profiles;
      && teams[i].playerID in after
      && after[teams[i].playerID].experience == env.blankProfile.experience + Reward(teams[i].healthCur)
      && after[teams[i].playerID].gamesPlayed == env.blankProfile.gamesPlayed + 1
  {
    SettleRewardsEachPlayer(db, teams, env, i);
  }

  /** A profile seen within the timeout keeps its experience through settlement. */
  lemma FreshProfileKeepsProgress(db: Db, teams: seq<Team>, env: Env, i: int)
    requires DistinctPlayers(teams)
    requires 0 <= i < |teams|
    requires ProfileStoreOk(env, teams[i].playerID)
    requires teams[i].playerID in db.profiles && !Expired(env.now, db.profiles[teams[i].playerID].lastLogin)
    ensures
      var before := db.profiles[teams[i].playerID];
      var after := Settle(db, teams, env).profiles;
      && teams[i].playerID in after
      && after[teams[i].playerID].experience == before.experience + Reward(teams[i].healthCur)
      && after[teams[i].playerID].gamesPlayed == before.gamesPlayed + 1
  {
    SettleRewardsEachPlayer(db, teams, env, i);
  }

  /** Every table in the store has `n` seats. */
  predicate SeatCount(db: Db, n: nat)
  {
    forall k :: k in db.tables ==> |db.tables[k].teams| == n
  }

  /** Every table a request carries has `n` seats. */
  predicate RequestSeats(req: TableRequest, n: nat)
  {
    match req
    case SetTableReq(Some(t)) => |t.teams| == n
    case NextTurnReq(Some(t)) => |t.teams| == n
    case EndGameReq(Some(t)) => |t.teams| == n
    case _ => true
  }

  /**
    Nothing a route does changes the number of seats of a table, as long as the default
    table and every table a client sends have that many.
   */
  lemma SeatCountPreserved(db: Db, key: TableKey, req: TableRequest, env: Env, n: nat)
    requires SeatCount(db, n) && |env.blankTable.teams| == n && RequestSeats(req, n)
    ensures SeatCount(Step(db, key, req, env).db, n)
  {
    var loaded := LoadTable(db, key, env);
    assert SeatCount(loaded.db, n);
    assert |loaded.value.teams| == n;
  }

  /** A deck saved with `set-deck` is what the next `get-profile` returns under its field. */
  lemma SetDeckThenGetProfile(db: Db, player: string, deckID: string, deckSerial: string, env1: Env, env2: Env)
    requires ProfileStoreOk(env1, player) && ProfileStoreOk(env2, player)
    ensures
      var saved := ProfileStep(db, player, SetDeckReq(deckID, deckSerial), env1);
      var read := ProfileStep(saved.db, player, GetProfileReq, env2);
      && saved.outcome == Accepted && read.outcome == Accepted
      && read.body.WholeProfile?
      && DeckField(deckID) in read.body.profile.decks
      && read.body.profile.decks[DeckField(deckID)] == deckSerial
  {
    var saved := ProfileStep(db, player, SetDeckReq(deckID, deckSerial), env1);
    assert player in saved.db.profiles;
    assert OpenProfile(saved.db, player, env2).value.value == saved.db.profiles[player];
  }

  /**
    On a stored table that has not timed out and healthy storage, a load-decide-write
    route stores exactly its decision (and nothing when it declines).
   */
  lemma LiveTableStep(db: Db, key: TableKey, req: TableRequest, env: Env)
    requires TableStoreOk(env) && LoadsAndDecides(req)
    requires key in db.tables && !Expired(env.now, db.tables[key].lastInteraction)
    ensures
      var r := Step(db, key, req, env);
      var d := Decide(db.tables[key], req, env.now);
      && (d.Write? ==> r == Reply(Accepted, None, db.(tables := db.tables[key := d.table])))
      && (d.Reject? ==> r == Reply(Rejected, None, db))
      && (d.Crash? ==> r == Reply(Fault, None, db))
  {
    assert LoadTable(db, key, env) == Loaded(db.tables[key], db);
  }

  const EmptySeat := Team("", "", false, "", 0)
  const MatchKey := TableKey("realm", 1)

  /** A two-seat default table last touched at time 0, and a default profile at level zero. */
  function MatchEnv(now: int): Env
  {
    Env(now, {}, Table(0, Idle, [EmptySeat, EmptySeat], 0), Profile(0, 0, 0, map[]))
  }

  /** The table of the example match once both players have joined. */
  function Joined(now: int): Table
  {
    Table(1, Idle, [Team("alice", "Alice", false, "", 0), Team("bob", "Bob", false, "", 0)], now)
  }

  /** The table once both players are ready with their decks. */
  function Readied(now: int): Table
  {
    Table(1, Idle, [Team("alice", "Alice", true, "deckA", 0), Team("bob", "Bob", true, "deckB", 0)], now)
  }

  /** The table the client sends after the last turn: the second player is out of health. */
  function Finished(now: int): Table
  {
    Table(1, InSession, [Team("alice", "Alice", true, "deckA", 10), Team("bob", "Bob", true, "deckB", 0)], now)
  }

  /** On an empty store, the first join creates the table from the default and both joins succeed. */
  lemma MatchSeats(now: int)
    requires now > TableInteractionTimeout
    ensures
      var env := MatchEnv(now);
      var s1 := Step(Db(map[], map[]), MatchKey, JoinReq(0, "alice", "Alice"), env);
      var s2 := Step(s1.db, MatchKey, JoinReq(1, "bob", "Bob"), env);
      && s1.outcome == Accepted && s2.outcome == Accepted
      && s2.db == Db(map[MatchKey := Joined(now)], map[])
  {
    var env := MatchEnv(now);
    var key := MatchKey;
    var db0 := Db(map[], map[]);
    var t0 := FreshTable(env, key);
    assert LoadTable(db0, key, env) == Loaded(t0, Db(map[key := t0], map[]));
    var t1 := Table(1, Idle, [Team("alice", "Alice", false, "", 0), EmptySeat], now);
    assert Decide(t0, JoinReq(0, "alice", "Alice"), now) == Write(t1);
    var s1 := Step(db0, key, JoinReq(0, "alice", "Alice"), env);
    assert s1 == Reply(Accepted, None, Db(map[key := t1], map[]));
    assert Decide(t1, JoinReq(1, "bob", "Bob"), now) == Write(Joined(now));
    LiveTableStep(s1.db, key, JoinReq(1, "bob", "Bob"), env);
  }

  /** Both seated players declare themselves ready. */
  lemma MatchReadies(now: int)
    ensures
      var env := MatchEnv(now);
      var s3 := Step(Db(map[MatchKey := Joined(now)], map[]), MatchKey, SetReadyReq(0, true, "deckA"), env);
      var s4 := Step(s3.db, MatchKey, SetReadyReq(1, true, "deckB"), env);
      && s3.outcome == Accepted && s4.outcome == Accepted
      && s4.db == Db(map[MatchKey := Readied(now)], map[])
  {
    var env := MatchEnv(now);
    var key := MatchKey;
    var t2 := Joined(now);
    var t3 := Table(1, Idle, [Team("alice", "Alice", true, "deckA", 0), Team("bob", "Bob", false, "", 0)], now);
    assert Decide(t2, SetReadyReq(0, true, "deckA"), now) == Write(t3);
    LiveTableStep(Db(map[key := t2], map[]), key, SetReadyReq(0, true, "deckA"), env);
    var s3 := Step(Db(map[key := t2], map[]), key, SetReadyReq(0, true, "deckA"), env);
    assert s3 == Reply(Accepted, None, Db(map[key := t3], map[]));
    assert Decide(t3, SetReadyReq(1, true, "deckB"), now) == Write(Readied(now));
    LiveTableStep(s3.db, key, SetReadyReq(1, true, "deckB"), env);
  }

  /** The game starts and the client's final table is stored by a turn. */
  lemma MatchPlays(now: int)
    ensures
      var env := MatchEnv(now);
      var s5 := Step(Db(map[MatchKey := Readied(now)], map[]), MatchKey, StartReq, env);
      var s6 := Step(s5.db, MatchKey, NextTurnReq(Some(Finished(now))), env);
      && s5.outcome == Accepted && s6.outcome == Accepted
      && s6.db == Db(map[MatchKey := Finished(now)], map[])
  {
    var env := MatchEnv(now);
    var key := MatchKey;
    var t4 := Readied(now);
    var t5 := t4.(state := InSession);
    assert AllSeated(t4.teams) by {
      assert Seated(t4.teams[0]) && Seated(t4.teams[1]);
    }
    assert Decide(t4, StartReq, now) == Write(t5);
    LiveTableStep(Db(map[key := t4], map[]), key, StartReq, env);
    var s5 := Step(Db(map[key := t4], map[]), key, StartReq, env);
    assert s5 == Reply(Accepted, None, Db(map[key := t5], map[]));
    assert AllSeated(t5.teams);
    assert Decide(t5, NextTurnReq(Some(Finished(now))), now) == Write(Finished(now));
    LiveTableStep(s5.db, key, NextTurnReq(Some(Finished(now))), env);
  }

  /** Ending the game pays 100 to the player still standing and 50 to the other, and frees both seats. */
  lemma MatchEnds(now: int)
    ensures
      var s7 := Step(Db(map[MatchKey := Finished(now)], map[]), MatchKey, EndGameReq(Some(Finished(now))), MatchEnv(now));
      && s7.outcome == Accepted
      && "alice" in s7.db.profiles && "bob" in s7.db.profiles
      && s7.db.profiles["alice"].experience == 100 && s7.db.profiles["alice"].gamesPlayed == 1
      && s7.db.profiles["bob"].experience == 50 && s7.db.profiles["bob"].gamesPlayed == 1
      && MatchKey in s7.db.tables && s7.db.tables[MatchKey].state == Idle
      && !Occupied(s7.db.tables[MatchKey].teams[0]) && !Occupied(s7.db.tables[MatchKey].teams[1])
  {
    var env := MatchEnv(now);
    var mid := Finished(now);
    var db6 := Db(map[MatchKey := mid], map[]);
    assert AllSeated(mid.teams) by {
      assert Seated(mid.teams[0]) && Seated(mid.teams[1]);
    }
    assert DistinctPlayers(mid.teams);
    SettleRewardsEachPlayer(db6, mid.teams, env, 0);
    SettleRewardsEachPlayer(db6, mid.teams, env, 1);
  }

  /**
    A whole match on an empty store: two players join and ready up, the game starts, the
    client stores its final table with a turn, and the game ends with the second player
    at zero health. Every request is answered `true`; the winner earns 100 experience and
    the loser 50, both have one game played, and the table is idle with both seats free.
   */
  lemma MatchScenario(now: int)
    requires now > TableInteractionTimeout
    ensures
      var env := MatchEnv(now);
      var s1 := Step(Db(map[], map[]), MatchKey, JoinReq(0, "alice", "Alice"), env);
      var s2 := Step(s1.db, MatchKey, JoinReq(1, "bob", "Bob"), env);
      var s3 := Step(s2.db, MatchKey, SetReadyReq(0, true, "deckA"), env);
      var s4 := Step(s3.db, MatchKey, SetReadyReq(1, true, "deckB"), env);
      var s5 := Step(s4.db, MatchKey, StartReq, env);
      var s6 := Step(s5.db, MatchKey, NextTurnReq(Some(Finished(now))), env);
      var s7 := Step(s6.db, MatchKey, EndGameReq(Some(Finished(now))), env);
      && s1.outcome == Accepted && s2.outcome == Accepted && s3.outcome == Accepted && s4.outcome == Accepted
      && s5.outcome == Accepted && s6.outcome == Accepted && s7.outcome == Accepted
      && "alice" in s7.db.profiles && "bob" in s7.db.profiles
      && s7.db.profiles["alice"].experience == 100 && s7.db.profiles["bob"].experience == 50
      && MatchKey in s7.db.tables && s7.db.tables[MatchKey].state == Idle
  {
    MatchSeats(now);
    MatchReadies(now);
    MatchPlays(now);
    MatchEnds(now);
  }
}
