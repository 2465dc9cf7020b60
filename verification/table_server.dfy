/**
  The game server's routes. Each table route loads the table (which may create or reset
  it), decides from what it loaded, and writes the result back; the decision part is a
  pure function of the loaded table, separate from the store plumbing around it.
 */
module TableServer {
  import opened Common
  import opened TableModel
  import opened TableStore

  /** What a table route decides after loading: write this table, answer `false`, or throw. */
  datatype Decision = Write(table: Table) | Reject | Crash

  /**
    The frame of a single-slot edit: same id, state and number of teams, every other team
    untouched, and the interaction time stamped with `now`.
   */
  predicate SlotEdit(t: Table, t': Table, i: int, now: int)
  {
    && t'.id == t.id
    && t'.state == t.state
    && t'.lastInteraction == now
    && |t'.teams| == |t.teams|
    && forall j :: 0 <= j < |t.teams| && j != i ==> t'.teams[j] == t.teams[j]
  }

  /**
    `join-table`: only an idle table with a free slot takes a player. The state test comes
    first, so a busy table answers `false` whatever the team index; on an idle table an
    index with no team makes the slot lookup throw.
   */
  function JoinTable(t: Table, teamID: int, playerID: string, playerName: string, now: int): (d: Decision)
    ensures d.Crash? <==> t.state == Idle && !(0 <= teamID < |t.teams|)
    ensures d.Write? <==> t.state == Idle && 0 <= teamID < |t.teams| && !Occupied(t.teams[teamID])
    ensures d.Write? ==>
      && SlotEdit(t, d.table, teamID, now)
      && d.table.teams[teamID].playerID == playerID
      && d.table.teams[teamID].playerName == playerName
      && d.table.teams[teamID].readyState == t.teams[teamID].readyState
      && d.table.teams[teamID].deckRegistered == t.teams[teamID].deckRegistered
      && d.table.teams[teamID].healthCur == t.teams[teamID].healthCur
  {
    if t.state != Idle then Reject
    else if !(0 <= teamID < |t.teams|) then Crash
    else if Occupied(t.teams[teamID]) then Reject
    else
      var team := t.teams[teamID].(playerID := playerID, playerName := playerName);
      Write(t.(lastInteraction := now, teams := t.teams[teamID := team]))
  }

  /** `leave-table`: an idle table frees an occupied slot, clearing its player, readiness and deck. */
  function LeaveTable(t: Table, teamID: int, now: int): (d: Decision)
    ensures d.Crash? <==> t.state == Idle && !(0 <= teamID < |t.teams|)
    ensures d.Write? <==> t.state == Idle && 0 <= teamID < |t.teams| && Occupied(t.teams[teamID])
    ensures d.Write? ==>
      && SlotEdit(t, d.table, teamID, now)
      && !Occupied(d.table.teams[teamID])
      && d.table.teams[teamID].playerName == ""
      && !d.table.teams[teamID].readyState
      && d.table.teams[teamID].deckRegistered == ""
      && d.table.teams[teamID].healthCur == t.teams[teamID].healthCur
  {
    if t.state != Idle then Reject
    else if !(0 <= teamID < |t.teams|) then Crash
    else if !Occupied(t.teams[teamID]) then Reject
    else
      var team := t.teams[teamID].(playerID := "", playerName := "", readyState := false, deckRegistered := "");
      Write(t.(lastInteraction := now, teams := t.teams[teamID := team]))
  }

  /**
    `set-ready-state`: on an idle table an occupied slot records readiness and the deck.
    Nothing checks that the caller is the player in the slot.
   */
  function SetReadyState(t: Table, teamID: int, ready: bool, deckSerial: string, now: int): (d: Decision)
    ensures d.Crash? <==> t.state == Idle && !(0 <= teamID < |t.teams|)
    ensures d.Write? <==> t.state == Idle && 0 <= teamID < |t.teams| && Occupied(t.teams[teamID])
    ensures d.Write? ==>
      && SlotEdit(t, d.table, teamID, now)
      && d.table.teams[teamID].readyState == ready
      && d.table.teams[teamID].deckRegistered == deckSerial
      && d.table.teams[teamID].playerID == t.teams[teamID].playerID
      && d.table.teams[teamID].playerName == t.teams[teamID].playerName
      && d.table.teams[teamID].healthCur == t.teams[teamID].healthCur
  {
    if t.state != Idle then Reject
    else if !(0 <= teamID < |t.teams|) then Crash
    else if !Occupied(t.teams[teamID]) then Reject
    else
      var team := t.teams[teamID].(readyState := ready, deckRegistered := deckSerial);
      Write(t.(lastInteraction := now, teams := t.teams[teamID := team]))
  }

  /** `start-game`: an idle table whose every team is occupied and ready goes in session. */
  function StartGame(t: Table, now: int): (d: Decision)
    ensures !d.Crash?
    ensures d.Write? <==> t.state == Idle && AllSeated(t.teams)
    ensures d.Write? ==>
      && d.table.state == InSession && d.table.lastInteraction == now
      && d.table.id == t.id && d.table.teams == t.teams
  {
    if t.state != Idle then Reject
    else if !AllSeated(t.teams) then Reject
    else Write(t.(lastInteraction := now, state := InSession))
  }

  /**
    `next-turn`: a table in session whose teams are all seated is replaced wholesale by the
    client's table; the payload is only parsed once those tests pass, and nothing restamps
    the interaction time.
   */
  function NextTurn(t: Table, tableData: Option<Table>): (d: Decision)
    ensures d.Crash? <==> t.state == InSession && AllSeated(t.teams) && tableData.None?
    ensures d.Write? <==> t.state == InSession && AllSeated(t.teams) && tableData.Some?
    ensures d.Write? ==> d.table == tableData.value
  {
    if t.state != InSession then Reject
    else if !AllSeated(t.teams) then Reject
    else if tableData.None? then Crash
    else Write(tableData.value)
  }

  /** The experience a finished match pays: more to a team still standing. */
  function Reward(healthCur: int): (r: nat)
    ensures healthCur > 0 <==> r == 100
    ensures healthCur <= 0 <==> r == 50
  {
    if healthCur > 0 then 100 else 50
  }

  /** One more game played and the team's reward, applied to the profile as loaded. */
  function Rewarded(p: Profile, team: Team): (r: Profile)
    ensures r.gamesPlayed == p.gamesPlayed + 1
    ensures r.experience - p.experience == Reward(team.healthCur)
    ensures r.lastLogin == p.lastLogin && r.decks == p.decks
  {
    p.(gamesPlayed := p.gamesPlayed + 1, experience := p.experience + Reward(team.healthCur))
  }

  function Players(teams: seq<Team>): set<string>
  {
    set i | 0 <= i < |teams| :: teams[i].playerID
  }

  /**
    The settlement loop of `end-game`: for each team in order, load its player's profile
    (with creation and expiry), reward it and write it back. The helpers swallow every
    storage failure, so settlement never fails; a failed load rewards the default profile.
   */
  function Settle(db: Db, teams: seq<Team>, env: Env): (r: Db)
    ensures r.tables == db.tables
    ensures forall p :: p !in Players(teams) ==> (p in r.profiles <==> p in db.profiles)
    ensures forall p :: p !in Players(teams) && p in db.profiles ==> r.profiles[p] == db.profiles[p]
    decreases |teams|
  {
    if |teams| == 0 then db
    else
      var player := teams[0].playerID;
      var loaded := LoadProfile(db, player, env);
      var rest := Settle(UpdateProfile(loaded.db, player, Rewarded(loaded.value, teams[0]), env), teams[1..], env);
      assert forall p :: p in Players(teams[1..]) ==> p in Players(teams) by {
        forall p | p in Players(teams[1..]) ensures p in Players(teams) {
          var i :| 0 <= i < |teams[1..]| && teams[1..][i].playerID == p;
          assert teams[i + 1].playerID == p;
        }
      }
      assert player in Players(teams) by { assert teams[0].playerID == player; }
      rest
  }

  /** Every team's player cleared and not ready; names, decks and health stay for display. */
  function Unseat(teams: seq<Team>): (r: seq<Team>)
    ensures |r| == |teams|
    ensures forall i :: 0 <= i < |r| ==> !Occupied(r[i]) && !r[i].readyState
    ensures forall i :: 0 <= i < |r| ==>
      r[i].playerName == teams[i].playerName && r[i].deckRegistered == teams[i].deckRegistered
      && r[i].healthCur == teams[i].healthCur
  {
    seq(|teams|, i requires 0 <= i < |teams| => teams[i].(playerID := "", readyState := false))
  }

  datatype Reply = Reply(outcome: Outcome, view: Option<Table>, db: Db)

  /**
    `end-game`: trusts the client's table rather than the stored one. A table in session
    with every team seated is settled, emptied of players, set idle and written back.
   */
  function EndGame(db: Db, key: TableKey, tableData: Option<Table>, env: Env): (r: Reply)
    ensures r.outcome == Fault <==> tableData.None?
    ensures r.outcome == Accepted <==> tableData.Some? && tableData.value.state == InSession && AllSeated(tableData.value.teams)
    ensures r.outcome != Accepted ==> r.db == db
    ensures r.db.tables.Keys == db.tables.Keys
    ensures forall k :: k != key && k in db.tables ==> r.db.tables[k] == db.tables[k]
    ensures r.outcome == Accepted && key in db.tables && TableWrite !in env.failing ==>
      var t := tableData.value;
      var t' := r.db.tables[key];
      && t'.state == Idle && t'.lastInteraction == env.now && t'.id == t.id
      && |t'.teams| == |t.teams|
      && (forall i :: 0 <= i < |t'.teams| ==> !Occupied(t'.teams[i]) && !t'.teams[i].readyState)
      && (forall i :: 0 <= i < |t'.teams| ==> t'.teams[i].healthCur == t.teams[i].healthCur)
      && (forall i :: 0 <= i < |t'.teams| ==>
            t'.teams[i].playerName == t.teams[i].playerName && t'.teams[i].deckRegistered == t.teams[i].deckRegistered)
    ensures r.outcome == Accepted ==> r.db.profiles == Settle(db, tableData.value.teams, env).profiles
  {
    if tableData.None? then Reply(Fault, None, db)
    else
      var t := tableData.value;
      if t.state != InSession || !AllSeated(t.teams) then Reply(Rejected, None, db)
      else
        var settled := Settle(db, t.teams, env);
        var cleared := t.(lastInteraction := env.now, state := Idle, teams := Unseat(t.teams));
        Reply(Accepted, None, UpdateTable(settled, key, cleared, env))
  }

  /** A table route's request body, past the realm and table id. */
  datatype TableRequest =
    | GetTableReq
    | SetTableReq(tableData: Option<Table>)
    | JoinReq(teamID: int, playerID: string, playerName: string)
    | LeaveReq(teamID: int)
    | SetReadyReq(teamID: int, ready: bool, deckSerial: string)
    | StartReq
    | NextTurnReq(tableData: Option<Table>)
    | EndGameReq(tableData: Option<Table>)

  /** The routes that load the table, decide from it and write the decision back. */
  predicate LoadsAndDecides(req: TableRequest)
  {
    req.JoinReq? || req.LeaveReq? || req.SetReadyReq? || req.StartReq? || req.NextTurnReq?
  }

  /** The decision of a load-decide-write route, from the table as loaded. */
  function Decide(t: Table, req: TableRequest, now: int): (d: Decision)
    requires LoadsAndDecides(req)
    ensures d.Write? ==> |d.table.teams| == |t.teams| || req.NextTurnReq?
    ensures d.Crash? ==> !req.StartReq?
  {
    match req
    case JoinReq(teamID, playerID, playerName) => JoinTable(t, teamID, playerID, playerName, now)
    case LeaveReq(teamID) => LeaveTable(t, teamID, now)
    case SetReadyReq(teamID, ready, deckSerial) => SetReadyState(t, teamID, ready, deckSerial, now)
    case StartReq => StartGame(t, now)
    case NextTurnReq(tableData) => NextTurn(t, tableData)
  }

  /** Carry out a decision on the store the load left behind. */
  function Commit(loaded: Loaded<Table>, key: TableKey, d: Decision, env: Env): (r: Reply)
    ensures r.view == None
    ensures d.Write? <==> r.outcome == Accepted
    ensures d.Crash? <==> r.outcome == Fault
    ensures r.outcome != Accepted ==> r.db == loaded.db
    ensures d.Write? ==> r.db == UpdateTable(loaded.db, key, d.table, env)
  {
    match d
    case Write(t) => Reply(Accepted, None, UpdateTable(loaded.db, key, t, env))
    case Reject => Reply(Rejected, None, loaded.db)
    case Crash => Reply(Fault, None, loaded.db)
  }

  /**
    One table route on table `key`. `get-table` returns the loaded table; `set-table`
    writes the client's table without loading; `end-game` works from the client's table.
    Every other route loads, decides and commits.
   */
  function Step(db: Db, key: TableKey, req: TableRequest, env: Env): (r: Reply)
    ensures r.view.Some? <==> req.GetTableReq?
    ensures !req.EndGameReq? ==> r.db.profiles == db.profiles
    ensures forall k :: k != key ==> (k in r.db.tables <==> k in db.tables)
    ensures forall k :: k != key && k in db.tables ==> r.db.tables[k] == db.tables[k]
    ensures r.outcome == Fault ==> match req
      case SetTableReq(p) => p.None?
      case NextTurnReq(p) => p.None?
      case EndGameReq(p) => p.None?
      case JoinReq(i, _, _) => !(0 <= i < |LoadTable(db, key, env).value.teams|)
      case LeaveReq(i) => !(0 <= i < |LoadTable(db, key, env).value.teams|)
      case SetReadyReq(i, _, _) => !(0 <= i < |LoadTable(db, key, env).value.teams|)
      case _ => false
  {
    match req
    case GetTableReq =>
      var loaded := LoadTable(db, key, env);
      Reply(Accepted, Some(loaded.value), loaded.db)
    case SetTableReq(tableData) =>
      if tableData.None? then Reply(Fault, None, db)
      else Reply(Accepted, None, UpdateTable(db, key, tableData.value, env))
    case EndGameReq(tableData) =>
      EndGame(db, key, tableData, env)
    case _ =>
      var loaded := LoadTable(db, key, env);
      Commit(loaded, key, Decide(loaded.value, req, env.now), env)
  }

  /** The profile routes, keyed by player id. */
  datatype ProfileRequest = GetProfileReq | GetExperienceReq | SetDeckReq(deckID: string, deckSerial: string)

  datatype ProfileBody = NoBody | WholeProfile(profile: Profile) | ExperienceOnly(experience: int)

  datatype ProfileReply = ProfileReply(outcome: Outcome, body: ProfileBody, db: Db)

  /** The name of the profile field a deck slot is saved under. */
  function DeckField(deckID: string): string
  {
    "Deck" + deckID
  }

  /**
    The opening of the profile routes: read the profile and create it from the default
    when missing. Unlike the settlement helper there is no expiry and nothing is caught:
    a failed read or create fails the route.
   */
  function OpenProfile(db: Db, player: string, env: Env): (r: Option<Loaded<Profile>>)
    ensures r.Some? <==> ProfileRead(player) !in env.failing && (player in db.profiles || ProfileCreate(player) !in env.failing)
    ensures r.Some? ==> player in r.value.db.profiles && r.value.db.profiles[player] == r.value.value
    ensures r.Some? && player in db.profiles ==> r.value == Loaded(db.profiles[player], db)
    ensures r.Some? && player !in db.profiles ==> r.value.value == env.blankProfile
    ensures r.Some? ==> r.value.db.tables == db.tables
    ensures r.Some? ==> forall p :: p != player ==> (p in r.value.db.profiles <==> p in db.profiles)
    ensures r.Some? ==> forall p :: p != player && p in db.profiles ==> r.value.db.profiles[p] == db.profiles[p]
  {
    if ProfileRead(player) in env.failing then None
    else if player in db.profiles then Some(Loaded(db.profiles[player], db))
    else if ProfileCreate(player) in env.failing then None
    else Some(Loaded(env.blankProfile, db.(profiles := db.profiles[player := env.blankProfile])))
  }

  /**
    `get-profile` stamps the login time and answers with the profile as read (before the
    stamp); `get-exp` answers with the experience alone; `set-deck` saves a deck serial
    under its slot's field. A storage failure answers status 500.
   */
  function ProfileStep(db: Db, player: string, req: ProfileRequest, env: Env): (r: ProfileReply)
    ensures r.db.tables == db.tables
    ensures forall p :: p != player ==> (p in r.db.profiles <==> p in db.profiles)
    ensures forall p :: p != player && p in db.profiles ==> r.db.profiles[p] == db.profiles[p]
    ensures r.outcome != Rejected
    ensures r.outcome == Accepted <==>
      OpenProfile(db, player, env).Some? && (req.GetExperienceReq? || ProfileWrite(player) !in env.failing)
    ensures r.outcome == Accepted ==> player in r.db.profiles
    ensures r.outcome == Accepted && req.GetProfileReq? ==>
      var before := OpenProfile(db, player, env).value.value;
      && r.body == WholeProfile(before)
      && r.db.profiles[player] == before.(lastLogin := env.now)
    ensures r.outcome == Accepted && req.GetExperienceReq? ==>
      r.body == ExperienceOnly(r.db.profiles[player].experience)
    ensures r.outcome == Accepted && req.SetDeckReq? ==>
      var before := OpenProfile(db, player, env).value.value;
      && r.db.profiles[player].decks == before.decks[DeckField(req.deckID) := req.deckSerial]
      && r.db.profiles[player].experience == before.experience
      && r.db.profiles[player].gamesPlayed == before.gamesPlayed
      && r.db.profiles[player].lastLogin == before.lastLogin
      && r.body == NoBody
  {
    match OpenProfile(db, player, env)
    case None => ProfileReply(Fault, NoBody, db)
    case Some(doc) =>
      var p := doc.value;
      match req
      case GetProfileReq =>
        if ProfileWrite(player) in env.failing then ProfileReply(Fault, NoBody, doc.db)
        else ProfileReply(Accepted, WholeProfile(p), doc.db.(profiles := doc.db.profiles[player := p.(lastLogin := env.now)]))
      case GetExperienceReq =>
        ProfileReply(Accepted, ExperienceOnly(p.experience), doc.db)
      case SetDeckReq(deckID, deckSerial) =>
        if ProfileWrite(player) in env.failing then ProfileReply(Fault, NoBody, doc.db)
        else
          var saved := p.(decks := p.decks[DeckField(deckID) := deckSerial]);
          ProfileReply(Accepted, NoBody, doc.db.(profiles := doc.db.profiles[player := saved]))
  }
}
