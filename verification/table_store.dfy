/**
  The document store behind the server and the helpers that read and write it: tables keyed
  by (realm, table id), profiles keyed by player id. Storage faults are an input: every
  request carries the set of store accesses that fail during it.
 */
module TableStore {
  import opened TableModel

  /** The identity of a table document: the same table id in two realms is two tables. */
  datatype TableKey = TableKey(realmID: string, tableID: nat)

  /** The store accesses a request can make; those in `Env.failing` fail. */
  datatype Access =
    | TableRead
    | TableCreate
    | TableReset
    | TableWrite
    | ProfileRead(player: string)
    | ProfileCreate(player: string)
    | ProfileReset(player: string)
    | ProfileWrite(player: string)

  /**
    Everything a request gets from outside: the clock, which store accesses fail, and what
    `Table.GenerateDefaultTable()` and `Profile.GenerateDefaultProfile()` return during it.
   */
  datatype Env = Env(now: int, failing: set<Access>, blankTable: Table, blankProfile: Profile)

  datatype Db = Db(tables: map<TableKey, Table>, profiles: map<string, Profile>)

  /** A record as a helper returns it, and the store after the helper's own writes. */
  datatype Loaded<T> = Loaded(value: T, db: Db)

  /** The default table, with its id set from the table key. */
  function FreshTable(env: Env, key: TableKey): Table
  {
    env.blankTable.(id := key.tableID)
  }

  predicate TableReadsOk(env: Env)
  {
    TableRead !in env.failing && TableCreate !in env.failing && TableReset !in env.failing
  }

  predicate TableStoreOk(env: Env)
  {
    TableReadsOk(env) && TableWrite !in env.failing
  }

  /**
    `getTable`: read the table, creating it from the default if missing; if it was last
    touched more than the timeout ago, reset it to the default and write that back. Any
    failure is caught and the generated default is returned as is, without its id.
   */
  function LoadTable(db: Db, key: TableKey, env: Env): (r: Loaded<Table>)
    ensures r.db.profiles == db.profiles
    ensures forall k :: k != key ==> (k in r.db.tables <==> k in db.tables)
    ensures forall k :: k != key && k in db.tables ==> r.db.tables[k] == db.tables[k]
    ensures key in db.tables ==> key in r.db.tables
    ensures r.value == env.blankTable || r.value == FreshTable(env, key) || (key in db.tables && r.value == db.tables[key])
    ensures key in r.db.tables ==> r.db.tables[key] == FreshTable(env, key) || (key in db.tables && r.db.tables[key] == db.tables[key])
    ensures TableRead in env.failing ==> r == Loaded(env.blankTable, db)
    ensures TableReadsOk(env) ==> key in r.db.tables && r.db.tables[key] == r.value
    ensures TableReadsOk(env) && key in db.tables && !Expired(env.now, db.tables[key].lastInteraction)
      ==> r == Loaded(db.tables[key], db)
    ensures TableReadsOk(env) && (key !in db.tables || Expired(env.now, db.tables[key].lastInteraction))
      ==> r.value == FreshTable(env, key)
  {
    var initial := FreshTable(env, key);
    if TableRead in env.failing then Loaded(env.blankTable, db)
    else if key !in db.tables && TableCreate in env.failing then Loaded(env.blankTable, db)
    else
      var created := if key in db.tables then db else db.(tables := db.tables[key := initial]);
      var stored := created.tables[key];
      if !Expired(env.now, stored.lastInteraction) then Loaded(stored, created)
      else if TableReset in env.failing then Loaded(env.blankTable, created)
      else Loaded(initial, created.(tables := created.tables[key := initial]))
  }

  /**
    `updateTable`: overwrite the table document. Updating a document that does not exist
    fails, and every failure is swallowed, so then nothing changes.
   */
  function UpdateTable(db: Db, key: TableKey, t: Table, env: Env): (r: Db)
    ensures r.profiles == db.profiles && r.tables.Keys == db.tables.Keys
    ensures forall k :: k in db.tables && k != key ==> r.tables[k] == db.tables[k]
    ensures key in db.tables && TableWrite !in env.failing ==> r.tables[key] == t
    ensures key !in db.tables || TableWrite in env.failing ==> r == db
  {
    if key in db.tables && TableWrite !in env.failing then db.(tables := db.tables[key := t]) else db
  }

  predicate ProfileReadsOk(env: Env, player: string)
  {
    ProfileRead(player) !in env.failing && ProfileCreate(player) !in env.failing && ProfileReset(player) !in env.failing
  }

  predicate ProfileStoreOk(env: Env, player: string)
  {
    ProfileReadsOk(env, player) && ProfileWrite(player) !in env.failing
  }

  /**
    A document update sets the fields it is given and keeps the others: the three counters
    are always given, and deck slots the update does not name survive.
   */
  function MergeProfile(stored: Profile, update: Profile): (r: Profile)
    ensures r.experience == update.experience && r.gamesPlayed == update.gamesPlayed && r.lastLogin == update.lastLogin
    ensures r.decks.Keys == stored.decks.Keys + update.decks.Keys
    ensures forall slot :: slot in update.decks ==> r.decks[slot] == update.decks[slot]
    ensures forall slot :: slot in stored.decks && slot !in update.decks ==> r.decks[slot] == stored.decks[slot]
  {
    Profile(update.experience, update.gamesPlayed, update.lastLogin, stored.decks + update.decks)
  }

  /**
    `getPlayerProfile`: as `getTable`, with `LastLogin` in place of `lastInteraction` and
    the same five-minute timeout. A stale profile is replaced by the default, both in
    what is returned and (by a merging update) in the store.
   */
  function LoadProfile(db: Db, player: string, env: Env): (r: Loaded<Profile>)
    ensures r.db.tables == db.tables
    ensures forall p :: p != player ==> (p in r.db.profiles <==> p in db.profiles)
    ensures forall p :: p != player && p in db.profiles ==> r.db.profiles[p] == db.profiles[p]
    ensures player in db.profiles ==> player in r.db.profiles
    ensures ProfileRead(player) in env.failing ==> r == Loaded(env.blankProfile, db)
    ensures ProfileReadsOk(env, player) ==> player in r.db.profiles
    ensures ProfileReadsOk(env, player) && player in db.profiles && !Expired(env.now, db.profiles[player].lastLogin)
      ==> r == Loaded(db.profiles[player], db)
    ensures ProfileReadsOk(env, player) && (player !in db.profiles || Expired(env.now, db.profiles[player].lastLogin))
      ==> r.value == env.blankProfile
    ensures ProfileReadsOk(env, player) && player in db.profiles && Expired(env.now, db.profiles[player].lastLogin)
      ==> r.db.profiles[player] == MergeProfile(db.profiles[player], env.blankProfile)
    ensures ProfileReadsOk(env, player) && player !in db.profiles ==> r.db.profiles[player] == env.blankProfile
  {
    if ProfileRead(player) in env.failing then Loaded(env.blankProfile, db)
    else if player !in db.profiles && ProfileCreate(player) in env.failing then Loaded(env.blankProfile, db)
    else
      var created := if player in db.profiles then db else db.(profiles := db.profiles[player := env.blankProfile]);
      var stored := created.profiles[player];
      if !Expired(env.now, stored.lastLogin) then Loaded(stored, created)
      else if ProfileReset(player) in env.failing then Loaded(env.blankProfile, created)
      else Loaded(env.blankProfile, created.(profiles := created.profiles[player := MergeProfile(stored, env.blankProfile)]))
  }

  /** `updatePlayerProfile`: a merging update whose failure (also: missing document) is swallowed. */
  function UpdateProfile(db: Db, player: string, p: Profile, env: Env): (r: Db)
    ensures r.tables == db.tables && r.profiles.Keys == db.profiles.Keys
    ensures forall q :: q in db.profiles && q != player ==> r.profiles[q] == db.profiles[q]
    ensures player in db.profiles && ProfileWrite(player) !in env.failing
      ==> r.profiles[player] == MergeProfile(db.profiles[player], p)
    ensures player !in db.profiles || ProfileWrite(player) in env.failing ==> r == db
  {
    if player in db.profiles && ProfileWrite(player) !in env.failing then
      db.(profiles := db.profiles[player := MergeProfile(db.profiles[player], p)])
    else db
  }
}
