/**
  The records the game server keeps: card tables (one match each, with its team slots) and
  player profiles, and the guards its table routes share.
 */
module TableModel {

  /** One side of a table. An empty `playerID` means the slot is free. */
  datatype Team = Team(playerID: string, playerName: string, readyState: bool, deckRegistered: string, healthCur: int)

  /**
    A table record. `state` is 0 while idle and 1 while a match is in session; clients may
    submit any number, so it stays an `int`. `lastInteraction` is in milliseconds.
   */
  datatype Table = Table(id: int, state: int, teams: seq<Team>, lastInteraction: int)

  const Idle := 0
  const InSession := 1

  /** A player profile: `Experience`, `GamesPlayed`, `LastLogin` and the `Deck<slot>` fields. */
  datatype Profile = Profile(experience: int, gamesPlayed: int, lastLogin: int, decks: map<string, string>)

  /** What a route reports: `{result:true}`, `{result:false}` with status 200, or status 500. */
  datatype Outcome = Accepted | Rejected | Fault

  /** How long a table (and, as written, a profile) may stay untouched: five minutes in milliseconds. */
  const TableInteractionTimeout := 5 * 60000

  /** The staleness test of `getTable` and `getPlayerProfile`; strictly longer than the timeout. */
  predicate Expired(now: int, last: int)
  {
    now - last > TableInteractionTimeout
  }

  predicate Occupied(team: Team)
  {
    team.playerID != ""
  }

  /** The per-team test of the start, next-turn and end-game loops: occupied and ready. */
  predicate Seated(team: Team)
  {
    team.playerID != "" && team.readyState
  }

  predicate AllSeated(teams: seq<Team>)
  {
    forall i :: 0 <= i < |teams| ==> Seated(teams[i])
  }
}
