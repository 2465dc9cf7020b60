# TCG Framework: table sessions, profiles and card registries in Dafny

This project models the core of the TCG Framework, a trading card game for Decentraland, and proves properties of that model. The model covers three parts of the framework.

- **Game server.** These are the HTTP routes of the Firebase server (`TCG-Framework-Server/functions/src/index.ts`).
  - They keep card tables keyed by realm and table id, and player profiles keyed by player id.
  - They let players join, leave and ready up at a table, start a match, store turns, and end a match with an experience payout.
  - Every request is modelled as a pure function from the store to a reply and a new store.
  - The clock is an input to each request. So is the set of storage accesses that fail during it, together with what the default-table and default-profile generators return.
- **Card registry.** This is the client's card registry (`tcg-card-registry.ts`). It holds one entry per card, indexed by position, id, type and faction. Each entry keeps one allowed-count counter per unlock source.
- **Contract-unlock registry.** This is the client's contract-unlock registry (`tcg-contract-unlocks-registry.ts`).
  - It decides which NFT contracts the player owns or wears, from URN lists that are passed in.
  - It then recomputes the contract share of every card's allowed count.

The Dafny files:

- `common.dfy`
  - `Common` holds `Option`.
  - `Indexing` holds the dictionary-of-lists and dictionary-by-id construction that both registries share.
- `card_registry.dfy` holds `CardRegistry`.
- `contract_registry.dfy` holds `ContractRegistry`.
- `table_model.dfy` holds `TableModel`: tables, teams, profiles, the timeout and the seat tests.
- `table_store.dfy` holds `TableStore`: the document store, the failure oracle, and the load and update helpers.
- `table_server.dfy` holds `TableServer`: the route decisions, settlement, and the `Step` and `ProfileStep` request functions.
- `table_properties.dfy` holds `TableProperties`: properties that span several requests, and one worked example match.

Storage-model conventions:

- **Failures.** Each request carries the set of store accesses (read, create, reset, write, per table or per player) that fail during it.
  - `getTable` and `getPlayerProfile` catch every failure and return the bare generated default. That default has no table id.
  - `updateTable` and `updatePlayerProfile` swallow every failure.
- **Updates.**
  - A document update on a missing document fails, so such an update changes nothing.
  - An update is a merge. Scalar fields are replaced, and deck fields that the update does not name are kept.

## Model

| member | source | states |
|---|---|---|
| Indexing.GroupBy | TCG-Framework-Client/src/tcg-framework/data/tcg-card-registry.ts:141-168 | The type and faction dictionaries get one list per registered key, holding exactly the positions of the items with that key, in data order. The build fails exactly when some item's key has no list. |
| Indexing.IndexByID | TCG-Framework-Client/src/tcg-framework/data/tcg-card-registry.ts:166 | The id dictionary has exactly the ids of the data as keys, and each id maps to the last position that holds it. |
| CardRegistry.CountAllowed | TCG-Framework-Client/src/tcg-framework/data/tcg-card-registry.ts:49-56 | The summing loop returns the total of all four counters of the entry. |
| CardRegistry.SumOfSlots | TCG-Framework-Client/src/tcg-framework/data/tcg-card-registry.ts:49-56 | The counter total is the sum of the four counter slots. |
| CardRegistry.NewEntry | TCG-Framework-Client/src/tcg-framework/data/tcg-card-registry.ts:59-64 | A new entry keeps its position and id and has four zero counters. One slot is pushed per key of the two-member numeric enum, so there are four slots. The total allowed is 0. |
| CardRegistry.ClearCount | TCG-Framework-Client/src/tcg-framework/data/tcg-card-registry.ts:67-69 | Only the given unlock type's counter becomes 0. The total drops by exactly that counter's old value. |
| CardRegistry.AddCount | TCG-Framework-Client/src/tcg-framework/data/tcg-card-registry.ts:72-74 | Only the given unlock type's counter grows, by the value. The total grows by the same value. |
| CardRegistry.SumUpdate | TCG-Framework-Client/src/tcg-framework/data/tcg-card-registry.ts:72-74 | Replacing one counter changes the total by the difference between the new and old values. |
| CardRegistry.Build | TCG-Framework-Client/src/tcg-framework/data/tcg-card-registry.ts:136-169 | Construction succeeds exactly when every card's type and faction have a list. The result is then indexed by position, id, type and faction as the data dictates, and every counter is 0. |
| CardRegistry.GetEntryByPos | TCG-Framework-Client/src/tcg-framework/data/tcg-card-registry.ts:248 | The lookup returns the entry at an in-range position, and nothing otherwise. |
| CardRegistry.GetEntryByID | TCG-Framework-Client/src/tcg-framework/data/tcg-card-registry.ts:251 | A registered id gives the entry the id dictionary points at. An unknown id gives nothing. |
| CardRegistry.GetEntryByType | TCG-Framework-Client/src/tcg-framework/data/tcg-card-registry.ts:257 | The lookup is defined exactly for a registered type and an in-range index, and a missing type or an out-of-range index gives nothing. Which card comes back is stated by `CardRegistry.TypeListsPartition`. |
| CardRegistry.GetEntryByFaction | TCG-Framework-Client/src/tcg-framework/data/tcg-card-registry.ts:254 | The lookup is defined exactly for a registered faction and an in-range index, and a missing faction or an out-of-range index gives nothing. Which card comes back is stated by `CardRegistry.FactionListsPartition`. |
| CardRegistry.LookupByPosAndID | TCG-Framework-Client/src/tcg-framework/data/tcg-card-registry.ts:159-169 | In a built registry, position i gives card i's entry. With distinct ids, looking up card i's id gives that same entry. |
| CardRegistry.TypeListsPartition | TCG-Framework-Client/src/tcg-framework/data/tcg-card-registry.ts:153-169 | A card appears in a type list exactly when the list is for its own type. Each list is in ascending data order. Every card can be reached through some index of its type list. |
| CardRegistry.FactionListsPartition | TCG-Framework-Client/src/tcg-framework/data/tcg-card-registry.ts:144-168 | A card appears in a faction list exactly when the list is for its own faction. Each list is in ascending data order. Every card can be reached through some index of its faction list. |
| CardRegistry.ResetAllowedCount | TCG-Framework-Client/src/tcg-framework/data/tcg-card-registry.ts:227-232 | Every entry's counter for the given type becomes 0. Every other counter, and every index, is unchanged. |
| CardRegistry.ResetAllowedCountIdempotent | TCG-Framework-Client/src/tcg-framework/data/tcg-card-registry.ts:227-232 | Resetting a type twice gives the same result as resetting it once. |
| CardRegistry.AddCountByID | TCG-Framework-Client/src/tcg-framework/data/tcg-contract-unlocks-registry.ts:221 | An unknown id fails, because `getItem` yields undefined and the call throws. Otherwise only the named entry's counter for the given type grows, by the value. |
| ContractRegistry.FindUnregistered | TCG-Framework-Client/src/tcg-framework/data/tcg-contract-unlocks-registry.ts:178-196 | The display-panel refresh finds a provided card the card registry does not hold exactly when there is one, and names it by contract and slot. |
| ContractRegistry.Build | TCG-Framework-Client/src/tcg-framework/data/tcg-contract-unlocks-registry.ts:128-154 | Construction succeeds exactly when every contract's activation type has a list and every provided card is in the card registry, and a registry it returns is indexed by id and activation type with nothing owned. |
| ContractRegistry.GetEntryByPos | TCG-Framework-Client/src/tcg-framework/data/tcg-contract-unlocks-registry.ts:374 | The lookup returns the entry at an in-range position, and nothing otherwise. |
| ContractRegistry.GetEntryByID | TCG-Framework-Client/src/tcg-framework/data/tcg-contract-unlocks-registry.ts:377 | A registered id gives its entry. An unknown id gives nothing. |
| ContractRegistry.ConstructedLookups | TCG-Framework-Client/src/tcg-framework/data/tcg-contract-unlocks-registry.ts:141-151 | In a built registry, position i gives contract i's entry. Its id lookup gives the last contract with that id, which is i itself when ids are distinct. |
| ContractRegistry.FirstMatch | TCG-Framework-Client/src/tcg-framework/data/tcg-contract-unlocks-registry.ts:296-304 | The matching loop stops at the first list entry whose URN equals the fetched URN. No earlier entry matches, and no entry at all matches when it reports none. |
| ContractRegistry.MatchUrns | TCG-Framework-Client/src/tcg-framework/data/tcg-contract-unlocks-registry.ts:294-305 | After all fetched URNs are processed, an entry is owned exactly when it was owned before or some URN's first match is that entry. |
| ContractRegistry.OneUrnUnlocksFirstMatch | TCG-Framework-Client/src/tcg-framework/data/tcg-contract-unlocks-registry.ts:296-304 | A single URN unlocks at most one entry: its first match, or nothing. |
| ContractRegistry.ShadowedEntryNeverUnlocked | TCG-Framework-Client/src/tcg-framework/data/tcg-contract-unlocks-registry.ts:350-358 | An entry whose URN repeats that of an earlier entry in the same list is never unlocked, because of the `break`. |
| ContractRegistry.Split | TCG-Framework-Client/src/tcg-framework/data/tcg-contract-unlocks-registry.ts:346 | Splitting on ',' gives at least one piece, and no piece contains ','. |
| ContractRegistry.JoinSplit | TCG-Framework-Client/src/tcg-framework/data/tcg-contract-unlocks-registry.ts:346 | Joining the pieces of a split with the separator gives back the original string. |
| ContractRegistry.SplitJoin | TCG-Framework-Client/src/tcg-framework/data/tcg-contract-unlocks-registry.ts:346 | Splitting a non-empty array's comma-joined string gives back the array, provided no element contains ','. |
| ContractRegistry.WornUrns | TCG-Framework-Client/src/tcg-framework/data/tcg-contract-unlocks-registry.ts:346 | The `toString().split(',')` round trip returns the worn array unchanged when the array is non-empty and comma-free. An empty array becomes one empty URN. |
| ContractRegistry.ResetOwnership | TCG-Framework-Client/src/tcg-framework/data/tcg-contract-unlocks-registry.ts:248-251 | Every ownership flag is cleared and nothing else changes. |
| ContractRegistry.ResetOwnershipForgetsFlags | TCG-Framework-Client/src/tcg-framework/data/tcg-contract-unlocks-registry.ts:248-251 | Two registries of the same shape become equal once their flags are cleared. |
| ContractRegistry.ProcessOwned | TCG-Framework-Client/src/tcg-framework/data/tcg-contract-unlocks-registry.ts:266-315 | The owned-NFT pass keeps the registry well-formed and of the same shape. |
| ContractRegistry.ProcessWorn | TCG-Framework-Client/src/tcg-framework/data/tcg-contract-unlocks-registry.ts:318-369 | The worn-NFT pass keeps the registry well-formed and of the same shape. |
| ContractRegistry.AssertOwnedNFTs | TCG-Framework-Client/src/tcg-framework/data/tcg-contract-unlocks-registry.ts:238-263 | Without web3 nothing changes. With web3, afterwards an entry is owned exactly when the owned or worn URNs unlock it. |
| ContractRegistry.AssertOwnedNFTsIdempotent | TCG-Framework-Client/src/tcg-framework/data/tcg-contract-unlocks-registry.ts:238-263 | Re-asserting ownership from the same wallet changes nothing. |
| ContractRegistry.ApplyGrants | TCG-Framework-Client/src/tcg-framework/data/tcg-contract-unlocks-registry.ts:215-227 | Granting cards only touches contract counters. Ids and indexes are unchanged. |
| ContractRegistry.ApplyGrantsTotals | TCG-Framework-Client/src/tcg-framework/data/tcg-contract-unlocks-registry.ts:215-227 | When every granted id is registered, each card's contract counter grows by the sum of the counts granted to the entry its id resolves to. |
| ContractRegistry.UnknownCardEndsPass | TCG-Framework-Client/src/tcg-framework/data/tcg-contract-unlocks-registry.ts:204-231 | A grant naming an unregistered card throws, and the whole pass stops there. Later grants are never applied. A registry that construction accepted never reaches this case unless the card registry has changed since. |
| ContractRegistry.CalculateCardProvisionCounts | TCG-Framework-Client/src/tcg-framework/data/tcg-contract-unlocks-registry.ts:203-235 | Ownership is re-asserted and the other counters are unchanged. When every grant is registered, each contract counter is the total granted by the owned contracts. |
| ContractRegistry.GrantsRegistered | TCG-Framework-Client/src/tcg-framework/data/tcg-contract-unlocks-registry.ts:213-223 | The grants of the owned contracts name only provided cards. So when construction accepted every provided card, every grant is registered, whatever is owned. |
| ContractRegistry.ConstructedProvisionCounts | TCG-Framework-Client/src/tcg-framework/data/tcg-contract-unlocks-registry.ts:203-235 | For a contract registry that construction accepted, the recomputation always completes. Each contract counter ends as exactly the total granted by the owned contracts. |
| ContractRegistry.ResetForgetsContractCounts | TCG-Framework-Client/src/tcg-framework/data/tcg-contract-unlocks-registry.ts:208 | Two card registries that differ only in contract counters become equal once those counters are reset. |
| ContractRegistry.ProvisionIdempotent | TCG-Framework-Client/src/tcg-framework/data/tcg-contract-unlocks-registry.ts:203-235 | Recomputing provisions a second time from the same wallet changes nothing. |
| TableStore.LoadTable | TCG-Framework-Server/functions/src/index.ts:221-261 | See the LoadTable cases after this table. |
| TableStore.UpdateTable | TCG-Framework-Server/functions/src/index.ts:264-279 | The table is replaced only when its document exists and the write succeeds. A missing document or a failed write leaves the store unchanged. |
| TableStore.MergeProfile | TCG-Framework-Server/functions/src/index.ts:198-212 | A profile update replaces the three counters and adds or overwrites the deck fields it names. All other deck fields are kept. |
| TableStore.LoadProfile | TCG-Framework-Server/functions/src/index.ts:159-196 | See the LoadProfile cases after this table. |
| TableStore.UpdateProfile | TCG-Framework-Server/functions/src/index.ts:198-212 | The profile is merged only when its document exists and the write succeeds. Otherwise the store is unchanged, and other players are never touched. |
| TableServer.JoinTable | TCG-Framework-Server/functions/src/index.ts:330-348 | See the JoinTable cases after this table. |
| TableServer.LeaveTable | TCG-Framework-Server/functions/src/index.ts:367-388 | An idle table with an occupied slot frees it, clearing player, name, readiness and deck. A busy table or an empty slot answers `false`. An idle table with a bad index throws. |
| TableServer.SetReadyState | TCG-Framework-Server/functions/src/index.ts:407-425 | An idle table with an occupied slot records readiness and deck in that slot only. The player is kept. The same reject and throw cases as leave apply. |
| TableServer.StartGame | TCG-Framework-Server/functions/src/index.ts:444-474 | Start never throws. It goes in session, with the teams unchanged and time stamped, exactly when the table is idle and every team is occupied and ready. |
| TableServer.NextTurn | TCG-Framework-Server/functions/src/index.ts:492-514 | See the NextTurn cases after this table. |
| TableServer.Reward | TCG-Framework-Server/functions/src/index.ts:575-579 | A team with positive health earns 100. Any other team earns 50. |
| TableServer.Rewarded | TCG-Framework-Server/functions/src/index.ts:572-579 | Settling a player adds one game played and that team's reward to the loaded profile. Login time and decks are unchanged. |
| TableServer.Settle | TCG-Framework-Server/functions/src/index.ts:567-589 | Settlement never touches tables, and never touches the profile of a player who is not on the table. |
| TableServer.Unseat | TCG-Framework-Server/functions/src/index.ts:584-589 | Every team loses its player and readiness. Names, decks and health stay. |
| TableServer.EndGame | TCG-Framework-Server/functions/src/index.ts:528-600 | See the EndGame cases after this table. |
| TableServer.Step | TCG-Framework-Server/functions/src/index.ts:284-320 | A table request touches no other table. Only end-game touches profiles, and only get-table returns a table. A 500 comes only from a missing payload or a slot index the loaded table does not have. |
| TableServer.OpenProfile | TCG-Framework-Server/functions/src/index.ts:51-65 | The profile routes read the profile, or create it from the default. They fail exactly when the read fails, or when the document is missing and the create fails. |
| TableServer.ProfileStep | TCG-Framework-Server/functions/src/index.ts:46-152 | See the ProfileStep cases after this table. |
| TableProperties.LoadTableIdempotent | TCG-Framework-Server/functions/src/index.ts:221-261 | Loading a table a second time with the same clock and failures returns the same table and changes nothing more. |
| TableProperties.JoinRace | TCG-Framework-Server/functions/src/index.ts:326-348 | Two joins to the same free slot that both read before either writes both answer `true`. The later writer owns the slot. |
| TableProperties.SequentialJoinsRejectSecond | TCG-Framework-Server/functions/src/index.ts:333-340 | The same two joins in sequence go differently: the second answers `false`, writes nothing, and the first player keeps the slot. |
| TableProperties.FailedWriteStillAccepted | TCG-Framework-Server/functions/src/index.ts:264-279 | A valid join whose write fails still answers `true` with the store unchanged. |
| TableProperties.FailedWriteKeepsLoadedTable | TCG-Framework-Server/functions/src/index.ts:264-279 | When the table write fails, a load-decide-write route leaves exactly the store its load left. |
| TableProperties.LiveTableStep | TCG-Framework-Server/functions/src/index.ts:326-358 | On a stored, unexpired table with healthy storage, a load-decide-write route stores exactly its decision. It stores nothing when it answers `false` or throws. |
| TableProperties.SlotRoutesCheckStateFirst | TCG-Framework-Server/functions/src/index.ts:333-340 | Join, leave and set-ready on a non-idle table answer `false` for any team index. On an idle table, an index with no team throws and the route answers 500. |
| TableProperties.EndGameIgnoresStoredTable | TCG-Framework-Server/functions/src/index.ts:531-549 | End-game's answer depends only on the client's table, never on the stored one. |
| TableProperties.SettleStepKeepsOthers | TCG-Framework-Server/functions/src/index.ts:567-582 | Settling one team, whether its own storage works or fails, leaves every other player's settlement base as it was. |
| TableProperties.SettleFirstTeam | TCG-Framework-Server/functions/src/index.ts:567-582 | With healthy storage, settling one team pays its player on top of their settlement base. No other player's base changes. |
| TableProperties.SettleRewardsEachPlayer | TCG-Framework-Server/functions/src/index.ts:567-582 | With one seat per player, every player whose own profile storage works ends with one more game and their team's reward, whatever fails for the other players. The reward is added to the stored profile if it is fresh, and otherwise to the default. |
| TableProperties.StaleProfileLosesProgress | TCG-Framework-Server/functions/src/index.ts:177-187 | A player whose profile is older than the five-minute timeout ends the match with the default's experience plus the reward. Earlier experience is lost. |
| TableProperties.FreshProfileKeepsProgress | TCG-Framework-Server/functions/src/index.ts:567-582 | A player seen within the timeout keeps their experience and gains the reward. |
| TableProperties.SeatCountPreserved | TCG-Framework-Server/functions/src/index.ts:221-279 | Tables keep their number of seats, provided the default table and every client-sent table have that many. |
| TableProperties.SetDeckThenGetProfile | TCG-Framework-Server/functions/src/index.ts:122-152 | A deck saved with set-deck is returned by the next get-profile under its `Deck<slot>` field. |
| TableProperties.MatchSeats | TCG-Framework-Server/functions/src/index.ts:326-358 | On an empty store the first join creates the table and both players seat. |
| TableProperties.MatchReadies | TCG-Framework-Server/functions/src/index.ts:403-432 | Both seated players ready up with their decks. |
| TableProperties.MatchPlays | TCG-Framework-Server/functions/src/index.ts:440-514 | The match starts and a turn stores the client's table. |
| TableProperties.MatchEnds | TCG-Framework-Server/functions/src/index.ts:528-600 | Ending the match pays 100 to the player still standing and 50 to the other, with one game each. The table is then idle and its seats are free. |
| TableProperties.MatchScenario | TCG-Framework-Server/functions/src/index.ts:326-600 | A full match from an empty store answers `true` seven times and ends with profiles at 100 and 50 and an idle table. |

Cases for the longer rows:

- **TableStore.LoadTable**
  - A missing table is created from the default, with its id set.
  - A table untouched for strictly more than 5 × 60000 ms is reset to that default.
  - A fresh table is returned unchanged and nothing is written.
  - A failed read gives the bare default with the store unchanged.
  - The loaded table is always the stored table, the fresh default, or the bare default.
- **TableStore.LoadProfile**
  - As for tables, with `LastLogin` and the same five-minute timeout.
  - A stale profile is returned as the default. The store then holds the default merged over it: the default's counters, and the old deck fields the default does not name.
  - A missing profile is created and stored as the default.
  - A fresh one is returned unchanged.
  - A failed read gives the default.
- **TableServer.JoinTable**
  - A write happens exactly when the table is idle and the slot exists and is free. It sets only that slot's player and name, and stamps the time.
  - The route throws exactly when the table is idle and the index has no team.
  - A busy table answers `false`, whatever the index.
- **TableServer.NextTurn**
  - A table in session with all teams seated is replaced wholesale by the client's table, without a new time stamp.
  - A missing payload throws, but only once those tests pass.
- **TableServer.EndGame**
  - A missing payload throws.
  - End-game answers `true` exactly when the client's table is in session and all its teams are seated.
  - When the write lands, the stored table is idle and time-stamped, and has no players or readiness. Names, registered decks and health are kept.
  - On a `true` answer the profiles are exactly those that settling the client's teams leaves.
  - A `false` answer changes nothing.
- **TableServer.ProfileStep**
  - Get-profile returns the profile as read and stamps `LastLogin` with now.
  - Get-exp returns the stored experience.
  - Set-deck writes only the `Deck<id>` field. Experience, games played and `LastLogin` keep the values read, and the reply has no body.
  - A storage failure gives 500. No other player and no table changes.

## Left out

- **Rendering and assets:** card and faction textures (`GetCardTexture`, `GetFactionTexture`, `GetFaction`), asset pre-warming, and the unlock display panel (`SetPosition`, `SetRotation`, and the text that `UpdateDisplayPanel` builds). These are scene rendering with no effect on the modelled state. The one effect of `UpdateDisplayPanel` that matters is its card lookup. That lookup throws for an unregistered provided card, and it is modelled as a failure of `ContractRegistry.Build`. The refresh at the end of each recomputation repeats the same lookups against the same data, so it adds no new failure.
- **Network and timers:**
  - The Decentraland `fetch` calls are replaced by the `Wallet` input. Each fetched list is `None` when the fetch or its JSON failed, matching the early `return`s.
  - The `onProfileChanged` timer that re-runs provisioning is left out.
  - Wall-clock time is the `Env.now` input.
- **Server plumbing:** Express, CORS and Firebase setup, the HTTP encoding of replies, and logging.
  - `Table.DeserializeData` and `JSON.parse` belong to files that are not part of this model. A payload is either a table or missing, and missing makes the route answer 500.
  - `Table.GenerateDefaultTable` and `Profile.GenerateDefaultProfile` belong to files that are not part of this model. Their values are inputs.
- **Request timing:** interleaving inside a request is left out. A route is one atomic step, except for the explicit read-read-write-write interleaving in `JoinRace`.
- **The `Position` getters** of the card, faction and contract entries. They call themselves (`return this.Position`) and would never return, and the code never reads them. The model reads the position field directly.
- **Singleton access:** `Instance` and the `Callback*` wrappers are modelled as calls on a registry value.
- **Non-numeric table ids:** the table id is a natural number, and the stored `id` is that number. `Number.parseInt` of a non-numeric id, which gives `NaN`, is not modelled. Keying by the number also merges distinct id strings that parse to the same number, such as "01" and "1". The source stores those as separate table documents, but here they are one table.
- **Get-exp fallback:** the `hasOwnProperty("Experience")` fallback of get-exp is not modelled, because a modelled profile always has an experience field.
- **Get-profile hang:** on a storage failure get-profile sets status 500 without sending a response, so the client waits. It is modelled as an answer of 500.
- **Collections:** `Dictionary` and `List` come from a utilities file that is not part of this model.
  - `addItem` is taken to overwrite an existing key, so the last item wins.
  - `getItem` of a missing key, or of an out-of-range index, is taken to give `undefined`, modelled as `None`.
  - Lookups that would throw and lookups that would return `undefined` are both `None`.
- **Enum spellings:**
  - `CONTRACT_ACTIVATION_TYPE` is taken to be a numeric enum with OWN = 0 and WEAR = 1, so its list keys are "0" and "1".
  - The type and faction keys under which cards are filed are inputs to `CardRegistry.Build`.
- **Typing:** numeric fields (`healthCur`, `experience`, `gamesPlayed`, the table `state`, time stamps) are modelled as unbounded integers rather than doubles, which is exact because the server only adds small constants to them. Boolean fields are modelled as booleans, and a client value of another type is not modelled.
- **TableServer.Step:** its contract states the cause of a 500 in one direction only, from the answer to the cause. The converse is stated per route by `JoinTable`, `LeaveTable`, `SetReadyState`, `NextTurn`, `EndGame` and `TableProperties.SlotRoutesCheckStateFirst`.
- **ContractRegistry.ProcessOwned:** its own contract only keeps shape. Which flags it sets is stated through `MatchUrns` and `AssertOwnedNFTs`.
- **ContractRegistry.ProcessWorn:** its own contract only keeps shape. Which flags it sets is stated through `MatchUrns` and `AssertOwnedNFTs`.
- **Expiry:**
  - On expiry the table is reset to the generated default as is. Its time stamp is refreshed only if the default carries the current time.
  - Profiles expire after the same five-minute timeout as tables. They are reset by a merging update, so deck fields that the default does not name survive.
