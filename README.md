# Championship draft site, modelled in Dafny

The championship site runs a tournament of two-player matches. Each match
goes through these phases:

- `waiting`;
- `ready-check`, while players confirm they are present;
- `map-selected`, once the map is drawn;
- `banning` and `picking`, where each player bans battlegroups and picks
  three battlegroups of one faction;
- `locked`.

A browser client (`public/scripts.js`) holds the tournaments and runs the
draft handlers against the match it finds for the signed-in player. A
broadcast page (`public/broadcast.js`) picks the tournament and match to
show. An Express server stores users and tournaments in JSON files and
signs players in with a cookie-borne token. It also seeds an admin account
at start-up and reports tournament statistics to a Discord status command.

This project models that core:

- **Client.**
  - `Catalog`: the battlegroup catalogue.
  - `Js`: JavaScript values and `||`, property reads and truthiness.
  - `MatchModel`: the typed match record and its phase, status and role
    names.
  - `Normalize`: `normalizeMatch`, with its in-place selection repair.
  - `Records`: `normalizeUser`, `normalizeTournament` and
    `createEmptyMatch`.
  - `Merge`: `mergeUsers`, `mergeTournaments` and
    `getTournamentParticipants`, as the `Map` they fill.
  - `Draft`: the pure rules for bans, picks, readiness, the map draw and
    the phase repair.
  - `ClientState`: the client state as a class whose handlers rewrite the
    tournament list.
- **Broadcast.** `Broadcast`: the default-tournament and default-match
  choice, `ensureSelection` and the other handlers on the page `state`,
  the realtime filter and the fallback normaliser.
- **Server.**
  - `DataStore`: the BOM strip, JSON fallback, object names,
    `publicUser`, update events and the file store.
  - `Passwords`: the `s2$salt$key` format and `verifyPassword` dispatch.
  - `Cookies`: `parseCookies`, the bearer token, and the sign-in and
    sign-out cookies.
  - `Text`: `sanitizeString` and `parsePositiveInteger`.
  - `UsersRoute`: registration.
  - `AuthRoute`: `/login`, `/logout` and `/me`.
  - `AuthRequired`: the guard.
  - `Logger`: the log gate and line format.
  - `RequestLogger`: the client-address picker and the request log
    records.
  - `EnvFile`: the `.env` loader of `web.js`.
  - `Bootstrap`: admin seeding and password migration.
  - `Status`: uptime, counters, the overall flag and metadata names of
    the status bot.

The model's conventions:

- **Functions as parameters.** Crypto, JSON, URI coding, clocks and
  randomness are parameters: a hash, a verifier, a `stringify`, a
  `decode`, a time value or a drawn index.
- **Exceptions.** A JavaScript exception is the `Throws` case of
  `Wrappers.Result`.
- **Numbers.** JavaScript numbers are integers.

## Model

| member | source | states |
|---|---|---|
| Catalog.CatalogShape | championship/public/scripts.js:3-64 | 24 battlegroups, six per faction, with pairwise distinct `faction::name` ids, so the id map keeps every entry |
| Catalog.Lookup | championship/public/scripts.js:64 | `BATTLEGROUP_MAP.get`: a hit is the catalogue entry with that id; any id not in the catalogue misses |
| Catalog.LookupOwnId | championship/public/scripts.js:54-64 | every catalogue entry is found under its own id |
| Catalog.BattlegroupsByFaction | championship/public/scripts.js:2176-2178 | the entries of one faction, in catalogue order |
| Catalog.SixPerFaction | championship/public/scripts.js:2176-2178 | each of the four factions offers exactly its six battlegroups |
| Catalog.FactionOf | championship/public/scripts.js:1262 | the faction of a known id, `null` for an unknown one |
| MatchModel.ParsePhase | championship/public/scripts.js:1529-1533 | exactly the six phase names are recognised, each as its own phase |
| MatchModel.DescribePhase | championship/public/scripts.js:636-653 | the label of a phase, with a fallback for other values |
| MatchModel.DescribePhaseDistinguishes | championship/public/scripts.js:636-653 | the six phases get six different labels, none of them the fallback |
| MatchModel.ParseStatus | championship/public/scripts.js:269-271 | exactly `scheduled`, `live` and `completed` are recognised |
| MatchModel.ParseRole | championship/public/scripts.js:254 | exactly `player`, `viewer` and `admin` are recognised |
| MatchModel.PlayerIds | championship/public/scripts.js:1489 | the account ids of a match's players, one per player, in order |
| Normalize.RepairSelection | championship/public/scripts.js:1504-1515 | the in-place selection repair: falsy faction becomes null, the picks are the truthy ones, at most three, confirmation needs exactly three, `confirmedAt` is null when unconfirmed |
| Normalize.RepairFixpoint | championship/public/scripts.js:1504-1515 | the repair leaves a selection alone exactly when it already has the repaired shape |
| Normalize.RepairIdempotent | championship/public/scripts.js:1504-1515 | repairing twice is repairing once |
| Normalize.SelectionFromRaw | championship/public/scripts.js:1496-1503 | a falsy stored selection becomes the default one, a non-array `battlegroups` becomes `[]` |
| Normalize.PlayersFromRaw | championship/public/scripts.js:1473-1480 | one player per stored entry (none for a non-array); a `null` entry throws |
| Normalize.NormalizedBans | championship/public/scripts.js:1490-1494 | the stored ban array cut to `MAX_BAN_PER_PLAYER` entries, else `[]` |
| Normalize.SelectionsOf | championship/public/scripts.js:1489-1518 | one repaired selection per player account; the copy's other entries stay as read |
| Normalize.BansOf | championship/public/scripts.js:1489-1518 | one cut ban list per player account; the copy's other entries stay as read |
| Normalize.BuildMatch | championship/public/scripts.js:1480-1536 | the record built: every field defaulted as the code does (id and round truthy), players' bans and selections filled, every other entry of the spread `selections` and `bans` copies kept as read |
| Normalize.NormalizeMatchThrows | championship/public/scripts.js:1472-1537 | normalizeMatch throws exactly for a `null` match, a `null` player entry, or a truthy non-object selection entry |
| Normalize.NormalizeMatchWellFormed | championship/public/scripts.js:1480-1515 | every player has a ban list of at most one entry and a selection with at most three truthy picks; confirmed only with exactly three picks; `confirmedAt` null when unconfirmed; the carried entries belong to non-players only |
| Normalize.BuildMatchWellFormed | championship/public/scripts.js:1480-1536 | the record built from any input is well formed, the carried non-player entries included |
| Normalize.NormalizeKeepsOtherEntries | championship/public/scripts.js:1480-1518 | the stored `selections` and `bans` objects of the result hold every stored key plus one per player; an entry under a non-player's key is the stored one |
| Normalize.NormalizeMatchPhase | championship/public/scripts.js:1529-1533 | a phase outside the six names becomes `waiting`; a known one is kept |
| Normalize.FixDisplay | championship/public/scripts.js:1476 | a further pass replaces a falsy display name by the account id, now a string |
| Normalize.BuildFromFields | championship/public/scripts.js:1472-1537 | the builder gives back a match from any raw value whose fields normalise to the match's own |
| Normalize.NormalizeEncoded | championship/public/scripts.js:1472-1537 | normalising the stored form of a well-formed match gives it back, with display names defaulted |
| Normalize.FixDisplayCanonical | championship/public/scripts.js:1476 | after the display-name fallback a well-formed match is canonical |
| Normalize.NormalizeCanonical | championship/public/scripts.js:1472-1537 | a canonical match is a fixed point of normalisation |
| Normalize.NormalizeStableAfterTwoPasses | championship/public/scripts.js:1472-1537 | a third pass changes nothing, whatever ids the passes draw |
| Normalize.SecondPassFixpoint | championship/public/scripts.js:1472-1537 | a second pass changes nothing exactly when every display name is already stable |
| Normalize.UnnamedPlayerUnstable | championship/public/scripts.js:1474-1476 | a player with falsy display name and falsy non-string id keeps the raw id as display name after one pass |
| Normalize.OnePassNotFixpoint | championship/public/scripts.js:1472-1537 | one pass is not always a fixed point |
| Normalize.FillBansStep | championship/public/scripts.js:1490-1494 | one loop step keeps the ban lists of the visited players filled |
| Normalize.FillSelectionStep | championship/public/scripts.js:1496-1517 | one loop step keeps the selections of the visited players filled and repaired |
| Normalize.FillDone | championship/public/scripts.js:1489-1518 | after all players the loop has built the players' maps of the record, and the unvisited rest of each copy is its non-player entries |
| Normalize.FillEntry | championship/public/scripts.js:1489-1518 | the loop body for one player |
| Normalize.FillEntries | championship/public/scripts.js:1480-1518 | the `forEach` over the spread copies, stopping at the first selection that cannot be repaired; the entries of non-players are left as copied |
| Normalize.NormalizeMatchSteps | championship/public/scripts.js:1472-1537 | normalizeMatch as the code runs it, over the spread copies, equals the specification of its result, with the non-player entries carried |
| Records.NormalizeUser | championship/public/scripts.js:250-260 | each field defaulted as the code does; the role is one of the three names |
| Records.NormalizeUserRoundTrip | championship/public/scripts.js:250-260 | normalising a stored user gives it back exactly when it is canonical |
| Records.NormalizeUserIdempotent | championship/public/scripts.js:250-260 | a user with a truthy id comes out canonical, so a second pass changes nothing |
| Records.StreamLinksFromRaw | championship/public/scripts.js:273-276 | both links are strings, `''` when missing |
| Records.MapPoolFromRaw | championship/public/scripts.js:277-280 | a non-empty stored pool is copied; anything else becomes the default pool |
| Records.NormalizeMatches | championship/public/scripts.js:281-288 | one normalised match per stored match, or the exception of one |
| Records.CreateEmptyMatch | championship/public/scripts.js:293-305 | a waiting match without players, map or bans |
| Records.CreateEmptyMatchNormalized | championship/public/scripts.js:293-305 | the empty match is what normalizeMatch makes of its stored form |
| Records.NormalizeTournament | championship/public/scripts.js:262-291 | the defaulted fields; the single empty match when there is none |
| Records.NormalizeTournamentWellFormed | championship/public/scripts.js:262-291 | a non-empty map pool, at least one match, every match well formed (player entries repaired, other stored entries carried), an unknown status becomes `scheduled` |
| Records.NormalizeTournamentRoundTrip | championship/public/scripts.js:262-291 | normalising a stored canonical tournament gives it back |
| Merge.FindKey | championship/public/scripts.js:222-234 | the position of a key in the insertion-ordered map, or -1 |
| Merge.Values | championship/public/scripts.js:233 | `Array.from(map.values())`: one value per entry, in order |
| Merge.SetKeyKeys | championship/public/scripts.js:229 | `map.set` keeps keys distinct, adds that key only, keeps the order |
| Merge.MergeAllDistinct | championship/public/scripts.js:222-234 | the merged map has distinct keys |
| Merge.MergeAllKeys | championship/public/scripts.js:222-234 | a key is merged exactly when some pair carries it |
| Merge.MergeAllLastWins | championship/public/scripts.js:222-234 | the value kept for a key is the one set last |
| Merge.FindKeyIs | championship/public/scripts.js:222-234 | FindKey finds the first matching position |
| Merge.MergeAllValues | championship/public/scripts.js:222-234 | every merged value is the value of some pair |
| Merge.MergeUserList | championship/public/scripts.js:227-231 | the inner loop of mergeUsers equals the merge of its pairs |
| Merge.MergeUsersSteps | championship/public/scripts.js:222-234 | mergeUsers as the code runs it equals the specification |
| Merge.MergeUsersProperties | championship/public/scripts.js:222-234 | one user per id, each the normalised last stored user with that id, every user with a truthy id present |
| Merge.MergeTournamentsProperties | championship/public/scripts.js:236-248 | distinct ids, each the normalised last stored tournament with that id, each well formed down to its matches' player entries |
| Merge.MergeTournamentList | championship/public/scripts.js:241-245 | the inner loop of mergeTournaments, or the exception of a normalisation |
| Merge.ListTournamentStep | championship/public/scripts.js:241-245 | one more tournament adds its pair or throws |
| Merge.ListTournamentPairsThrow | championship/public/scripts.js:241-245 | an exception on a prefix is an exception of the whole list |
| Merge.MergeTournamentsSteps | championship/public/scripts.js:236-248 | mergeTournaments as the code runs it; any exception aborts the merge |
| Merge.SetPlayers | championship/public/scripts.js:1956-1961 | the inner loop over a match's players |
| Merge.TournamentParticipantsSteps | championship/public/scripts.js:1953-1964 | getTournamentParticipants as the code runs it |
| Merge.TournamentParticipantsProperties | championship/public/scripts.js:1953-1964 | every participant listed once; an account is listed exactly when it plays in some match |
| Merge.KeysAreAccountIds | championship/public/scripts.js:1953-1964 | every participant entry is keyed by its own account id |
| Draft.OpponentIndex | championship/public/scripts.js:1910-1912 | the first player whose account differs, or -1 |
| Draft.Opponent | championship/public/scripts.js:1910-1912 | `getOpponentPlayer`: the first player who is not the given account, if any |
| Draft.RepairSelections | championship/public/scripts.js:1504-1515 | a discarded normalizeMatch still repairs every player's selection in place |
| Draft.RepairSelectionsIdempotent | championship/public/scripts.js:1504-1515 | a second discarded normalisation changes nothing |
| Draft.StripBanned | championship/public/scripts.js:1977 | the kept picks are exactly the unbanned ones, in order |
| Draft.CleanupFor | championship/public/scripts.js:1967-1983 | one visit: opponent picks minus the visitor's bans, unconfirmed when shrunk |
| Draft.CleanupUpTo | championship/public/scripts.js:1966-1984 | the state after the first visits |
| Draft.CleanupUpToProperties | championship/public/scripts.js:1966-1984 | only removals; each visited player's bans are gone from the opponent's picks |
| Draft.CleanupAfterBanProperties | championship/public/scripts.js:1966-1984 | no opponent keeps a banned pick; picks only removed; shrunk selections unconfirmed; others untouched |
| Draft.CleanupUpToIdle | championship/public/scripts.js:1966-1984 | with no collision the cleanup changes nothing |
| Draft.CleanupVisit | championship/public/scripts.js:1967-1983 | the loop body as a method, equal to CleanupFor |
| Draft.CleanupSelectionsAfterBan | championship/public/scripts.js:1966-1984 | the `forEach` as a method, equal to the cleanup specification |
| Draft.CollectBans | championship/public/scripts.js:1239-1250 | ban fields read in order: an unknown id stops everything, empty ones are skipped |
| Draft.CollectBansPasses | championship/public/scripts.js:1245-1248 | accepted exactly when no field holds an unknown id |
| Draft.CollectBansKeepsFields | championship/public/scripts.js:1239-1250 | every non-empty field lands in the list |
| Draft.CollectBansStep | championship/public/scripts.js:1241-1249 | reading one more field skips it or appends it |
| Draft.CollectBansNone | championship/public/scripts.js:1242-1244 | with every field empty nothing is collected |
| Draft.CollectBansFromFields | championship/public/scripts.js:1239-1250 | whatever is collected came from a non-empty field |
| Draft.CollectBanFields | championship/public/scripts.js:1239-1250 | the `for` loop as a method, equal to CollectBans |
| Draft.BanFactions | championship/public/scripts.js:1262 | one faction (or null) per ban |
| Draft.BanProblem | championship/public/scripts.js:1252-1266 | the first failing check: none, duplicate, two of one faction |
| Draft.SubmitBans | championship/public/scripts.js:1239-1287 | the outcome of a ban form: refused with the match untouched, or accepted and applied |
| Draft.SubmitBansRefusals | championship/public/scripts.js:1239-1266 | refused exactly for an unknown id, no ban, a duplicate or two bans of one faction |
| Draft.AfterBansProperties | championship/public/scripts.js:1280-1283 | the accepted list replaces the player's bans; players, other bans and other fields unchanged |
| Draft.AfterBansRespected | championship/public/scripts.js:1282 | after the cleanup no opponent keeps a pick any player banned |
| Draft.AfterBansPhase | championship/public/scripts.js:1285-1287 | with every ban in: `locked` exactly when both selections are locked, else `picking`; before that the phase is kept |
| Draft.BanWarning | championship/public/scripts.js:1269-1278 | the warning key is added only for a short ban list |
| Draft.SubmitBansKeepsOverrides | championship/public/scripts.js:1269-1278 | with one ban per player an accepted form leaves the warning overrides as they were |
| Draft.PickCheck | championship/public/scripts.js:1323-1335 | one id passes exactly when it is in the catalogue, of the selection's faction and not banned by the opponent |
| Draft.PickProblem | championship/public/scripts.js:1322-1336 | the first refused id: unknown, other faction, banned by the opponent |
| Draft.CheckPicks | championship/public/scripts.js:1322-1336 | the `for` loop as a method, equal to PickProblem |
| Draft.SelectionProblem | championship/public/scripts.js:1306-1336 | the checks in order: no faction, not exactly three picks, duplicates, then the per-id checks |
| Draft.SubmitSelection | championship/public/scripts.js:1301-1344 | the outcome of a confirmation; a missing selection throws |
| Draft.SubmitSelectionAccepted | championship/public/scripts.js:1338-1340 | accepted: three distinct picks of the faction, none banned by the opponent, stored and confirmed; nothing else changes |
| Draft.FactionOfLookup | championship/public/scripts.js:1323-1328 | FactionOf agrees with the catalogue entry found |
| Draft.SubmitSelectionPhase | championship/public/scripts.js:1342-1344 | once both selections lock: `locked` with every ban in, else `banning`; before that the phase is kept |
| Draft.EnsurePhase | championship/public/scripts.js:1914-1951 | the phase repair on a looked-up match |
| Draft.EnsurePhaseProperties | championship/public/scripts.js:1914-1951 | `locked` only with every ban and lock in; agrees with the handler rules; only from `map-selected`, `picking`, `banning`; never leaves `locked` |
| Draft.EnsurePhaseSettles | championship/public/scripts.js:1914-1951 | repairing twice is repairing once |
| Draft.PlayerIndex | championship/public/scripts.js:1185 | the first player with that account, or -1 |
| Draft.MarkReady | championship/public/scripts.js:1185-1191 | `None` for a stranger or a ready player; otherwise exactly that player becomes ready at the given time |
| Draft.PoolOf | championship/public/scripts.js:1214 | the tournament's pool when non-empty, else the default pool |
| Draft.ReadyUp | championship/public/scripts.js:1179-1218 | handlePlayerReady on one match, the draw included |
| Draft.ReadyUpProperties | championship/public/scripts.js:1185-1218 | nothing changes for a stranger or a repeat; else `waiting` becomes `ready-check`; once all are ready an unset map is drawn from the pool with phase `map-selected` and status `live`; a set map stays |
| Draft.RevealMap | championship/public/scripts.js:1220-1221 | the timer sets `picking` whatever the phase is by then |
| Draft.ReadyUpRelevance | championship/public/scripts.js:2035-2040 | drawing the map makes the tournament relevant to viewers |
| Draft.ChangeFactionProperties | championship/public/scripts.js:1150-1158 | a faction change clears the picks and the confirmation |
| Draft.PickSlot | championship/public/scripts.js:1161-1164 | the slot index, refused when NaN or negative |
| Draft.EditSlot | championship/public/scripts.js:1165-1171 | the slot written, the array grown with empty strings, cut to three |
| Draft.FilterTruthyPadded | championship/public/scripts.js:1168-1171 | empty padding after the picks is dropped by the filter |
| Draft.EditSlotPicks | championship/public/scripts.js:1160-1176 | the picks an edit leaves once repaired |
| Draft.ChangePickProperties | championship/public/scripts.js:1160-1176 | an edit unconfirms; a chosen id in slots one to three is kept; replacing a pick keeps the others |
| ClientState.FindUserIndex | championship/public/scripts.js:1614-1617 | the first user whose id matches ignoring ASCII letter case, or -1 |
| ClientState.FindUser | championship/public/scripts.js:1836-1840 | `findUser`: the first user matching ignoring ASCII letter case, if any |
| ClientState.UpsertedProperties | championship/public/scripts.js:1606-1623 | replaces the entry of the same account or appends; no duplicates under the ASCII fold; findUser then finds it |
| ClientState.IndexWhere | championship/public/scripts.js:1888-1908 | the first index satisfying the test, or -1 |
| ClientState.Search | championship/public/scripts.js:1888-1908 | the first match, in reading order, that satisfies the test |
| ClientState.SearchedUnique | championship/public/scripts.js:1888-1908 | that first hit is unique |
| ClientState.FirstMatchId | championship/public/scripts.js:1899-1908 | the id of the first match the account plays in, else null |
| ClientState.SetMatch | championship/public/scripts.js:1866-1886 | the list with one match replaced |
| ClientState.ActiveLocation | championship/public/scripts.js:1866-1878 | where the active match is looked up |
| ClientState.Refresh | championship/public/scripts.js:1879-1880 | the discarded normalizeMatch and the phase repair on the match found |
| ClientState.AfterLookup | championship/public/scripts.js:1866-1886 | the tournaments after the lookup |
| ClientState.LookupEntry | championship/public/scripts.js:1866-1886 | the match and the player's slot |
| ClientState.LookupEntryIsOwnMatch | championship/public/scripts.js:1866-1886 | found only for a player, in a match the player plays in |
| ClientState.AfterLookupOnlyAt | championship/public/scripts.js:1866-1886 | the lookup changes at most the match it looks up |
| ClientState.EntryEditOnlyAt | championship/public/scripts.js:1232-1349 | a write-back at the entry changes only the active match |
| ClientState.BanSubmittedOnlyAt | championship/public/scripts.js:1232-1292 | handleBanSubmit changes nothing but the active match |
| ClientState.SelectionSubmittedOnlyAt | championship/public/scripts.js:1294-1349 | handleSelectionSubmit changes nothing but the active match |
| ClientState.FlowChangedOnlyAt | championship/public/scripts.js:1134-1177 | a flow change changes nothing but the active match |
| ClientState.BanSubmittedKeepsOverrides | championship/public/scripts.js:1269-1278 | handleBanSubmit never records a warning override |
| ClientState.FindFirst | championship/public/scripts.js:1888-1908 | the nested loops equal Search |
| ClientState.FindMatchEntry | championship/public/scripts.js:1888-1897 | `findMatchEntry` equals the first match with that id |
| ClientState.FindFirstMatchId | championship/public/scripts.js:1899-1908 | `findFirstMatchId` equals FirstMatchId |
| ClientState.ActiveMatchEntry | championship/public/scripts.js:1866-1886 | the lookup as a method; it repairs the match found even when the player check fails |
| ClientState.SubmitBansSteps | championship/public/scripts.js:1239-1287 | the ban handler body equals SubmitBans |
| ClientState.SubmitBansAt | championship/public/scripts.js:1239-1287 | the accepted match is written back at the entry |
| ClientState.BanSubmit | championship/public/scripts.js:1232-1292 | handleBanSubmit on the state it reads and writes |
| ClientState.SubmitSelectionSteps | championship/public/scripts.js:1301-1344 | the confirmation body equals SubmitSelection |
| ClientState.SelectionSubmit | championship/public/scripts.js:1294-1349 | handleSelectionSubmit on the state; it throws when the user has no selection |
| ClientState.FlowEditSteps | championship/public/scripts.js:1150-1176 | the flow-change body equals the edit rules |
| ClientState.FlowChange | championship/public/scripts.js:1134-1177 | handlePlayerMatchFlowChange on the state |
| ClientState.PlayerReady | championship/public/scripts.js:1179-1218 | handlePlayerReady on the tournaments, equal to ReadyUp at the found entry |
| ClientState.DraftClient.GetActiveMatchEntry | championship/public/scripts.js:1866-1886 | the tournaments become the looked-up state; the entry is returned |
| ClientState.DraftClient.HandleBanSubmit | championship/public/scripts.js:1232-1292 | the state becomes BanSubmit's |
| ClientState.DraftClient.HandleSelectionSubmit | championship/public/scripts.js:1294-1349 | the state becomes SelectionSubmit's |
| ClientState.DraftClient.HandleFlowChange | championship/public/scripts.js:1134-1177 | the state becomes FlowChange's |
| ClientState.DraftClient.HandlePlayerReady | championship/public/scripts.js:1179-1208 | the state becomes PlayerReady's |
| ClientState.DraftClient.RevealMapTimer | championship/public/scripts.js:1220-1225 | the timer sets `picking` on the match at that position; nothing else changes |
| ClientState.DraftClient.UpsertUserList | championship/public/scripts.js:1606-1623 | the user list becomes the upserted one |
| Broadcast.SortByKey | championship/public/broadcast.js:133-144 | a stable sort of a copy: a permutation, ordered by key |
| Broadcast.FirstMin | championship/public/broadcast.js:133-144 | the index of the first element with minimal key |
| Broadcast.FirstMinIsFirstMinimal | championship/public/broadcast.js:133-144 | that element's key is at most every other and below every earlier one |
| Broadcast.SortHeadIsFirstMin | championship/public/broadcast.js:133-144 | the stable sort puts the first minimal element first |
| Broadcast.SortedFirst | championship/public/broadcast.js:144 | `[...xs].sort(compare)[0]`, if any |
| Broadcast.SortedFirstProperties | championship/public/broadcast.js:133-144 | the head is an element of the list with minimal key, before every other element with that key |
| Broadcast.PickDefaultTournamentProperties | championship/public/broadcast.js:131-145 | none exactly for an empty list; else a list element of least status priority (live, scheduled, completed, other), then earliest start |
| Broadcast.PickDefaultMatchProperties | championship/public/broadcast.js:147-161 | none exactly without matches; else one of least phase priority (picking first, unknown 99), then earliest schedule |
| Broadcast.LiveTournamentWins | championship/public/broadcast.js:131-145 | a live tournament is chosen whenever the list holds one |
| Broadcast.PickingMatchWins | championship/public/broadcast.js:147-161 | a match in picking is chosen whenever the tournament holds one |
| Broadcast.ChosenMatchIdStable | championship/public/broadcast.js:121-128 | with plain match ids the chosen match is found again by its own id |
| Broadcast.MissingStartTimeLast | championship/public/broadcast.js:137-142 | a missing start time sorts after any earlier start |
| Broadcast.FindTournament | championship/public/broadcast.js:112 | the first tournament with that id |
| Broadcast.FindMatch | championship/public/broadcast.js:122 | the first match with that id |
| Broadcast.KeptTournamentId | championship/public/broadcast.js:109-119 | the selection survives while its id is present, else the default; no tournament nulls both ids |
| Broadcast.KeptMatchId | championship/public/broadcast.js:121-126 | the match survives while its id is present, else the tournament's default |
| Broadcast.ChosenTournamentIn | championship/public/broadcast.js:109-129 | the chosen tournament comes from the list |
| Broadcast.ChosenMatchIn | championship/public/broadcast.js:121-128 | the chosen match comes from the chosen tournament |
| Broadcast.ChosenTournamentIdStable | championship/public/broadcast.js:109-129 | a second `ensureSelection` keeps the tournament id |
| Broadcast.ChosenIdsStable | championship/public/broadcast.js:109-129 | with distinct ids it keeps the match id too |
| Broadcast.NormalizeTournamentList | championship/public/broadcast.js:103-107 | a non-array is empty; one normalised tournament per element |
| Broadcast.RealtimeData | championship/public/broadcast.js:414-429 | empty, unparsable and non-object payloads and other types are ignored; `tournaments` gives its data |
| Broadcast.ReadyCount | championship/public/broadcast.js:328-334 | the truthy picks of a confirmed selection, 0 otherwise |
| Broadcast.ReadyCountRepaired | championship/public/broadcast.js:328-334 | on a normalised selection: three once confirmed, none before |
| Broadcast.BroadcastView.EnsureSelection | championship/public/broadcast.js:109-129 | the ids become those of the chosen tournament and match |
| Broadcast.BroadcastView.ApplyTournamentData | championship/public/broadcast.js:97-101 | the list normalised, the selection ensured, the time recorded; a throwing normalisation leaves the state |
| Broadcast.BroadcastView.HandleRealtime | championship/public/broadcast.js:414-429 | only a `tournaments` message applies its data |
| Broadcast.BroadcastView.HandleTournamentChange | championship/public/broadcast.js:431-435 | the chosen id (null for empty) is stored and the match id reset to null |
| Broadcast.BroadcastView.HandleMatchChange | championship/public/broadcast.js:437-440 | the chosen match id is stored, null for empty |
| Broadcast.TournamentChangeShowsDefaultMatch | championship/public/broadcast.js:431-435 | after a change the match shown is the new tournament's default |
| Broadcast.FallbackPlayers | championship/public/broadcast.js:475-482 | one player per entry with string id and defaults; a null entry throws |
| Broadcast.FillForKeys | championship/public/broadcast.js:490-505 | a step adds the player's key to both maps and no other |
| Broadcast.FillUpToFilled | championship/public/broadcast.js:490-505 | every player ends with a ban array and a selection with array picks |
| Broadcast.FillUpToOthers | championship/public/broadcast.js:490-505 | selections of non-players stay as they were |
| Broadcast.FillUpToKeys | championship/public/broadcast.js:490-505 | no key but a player's is added |
| Broadcast.FillUpToKeepsBans | championship/public/broadcast.js:491-493 | ban arrays already present are kept |
| Broadcast.FillPlayerDefaults | championship/public/broadcast.js:490-505 | the `forEach` as a method, equal to the fill specification |
| Broadcast.NormalizeMatchFallback | championship/public/broadcast.js:474-518 | the fallback record with every field defaulted |
| Broadcast.NormalizeMatchFallbackProperties | championship/public/broadcast.js:490-514 | every player has a ban array and a selection; a missing phase becomes `waiting` |
| Broadcast.FallbackKeepsUnknownPhase | championship/public/broadcast.js:514 | an unknown phase string is kept |
| Status.Decompose | championship/server/discordBot.js:19-25 | d, h, m, s with s, m below 60, h below 24, summing back to the total |
| Status.DecomposeUnique | championship/server/discordBot.js:19-25 | that decomposition is the only one with those bounds |
| Status.FirstShown | championship/server/discordBot.js:27-31 | the first unit shown is the largest non-zero one, seconds when all are zero |
| Status.UptimeParts | championship/server/discordBot.js:27-32 | a unit is pushed when non-zero or a larger one was; seconds always |
| Status.UptimePartsShape | championship/server/discordBot.js:27-32 | seconds last and always; days only when non-zero; hours and minutes when they or a larger unit are non-zero |
| Status.Slot | championship/server/discordBot.js:241 | the counter named by a key, or -1 |
| Status.Tally | championship/server/discordBot.js:241-245 | one count step, with inherited names answering `!= null` |
| Status.TallyEffect | championship/server/discordBot.js:241-245 | adds one to the named counter, or to `other` when no counter or inherited name matches, and nothing else |
| Status.Count | championship/server/discordBot.js:239-257 | the counters after tallying every element |
| Status.TallySum | championship/server/discordBot.js:241-245 | a tally adds one to the total except on an inherited name |
| Status.CountSum | championship/server/discordBot.js:239-257 | every element is counted once unless its key is an inherited name |
| Status.NoneMissed | championship/server/discordBot.js:239-257 | without inherited names nothing is missed |
| Status.TournamentStats | championship/server/discordBot.js:216-278 | a failed read gives `ok: false`, zero counts and null maps; otherwise one counter per key and the sizes |
| Status.CountsAddUp | championship/server/discordBot.js:239-257 | with own-property lookups the status counters sum to the tournaments and the phase counters to the matches |
| Status.CountsAsWritten | championship/server/discordBot.js:239-257 | as written, a tournament whose status is an inherited name is missing from the sum |
| Status.InheritedStatusUncounted | championship/server/discordBot.js:240-245 | a tournament with status `toString` is counted as a tournament but in no counter |
| Status.InheritedKeyIgnored | championship/server/discordBot.js:241-245 | an inherited key leaves the counters alone |
| Status.DefaultKeys | championship/server/discordBot.js:240-250 | a missing status counts as `scheduled`, a missing phase as `waiting` |
| Status.GetTournamentStats | championship/server/discordBot.js:216-278 | the nested loops equal TournamentStats as written |
| Status.CountPhases | championship/server/discordBot.js:249-256 | the inner loop continues the phase counters, or stops at a null match |
| Status.ThrowsWithin | championship/server/discordBot.js:240 | a null tournament makes the read throw |
| Status.ThrowsOnMatch | championship/server/discordBot.js:250 | a null match makes the read throw |
| Status.OverallOkCases | championship/server/discordBot.js:282 | off GCP with the file backend only the tournament read decides; a bad bucket always fails |
| Status.StoragePrefix | championship/server/discordBot.js:156 | no leading or trailing slash; empty becomes null |
| Status.LastSegment | championship/server/discordBot.js:116-117 | the text after the last `/`, which holds none |
| Status.LastOfJoin | championship/server/discordBot.js:116-117 | the last part of a join is the last segment |
| Status.MetadataName | championship/server/discordBot.js:116-117 | null for a missing path, else the last segment |
| DataStore.StripBom | championship/server/services/dataStore.js:37-42 | `''` for a non-string; at most one leading U+FEFF removed, the rest unchanged |
| DataStore.StripBomOnce | championship/server/services/dataStore.js:41 | a second mark stays |
| DataStore.TrimAfterStripBom | championship/server/services/dataStore.js:60 | stripping first never changes the trimmed text |
| DataStore.ParseJsonContent | championship/server/services/dataStore.js:59-74 | the fallback for blank text and for non-container JSON; a parse error throws |
| DataStore.ScalarGivesFallback | championship/server/services/dataStore.js:70-73 | a parsed scalar gives the fallback |
| DataStore.ObjectPrefix | championship/server/services/dataStore.js:16 | no leading or trailing slash |
| DataStore.Segment | championship/server/services/dataStore.js:52 | backslashes become `/`, leading slashes go |
| DataStore.ResolveObjectName | championship/server/services/dataStore.js:44-57 | the bare prefix for an empty name; `prefix/name` with a prefix; the name alone without |
| DataStore.ObjectNameClean | championship/server/services/dataStore.js:44-57 | no backslash and no leading slash in any object name |
| DataStore.PublicUser | championship/server/services/dataStore.js:152-155 | every field but `password`; `{}` for a falsy user |
| DataStore.Notify | championship/server/services/dataStore.js:157-167 | `users` with public users, `tournaments`, nothing for other paths; non-arrays sent as `[]` |
| DataStore.UsersEventHasNoPasswords | championship/server/services/dataStore.js:158-161 | a `users` event never carries a password |
| DataStore.DiskStore.WriteJsonFile | championship/server/services/dataStore.js:116-123 | the file is written, then the event appended; a failed write throws and changes nothing |
| DataStore.DiskStore.ReadJsonFile | championship/server/services/dataStore.js:83-96 | a missing file writes and returns the fallback; another error is rethrown; else the parsed content |
| Passwords.Hex | championship/server/services/passwords.js:14-15 | two lower-case digits per byte |
| Passwords.HexValue | championship/server/services/passwords.js:30-31 | the value of one hex digit, either case |
| Passwords.HexDecode | championship/server/services/passwords.js:30-31 | digit pairs decoded up to the first bad pair |
| Passwords.HexRoundTrip | championship/server/services/passwords.js:14-31 | decoding the hex of bytes gives them back |
| Passwords.HashPassword | championship/server/services/passwords.js:12-16 | `s2$`, salt hex, `$`, key hex |
| Passwords.HashLength | championship/server/services/passwords.js:12-16 | with an honest scrypt: 32 salt digits and 128 key digits |
| Passwords.TimingSafeEqual | championship/server/services/passwords.js:26-33 | equal lengths compare bytes; different lengths throw |
| Passwords.VerifyPassword | championship/server/services/passwords.js:18-34 | false for falsy or non-string; legacy compares bytes; empty salt or key false; else compare scrypt |
| Passwords.VerifyOwnHash | championship/server/services/passwords.js:14-33 | a password verifies against its own hash |
| Passwords.SplitStored | championship/server/services/passwords.js:28-29 | a stored value splits into scheme, salt and key |
| Passwords.LegacyIsExactMatch | championship/server/services/passwords.js:20-27 | a legacy value verifies exactly the passwords with the same bytes |
| Passwords.EmptyKeyVerifiesAnything | championship/server/services/passwords.js:28-33 | a key segment that decodes to no bytes verifies every password |
| Cookies.CookiePair | championship/server/utils/cookies.js:7-11 | a part split at its first `=`, both trimmed; none without `=` |
| Cookies.CookieJar | championship/server/utils/cookies.js:3-15 | no header gives `{}`; else the reduce over the parts |
| Cookies.CookieKeys | championship/server/utils/cookies.js:6-12 | a key is present exactly when some part carries it |
| Cookies.LaterCookieWins | championship/server/utils/cookies.js:11 | the last part carrying a key wins |
| Cookies.ParseCookies | championship/server/utils/cookies.js:3-15 | the method equals CookieJar |
| Cookies.ReducePairs | championship/server/utils/cookies.js:6-14 | the reduce loop equals the reduce specification |
| Cookies.ThrowsPersist | championship/server/utils/cookies.js:11 | once a decode throws the reduce throws |
| Cookies.TokenFromRequest | championship/server/utils/cookies.js:17-24 | the trimmed rest of `Bearer `; else the `token` cookie; else null |
| Cookies.AuthCookieFormat | championship/server/utils/cookies.js:26-37 | `token=<enc>; Path=/; HttpOnly; SameSite=Lax`, `; Secure` only in production |
| Cookies.ClearedCookieFormat | championship/server/utils/cookies.js:39-50 | an empty value, ending with `Max-Age=0` |
| Cookies.SplitPair | championship/server/utils/cookies.js:7-10 | `name=value` splits back into its parts |
| Cookies.SingleTokenCookie | championship/server/utils/cookies.js:3-24 | a header of just `token=v` yields v |
| Cookies.AuthCookieRoundTrip | championship/server/utils/cookies.js:17-37 | the issued cookie sent back yields the token |
| Cookies.ClearedCookieYieldsNoToken | championship/server/utils/cookies.js:17-50 | the cleared cookie yields no token |
| Cookies.BearerWins | championship/server/utils/cookies.js:18-20 | the bearer header wins over the cookie |
| Cookies.LowercaseBearerIgnored | championship/server/utils/cookies.js:18-23 | `bearer x` is not a bearer header |
| Text.SanitizeString | championship/server/utils/text.js:1-6 | `''` for a non-string; the trim of a string |
| Text.LeadingDigits | championship/server/utils/text.js:9 | the longest run of leading digits |
| Text.ParseInt | championship/server/utils/text.js:9 | `parseInt` base 10; NaN without digits |
| Text.ParsePositiveInteger | championship/server/utils/text.js:8-11 | the leading integer when above zero, else null |
| Text.ParseIntOfIntToString | championship/server/utils/text.js:9 | printing then parsing an integer gives it back |
| Text.ParsePositiveIntegerRefusesNonPositive | championship/server/utils/text.js:10 | zero and negatives are refused |
| UsersRoute.ReadForm | championship/server/routes/users.js:23-32 | role `player` only for exactly `player`; display name defaults to the id; rank for players only, `언랭크` by default |
| UsersRoute.UserRecordFields | championship/server/routes/users.js:53-61 | the record stores the hash and the id |
| UsersRoute.AccountKey | championship/server/routes/users.js:46 | the id with ASCII letters lower-cased; a non-string id throws |
| UsersRoute.AnyAccountIs | championship/server/routes/users.js:45-47 | false exactly when every id differs ignoring ASCII letter case; true only with a match |
| UsersRoute.Register | championship/server/routes/users.js:22-73 | 400 for missing fields, 403 for `admin`, 409 for a duplicate, 500 on errors; else append one user and 201 |
| UsersRoute.RefusedBeforeRead | championship/server/routes/users.js:34-39 | a refused body gets the same answer whatever the store holds |
| UsersRoute.CreatedUser | championship/server/routes/users.js:52-68 | one user appended with the hashed password; the 201 body has every field but the password |
| UsersRoute.RegistrationKeepsAccountsDistinct | championship/server/routes/users.js:37-64 | ids stay distinct ignoring ASCII letter case; no `admin` is added |
| UsersRoute.PostUsers | championship/server/routes/users.js:22-73 | the answer and the store follow Register; a failed write answers 500 and changes nothing |
| AuthRoute.IsAccount | championship/server/routes/auth.js:30-32 | a match ignoring ASCII letter case; nullish entries and non-string truthy ids throw |
| AuthRoute.FindAccount | championship/server/routes/auth.js:28-33 | the first entry that is the account, or null |
| AuthRoute.FindAccountIgnoresCase | championship/server/routes/auth.js:30-33 | the lookup ignores ASCII letter case |
| AuthRoute.Payload | championship/server/routes/auth.js:50-54 | the token payload `{sub, role, displayName}` |
| AuthRoute.Profile | championship/server/routes/auth.js:59-63 | the body `{accountId, role, displayName}` |
| AuthRoute.LogIn | championship/server/routes/auth.js:16-70 | 400 before any read; 401 for an unknown account or wrong password; else the token, the cookie and the profile; 500 on errors |
| AuthRoute.LogOut | championship/server/routes/auth.js:72-76 | 204 with the clearing cookie |
| AuthRoute.Me | championship/server/routes/auth.js:78-98 | null without a usable token; else the payload's claims |
| AuthRoute.FailuresLookAlike | championship/server/routes/auth.js:35-48 | an unknown account and a wrong password get the same answer |
| AuthRoute.FindAfter | championship/server/routes/auth.js:30-33 | the first matching entry after non-matching ones is found |
| AuthRoute.RegisteredUserCanLogIn | championship/server/routes/auth.js:28-63 | an account just registered signs in under any ASCII letter case |
| AuthRoute.SignInThenMe | championship/server/routes/auth.js:50-97 | the cookie of a sign-in lets `/me` answer with the same profile |
| AuthRequired.Decide | championship/server/middleware/authRequired.js:6-18 | 401 without a token or with an invalid one; 403 on a role mismatch; `next` otherwise |
| AuthRequired.DefaultRoleAdmitsAnyValidToken | championship/server/middleware/authRequired.js:4-18 | with the null role every verified token passes |
| AuthRequired.RoleMustMatch | championship/server/middleware/authRequired.js:15-17 | a required role passes exactly when the payload's role is that string |
| AuthRequired.Guard | championship/server/middleware/authRequired.js:4-20 | the verdict of Decide; `req.user` set to the payload before the role check; a bad cookie throws |
| EnvFile.KeptLines | championship/web.js:12-15 | kept lines are trimmed, not blank and not comments |
| EnvFile.LinesKept | championship/web.js:12-15 | every such line is kept |
| EnvFile.EntryOf | championship/web.js:17-22 | none exactly without `=`; the trimmed key before the first `=` and the trimmed rest |
| EnvFile.EntryOfPair | championship/web.js:17-22 | later `=` characters stay in the value |
| EnvFile.Entries | championship/web.js:16-22 | one entry per kept line |
| EnvFile.MergedKeepsExisting | championship/web.js:23-25 | an existing variable is never overwritten; a new one comes from an entry with a non-empty key |
| EnvFile.FirstDuplicateWins | championship/web.js:23-25 | among duplicates the first wins |
| EnvFile.NotYetSet | championship/web.js:23-25 | a key no entry names stays unset |
| EnvFile.Environment.LoadEnv | championship/web.js:5-33 | a missing file changes nothing; else the merge of the file's entries |
| EnvFile.Environment.SetAll | championship/web.js:16-26 | the loop equals Merged |
| Logger.LabelOfName | championship/server/utils/logger.js:18 | the label is the name in capitals |
| Logger.PrioritiesUpTo | championship/server/utils/logger.js:2-5 | the reduce maps each name to its index |
| Logger.PrioritiesAreIndices | championship/server/utils/logger.js:2-5 | with distinct names each priority is the index |
| Logger.Priority | championship/server/utils/logger.js:1-5 | debug 0, info 1, warn 2, error 3 |
| Logger.ActiveLevel | championship/server/utils/logger.js:7-9 | the lower-cased level when it names one, else `debug` |
| Logger.ActiveLevelIgnoresCase | championship/server/utils/logger.js:7-9 | LOG_LEVEL is matched ignoring case |
| Logger.GateMonotone | championship/server/utils/logger.js:11-14 | all pass at `debug`, only errors at `error`, a higher level lets fewer through |
| Logger.LogLine | championship/server/utils/logger.js:11-18 | dropped below the active priority; else `[ts] [LEVEL] message` and JSON meta when given |
| RequestLogger.AddressCandidates | championship/server/middleware/requestLogger.js:8-12 | the fallbacks in order |
| RequestLogger.ClientIp | championship/server/middleware/requestLogger.js:3-15 | the trimmed first forwarded entry; else the first truthy fallback; else null |
| RequestLogger.RequestLogger | championship/server/middleware/requestLogger.js:17-43 | the incoming record, the pending start and one `next()` call |
| RequestLogger.Completed | championship/server/middleware/requestLogger.js:31-40 | the completion record with duration finish minus start |
| RequestLogger.CompletionMatchesIncoming | championship/server/middleware/requestLogger.js:23-40 | both records show the same address and request line |
| RequestLogger.ForwardedFirstEntry | championship/server/middleware/requestLogger.js:4-7 | a forwarded list yields its trimmed first entry |
| Bootstrap.AdminRecord | championship/server/bootstrap.js:13-22 | the seeded admin: id `admin`, role `admin`, `Broadcast Admin`, the hashed password |
| Bootstrap.IsAdmin | championship/server/bootstrap.js:11 | true exactly for an id that is `admin` ignoring case; a nullish user or non-string id throws |
| Bootstrap.HasAdmin | championship/server/bootstrap.js:11 | false exactly when no entry is admin; true only with one |
| Bootstrap.HasAdminAppend | championship/server/bootstrap.js:11 | a list without admin answers for the entry appended |
| Bootstrap.HasAdminPointwise | championship/server/bootstrap.js:11 | the search depends only on each entry's answer |
| Bootstrap.NeedsMigration | championship/server/bootstrap.js:27-28 | a truthy string password outside `s2$`; a nullish user throws |
| Bootstrap.Migrated | championship/server/bootstrap.js:27-31 | the password hashed when needed; all other fields untouched |
| Bootstrap.MigrateAll | championship/server/bootstrap.js:26-32 | the migrated list and flag, or a TypeError |
| Bootstrap.MigrateAllPointwise | championship/server/bootstrap.js:26-32 | succeeds exactly without nullish users; each migrated alone; the flag says whether any needed it |
| Bootstrap.NothingToMigrate | championship/server/bootstrap.js:26-32 | nothing to migrate leaves the list and the flag down |
| Bootstrap.MigrationSettles | championship/server/bootstrap.js:26-32 | with a hash in the scheme no password is left outside it, and migrating again changes nothing |
| Bootstrap.MigratePasswords | championship/server/bootstrap.js:26-32 | the loop equals MigrateAll |
| Bootstrap.AdminSeededWhenMissing | championship/server/bootstrap.js:11-24 | one admin appended exactly when none exists; the users keep their order |
| Bootstrap.SeededAdminRecord | championship/server/bootstrap.js:12-24 | the seeded admin keeps the hash of ADMIN_PASSWORD |
| Bootstrap.MigratedKeepsId | championship/server/bootstrap.js:27-31 | the migration leaves the id alone |
| Bootstrap.MigrationKeepsAdmin | championship/server/bootstrap.js:11-32 | migration keeps every answer of the admin search |
| Bootstrap.WrittenHasAdmin | championship/server/bootstrap.js:11-36 | the written list has an admin |
| Bootstrap.BootstrapSettles | championship/server/bootstrap.js:6-40 | after a write a second run writes nothing |
| Bootstrap.PlanThrows | championship/server/bootstrap.js:8-32 | only a failed read or a throwing entry ends in the warning |
| Bootstrap.Run | championship/server/bootstrap.js:6-40 | writes only when the admin was added or a password migrated; errors only give the warning |

## Left out

- DOM rendering, HTML templates, toasts, modals and `Intl` formatting.
  These are presentation. Only the data the handlers change is modelled.
- The five-second `setTimeout` in `beginMapSelection` is a separate step,
  `DraftClient.RevealMapTimer`, not a timer.
- These are parameters: `Math.random`, `Date.now`, ISO timestamps and
  generated ids. The map draw is a chosen pool index, times are integers
  and ids are given suffixes.
- `fetch`, EventSource, `localStorage` and the whole-collection sync are
  I/O. Racing clients are concurrency, which the model does not cover.
- The GCS backend, `readJsonFromStorage` and `writeJsonToStorage` are out.
  Only the disk store is modelled, as a map from path to text.
- These are function parameters: JSON.parse and JSON.stringify,
  `decodeURIComponent` and `encodeURIComponent`, JWT signing and
  verification, scrypt, and UTF-8 encoding. Lone surrogates and JSON's
  dropping of `undefined` fields are therefore not modelled.
- Normalize.NormalizeEncoded: the stored form of a match is its own
  encoding, not the output of JSON.stringify.
- `randomBytes`: the salt is a parameter. In `Bootstrap`, `hash` is a
  total function from password to stored value, so a salt fixed per call
  is not modelled.
- The result of `readJsonFile` is a parameter of the users route, the
  auth routes, bootstrap and the status counter. A read never interleaves
  with other writes.
- The `.env` content is a parameter. `None` stands for a missing or
  unreadable file.
- `GET /users` is not modelled. It only maps `publicUser` over the read,
  and publicUser's contract is stated.
- JavaScript numbers, with NaN and floating point, are out:
  - Uptime takes a whole number of seconds, so `Math.floor` of a fraction
    is out.
  - Dates are integers or absent, so a NaN `getTime()` comparison is out.
- Array holes are out. An edited pick slot beyond the end is padded with
  empty strings, which the filter drops in the same way.
- Object identity and aliasing are out. The in-place effect of a
  discarded `normalizeMatch` is modelled as its result, `RepairSelections`.
- `normalizeTournamentFallback` is out. The broadcast page uses it only
  when the shared `normalizeTournament` is missing, and the model takes
  the shared one (`Records.NormalizeTournament`).
- Logger.ActiveLevel: a LOG_LEVEL equal to an inherited name such as
  `constructor` is treated as unknown, not as its inherited value.
- Logger.LogLine: a `meta` that is not an object is not spread into the
  payload.
- The Discord client, GCP metadata requests, bucket calls and
  `process.memoryUsage` are out. Their answers are parameters where the
  status rules need them.
- Server wiring is out as a thin layer: the SSE route, `index.js`,
  `config.js` and `routes/tournaments.js`.
- `createUserAccount`, tournament creation, result submission and status
  updates in the client are out. They only build records and call the
  storage and network functions above.
- Strings.ToLower: only ASCII `A`-`Z` are lower-cased (`Strings.ToLower`), where JavaScript's `toLowerCase` folds every Unicode letter, so ids that differ only in the case of a non-ASCII letter (`Ä` and `ä`) are different accounts here and the same account in the code. The members below inherit this.
- ClientState.FindUserIndex: compares ids under that ASCII-only fold, so a duplicate or a sign-in that differs only in non-ASCII letter case is missed.
- ClientState.FindUser: compares ids under that ASCII-only fold, so a duplicate or a sign-in that differs only in non-ASCII letter case is missed.
- ClientState.UpsertedProperties: compares ids under that ASCII-only fold, so a duplicate or a sign-in that differs only in non-ASCII letter case is missed.
- ClientState.DraftClient.UpsertUserList: compares ids under that ASCII-only fold, so a duplicate or a sign-in that differs only in non-ASCII letter case is missed.
- UsersRoute.AccountKey: compares ids under that ASCII-only fold, so a duplicate or a sign-in that differs only in non-ASCII letter case is missed.
- UsersRoute.AnyAccountIs: compares ids under that ASCII-only fold, so a duplicate or a sign-in that differs only in non-ASCII letter case is missed.
- UsersRoute.Register: compares ids under that ASCII-only fold, so a duplicate or a sign-in that differs only in non-ASCII letter case is missed.
- UsersRoute.RegistrationKeepsAccountsDistinct: compares ids under that ASCII-only fold, so a duplicate or a sign-in that differs only in non-ASCII letter case is missed.
- UsersRoute.PostUsers: compares ids under that ASCII-only fold, so a duplicate or a sign-in that differs only in non-ASCII letter case is missed.
- AuthRoute.IsAccount: compares ids under that ASCII-only fold, so a duplicate or a sign-in that differs only in non-ASCII letter case is missed.
- AuthRoute.FindAccount: compares ids under that ASCII-only fold, so a duplicate or a sign-in that differs only in non-ASCII letter case is missed.
- AuthRoute.FindAccountIgnoresCase: compares ids under that ASCII-only fold, so a duplicate or a sign-in that differs only in non-ASCII letter case is missed.
- AuthRoute.LogIn: compares ids under that ASCII-only fold, so a duplicate or a sign-in that differs only in non-ASCII letter case is missed.
- AuthRoute.RegisteredUserCanLogIn: compares ids under that ASCII-only fold, so a duplicate or a sign-in that differs only in non-ASCII letter case is missed.
- Js.Spread: an array or a string contributes no index keys to `{ ...v }` or to an object rest, where JavaScript copies `"0"`, `"1"`, and so on. The members below inherit this.
- DataStore.PublicUser: a stored user that is an array or a string gives `{}`, not its index keys.
- Broadcast.CopiedEntries: an array stored as `selections` or `bans` gives `{}`, not its index keys.
- Normalize.BuildMatch: an array stored as `selections` or `bans` is copied without its index keys, so those entries are not carried.
- Normalize.SelectionsOf: an account id that names an inherited property (`constructor`, `toString`) reads nothing here and gets the default selection; the code reads the inherited function, which is truthy, and repairs and stores that.
- Status.TournamentStats: a read that throws inside the counting loop reports the fixed message `TypeError` (`Wrappers.TypeError`), not the engine's own error text that `error?.message` gives.

## Findings

| source | as written | input that shows it | evidently intended | confidence | as-written member | corrected member |
|---|---|---|---|---|---|---|
| championship/server/discordBot.js:239-256 | `statusCounts[status] != null` also holds for names every object inherits, so no counter is bumped | a tournament with `status: "toString"`: one tournament, counters summing to 0 | the counters add up to the number of tournaments (and the phase counters to the matches), an unknown status counting as `other` | not executed | Status.InheritedStatusUncounted | Status.CountsAddUp |
