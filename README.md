# stars-picks-backend core, modelled in Dafny

The system is a pick'em game for the Dallas Stars' games. Users predict the
player who scores the Stars' first goal and the player who scores the
game-winning goal (GWG). They earn points once the game is final.

This project models four parts of it:

- **Game-result derivation** (`src/cron/fetchGameResults.js`), in module `GameResults`:
  - the goal plays of a play-by-play payload, ordered by `sortOrder`;
  - the first goal of the Stars;
  - the GWG, found by the "loser's final + 1" rule, with the shootout override to the goalie with external id 8479979;
  - the final-score text and the winner;
  - the external-to-internal player id translation;
  - the skip rules and the write guard of `processSingleGame`.
- **The play-by-play client** (`nhlGamePlayByPlay`, same file), in module `FetchClient`: the backoff on 429 responses and the retry bound.
- **The leaderboard** (`getLeaderboard` in `src/controllers/leaderboardController.js`), in module `Leaderboard`:
  - 3/1/0 points per counted pick;
  - per-user totals;
  - the points of each user's last game;
  - the table sorted by total points, highest first.
- **Default-pick generation** (`src/cron/defaultPicks.js`), in module `DefaultPicks`: the games × users candidates, minus the pairs that already have a pick.

Supporting modules:

- `StableSort`: JavaScript's `Array.prototype.sort` is stable, so sorting with a numeric comparator has exactly one result. `SortByKey` defines that result. `InsertionSort` computes it in place on an array.
- `Decimal`: the decimal text of an integer, as a template literal prints it, and its reading back.
- `Values`: `Option`, and `Ref`, a reference that is either missing or an ObjectId given by its hex text.

Database queries, the network and the clock are inputs:

- The Player collection is a map from external id to internal id.
- The stored game is a value.
- The provider's answers are a sequence of responses.
- Queried users, games and picks are sequences.
- `now` is an integer number of milliseconds.

Behaviour worth knowing, as the code has it:

- A tied final score makes the away team the winner.
- On a 429, the client retries while the attempt number is at most the maximum. From the first attempt that allows up to maximum + 1 requests. It also sleeps once more before giving up.
- The request loop is the recursion the code has, not a loop.
- A goal whose owner matches neither team block is skipped without a warning.
- Every game of the team is selected. The cache rule is applied per game.

## Model

| member | source | states |
|---|---|---|
| StableSort.SortFacts | src/cron/fetchGameResults.js:146 | the sorted goal plays are a permutation of the input with non-decreasing sortOrder |
| StableSort.SortIsStable | src/controllers/leaderboardController.js:105 | elements with equal keys keep their input order (Array.prototype.sort is stable) |
| StableSort.SortedIsFixed | src/cron/fetchGameResults.js:88 | sorting already-sorted plays (the second sort in findGWGPlayByLosingTotal) changes nothing |
| StableSort.SortIdempotent | src/cron/fetchGameResults.js:88 | sorting the sorted plays again gives the same order |
| StableSort.InsertFacts | src/cron/fetchGameResults.js:146 | one insertion step adds exactly one element and keeps the order |
| StableSort.InsertStable | src/controllers/leaderboardController.js:105 | one insertion step keeps equal-key elements in order |
| StableSort.WithKeyAppend | src/controllers/leaderboardController.js:105 | the equal-key subsequence of a concatenation is the concatenation of the subsequences |
| StableSort.InsertSplits | src/cron/fetchGameResults.js:146 | an insertion puts the element right after the last element with a key no larger |
| StableSort.InsertLast | src/cron/fetchGameResults.js:146 | shifting a[i] left in place yields the insertion of a[i] into the sorted prefix, rest untouched |
| StableSort.InsertionSort | src/cron/fetchGameResults.js:88 | the array is sorted in place into exactly the stable sort of its old contents |
| Decimal.DigitChar | src/cron/fetchGameResults.js:161 | each digit's character is a decimal digit of that value |
| Decimal.NatToText | src/cron/fetchGameResults.js:161 | the text of a natural number is non-empty, all digits, without a leading zero |
| Decimal.IntToText | src/cron/fetchGameResults.js:161 | the text of an integer starts with '-' exactly when it is negative, digits follow |
| Decimal.NatTextRoundTrip | src/cron/fetchGameResults.js:161 | the digits of n read back as n |
| Decimal.IntTextRoundTrip | src/cron/fetchGameResults.js:161 | the printed integer reads back as itself |
| FetchClient.BackoffDelay | src/cron/fetchGameResults.js:41-43 | a positive Retry-After gives that many seconds; otherwise 1000·2^(attempt-1) ms, within [1000, 16000] and 16000 from attempt 5 on |
| FetchClient.AllowedRequests | src/cron/fetchGameResults.js:46-48 | at least one request is always sent |
| FetchClient.FetchPlayByPlay | src/cron/fetchGameResults.js:36-54 | at most AllowedRequests requests (maxRetries + 2 − attempt when attempt ≤ maxRetries, else 1); one sleep per 429 with the backoff delay of its attempt; a body only from a 2xx answer after 429s; any other status fails at once with that status |
| FetchClient.FirstNon429Decides | src/cron/fetchGameResults.js:40-53 | when the first non-429 answer comes within the permitted requests, the call ends there after k + 1 requests and k sleeps, with its body when it is 2xx and its status otherwise |
| FetchClient.ExhaustedIff | src/cron/fetchGameResults.js:46-49 | it gives up on rate limiting exactly when every permitted attempt answered 429; it then reports max(maxRetries, attempt − 1) retries |
| GameResults.ExtractScoringPlays | src/cron/fetchGameResults.js:63-65 | a play is kept exactly when it is in the payload and its type is "goal" |
| GameResults.ExtractAppend | src/cron/fetchGameResults.js:63-65 | the goal filter distributes over concatenation, so it keeps the payload's order |
| GameResults.ExtractOne | src/cron/fetchGameResults.js:63-65 | a single play is kept exactly when its type is "goal" |
| GameResults.ScorerExternalId | src/cron/fetchGameResults.js:67-69 | none exactly when the play has no details or no scoringPlayerId; otherwise that id |
| GameResults.StarsTeamId | src/cron/fetchGameResults.js:73-75 | the Stars' team id: the away block's id when its abbrev is DAL, else the home block's id |
| GameResults.TeamCodeOf | src/cron/fetchGameResults.js:93-96 | a goal's team code: home's when its owner is the home id, else away's when it is the away id, none exactly when it is neither |
| GameResults.FirstOwnedIndex | src/cron/fetchGameResults.js:76 | the index of the first play owned by the team (strict equality), none when no play is |
| GameResults.FindFirstStarsGoal | src/cron/fetchGameResults.js:72-77 | none exactly when no goal is owned by the Stars' id (away id when the away abbrev is DAL, else home id); otherwise a Stars-owned goal preceded by no Stars-owned goal |
| GameResults.FirstStarsGoalIsEarliest | src/cron/fetchGameResults.js:72-77 | the first Stars goal exists iff the payload has a Stars-owned goal play, and no Stars-owned goal play has a smaller sortOrder |
| GameResults.ScanForGoal | src/cron/fetchGameResults.js:90-105 | a found position lies in the plays still to scan |
| GameResults.GwgIndex | src/cron/fetchGameResults.js:80-105 | a found GWG index lies within the ordered plays |
| GameResults.ScanFindsTarget | src/cron/fetchGameResults.js:90-105 | the scan finds a goal exactly when the winner's count reaches the target; the goal before it leaves the count at target − 1 |
| GameResults.ScanPastTarget | src/cron/fetchGameResults.js:98-100 | a count already past the target is never matched again (a negative losing score finds nothing) |
| GameResults.GwgIsDecisive | src/cron/fetchGameResults.js:80-105 | the GWG exists iff the losing score is ≥ 0 and the winner has ≥ losing + 1 credited goals; it is a winner's goal before which the winner had exactly the losing score |
| GameResults.FindGwgPlayByLosingTotal | src/cron/fetchGameResults.js:80-106 | null when a score is missing (array untouched); otherwise the array is stably sorted by sortOrder and the result is the play GwgIsDecisive characterises |
| GameResults.GoalsCreditedPrefix | src/cron/fetchGameResults.js:99 | the winner's count only grows along the plays |
| GameResults.GoalsCreditedInsert | src/cron/fetchGameResults.js:88 | inserting one play changes a team's goal count by that play's credit |
| GameResults.GoalsCreditedSorted | src/cron/fetchGameResults.js:146 | ordering the plays does not change a team's goal count |
| GameResults.GoalsCreditedExtracted | src/cron/fetchGameResults.js:63-65 | keeping only goal plays does not change a team's goal count |
| GameResults.GwgFoundInDecidedGame | src/cron/fetchGameResults.js:80-105 | when the winner's credited goals equal its final score and the game is not tied, a GWG is found |
| GameResults.ConvertExternalPlayerId | src/cron/fetchGameResults.js:56-61 | an id is translated exactly when it is present, non-zero and mapped, to the mapped internal id |
| GameResults.DashFrom | src/cron/fetchGameResults.js:161 | the dash search stays within the text |
| GameResults.DashFromFindsFirst | src/cron/fetchGameResults.js:161 | the dash search stops at the first dash |
| GameResults.FinalScoreText | src/cron/fetchGameResults.js:161 | the `${home}-${away}` text, which reads back as (home, away): it determines both scores |
| GameResults.StarsWon | src/cron/fetchGameResults.js:165-167 | the Stars won exactly when the game is not tied and the winner the update records is DAL |
| GameResults.EndedInShootout | src/cron/fetchGameResults.js:169-171 | shootoutInUse is true and the last period type is "SO" |
| GameResults.DerivedUpdate | src/cron/fetchGameResults.js:146-185 | finalScore reads back as (home, away); the winner is home's code iff home > away; firstGoalPlayerId is the translated scorer of the first Stars-owned goal in sortOrder (none without one); gwGoalPlayerId is the translated goalie 8479979 on a Stars shootout win and otherwise the translated scorer of the GWG (none without one); each player field is absent or a mapped internal id |
| Values.IdText | src/cron/fetchGameResults.js:109 | a reference has no id text exactly when it is missing; an ObjectId's text is its hex string |
| GameResults.EqId | src/cron/fetchGameResults.js:110 | two references are equal exactly when both are missing or both are ObjectIds with the same hex text |
| GameResults.NeedsUpdate | src/cron/fetchGameResults.js:188-192 | the write guard: it stays silent exactly when every present field of the update already holds the stored value (player ids as the same ObjectId) |
| GameResults.ApplyUpdate | src/cron/fetchGameResults.js:194-195 | a field absent from the update keeps its stored value; pk, time and teams are untouched; afterwards the guard sees nothing to write |
| GameResults.NeedsUpdateIffChange | src/cron/fetchGameResults.js:188-194 | the guard fires exactly when the $set would change the stored game |
| GameResults.RerunWritesNothing | src/cron/fetchGameResults.js:187-199 | re-processing the same payload after the write derives the same update and writes nothing |
| GameResults.HasGamePk | src/cron/fetchGameResults.js:115-118 | the game has a gamePk that is not 0 |
| GameResults.HasStarted | src/cron/fetchGameResults.js:121-124 | the game has a gameTime no later than now |
| GameResults.IsCachedFinal | src/cron/fetchGameResults.js:127-131 | a cached final has a non-empty final score and winner, and with a non-negative horizon it started before now |
| GameResults.BuildUpdate | src/cron/fetchGameResults.js:146-185 | filling the update field by field (sort, first goal, score, winner, shootout or GWG) yields DerivedUpdate |
| GameResults.ProcessSingleGame | src/cron/fetchGameResults.js:113-199 | no gamePk, no or future gameTime, and cached finals end without a request; otherwise a fetch failure, a non-final payload, or DerivedUpdate written exactly when the guard fires |
| Leaderboard.PickPoints | src/controllers/leaderboardController.js:73-84 | 3 iff both fields correct, 1 iff exactly one, 0 iff none; correct means both ids present and equal |
| Leaderboard.ValidPicks | src/controllers/leaderboardController.js:53-62 | a pick counts exactly when its game exists, was played in [since, now), has a result field, and the pick has a user |
| Leaderboard.ValidPicksAppend | src/controllers/leaderboardController.js:53-62 | the filter distributes over concatenation, so it keeps the picks' order |
| Leaderboard.ValidPicksOne | src/controllers/leaderboardController.js:53-62 | a single pick is kept exactly when it counts |
| Leaderboard.UserTotalBounds | src/controllers/leaderboardController.js:84-86 | a user's total lies between 0 and 3 × the user's counted picks |
| Leaderboard.LastGameIsFirstLatest | src/controllers/leaderboardController.js:88-93 | last_game_points is the points of the first of the user's picks with the latest game time (strict >), or 0 when no game is after the epoch |
| Leaderboard.Unsorted | src/controllers/leaderboardController.js:97-104 | one row per user |
| Leaderboard.InitScores | src/controllers/leaderboardController.js:24-35 | every user gets a zeroed entry under its id; no other key exists |
| Leaderboard.TallyPick | src/controllers/leaderboardController.js:65-94 | one tally step keeps every user's entry equal to the totals and last game over the picks seen; unknown users are skipped |
| Leaderboard.Rows | src/controllers/leaderboardController.js:97-104 | the values, in the users' order, projected to the returned fields |
| Leaderboard.GetLeaderboard | src/controllers/leaderboardController.js:19-105 | the board is the stable sort by total descending of one row per user; each user appears with its totals; totals never increase along the board |
| DefaultPicks.FindUser | src/cron/defaultPicks.js:37-38 | the first user with the id, none when there is none |
| DefaultPicks.MakeCandidate | src/cron/defaultPicks.js:34-41 | the pushed pick carries the user's and the game's ids, isDefault and submittedAt now |
| DefaultPicks.CandidateDefaults | src/cron/defaultPicks.js:37-38 | its two player ids are the defaults of the first user in the list with that id |
| DefaultPicks.Row | src/cron/defaultPicks.js:33-42 | one candidate per user, in the users' order |
| DefaultPicks.RowIndex | src/cron/defaultPicks.js:33-41 | candidate j of a game's row is the one for user j, with that user's looked-up defaults |
| DefaultPicks.CrossLength | src/cron/defaultPicks.js:32-43 | there are |games| × |users| candidates |
| DefaultPicks.CrossEmptyIff | src/cron/defaultPicks.js:20-28 | no candidate is generated exactly when there is no game or no user |
| DefaultPicks.CrossAppend | src/cron/defaultPicks.js:32 | the outer loop's candidates come game by game |
| DefaultPicks.CrossSplit | src/cron/defaultPicks.js:32-43 | the candidates of game i come after those of the earlier games and before those of the later ones |
| DefaultPicks.CrossIndex | src/cron/defaultPicks.js:32-43 | candidate i·|users| + j is the one for game i and user j |
| DefaultPicks.CrossMembers | src/cron/defaultPicks.js:34-41 | every candidate is marked isDefault, stamped now, and belongs to a listed game and user |
| DefaultPicks.KeyInjective | src/cron/defaultPicks.js:51 | with colon-free ids, a userId:gameId key determines both ids |
| DefaultPicks.KeepNew | src/cron/defaultPicks.js:54-56 | a candidate survives exactly when its key is not taken |
| DefaultPicks.KeepNewAppend | src/cron/defaultPicks.js:54-56 | the filter keeps the candidates' order |
| DefaultPicks.KeepNewNothingTaken | src/cron/defaultPicks.js:54-56 | nothing is dropped when no key is taken |
| DefaultPicks.SurvivesIffNoStoredPick | src/cron/defaultPicks.js:50-56 | a candidate survives exactly when no stored pick has its user and game |
| DefaultPicks.PushRow | src/cron/defaultPicks.js:33-42 | the inner loop appends the row of one game |
| DefaultPicks.BuildCandidates | src/cron/defaultPicks.js:30-43 | the nested loops build exactly the games-outer cross product |
| DefaultPicks.FilterExisting | src/cron/defaultPicks.js:50-56 | existingSet and the filter keep exactly the candidates with an untaken key |
| DefaultPicks.GenerateDefaultPicks | src/cron/defaultPicks.js:20-59 | nothing with no game or no user; otherwise the new candidates, in order (an empty result is a skipped insert) |
| DefaultPicks.GamesInWindow | src/cron/defaultPicks.js:12-18 | exactly the active games starting within the next hour |
| DefaultPicks.Qualifying | src/cron/defaultPicks.js:23-25 | exactly the users with both defaults set |
| DefaultPicks.LoadedAsWritten | src/cron/defaultPicks.js:23-26 | the users the loops see are the qualifying users' ids, in order, with no defaults |
| DefaultPicks.AsWrittenVersusCorrected | src/cron/defaultPicks.js:23-59 | on one game starting within the hour and one user with defaults p1 and p2, with no stored pick: as written the run prepares one pick without player ids; with the defaults loaded, one pick carrying p1 and p2 |
| DefaultPicks.CrossOfOne | src/cron/defaultPicks.js:32-43 | one game and one user give exactly one candidate, carrying that user's defaults |
| DefaultPicks.AsWrittenCandidatesLackDefaults | src/cron/defaultPicks.js:26-38 | as written, every candidate lacks both player ids |
| DefaultPicks.CandidatesCarryDefaults | src/cron/defaultPicks.js:37-38 | with the defaults loaded, every candidate carries both defaults of a qualifying user with its id |
| DefaultPicks.RunDefaultPicksAsWritten | src/cron/defaultPicks.js:12-59 | the run as written inserts the new candidates of the in-window games × the id-only users; every inserted pick is a default pick stamped now with no stored pick for its key, and lacks both player ids |
| DefaultPicks.RunDefaultPicks | src/cron/defaultPicks.js:12-59 | the corrected run of the finding below (the users query also returns the defaults): every inserted pick is a default pick stamped now, for a game in the window, carrying its user's defaults, with no stored pick for its key |

## Left out

- Network and JSON: `fetch`, the sleep and the JSON parsing are not modelled. The provider's answers are a sequence of responses; running out of them stands for a rejected request. Sleeps are recorded as delays.
- The Retry-After header is taken as already read by `parseInt`: an unreadable header is 0.
- The database is not modelled. Queries are inputs, and the write is the returned outcome. `Player.findOne` is a map lookup.
- `eachLimited`, the concurrency limit and the run mutex in the server are not modelled. Each game's processing is independent, and the model processes one game.
- `fetchAndWriteGameResults` is not modelled. It selects the team's games oldest first and hands each to processSingleGame.
- `getStartOfTodayUTC` is not modelled: nothing calls it.
- Logging and the per-game catch are not modelled. An error in processSingleGame ends that game's processing, which the `FetchFailed` outcome stands for.
- Dates are integers of milliseconds, and one `now` stands for every clock read within a call.
- The leaderboard's `since` (the calendar arithmetic for 'week' and 'month') is an input.
- Environment settings are not modelled (GAME_SYNC_MAX_RETRIES, GAME_FINAL_CACHE_HOURS). They are assumed to be integers; `DefaultSettings` holds their defaults.
- Scores are integers. A score that is not a finite number reads as a missing score. The code also gates on finite scores, so processing agrees; `findGWGPlayByLosingTotal`'s own `== null` test is not separately modelled for NaN.
- `sortOrder` is an integer. NaN or missing sort keys are not modelled.
- Decimal text: `Decimal.IntToText` does not model exponent notation (|n| ≥ 10^21).
- Missing vs null: the model does not distinguish undefined from null.
  - In the payload, both read as None.
  - In the leaderboard, a game time stored as null compares and converts as 0 in JavaScript. Pass it as `Some(0)`.
- Player ids: an ObjectId is modelled by its hex text. A primitive-string id compares the same way.
- GameResults.ProcessSingleGame: a missing game document is not modelled. The game is always a value.
- `play?.typeDescKey !== 'goal'` inside findGWGPlayByLosingTotal is taken as the `CreditedTo` goal test. Nullish plays are not modelled.
- Leaderboard.GetLeaderboard: user ids are required to be distinct. The database guarantees this, and with duplicates the dictionary would merge entries.
- Object.values follows the users' order. ObjectId keys are not array indices, so the dictionary keeps insertion order.
- DefaultPicks: the `$or` query for existing picks is an input. So is the list of stored picks with their ids.
- `submittedAt` is one `now` for the whole run.
- The pick schema's required fields are not modelled, including `gamePk`, which the candidates never set. The same goes for `insertMany`'s per-document failures with `ordered: false`.

## Findings

| source | as written | input that shows it | evidently intended | confidence | as-written member | corrected member |
|---|---|---|---|---|---|---|
| src/cron/defaultPicks.js:26 | the users query projects to `_id`, so `defaultFirstGoal`/`defaultGWG` read at lines 37-38 are undefined and every candidate lacks both player ids (the pick schema requires them) | one active game starting within the hour and one user with both defaults set, no stored pick (worked out in DefaultPicks.AsWrittenVersusCorrected) | the candidates carry the user's two defaults (the projection also selects them) | not executed | DefaultPicks.AsWrittenCandidatesLackDefaults | DefaultPicks.CandidatesCarryDefaults |
