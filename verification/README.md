# Verified model of the UMFL league backend and match form

This project models the scoring core of a fantasy league for a two-sided board game, and proves
what its code promises.  A match is recorded with drafts, bans and games; rule sets price what each
hero did; managers hold rosters of heroes that they draft, lock and exchange between rounds; and
everything shown - leaderboard, hero tables, ticker, Hall of Fame - is computed, each time it is read, from
a list of matches served through a cache.

## The parts

| files | what they cover |
|---|---|
| `MatchCache`, `CacheRuns`, `CacheFlight`, `ReadThrough` | the version-stamped match cache and its writers, as a step system over all interleavings |
| `SliceSince` | the ticker's page against the query it stands for |
| `Holdings`, `RosterPolicy`, `RosterAcceptance`, `Exchange`, `RosterMachine`, `RosterRuns`, `History` | the swap log, the roster rules, whole runs of a manager's entry |
| `Rounding`, `Scoring`, `MatchResults`, `RosterRoles` | contexts, metrics, rule sets, prices, role bonuses |
| `Standings`, `Leaderboard`, `Exactness`, `HeroStats` | the two folds over the matches and what they refine |
| `SeasonBoard` | the leaderboard at any moment of a run, against the rosters the run was played with |
| `Ranking`, `HallOfFame` | in-place competition ranking, podiums, titles |
| `Ticker` | a match as the ticker shows it, reconciled with the board |
| `StatNames`, `MatchPolicy`, `PolicyMeaning`, `Conservation`, `HeroLaws` | what the server accepts, and what an accepted match conserves |
| `MatchForms`, `FormPolicy`, `FormMessages`, `FormAcceptance`, `FormRoundTrip`, `Correction`, `Reopening` | the match wizard's form, its edits and checks, against the server's policy |
| `RateLimit`, `RateExact` | the token bucket |
| `CsvLine` | one line of a stats sheet |
| `Options`, `Sums`, `Distinctness`, `Ordering` | stock: optional values, finite sums, sequences without repeats, stable sorting |

## How it is modelled

- Code that changes things step by step is a method with loops, proved equal to a specification
  function; the theorems are about those functions.  The rate limiter and the match form are classes
  whose methods change their fields.  The concurrent cache is a datatype of states and a step
  relation: a step is one atomic action, so the model fixes no schedule.
- Points are whole ten-thousandths.  A coefficient has four decimals and everything it multiplies is
  a whole number, so nothing is ever finer; `HUNDREDTH` is 100 of them.  Bucket time and tokens are
  `real`.  The saturating multiplication of the swap allowance is written out.
- The database is its committed history.  A load reads a prefix of it.  What a submission reads back
  as is the relation `Conservation.ReadsBack`, taken from the writer's statements and the ordered
  queries: drafts once each and in name order, games by number under fresh ids, sides by position,
  stats under normalised names, bans in name order.
- moka and DashMap are assumed to give per-key single-flight loads, atomic counters, a conditional
  remove, and eviction at any time.  A waiting call may see its leader fail or be cancelled; any
  call or writer may be dropped at any point, except that a commit and the announcement after it are
  separate steps of one writer.
- Handles and hero names are represented by their place in byte order, dates by day numbers,
  labels and links are opaque.  Stat names are ASCII.

## What the code does not do

Each of these is proved, with the exact condition under which it happens.

- A read past the cache is not checked again.  A call that has lost its three attempts before a
  rename commits can return the older list after the rename's second sweep has ended
  (`ReadThrough.ARenameCanBeMissed`); it is exactly the calls that had already read past the cache
  at the commit that do (`ReadThrough.OnlyEarlierReadsMiss`).
- A swap accepted after the roster size was changed on a locked roster breaks the swap log.  The
  exchange pairs departures with arrivals by position and stops at the shorter list; the log records
  the submission if and only if the two rosters are of one size
  (`Exchange.ExchangesRecordTheSubmission`, `RosterRuns.ResizedSwapsAreNotRecorded`).  A run is
  recorded at every moment if and only if no swap met another size than that of the roster held
  (`RosterRuns.RunIsRecorded`); retuning the size before the lock, or anything else at any time, does
  no harm, and the bound on the log needs no condition on the size.
- A hero taken out of the pool stays on rosters and keeps earning there, and leaves the hero tables;
  a manager's total is then off the tables by exactly that hero's points
  (`HeroStats.LoyalManagersTotalTheirHeroes`).
- The comment at frontend/src/domain/matchForm.ts:474-478 says a banned hero that was played cannot
  be built in the form.  It can, when both arsenals have the hero and one side lost it to a ban
  (`FormAcceptance.CrossedFormIsRefused`); `FormAcceptance.CleanFormsAreAccepted` has the condition.
- With a capacity of nothing no wait helps, whatever Retry-After says (`RateLimit.RetryAfterIsHonest`).

The freshness of cached reads rests on the announcement after the transaction ends; the one inside
the transaction is modelled too (`CacheFlight.AnnouncementsOutdate`), but freshness does not need it.  A writer dropped between its commit and that
announcement is a step of the model (`CommitUnheard`): its change is then never announced, and the
theorems promise nothing about it.

## Model

| member | source | states |
|---|---|---|
| `MatchCache.StepKeepsInv` | backend-rs/crates/umfl-server/src/match/cache.rs:162-292 | every single step of any call, writer or eviction keeps the protocol's invariant: no list that misses an announced change can still match its counter |
| `CacheRuns.RunKeepsInv` | backend-rs/crates/umfl-server/src/match/cache.rs:162-292 | so the invariant holds at every moment of every interleaving |
| `MatchCache.CoveredStays` | backend-rs/crates/umfl-server/src/match/cache.rs:162-215 | once no acceptable list misses a change, nothing any party does makes one acceptable again |
| `MatchCache.BumpCovers` | backend-rs/crates/umfl-server/src/match/cache.rs:251-254 | a counter bump after a commit puts every list stamped so far behind the counter |
| `MatchCache.MatchingStampIsFresh` | backend-rs/crates/umfl-server/src/match/cache.rs:176-192 | a list whose stamp equals the counter holds every change announced for its tournament |
| `CacheRuns.ReadsAreFresh` | backend-rs/crates/umfl-server/src/match/cache.rs:162-215 | a returned list holds a change if and only if the change touches the call's tournament and is in the committed prefix the call read, and the prefix has every such change whose completion was announced before the call began |
| `CacheRuns.AcceptedListsAreCurrent` | backend-rs/crates/umfl-server/src/match/cache.rs:190-192 | on the cached path the promise reaches to the moment of the final version check |
| `CacheRuns.DroppedEntriesAreHopeless` | backend-rs/crates/umfl-server/src/match/cache.rs:190-208 | a call only removes an entry that no call can accept at any later moment of the run |
| `CacheRuns.AtMostFourLoads` | backend-rs/crates/umfl-server/src/match/cache.rs:172-214 | a call runs its loader at most three times and once more past the cache |
| `CacheRuns.RenameReachesEveryTournament` | backend-rs/crates/umfl-server/src/match/cache.rs:268-272 | after a committed rename's second sweep ends, no list loaded before its commit is accepted for any tournament, loads already running and counters registered mid-sweep included |
| `MatchCache.WriteStepAnnounces` | backend-rs/crates/umfl-server/src/hero/admin_service.rs:69-83 | when a rename's second sweep ends, its commit is covered for every tournament, visited or first registered later |
| `CacheRuns.ListHoldsItsChanges` | backend-rs/crates/umfl-server/src/match/query.rs:87-113 | a tournament's list has each of its changes as often as it was committed, and no change of any other tournament |
| `CacheRuns.ListsGrowAtTheEnd` | backend-rs/crates/umfl-server/src/match/query.rs:87-113 | and it has them in commit order: what is committed later is listed later |
| `CacheFlight.OneLoadAtATime` | backend-rs/crates/umfl-server/src/match/cache.rs:162-192 | however many calls want a tournament's list at once, at most one load of it is under way |
| `CacheFlight.CurrentEntriesAreServed` | backend-rs/crates/umfl-server/src/match/cache.rs:172-192 | a call that meets an entry whose stamp is current, without interference, returns its list and loads nothing |
| `CacheFlight.PublishedIsCurrent` | backend-rs/crates/umfl-server/src/match/cache.rs:176-192 | what a load publishes is such an entry at once, if and only if the counter was not bumped while it ran |
| `CacheFlight.ThreeRejectionsFirst` | backend-rs/crates/umfl-server/src/match/cache.rs:172-215 | a call reads past the cache after throwing away exactly three lists, and a call still trying has thrown away fewer |
| `CacheFlight.RejectedListsStayAway` | backend-rs/crates/umfl-server/src/match/cache.rs:190-208 | a list thrown away is never in the cache again, and throwing it away touches no other tournament's entry |
| `CacheFlight.AnnouncementsOutdate` | backend-rs/crates/umfl-server/src/match/admin_service.rs:93-229 | whatever was loading or loaded before any announcement, the one inside the transaction included, is accepted by no call after it |
| `CacheFlight.CommitsAreTheWriters` | backend-rs/crates/umfl-server/src/match/admin_service.rs:93-229 | each change on record is one writer's own, of that writer's scope, and no writer has two |
| `CacheFlight.StampsAreRead` | backend-rs/crates/umfl-server/src/match/cache.rs:172-192 | the counter value a call goes by is the one it read, kept through waiting, taking over and leading until it reads again |
| `CacheFlight.WaitersFollowTheirLoad` | backend-rs/crates/umfl-server/src/match/cache.rs:176-189 | a call waiting on a load gets its list if it was published, fails with it if it failed, and takes over, under its own stamp, if its leader is gone |
| `CacheFlight.OtherTournamentsStay` | backend-rs/crates/umfl-server/src/match/cache.rs:162-292 | no step changes the entry or the counter of a tournament it is not about |
| `CacheFlight.AnnouncementsCountOne` | backend-rs/crates/umfl-server/src/match/cache.rs:251-254 | an announcement raises its tournament's counter by one |
| `CacheFlight.OneWayToTheList` | backend-rs/crates/umfl-server/src/match/cache.rs:176-189 | looking for a list, a call has exactly one way on: the entry if there is one, else the load in flight, else a load of its own |
| `CacheFlight.NoCallIsStuck` | backend-rs/crates/umfl-server/src/match/cache.rs:162-215 | at any moment of any run a call that has not come back has a step to take other than failing, or waits for a load whose leader has one |
| `CacheFlight.NoWriterIsStuck` | backend-rs/crates/umfl-server/src/match/admin_service.rs:93-229 | and a writer that has not finished can announce, commit, or get its sweep one tournament nearer the end |
| `ReadThrough.OnlyEarlierReadsMiss` | backend-rs/crates/umfl-server/src/match/cache.rs:172-215 | exactly which returns miss an announced change: those of calls that had already read past the cache when it committed, and no others |
| `ReadThrough.ARenameCanBeMissed` | backend-rs/crates/umfl-server/src/match/cache.rs:172-215 | a complete run in which a call returns a list without a rename whose second sweep has ended |
| `Holdings.ComputeHoldings` | backend-rs/crates/umfl-domain/src/standings.rs:119-158 | the rewind and replay loops compute the holdings the theorems below are about |
| `Holdings.RewindRecoversTheOpening` | backend-rs/crates/umfl-domain/src/standings.rs:119-137 | for every well-formed log the rewind gives back the opening roster and never meets a hero that is not on the roster |
| `Holdings.HoldingsAreTheHistory` | backend-rs/crates/umfl-domain/src/standings.rs:56-158 | a hero is covered by exactly one holding in each round it was on the roster and by none otherwise, in whatever order the present roster is listed |
| `Holdings.ReplayCounts` | backend-rs/crates/umfl-domain/src/standings.rs:138-158 | the replay alone, from any distinct opening roster, covers and leaves open exactly the heroes held |
| `Holdings.CountsClose` | backend-rs/crates/umfl-domain/src/standings.rs:141-150 | closing a holding takes away one open holding and one covering of each round it no longer reaches |
| `Holdings.TradesNeverRewriteHistory` | backend-rs/crates/umfl-domain/src/standings.rs:119-158 | a trade leaves who held what in every earlier round as it was |
| `Holdings.LaterSwapsDoNotShow` | backend-rs/crates/umfl-domain/src/standings.rs:56-66 | the roster of a round does not depend on swaps logged for later ones |
| `Holdings.HoldingsAreCounted` | backend-rs/crates/umfl-domain/src/standings.rs:119-158 | there are as many holdings as heroes held and swaps made, and none covers a round before the first |
| `Holdings.HoldingAt` | backend-rs/crates/umfl-domain/src/standings.rs:138-158 | the opening roster's holdings come first, and each swap adds one of its incoming hero from its round on |
| `Holdings.UndoKeepsPlaces` | backend-rs/crates/umfl-domain/src/standings.rs:119-137 | undoing a swap puts the hero that left in the place of the one that came and moves no other |
| `RosterPolicy.HasDuplicate` | backend-rs/crates/umfl-domain/src/roster_policy.rs:217-242 | the counting loop finds a repeat exactly when a hero is picked twice |
| `RosterPolicy.ValidateDraft` | backend-rs/crates/umfl-domain/src/roster_policy.rs:173-242 | reports each draft rule exactly when it is broken |
| `RosterPolicy.ValidateLock` | backend-rs/crates/umfl-domain/src/roster_policy.rs:249-269 | reports each lock rule exactly when it is broken |
| `RosterPolicy.ValidateSwap` | backend-rs/crates/umfl-domain/src/roster_policy.rs:285-392 | reports each swap rule exactly when it is broken |
| `RosterAcceptance.DraftRulesMean` | backend-rs/crates/umfl-domain/src/roster_policy.rs:173-269 | what breaks each rule of a draft and of a lock, in terms of the tournament, the picks and their costs alone |
| `RosterAcceptance.SwapRulesMean` | backend-rs/crates/umfl-domain/src/roster_policy.rs:285-392 | what breaks each rule of a swap, in the same terms |
| `RosterAcceptance.DraftIsAllowed` | backend-rs/crates/umfl-domain/src/roster_policy.rs:173-242 | a draft is accepted exactly when it is one, registration has not closed, and its heroes are different and fit the roster |
| `RosterAcceptance.LockIsAllowed` | backend-rs/crates/umfl-domain/src/roster_policy.rs:249-269 | a lock needs just that, a full roster, and costs within the grant |
| `RosterAcceptance.LimitIsWhatWasOffered` | backend-rs/crates/umfl-domain/src/roster_policy.rs:285-288 | bringing heroes in is too much exactly when they and the swaps already logged exceed what all windows so far offered together, sat out or not, or 32 bits |
| `RosterAcceptance.SwapIsAllowed` | backend-rs/crates/umfl-domain/src/roster_policy.rs:285-392 | a swap is accepted exactly when the window is open, the entry locked and not yet swapped this round, the roster full, different and affordable, and its arrivals within what is left of all windows |
| `RosterAcceptance.UnspentWindowsCanBeSpent` | backend-rs/crates/umfl-domain/src/roster_policy.rs:285-288 | at any moment a locked entry can spend everything it sat out in one accepted swap, after which its log holds exactly what was offered: the bound on the log is reached |
| `RosterMachine.StepKeepsInv` | backend-rs/crates/umfl-server/src/tournament/service.rs:172-370 | every step of drafting, locking, advancing, opening and closing windows, retuning and swapping keeps the roster machine's invariant, if and only if it is not a swap accepted while the tournament asks for a roster of another size than the one held |
| `RosterMachine.TheTournamentMovesOn` | backend-rs/crates/umfl-server/src/tournament/admin_service.rs:85-165 | rounds move on by one and settings take effect, whatever the entry is doing |
| `RosterRuns.RunIsRecorded` | backend-rs/crates/umfl-server/src/tournament/service.rs:172-370 | a run keeps the invariant at every moment if and only if its locked roster was only ever changed while the tournament asked for rosters of its size |
| `RosterRuns.KeptSizesAreFound` | backend-rs/crates/umfl-domain/src/roster_policy.rs:249-392 | leaving the roster size alone once the entry is locked is enough for that, whatever is retuned before the lock and whatever else after it |
| `RosterRuns.LockedRostersStayLegal` | backend-rs/crates/umfl-domain/src/roster_policy.rs:249-392 | in every run whose roster size is left alone once the entry is locked, a locked roster has exactly that many heroes, all different, its log is well formed from the opening roster, and no round has two roster-changing submissions |
| `RosterRuns.LogIsBounded` | backend-rs/crates/umfl-domain/src/roster_policy.rs:285-288 | in any run at all the log never exceeds any bound on the allowances in force so far times the rounds past the first; with a fixed allowance the bound is the allowance |
| `RosterRuns.HoldingsRememberTheRun` | backend-rs/crates/umfl-domain/src/standings.rs:119-158 | at any moment of a run whose swaps were recorded, the holdings rebuilt from the log cover exactly the roster of each round from the first on: the one the round ended with, the one held from now on, and the opening one for rounds before the lock |
| `RosterRuns.RoundsStayPutAway` | backend-rs/crates/umfl-domain/src/standings.rs:56-66 | the roster noted for a round is the one held at the moment the round ended, at every later moment |
| `SeasonBoard.StoredEntriesDescribe` | backend-rs/crates/umfl-server/src/standings/query.rs:60-115 | what is stored of an entry at any moment of such a run describes its opening roster, as the board needs it to |
| `SeasonBoard.BoardRemembersTheRun` | backend-rs/crates/umfl-domain/src/standings.rs:277-386 | the row computed from what is stored then is, column by column, for the latest round and in total, the sum over the contexts of exactly the heroes on the roster when each match's round was played |
| `SeasonBoard.ScoreStored` | backend-rs/crates/umfl-domain/src/standings.rs:277-386 | the row computed by the loops from a stored entry is that row |
| `Exchange.ExchangesRecordTheSubmission` | backend-rs/crates/umfl-server/src/tournament/service.rs:319-341 | pairing departures with arrivals by position records a submission if and only if the two rosters are of one size |
| `Exchange.ExchangesKeepTheLogWellFormed` | backend-rs/crates/umfl-server/src/tournament/service.rs:319-341 | appending an accepted exchange keeps the log well formed and makes it lead to the new roster |
| `Exchange.ArrivalsEqualDepartures` | backend-rs/crates/umfl-server/src/tournament/service.rs:319-335 | between rosters of one size as many heroes leave as arrive |
| `Exchange.MissingInOrder` | backend-rs/crates/umfl-server/src/tournament/service.rs:319-335 | departures and arrivals are listed in the order of the rosters they come from |
| `Exchange.LoggedIffChanged` | backend-rs/crates/umfl-server/src/tournament/service.rs:319-335 | a submission logs something exactly when it changes who is held, and as many swaps as heroes arrive |
| `RosterRuns.ResizedSwapsAreNotRecorded` | backend-rs/crates/umfl-server/src/tournament/service.rs:257-337 | the concrete case that fails: a swap accepted after the roster size is raised logs nothing, so the newcomer is credited with round 1 |
| `RosterRoles.InForce` | backend-rs/crates/umfl-domain/src/roster_roles.rs:92-98 | the assignment in force is the hero's own, not past the round, and of the greatest such round |
| `RosterRoles.LastOfTheLatest` | backend-rs/crates/umfl-domain/src/roster_roles.rs:92-101 | of the assignments of the greatest round reached, the last row gives the role |
| `RosterRoles.CurrentRoles` | backend-rs/crates/umfl-domain/src/roster_roles.rs:101-115 | the map built in one pass agrees with the role in force at any round past the last assignment, ties on the round included |
| `RosterRoles.ReassignmentsNeverRewriteHistory` | backend-rs/crates/umfl-domain/src/roster_roles.rs:92-98 | assignments from later rounds leave the role of an earlier one as it was |
| `RosterRoles.RoleBonus` | backend-rs/crates/umfl-domain/src/roster_roles.rs:130-146 | the bonus is never negative, in whole hundredths, never below the sum of its parts, and equal to it when positive |
| `RosterRoles.WeightsOfOneAndAHalf` | backend-rs/crates/umfl-domain/src/roster_roles.rs:130-146 | at a weight of one point a stat earns itself, and at minus a half it costs half of itself |
| `Exactness.OneStat` | backend-rs/crates/umfl-domain/src/roster_roles.rs:130-145 | a recorded stat earns itself times its weight to half a hundredth, and one not recorded earns nothing |
| `Exactness.BonusErrs` | backend-rs/crates/umfl-domain/src/roster_roles.rs:130-145 | a bonus is within half a hundredth, for each weighted stat recorded, of the exact weighted sum or of nothing when that is negative |
| `History.FoldStands` | backend-rs/crates/umfl-domain/src/standings.rs:277-386 | over the matches of earlier rounds the fold gives what it gave before a trade or re-assignment, though it rebuilds its holdings from another roster and a longer log |
| `Rounding.RoundsToTheNearest` | backend-rs/crates/umfl-domain/src/rounding.rs:38-44 | the result is the nearest number of hundredths, and of two equally near the one further from zero |
| `Rounding.HundredthsAreHundreds` | backend-rs/crates/umfl-domain/src/rounding.rs:38-44 | in units of a ten-thousandth, a rounded amount is a multiple of 100 at most 50 away |
| `Rounding.RoundingIsOdd` | backend-rs/crates/umfl-domain/src/rounding.rs:38-44 | rounding commutes with negation |
| `Rounding.SumOfHundredths` | backend-rs/crates/umfl-domain/src/rounding.rs:38-44 | rounding a sum of rounded amounts changes nothing, so displayed totals add up |
| `Scoring.NewRules` | backend-rs/crates/umfl-domain/src/scoring_engine.rs:40-69 | a repeated metric keeps its first place and its last weight; unknown names score nothing |
| `Scoring.ColumnsKeepTheirPlaces` | backend-rs/crates/umfl-domain/src/scoring_engine.rs:28-68 | of two metrics, the one whose first row comes earlier is the earlier column |
| `Scoring.LastRowCounts` | backend-rs/crates/umfl-domain/src/scoring_engine.rs:28-68 | a metric configured more than once has the weight of its last row |
| `Scoring.Healthiest` | backend-rs/crates/umfl-domain/src/match_metrics.rs:179-187 | the greatest health among the opponents, and one of theirs |
| `Scoring.GapIsToTheBest` | backend-rs/crates/umfl-domain/src/match_metrics.rs:179-190 | the health gap is to the best of the opponents, however many there are |
| `Scoring.FirstBan` | backend-rs/crates/umfl-domain/src/match_metrics.rs:126-137 | absent exactly when no ban names the hero |
| `Scoring.FirstBanIsFirst` | backend-rs/crates/umfl-domain/src/match_metrics.rs:126-137 | a hero named by several bans counts under the type of the first |
| `Scoring.ComputeBreakdown` | backend-rs/crates/umfl-domain/src/scoring_engine.rs:101-124 | the loop that skips what measures or rounds to nothing computes the breakdown |
| `Scoring.BreakdownHoldsContributions` | backend-rs/crates/umfl-domain/src/scoring_engine.rs:101-121 | a breakdown holds each metric's rounded contribution, in whole hundredths |
| `Scoring.BreakdownShows` | backend-rs/crates/umfl-domain/src/scoring_engine.rs:101-125 | a breakdown shows metrics' own contributions, as they are and never nothing |
| `Scoring.BreakdownHasThemAll` | backend-rs/crates/umfl-domain/src/scoring_engine.rs:101-125 | and leaves no contribution out that is something |
| `Scoring.BreakdownInColumnOrder` | backend-rs/crates/umfl-domain/src/scoring_engine.rs:101-125 | and shows them in the order of the columns |
| `Scoring.CoefficientsOfOneAndAHalf` | backend-rs/crates/umfl-domain/src/scoring_engine.rs:101-125 | at a coefficient of one point a metric earns what it measures, and at minus a half it costs half of that |
| `Scoring.ScoreIsTheSum` | backend-rs/crates/umfl-domain/src/scoring_engine.rs:127-129 | rounding a breakdown's total changes nothing: a score is its contributions added up |
| `MatchResults.DraftedHeroIds` | backend-rs/crates/umfl-domain/src/match_result.rs:177-187 | the nested loops collect each drafted hero once, in first-encounter order |
| `MatchResults.ComputeHeroContexts` | backend-rs/crates/umfl-domain/src/match_result.rs:212-262 | played, drafted and banned contexts, in that order, built with the two vectors the source builds them with |
| `MatchResults.SeriesContextsAreOnce` | backend-rs/crates/umfl-domain/src/match_result.rs:212-262 | played beats banned beats drafted: a hero has its one Banned context if struck and never played, its one Drafted context if drafted and not so banned, for any rows at all |
| `MatchResults.PlayedContextsArePerGame` | backend-rs/crates/umfl-domain/src/match_result.rs:213-227 | one Played context for each game that fields the hero |
| `MatchResults.DraftedInIsDistinct` | backend-rs/crates/umfl-domain/src/match_result.rs:177-187 | no hero is listed twice however many sides drafted it |
| `MatchResults.DraftsInTurn` | backend-rs/crates/umfl-domain/src/match_result.rs:177-188 | the draft is listed in first-encounter order: what a later side adds comes after all an earlier one has |
| `MatchResults.AddNewInTurn` | backend-rs/crates/umfl-domain/src/match_result.rs:177-188 | within a side, picks met earlier are listed earlier |
| `MatchResults.BansInTurn` | backend-rs/crates/umfl-domain/src/match_result.rs:212-262 | struck heroes are listed by their first bans |
| `Standings.FoldCountsCoverings` | backend-rs/crates/umfl-domain/src/standings.rs:323-356 | folding holding by holding equals crediting each appearance as often as a holding covers it, for any log at all |
| `Standings.FoldIsNaive` | backend-rs/crates/umfl-domain/src/standings.rs:277-386 | for every column, in total and for one round, the fold equals the plain sum over contexts of heroes held in the match's round |
| `Standings.PriceIsWorth` | backend-rs/crates/umfl-domain/src/standings.rs:287-299 | an appearance priced once is worth to each holder what its context is worth |
| `Leaderboard.GroupByHero` | backend-rs/crates/umfl-domain/src/standings.rs:287-299 | each context of each match is priced once and filed under its hero |
| `Leaderboard.CreditAppearance` | backend-rs/crates/umfl-domain/src/standings.rs:331-354 | one appearance adds its entries, its role bonus and, in the latest round, both to the round's points |
| `Leaderboard.CreditEntry` | backend-rs/crates/umfl-domain/src/standings.rs:307-356 | the nested loops over holdings and appearances compute the fold for every column and for the round |
| `Leaderboard.ScoreEntry` | backend-rs/crates/umfl-domain/src/standings.rs:307-375 | every column dense, rounding changes nothing, and the total is exactly the columns' sum |
| `Leaderboard.ColumnsPartitionEverything` | backend-rs/crates/umfl-domain/src/standings.rs:358-404 | the columns add up to everything the entry earned |
| `Leaderboard.RowRefinesTheNaiveSum` | backend-rs/crates/umfl-domain/src/standings.rs:277-386 | for an entry whose log describes its roster, a row holds what the loops compute if and only if it holds the naive sums, column by column and for the latest round, with their exact total |
| `Leaderboard.Board` | backend-rs/crates/umfl-domain/src/standings.rs:277-432 | every roster has a naive row; the rows are sorted in place and each carries its rank, so that the board is a ranked one |
| `Leaderboard.SortedAndRanked` | backend-rs/crates/umfl-domain/src/standings.rs:446-469 | sorting the rows and writing each its rank among the rows as they came gives a board in order whose ranks are those of its own rows |
| `Leaderboard.FoldIsHundredths` | backend-rs/crates/umfl-domain/src/standings.rs:358-374 | what the fold adds up is already in hundredths |
| `Exactness.TotalErrs` | backend-rs/crates/umfl-domain/src/standings.rs:277-386 | with roles on or off, the sum of rounded contributions and bonuses is within half a hundredth, for each metric measured and stat recorded, of the sum with nothing rounded |
| `Exactness.ShownTotalErrs` | backend-rs/crates/umfl-domain/src/standings.rs:277-386 | so is the total a row shows |
| `HeroStats.HeroBoard` | backend-rs/crates/umfl-domain/src/hero_stats.rs:107-154 | the second fold gives each pool hero its sums by metric and its overall points, rounded in place to no effect |
| `HeroStats.TallyMatch` | backend-rs/crates/umfl-domain/src/hero_stats.rs:132-141 | one match adds to each pool hero what its contexts are worth, and nothing to anyone else |
| `HeroStats.OverallIsEverything` | backend-rs/crates/umfl-domain/src/hero_stats.rs:143-154 | a hero's overall points are the sum of its metric columns and of everything it earned |
| `HeroStats.LoyalManagersTotalTheirHeroes` | backend-rs/crates/umfl-domain/src/hero_stats.rs:101-178 | a manager with no swaps and no roles totals the overall points its heroes show in the tables plus what was earned by roster heroes no longer in the pool; the two folds agree if and only if that is nothing |
| `Ranking.CompetitionRank` | backend-rs/crates/umfl-domain/src/standings.rs:446-469 | sorts the array in place into the stable order and gives each row one plus the number of strictly better ones |
| `Ranking.SortIsRight` | backend-rs/crates/umfl-domain/src/standings.rs:452-457 | the order is marks descending, names ascending, and a permutation |
| `Ranking.NewScoreStartsARank` | backend-rs/crates/umfl-domain/src/standings.rs:459-469 | in order, the first row of a mark has exactly the rows above it beating it |
| `Ranking.RanksFollowScores` | backend-rs/crates/umfl-domain/src/standings.rs:446-469 | ranks are equal exactly when marks are, and better exactly when the mark is |
| `Ranking.BetterIsAboutMembers` | backend-rs/crates/umfl-domain/src/standings.rs:446-469 | a rank does not depend on the order of the rows |
| `Ranking.PodiumIsAPrefix` | backend-rs/crates/umfl-domain/src/hall_of_fame.rs:75-104 | the rows of rank at most any depth are a prefix of the board that ends where the mark drops |
| `HallOfFame.PodiumIsTheTop` | backend-rs/crates/umfl-domain/src/hall_of_fame.rs:75-104 | of a board as the leaderboard finishes it, a podium is a prefix, and no tie is cut in two |
| `HallOfFame.BoardsFollowPoints` | backend-rs/crates/umfl-domain/src/standings.rs:446-469 | a finished board is by points and then by name, and a rank is one more than the rows with more points |
| `HallOfFame.PodiumsAreTheTopThree` | backend-rs/crates/umfl-domain/src/hall_of_fame.rs:75-104 | a podium has the rows of ranks one to three, each as often as the board, and no other |
| `HallOfFame.NewestComesFirst` | backend-rs/crates/umfl-domain/src/hall_of_fame.rs:75-104 | nothing listed finished later, by end date or failing that start date, than what is listed above it |
| `HallOfFame.EntriesTellTheirTournaments` | backend-rs/crates/umfl-domain/src/hall_of_fame.rs:75-104 | what is listed of a completed tournament: its id, its dates, how many took part, and the top three of its board |
| `HallOfFame.CountsTell` | backend-rs/crates/umfl-domain/src/hall_of_fame.rs:116-135 | the counting loop gives every manager that appears one row, with all its titles and podiums and the name first shown |
| `HallOfFame.RecordsAreSums` | backend-rs/crates/umfl-domain/src/hall_of_fame.rs:116-135 | a manager's titles and podiums are its first places and places on the podiums, tournament by tournament |
| `HallOfFame.NamesAreTheFirst` | backend-rs/crates/umfl-domain/src/hall_of_fame.rs:116-135 | a record carries the name its manager was first shown under |
| `HallOfFame.PodiumCountsAreThePodiums` | backend-rs/crates/umfl-domain/src/hall_of_fame.rs:116-135 | the podium counts add up to the podium sizes |
| `HallOfFame.CountsAddUp` | backend-rs/crates/umfl-domain/src/hall_of_fame.rs:116-135 | every podium place and every first place is counted once |
| `HallOfFame.Titles` | backend-rs/crates/umfl-domain/src/hall_of_fame.rs:116-154 | the titles table is sorted and ranked on titles and podiums together |
| `HallOfFame.TitlesFollowWins` | backend-rs/crates/umfl-domain/src/hall_of_fame.rs:116-154 | a row with more titles, or as many and more podiums, is listed above and ranks strictly better; ranks are equal exactly when both counts are, and then names decide the order |
| `HallOfFame.Build` | backend-rs/crates/umfl-domain/src/hall_of_fame.rs:75-104 | newest tournament first, each with its podium, and the titles counted over them |
| `Ticker.FileFirstGames` | backend-rs/crates/umfl-domain/src/standings.rs:503-513 | the nested loops over the games by number file each hero's first game |
| `Ticker.FileContexts` | backend-rs/crates/umfl-domain/src/standings.rs:490-522 | the two maps hold the last context filed under each game and hero |
| `Ticker.TickerGames` | backend-rs/crates/umfl-domain/src/standings.rs:483-567 | the ticker's rows, the winner first, as the theorems below read them |
| `Ticker.FirstGameIsLowest` | backend-rs/crates/umfl-domain/src/standings.rs:503-522 | a draft is banked against the lowest-numbered game that fields the hero, and nowhere if none does |
| `Ticker.RowShowsItsContexts` | backend-rs/crates/umfl-domain/src/standings.rs:544-561 | a row shows its own context and the draft if banked there; rounding twice is rounding once |
| `Ticker.BankedOnce` | backend-rs/crates/umfl-domain/src/standings.rs:503-522 | over all rows a fielded hero's draft is banked exactly once |
| `Ticker.TickerReconciles` | backend-rs/crates/umfl-domain/src/standings.rs:483-594 | over any choice of heroes the rows add up to the scores of all contexts of the fielded ones |
| `Ticker.FieldedHeroReconciles` | backend-rs/crates/umfl-domain/src/standings.rs:483-594 | a fielded hero's rows sum to the score of all its contexts |
| `Ticker.MatchTotalReconciles` | backend-rs/crates/umfl-domain/src/standings.rs:483-594 | the match's total is every row plus the contexts of heroes struck, or drafted and never played |
| `Ticker.WinnersAreShownFirst` | backend-rs/crates/umfl-domain/src/standings.rs:528-567 | the rows are the games in order, and of a decided game the winner is shown first and each side with its own hero, health and result |
| `MatchPolicy.Repeated` | backend-rs/crates/umfl-domain/src/match_policy.rs:595-605 | counts values and finds exactly the ones that come more than once |
| `MatchPolicy.SortedNumbers` | backend-rs/crates/umfl-domain/src/match_policy.rs:259-277 | the sorted numbers are 1..N exactly when each of 1..N is one game's number |
| `MatchPolicy.WinnersCount` | backend-rs/crates/umfl-domain/src/match_policy.rs:448-460 | counting one winner is having a sole winner |
| `MatchPolicy.GameNumbersFind` | backend-rs/crates/umfl-domain/src/match_policy.rs:583-591 | the list of offending games is empty exactly when no game offends |
| `MatchPolicy.StatViolations` | backend-rs/crates/umfl-domain/src/match_policy.rs:520-580 | the three nested loops report each stat rule exactly when it is broken |
| `MatchPolicy.ValidateExpecting` | backend-rs/crates/umfl-domain/src/match_policy.rs:238-514 | reports every one of the nineteen rules exactly when it is broken, once and in its place |
| `MatchPolicy.Validate` | backend-rs/crates/umfl-domain/src/match_policy.rs:219-236 | reports nothing exactly when the submission is accepted |
| `MatchPolicy.AcceptedMeans` | backend-rs/crates/umfl-domain/src/match_policy.rs:238-514 | acceptance is exactly three things together: the right shape, everything resolved by the server's lists, and no hero banned and used or on both sides of a game |
| `PolicyMeaning.BreaksIsForbidden` | backend-rs/crates/umfl-domain/src/match_policy.rs:238-580 | each of the nineteen rules is broken by exactly what it forbids, said of the submission's drafts, bans, games, plays and numbers themselves |
| `PolicyMeaning.ReportsFollowTheOrder` | backend-rs/crates/umfl-domain/src/match_policy.rs:238-514 | a report lists its rules in one fixed order, written out |
| `StatNames.WellFormedNamesAreNormal` | backend-rs/crates/umfl-domain/src/scoring_rule_set_policy.rs:79-86 | a well-formed name is its own normal form |
| `StatNames.ShapeOfAName` | backend-rs/crates/umfl-domain/src/scoring_rule_set_policy.rs:79-86 | a well-formed name starts with a capital and goes on with capitals, digits and underscores |
| `StatNames.CapitalsAreCapitals` | backend-rs/crates/umfl-domain/src/match_metrics.rs:50-60 | each small letter has its own capital and everything else is left alone |
| `StatNames.TrimTakesSpaces` | backend-rs/crates/umfl-domain/src/match_metrics.rs:50-60 | trimming takes white space off both ends, all of it and nothing else |
| `StatNames.SpacesAre` | backend-rs/crates/umfl-domain/src/match_metrics.rs:50-60 | white space, in ASCII, is the space and the five control characters from the tab to the carriage return |
| `StatNames.PaddingBehind` | backend-rs/crates/umfl-domain/src/match_metrics.rs:50-60 | white space behind a name makes no difference to what is stored |
| `StatNames.PaddingInFront` | backend-rs/crates/umfl-domain/src/match_metrics.rs:50-60 | nor does white space in front of it |
| `StatNames.NamesKeepTheirLetters` | backend-rs/crates/umfl-domain/src/match_metrics.rs:50-60 | without any, each letter is stored as its capital in its place |
| `Conservation.AcceptedIsLegal` | backend-rs/crates/umfl-domain/src/match_policy.rs:238-514 | an accepted submission reads back as a match of two sides and decided games, fielding only its drafts, with clean bans |
| `Conservation.WinsAndLossesBalance` | backend-rs/crates/umfl-domain/src/match_metrics.rs:139-163 | wins and losses each total the number of games |
| `HeroLaws.HeroMetricIsItsGames` | backend-rs/crates/umfl-domain/src/match_metrics.rs:139-233 | hero by hero, each per-game metric of decided games is the hero's record read off the games: games won, games lost to another, health finished on, lead when winning, lead either way, opponents left on nothing |
| `HeroLaws.AcceptedHeroesEarnTheirOwn` | backend-rs/crates/umfl-domain/src/match_metrics.rs:101-233 | for every hero of every accepted submission, what all nine metrics come to: the games for six, one appearance if drafted, and one for each type of ban exactly when so banned |
| `Conservation.TwoWayCancels` | backend-rs/crates/umfl-domain/src/match_metrics.rs:179-216 | the priced and rounded two-way health differential of a match sums to nothing |
| `Conservation.AppearancesAreTheDraft` | backend-rs/crates/umfl-domain/src/match_metrics.rs:101-107 | appearances total the distinct heroes drafted, however many games are played |
| `Conservation.BansArePricedOnce` | backend-rs/crates/umfl-domain/src/match_metrics.rs:112-137 | each ban is priced once under its own type, and a pre-ban under neither |
| `Conservation.WinnersLead` | backend-rs/crates/umfl-domain/src/match_metrics.rs:165-207 | only the winner of a decided game scores the lead over the loser, and it is at least the health the winner kept |
| `Conservation.ShutoutsAreSidesOnNothing` | backend-rs/crates/umfl-domain/src/match_metrics.rs:220-233 | over a match the shutouts number exactly the sides that finish a game on nothing, a winner that does included and overkill not |
| `Conservation.FieldedHeroes` | backend-rs/crates/umfl-domain/src/match_result.rs:212-262 | a fielded hero of a legal match has one Drafted context, one Played context a game, and no Banned one |
| `Conservation.BannedHeroesHaveOne` | backend-rs/crates/umfl-domain/src/match_result.rs:212-262 | a banned hero of a legal match has exactly one context |
| `Conservation.AcceptedMatchesConserve` | backend-rs/crates/umfl-domain/src/match_policy.rs:238-514 | all of these together, for every accepted submission and the match it reads back as |
| `Conservation.TwoWayColumnCancels` | backend-rs/crates/umfl-domain/src/hero_stats.rs:132-154 | down a whole tournament of accepted matches the hero table's two-way column sums to nothing |
| `RateLimit.RateLimiter.constructor` | backend-rs/crates/umfl-server/src/ratelimit.rs:78-101 | an empty store, the period kept off zero |
| `RateLimit.RateLimiter.TryConsume` | backend-rs/crates/umfl-server/src/ratelimit.rs:105-144 | admits exactly when a whole token is there after the refill, leaves every other caller's bucket alone, and otherwise says how long to wait |
| `RateLimit.TokensStayInRange` | backend-rs/crates/umfl-server/src/ratelimit.rs:116-127 | tokens stay between nothing and the capacity whatever the request times |
| `RateLimit.WindowBound` | backend-rs/crates/umfl-server/src/ratelimit.rs:105-144 | the requests admitted in any window number at most the capacity and what trickles in meanwhile |
| `RateLimit.WindowAccount` | backend-rs/crates/umfl-server/src/ratelimit.rs:105-144 | admissions in a window and the tokens left are paid for by the capacity and the trickle |
| `RateExact.AdmittedWhenAffordable` | backend-rs/crates/umfl-server/src/ratelimit.rs:105-144 | a request is admitted if and only if every window opened by an earlier request of the caller, or by this one, can afford it: its admissions so far and this one are within the capacity and what has trickled in since |
| `RateExact.HeldIsTheTightest` | backend-rs/crates/umfl-server/src/ratelimit.rs:116-127 | what a request finds in the bucket is the least of those windows' budgets, to the token |
| `RateExact.BurstIsAdmitted` | backend-rs/crates/umfl-server/src/ratelimit.rs:105-144 | the first requests, up to the capacity, are all admitted however close together |
| `RateExact.APeriodTricklesTheCapacity` | backend-rs/crates/umfl-server/src/ratelimit.rs:78-101 | in one refill period exactly the capacity trickles in |
| `RateExact.RetryAfterIsTheNextSecond` | backend-rs/crates/umfl-server/src/ratelimit.rs:218-221 | the advertised second is the first past the wait, taken to the nearest nanosecond |
| `RateExact.NothingToWaitFor` | backend-rs/crates/umfl-server/src/ratelimit.rs:130-144 | a bucket that can hold nothing advertises a second more than a day |
| `RateExact.NothingRefillsBackwards` | backend-rs/crates/umfl-server/src/ratelimit.rs:116-127 | a clock that went back refills nothing |
| `RateLimit.RetryAfterIsHonest` | backend-rs/crates/umfl-server/src/ratelimit.rs:130-144 | a refused caller that waits as told, with nobody else spending, is admitted if and only if the capacity is at least one |
| `RateLimit.RetryAfterIsTight` | backend-rs/crates/umfl-server/src/ratelimit.rs:218-221 | the advertised wait exceeds the true one by at most a second and half a nanosecond |
| `RateLimit.IdleBucketsAreFull` | backend-rs/crates/umfl-server/src/ratelimit.rs:91-96 | after one idle period, half of what eviction waits for, a bucket answers as a new one does |
| `RateLimit.SharedTracksOwn` | backend-rs/crates/umfl-server/src/ratelimit.rs:69-144 | through any requests and idle evictions a caller's shared bucket keeps the tokens it would have alone |
| `RateLimit.CallersAreIsolated` | backend-rs/crates/umfl-server/src/ratelimit.rs:69-144 | every answer a caller gets, the wait advertised on refusal included, is the one it would get from a bucket of its own that is never evicted |
| `MatchForms.MatchForm.RemoveGame` | frontend/src/domain/matchForm.ts:330-335 | in place: the game goes and the rest are renumbered from one |
| `MatchForms.MatchForm.RemoveDraftPick` | frontend/src/domain/matchForm.ts:345-354 | in place: the pick goes, with its bans and the games that fielded it |
| `MatchForms.MatchForm.AssignBanToSide` | frontend/src/domain/matchForm.ts:357-365 | in place: the ban moves to the side, whose arsenal then has its hero |
| `MatchForms.MatchForm.SetWinner` | frontend/src/domain/matchForm.ts:374-378 | in place: one side wins the game and the others do not |
| `MatchForms.PickLeavesNoTrace` | frontend/src/domain/matchForm.ts:345-354 | after a removal the side neither bans nor fields that hero, and fields all it fielded besides |
| `MatchForms.PickTouchesNothingElse` | frontend/src/domain/matchForm.ts:345-354 | the arsenal's other picks stay in order, the other side's arsenal and bans, the pre-bans and the games' numbers, boards, healths, winners and stats are as they were, and no other hero is blanked |
| `MatchForms.RemoveGameIsSound` | frontend/src/domain/matchForm.ts:330-335 | two sides, two participants a game, dense numbers and owned heroes survive, and the other games stay in order |
| `MatchForms.RemoveGameTouchesNothingElse` | frontend/src/domain/matchForm.ts:330-335 | sides, bans and link stay as they were, and past the last game nothing is removed |
| `MatchForms.RemoveDraftPickIsSound` | frontend/src/domain/matchForm.ts:345-354 | the same invariant survives, whatever the index and however often the hero was drafted |
| `MatchForms.AssignBanIsSound` | frontend/src/domain/matchForm.ts:357-365 | the same invariant survives, with one fewer ban to assign and that one on its side |
| `MatchForms.AssignBanTouchesNothingElse` | frontend/src/domain/matchForm.ts:357-365 | the ban goes to the end of its side's, its hero onto the arsenal only if missing, and the other side, the games and the bans still unassigned stay as they were, in order |
| `MatchForms.SetWinnerIsSound` | frontend/src/domain/matchForm.ts:374-378 | the same invariant survives, the side picked is the game's only winner, and who played is unchanged |
| `MatchForms.SetWinnerTouchesNothingElse` | frontend/src/domain/matchForm.ts:374-378 | the other games, and this one's heroes, healths, stats, number and board, stay as they were |
| `MatchForms.FieldableHeroes` | frontend/src/domain/matchForm.ts:279-283 | the pool's heroes on the arsenal and struck neither from it nor before the draft |
| `MatchForms.FieldableInPoolOrder` | frontend/src/domain/matchForm.ts:279-283 | and they are offered in the pool's order |
| `FormPolicy.Validate` | frontend/src/domain/matchForm.ts:480-555 | returns the first issue in the order the form looks at things |
| `FormMessages.MessageIsTheFirst` | frontend/src/domain/matchForm.ts:480-555 | a message is shown if and only if what it says is true of the form and nothing an earlier message says is, the sides taken one after the other |
| `FormPolicy.FindsRepeat` | frontend/src/domain/matchForm.ts:498-505 | the seen-set loop finds a repeat exactly when there is one |
| `FormPolicy.SilentMeansClean` | frontend/src/domain/matchForm.ts:480-555 | there is no message exactly when nothing on the list of checks is wrong |
| `FormAcceptance.CleanFormsAreAccepted` | frontend/src/domain/matchForm.ts:228-249 | a structurally sound form with no message is accepted by the server's policy if and only if the server's lists resolve it, no ban names a hero on the other arsenal, and no game mirrors a hero |
| `FormAcceptance.SeparateArsenalsAreAccepted` | frontend/src/domain/matchForm.ts:480-555 | with disjoint arsenals and bans inside their own, only the server's lists are left to decide |
| `FormAcceptance.CrossedFormIsRefused` | frontend/src/domain/matchForm.ts:466-555 | a concrete form with no message whose submission plays a banned hero |
| `FormAcceptance.BannedAndDrafted` | frontend/src/domain/matchForm.ts:228-249 | a banned hero is on a draft as sent exactly when a ban names a hero on the other side's arsenal |
| `FormRoundTrip.RoundTrip` | frontend/src/domain/matchForm.ts:168-249 | opening a recorded match and sending it back gives each draft in order, the same games with their stats, and the same bans if and only if every typed ban has a side |
| `FormRoundTrip.DraftComesBack` | frontend/src/domain/matchForm.ts:182-237 | what seeding unions into an arsenal, saving subtracts from it |
| `FormRoundTrip.BansComeBack` | frontend/src/domain/matchForm.ts:168-249 | the bans sent are the bans seeded, type and side, exactly when no typed one lacks its side |
| `FormRoundTrip.MatchesInAnyOrder` | frontend/src/domain/matchForm.ts:168-219 | a match seeds the same form whichever order its sides and games are listed in |
| `FormRoundTrip.SidesInAnyOrder` | frontend/src/domain/matchForm.ts:168-219 | and a game the same row whichever way round its sides are |
| `FormRoundTrip.BansInTheirOrder` | frontend/src/domain/matchForm.ts:168-219 | bans keep their order among those of a side, the pre-bans and the unassigned |
| `FormRoundTrip.BansAreSentInTurn` | frontend/src/domain/matchForm.ts:228-249 | the bans sent are the first side's, the second side's and the pre-bans, in order |
| `Correction.SavingUnchangedChangesNothing` | backend-rs/crates/umfl-server/src/match/admin_service.rs:131-186 | a recorded match whose typed bans have sides, opened and saved unchanged, is accepted again, and the match on record is one the submission reads back as |
| `Correction.OneRecord` | backend-rs/crates/umfl-server/src/match/admin_service.rs:385-456 | whatever an accepted submission reads back as is one record: the same drafts, the same games in the same places with the same stats, and the same bans, up to the ids its games are given and the order of names |
| `Correction.StoredAsItWas` | backend-rs/crates/umfl-server/src/match/admin_service.rs:131-186 | so whatever is stored when the unchanged form is saved is the record it was opened from, under fresh game ids |
| `Reopening.SilentOnReopening` | frontend/src/domain/matchForm.ts:168-249 | opening a recorded match, the form has nothing to say if and only if there is a link, every typed ban has a side, no id is blank, and every hero played is on the form's list |
| `Reopening.SilentOnSeeded` | frontend/src/domain/matchForm.ts:480-555 | of a form the server would accept, whose arsenals are its drafts and what was struck from them, the form's own checks come down to the link, unassigned bans, blanks and its list of heroes |
| `Correction.StoredAgain` | backend-rs/crates/umfl-server/src/match/admin_service.rs:394-418 | stats stored, listed in any order and stored again are the same stats |
| `CsvLine.SplitCsvLine` | frontend/src/domain/matchStats.ts:169-195 | the loop that skips its own index computes the scan |
| `CsvLine.SplitUndoesRender` | frontend/src/domain/matchStats.ts:169-195 | splitting undoes rendering for every non-empty list of cells, quoted or bare where they need no quotes |
| `CsvLine.SplitIsByParity` | frontend/src/domain/matchStats.ts:169-195 | any line, well formed or not, is cut at the commas with an even number of quotes before them, and keeps every other character but quotes that neither follow another nor have an even number before them |
| `CsvLine.BareCellSurvives` | frontend/src/domain/matchStats.ts:169-195 | a lone cell survives bare exactly when it holds neither quote nor comma |
| `SliceSince.SliceIsTheAnswer` | backend-rs/crates/umfl-server/src/match/cache.rs:300-308 | the page cut from the cached list is the one answer the query can give |
| `SliceSince.OneIsNewer` | backend-rs/crates/umfl-server/src/match/query.rs:165-194 | of two rows of different ids exactly one is the newer: the later played, or of one time the higher id |
| `SliceSince.AfterPermutes` | backend-rs/crates/umfl-server/src/match/query.rs:165-194 | filtering by id does not depend on the order of the rows |

## Left out

- The HTTP layer, authentication, configuration, problem documents, streaming and the frontend's components and stores: plumbing.
- SQL, the schema and assembling a match from rows: represented by the committed history, by `Conservation.ReadsBack` and by the ordering the queries state.
- Eviction of buckets and entries by capacity: for the cache it is one of the evictions at any time; for the rate limiter it really does reset a bucket, so the isolation theorem covers idle eviction only.
- Binary floating point: addition order, shortest decimals and signed zeros; amounts are exact.
- Overflow of 32-bit totals other than the saturating swap allowance.
- The text and rendering of violations and messages, and which heroes or games they list; only which rules are reported.
- Unicode trimming and case folding of stat names; ASCII letters and white space are modelled.
- `validate_assignments` and `validate_weights` in roster_roles.rs, and the role rules of the lock and swap endpoints: more rules of the same kind as the ones modelled.
- Ranking the hero tables: `Ranking.CompetitionRank` is the routine they share with the leaderboard.
- Seeding the form from an import preview, laying a stats sheet onto it, its dropdown lists other than the fieldable heroes, and the round, date and player labels it carries.
- Parsing whole stats files, JSON included: one line's splitting is the part with a standard to invert.
- The link that stops a match being recorded twice, and the row locks that serialise swaps.
- `winner` and the player label of a side in match_result.rs: single finds.
- Live re-pricing: the budget is a rule of the moment of lock or swap and is not claimed for a run.
- Fairness: nobody is ever stuck (`CacheFlight.NoCallIsStuck`), but nothing is said of how long a call takes or whom the scheduler picks.
- Correction.SavingUnchangedChangesNothing: asks that every typed ban have a side, which the form requires before it saves.
- Correction.StoredAsItWas: compares drafts and bans without their order, which the queries take from the heroes' names, and games without their ids, which are new.
- Shutting a tournament's registration and dropping its unlocked entries, and the role assignments that go with a lock or a swap: they change neither a locked roster nor its log.
