# guessIt leaderboard — a Dafny model of the scoring core

guessIt is a number-guessing game with accounts and a public leaderboard.
The player has five tries to find a number from 1 to 20. A finished game
is posted to the server. The server checks it, stores it as a game record,
and derives statistics from the stored records: per-player statistics,
paged game history, a two-phase leaderboard, a player's rank, and global
statistics. The server also keeps a user directory, and the client pages
validate their forms before they call it.

This project models that core as pure Dafny functions over immutable data:

- `Records` (`records.dfy`): the store, a sequence of game records in
  append order plus the user directory. It also has the per-player
  projections: records, wins, best score, last played, and chronological
  and newest-first order.
- `Points` (`points.dfy`): the `points` virtual of a game record.
- `Streak` (`streak.dfy`): the longest winning streak, with the scanning
  loop the source runs and an independent "longest run of wins"
  characterisation.
- `Stats` (`stats.dfy`): the per-player statistics and the service call
  that returns them.
- `Leaderboard` (`leaderboard.dfy`): the two-phase leaderboard. Players are
  selected by best score, then wins, then win rate. The first `limit` are
  re-ranked by longest streak, then wins, and numbered from 1.
- `ScoreService` (`score_service.dfy`): recording a game, paged history, the
  leaderboard call, a user's rank among the first 1000 rows, and the global
  statistics.
- `Paging` (`paging.dfy`): page counts, skip and window.
- `Sorting` (`sorting.dfy`): a stable insertion sort.
- `Users` (`users.dfy`): the user service as a map-based store.
- `ScoreValidation` (`score_validation.dfy`): the rule list that guards
  score submission.
- `UserValidation` (`user_validation.dfy`): the registration, login and
  update rule lists.
- `Text` (`text.dfy`): the JavaScript string machinery these rules rely on:
  the `\s` class, `trim`, UTF-16 length, `parseInt`, and decimal rendering.
- `Game` (`game.dfy`): the client's game state machine.
- `Forms` (`forms.dfy`): the sign-up, login, reset and forgotten-password
  forms.
- `Wrappers` and `Failures`: the `Option`/`Result` types and the error
  values.

Design choices:

- Times are integers read from a clock the caller passes in. Random target
  numbers are parameters too. The client's clock readings are milliseconds.
  The elapsed time is rounded to whole seconds and can be negative when the
  clock goes back. The model keeps that case: the score can then exceed 100,
  and the server refuses the body.
- A start time of 0 counts as missing, as the client's falsy test treats it.
- Every service call returns a `Result`. Its failure names the operation and
  the reason, as the source's wrapped error messages do.
- Two or more records with the same creation time keep store order when
  the store sorts them by creation time. This is a choice of the model
  (see "## Left out"). The sort is stable (`Sorting.SortByIsStable`).
- A lost game reports 4 attempts after 5 guesses. The client reads the
  attempt counter before the last guess is taken off, and adds 1 only for
  a win. `Game.SubmittedAttempts` states this behaviour as written.

## Model

| member | source | states |
|---|---|---|
| `Points.TimeBonus` | backend/models/GameScore.js:74-77 | the time bonus is (300 − time)/10 rounded to nearest, and 0 from 300 seconds on |
| `Points.Scaled` | backend/models/GameScore.js:79-88 | easy keeps the points, hard doubles them, medium multiplies by 1.5 rounded half up |
| `Points.Points` | backend/models/GameScore.js:62-89 | a loss is worth 0; a win is worth at least 100 and, with at least one attempt, at most 440 |
| `Points.ScaledMonotone` | backend/models/GameScore.js:80-85 | the difficulty multiplier preserves the order of point totals |
| `Points.PointsExtremes` | backend/models/GameScore.js:65-88 | the slowest easy win scores exactly 100; a one-attempt instant hard win scores exactly 440 |
| `Points.PointsAntitoneInAttempts` | backend/models/GameScore.js:69-72 | more attempts never earn more points |
| `Points.PointsAntitoneInTime` | backend/models/GameScore.js:74-77 | more time never earns more points |
| `Points.PointsMonotoneInDifficulty` | backend/models/GameScore.js:80-85 | easy ≤ medium ≤ hard for the same game |
| `Records.UserRecords` | backend/models/GameScore.js:94 | a user's records are exactly the store's records with that user id |
| `Records.CountWins` | backend/models/GameScore.js:99 | the win count is at most the number of games, and 0 when nothing was won |
| `Records.BestScore` | backend/models/GameScore.js:103 | the best score bounds every score and is attained; 0 for no games |
| `Records.LastPlayed` | backend/models/GameScore.js:162 | last played bounds every creation time and is attained |
| `Records.CreationOrdersArePreorders` | backend/models/GameScore.js:126 | ordering by creation time, either way, is a total preorder |
| `Records.Chronological` | backend/models/GameScore.js:126 | oldest first: a permutation of the records sorted by creation time ascending |
| `Records.NewestFirst` | backend/services/gameScoreService.js:78-79 | newest first: a permutation of the records sorted by creation time descending |
| `Records.PlayerIds` | backend/services/gameScoreService.js:140 | the distinct user ids are exactly the users with at least one record, each once |
| `Records.CountWinsAppend` | backend/models/GameScore.js:99 | wins of a concatenation add up |
| `Records.TotalScore` | backend/models/GameScore.js:100 | the score total is at least every single game's score |
| `Records.TotalAttempts` | backend/models/GameScore.js:101 | the attempts total is at least every single game's attempts |
| `Records.TotalTime` | backend/models/GameScore.js:102 | the time total is at least every single game's time |
| `Records.TotalsOfOne` | backend/models/GameScore.js:100-102 | the totals of a single game are that game's score, attempts and time |
| `Records.TotalsAppend` | backend/models/GameScore.js:100-102 | score, attempts and time totals of a concatenation add up |
| `Records.CountWinsCons` | backend/models/GameScore.js:99 | wins of a record in front of a sequence add up |
| `Records.CountWinsInsert` | backend/models/GameScore.js:126 | inserting a record into a sequence adds its win, if any |
| `Records.CountWinsSorted` | backend/models/GameScore.js:126 | sorting does not change the win count |
| `Records.ChronologicalKeepsWins` | backend/models/GameScore.js:126-137 | chronological order keeps the number of games and of wins |
| `Streak.TrailingWins` | backend/models/GameScore.js:127-136 | the current streak never exceeds the number of games |
| `Streak.TrailingWinsIsARun` | backend/models/GameScore.js:131-135 | the current streak is a run of wins ending at the last game |
| `Streak.TrailingWinsIsLongestSuffix` | backend/models/GameScore.js:131-135 | no run of wins that ends at the last game is longer than the current streak |
| `Streak.LongestRun` | backend/models/GameScore.js:127-137 | the longest streak is at least the current streak and at most the number of games |
| `Streak.LongestRunIsMaximal` | backend/models/GameScore.js:127-137 | no run of consecutive wins is longer than the longest streak |
| `Streak.LongestRunIsAttained` | backend/models/GameScore.js:127-137 | some run of consecutive wins is exactly as long as the longest streak |
| `Streak.LongestRunCharacterization` | backend/models/GameScore.js:127-137 | the longest streak is the maximum length of a run of consecutive wins |
| `Streak.TrailingWinsAtMostWins` | backend/models/GameScore.js:131-133 | the current streak is at most the number of wins |
| `Streak.LongestRunAtMostWins` | backend/models/GameScore.js:127-137 | longest streak ≤ wins ≤ games |
| `Streak.UserStreak` | backend/models/GameScore.js:126-137 | a user's streak, over their games in creation order, is at most their number of wins, and 0 when they never won |
| `Streak.ScanStreak` | backend/models/GameScore.js:127-137 | the source's loop over the games computes the longest run of consecutive wins |
| `Streak.ExampleStreak` | backend/models/GameScore.js:130-137 | win, win, loss, win gives a longest streak of 2 |
| `Stats.RoundDiv` | backend/models/GameScore.js:143 | `Math.round(n / d)`: the nearest whole number, halves rounded up |
| `Stats.RoundDivMonotone` | backend/models/GameScore.js:143 | rounding a quotient preserves order |
| `Stats.WinRateAtMostHundred` | backend/models/GameScore.js:123 | a rounded win percentage never exceeds 100 |
| `Stats.WinRate` | backend/models/GameScore.js:123 | the win rate is the exact percentage 100·wins/games rounded half up, 0 for no games, at most 100 |
| `Stats.WinRateHalfwayRoundsUp` | backend/models/GameScore.js:123 | 23 wins of 40 games (exactly 57.5 percent) give a win rate of 58 |
| `Stats.RoundedMean` | backend/models/GameScore.js:144-145 | the average is total/count rounded, 0 for no games |
| `Stats.ComputeUserStats` | backend/models/GameScore.js:92-149 | no games gives all zeros; otherwise the counts, score total, win rate and best score come from exactly that user's records, the average time and the average attempts (in tenths) are those totals divided by the games and rounded half up, and the streak is the longest run of wins in creation order |
| `Stats.GetUserStats` | backend/services/gameScoreService.js:48-67 | an unknown user fails with "user not found"; a known user gets their name and exactly their statistics |
| `Sorting.Insert` | backend/models/GameScore.js:230-235 | insertion adds exactly one element |
| `Sorting.ConsKeepsSorted` | backend/models/GameScore.js:230-235 | an element that may precede every element of a sorted sequence can lead it |
| `Sorting.LeadsInsert` | backend/models/GameScore.js:230-235 | a bound below the inserted element and the rest stays below after insertion |
| `Sorting.InsertKeepsSorted` | backend/models/GameScore.js:230-235 | inserting into a sorted sequence keeps it sorted |
| `Sorting.SortBy` | backend/models/GameScore.js:188 | the sort returns a permutation of its input, ordered by the comparison |
| `Sorting.TiedWith` | backend/models/GameScore.js:230-235 | the elements tied with a given one are drawn from the sequence and are all tied with it |
| `Sorting.TiedWithConsTied` | backend/models/GameScore.js:230-235 | a first element tied with the given one stays first among the tied elements |
| `Sorting.TiedWithConsUntied` | backend/models/GameScore.js:230-235 | a first element not tied with the given one is not among the tied elements |
| `Sorting.TiedNotPassed` | backend/models/GameScore.js:230-235 | insertion passes no element tied with the inserted one, as ties are transitive |
| `Sorting.InsertTiedWithAt` | backend/models/GameScore.js:230-235 | the insertion step of stability, by induction over the sequence |
| `Sorting.InsertTiedWith` | backend/models/GameScore.js:230-235 | insertion puts the new element in front of the elements tied with it and keeps the order of the rest |
| `Sorting.SortByIsStable` | backend/models/GameScore.js:230-235 | the sort is stable: elements the comparison cannot tell apart keep their input order |
| `Sorting.Take` | backend/models/GameScore.js:190-192 | `$limit` keeps a prefix of length min(n, size) |
| `Sorting.SortedPrefix` | backend/models/GameScore.js:187-192 | a prefix of a sorted sequence is sorted |
| `Sorting.KeptPrecedeDropped` | backend/models/GameScore.js:187-192 | every element kept by the limit may precede every element it drops |
| `Sorting.DistinctCount` | backend/models/GameScore.js:155-156 | an element of a duplicate-free sequence occurs at most once |
| `Sorting.RepeatCount` | backend/models/GameScore.js:155-156 | an element at two positions occurs at least twice |
| `Sorting.ConsKeepsDistinctBy` | backend/models/GameScore.js:155-156 | a user id not yet present can be put in front without repeating an id |
| `Sorting.PermutationKeepsDistinctBy` | backend/models/GameScore.js:230-235 | reordering keeps user ids distinct |
| `Paging.CeilDiv` | backend/services/gameScoreService.js:89 | `Math.ceil(n / d)`: the fewest pages of `d` items that hold `n` items |
| `Paging.MulMonotone` | backend/services/gameScoreService.js:77 | multiplying by a page size preserves order |
| `Paging.BeforeLastPage` | backend/services/gameScoreService.js:91 | `page < ceil(total/limit)` exactly when `page·limit < total` |
| `Paging.Paginate` | backend/services/gameScoreService.js:86-93 | total pages hold all items with no page to spare; next exists iff more items follow; previous iff page > 1 |
| `Paging.SkipAdvancesByLimit` | backend/services/gameScoreService.js:77 | the offset `Paging.Skip` is 0 for page 1, and each page starts `limit` items after the one before |
| `Paging.Window` | backend/services/gameScoreService.js:77-81 | skip then limit: the items from `skip` on, at most `limit` of them |
| `Paging.PagesArePrefix` | backend/services/gameScoreService.js:77-81 | pages 1 to n together are the first n·limit items, in order and without repeats |
| `Paging.PagesCoverAll` | backend/services/gameScoreService.js:77-93 | reading every page yields every item exactly once |
| `Users.Publish` | backend/services/userService.js:25-26 | the public view keeps every field except the password |
| `Users.CreateUser` | backend/services/userService.js:6-32 | fails iff any user, active or not, has the email; otherwise adds one active user under a fresh id |
| `Users.CreateUserKeepsInvariants` | backend/services/userService.js:11-22 | creation keeps ids consistent and emails unique, and adds a key |
| `Users.GetUserById` | backend/services/userService.js:35-45 | fails iff the id is unknown; otherwise returns the public view |
| `Users.ActiveBelow` | backend/services/userService.js:51 | the active users are exactly the stored users whose flag is set |
| `Users.ActiveBelowIncreasing` | backend/services/userService.js:51 | the active users are listed in increasing id order |
| `Users.IncreasingIdsOnce` | backend/services/userService.js:51 | a listing in increasing id order holds each user once |
| `Users.ActiveNewestFirst` | backend/services/userService.js:51-55 | the active users, newest first |
| `Users.PublishAll` | backend/services/userService.js:52 | every listed user is shown without the password |
| `Users.GetAllUsers` | backend/services/userService.js:48-72 | a page of at most `limit` active users, newest first: the page's slice of the active listing, with the pagination of the active count |
| `Users.UserPagesCoverAll` | backend/services/userService.js:48-72 | reading every reported page in order lists each active user exactly once, newest first |
| `Users.ActiveUserListedOnce` | backend/services/userService.js:51-55 | every active user appears exactly once in the listing |
| `Users.UserPagesAreServed` | backend/services/userService.js:48-72 | every page up to the reported page count is served, holds that slice of the listing, and is not empty |
| `Paging.ReportedPageStartsInside` | backend/services/userService.js:50-65 | every page up to the reported page count starts at an existing item |
| `Users.UpdateUser` | backend/services/userService.js:75-91 | fails iff the id is unknown; otherwise overwrites exactly the given fields (name, email, role, password as given, active flag, creation time) and the update time |
| `Users.UpdateRestoresDeletedUser` | backend/services/userService.js:75-110 | an update that sets the active flag lists a deleted user again |
| `Users.DeleteUser` | backend/services/userService.js:94-110 | soft delete: only the active flag and update time of that user change |
| `Users.DeletedUserStillFetchable` | backend/services/userService.js:35-45 | a deleted user can still be fetched by id, marked inactive |
| `Users.DeletedUserNotListed` | backend/services/userService.js:51 | a deleted user no longer appears in the user list |
| `Users.FindActiveByEmail` | backend/services/userService.js:116 | finds an active user with that email, or reports that none exists |
| `Users.AuthenticateUser` | backend/services/userService.js:113-146 | a session is issued only for an active user whose email matches and whose password checks; token claims are id, email and role |
| `Users.AuthenticationIffCredentialsMatch` | backend/services/userService.js:116-126 | authentication succeeds exactly when such a user exists |
| `Leaderboard.OrdersArePreorders` | backend/models/GameScore.js:188-235 | both leaderboard orders are total preorders |
| `Leaderboard.Summarize` | backend/models/GameScore.js:155-175 | a player's summary: their id, name and email, at least one game, wins at most games, a best score that bounds and is one of their scores and is at most the total, and a last-played time that bounds and is one of their creation times |
| `Leaderboard.JoinPlayers` | backend/models/GameScore.js:155-175 | each summary is a directory user's own summary, and every such user gets one |
| `Leaderboard.JoinKeepsDistinct` | backend/models/GameScore.js:155-175 | grouping by user yields one summary per user |
| `Leaderboard.Candidates` | backend/models/GameScore.js:153-186 | the candidates are exactly the directory users with games, each once, with their own totals |
| `Leaderboard.Selected` | backend/models/GameScore.js:187-189 | phase 1 is a permutation of the candidates sorted by best score, then wins, then win rate |
| `Leaderboard.Shortlist` | backend/models/GameScore.js:187-192 | the shortlist holds min(limit, candidates) distinct players in phase-1 order |
| `Leaderboard.ShortlistKeepsTheBest` | backend/models/GameScore.js:187-192 | every shortlisted player is a candidate and may precede every candidate left out |
| `Leaderboard.RoomForEveryone` | backend/models/GameScore.js:190-192 | with a limit of at least the number of candidates, nobody is left out |
| `Leaderboard.WithStreaks` | backend/models/GameScore.js:209-227 | each row gets its own user's longest streak |
| `Leaderboard.AssignRanks` | backend/models/GameScore.js:237-240 | row i gets rank i + 1 |
| `Leaderboard.StandingsOf` | backend/models/GameScore.js:237-242 | rows without ranks, in order |
| `Leaderboard.GetLeaderboard` | backend/models/GameScore.js:152-243 | min(limit, candidates) rows ranked 1, 2, …, ordered by streak, then wins, and a permutation of the shortlisted players with their streaks |
| `Leaderboard.TiesKeepShortlistOrder` | backend/models/GameScore.js:230-235 | players with the same streak and the same wins keep, on the board, the order the shortlist gave them |
| `Leaderboard.RowsComeFromShortlist` | backend/models/GameScore.js:209-235 | each row is a shortlisted player with their own streak |
| `Leaderboard.RowIsPlayerRow` | backend/models/GameScore.js:152-243 | each row carries its user's name, email, games, wins, total and best score, last play and streak |
| `Leaderboard.RowsArePlayerRows` | backend/models/GameScore.js:152-243 | every row is its user's true row |
| `Leaderboard.RowsHaveDistinctUsers` | backend/models/GameScore.js:155-156 | no user appears in two rows |
| `Leaderboard.ShortlistedIsOnBoard` | backend/models/GameScore.js:209-242 | re-ranking loses nobody from the shortlist |
| `Leaderboard.MembersOutrankTheRest` | backend/models/GameScore.js:187-192 | every player on the board beats, in phase-1 order, every candidate not on it |
| `Leaderboard.StreakDecidesRank` | backend/models/GameScore.js:230-240 | on a ranked board, a longer streak means a smaller rank number |
| `Leaderboard.LongerStreakRanksHigher` | backend/models/GameScore.js:229-240 | on the leaderboard, a longer streak means a better rank |
| `ScoreService.NewRecord` | backend/services/gameScoreService.js:28-39 | the record carries the submitting user, the outcome and the clock reading |
| `ScoreService.RecordGameScore` | backend/services/gameScoreService.js:6-45 | fails iff the user is unknown or attempts < 1; otherwise appends exactly one record with the defaults number_guessing, medium and no hints |
| `ScoreService.UserRecordsAppend` | backend/services/gameScoreService.js:28-39 | appending a record extends only its own user's records |
| `ScoreService.RecordingTouchesOnlyThePlayer` | backend/services/gameScoreService.js:6-45 | recording adds one game, its win and its score to the player and leaves every other player's statistics unchanged |
| `ScoreService.NewestPage` | backend/services/gameScoreService.js:77-81 | a page is the newest-first records from `skip` on, at most `limit` of them |
| `ScoreService.GetUserGameHistory` | backend/services/gameScoreService.js:70-98 | fails for unknown users and page or limit below 1; otherwise returns the requested newest-first page of that user's games with the pagination |
| `ScoreService.HistoryPagesCoverAllGames` | backend/services/gameScoreService.js:70-98 | paging through the history shows each of the user's games exactly once |
| `ScoreService.SecondOfTwoPages` | backend/services/gameScoreService.js:77-93 | 25 games, page 2 of 20: five games, two pages, no next page, a previous page |
| `ScoreService.GetLeaderboard` | backend/services/gameScoreService.js:101-108 | a limit below 1 is refused; otherwise the two-phase leaderboard's first min(limit, players) rows, ranked in order |
| `ScoreService.FindEntry` | backend/services/gameScoreService.js:125 | finds the user's row on the board, or reports that there is none |
| `ScoreService.GetUserRank` | backend/services/gameScoreService.js:111-135 | unknown users fail; a user with no games gets no rank; otherwise their row among the first 1000, or no rank if they are below it |
| `ScoreService.PlayersAreRankedBelowTheCap` | backend/services/gameScoreService.js:119-131 | with at most 1000 players, every player gets a rank carrying their game count and streak |
| `ScoreService.BestStreak` | backend/services/gameScoreService.js:157-175 | the global streak bounds every player's streak and is attained |
| `ScoreService.GetLeaderboardStats` | backend/services/gameScoreService.js:138-191 | counts of players, games and wins, the rounded win rate, a top score that bounds every score and is attained, the average score, attempts (in tenths) and time over all games rounded half up, zeros for an empty store, and the best streak |
| `ScoreService.GlobalStreakIsBestPlayerStreak` | backend/services/gameScoreService.js:156-175 | the global streak is the maximum of the per-player streaks |
| `ScoreValidation.Rule` | backend/routes/gameScoreRoutes.js:9-42 | a rule errs exactly when some checked value fails, with that rule's message only |
| `ScoreValidation.RuleOver` | backend/routes/gameScoreRoutes.js:9-42 | an array gets one error per failing element |
| `ScoreValidation.ValidateGameScore` | backend/routes/gameScoreRoutes.js:9-42 | the rule list reports no error exactly when every field passes its checks |
| `ScoreValidation.MissingFailsRule` | backend/routes/gameScoreRoutes.js:10-12 | an absent field reads as the empty string, so a rule refusing it reports exactly one error |
| `ScoreValidation.GameTypeRequired` | backend/routes/gameScoreRoutes.js:10-12 | a missing game type fails with the game-type message first |
| `ScoreValidation.NullIsNotAbsent` | backend/routes/gameScoreRoutes.js:38-41 | absent hints pass, but null hints fail with "Hints must be an array" |
| `ScoreValidation.NoExponentMark` | backend/routes/gameScoreRoutes.js:14-15 | digits contain no exponent mark |
| `ScoreValidation.RenderedNatChecks` | backend/routes/gameScoreRoutes.js:13-19 | a rendered whole number passes `NumericText` (`isNumeric`) and `NonNegativeFloat` (`isFloat({ min: 0 })`), and `PositiveIntText` (`isInt({ min: 1 })`) iff it is ≥ 1 |
| `ScoreValidation.RenderedIntIsNumeric` | backend/routes/gameScoreRoutes.js:30-37 | every rendered integer is numeric |
| `ScoreValidation.IntegerAcceptedIffNonNegative` | backend/routes/gameScoreRoutes.js:13-16 | a rendered integer passes the score rule iff it is ≥ 0 |
| `ScoreValidation.IntegerAttemptsIffPositive` | backend/routes/gameScoreRoutes.js:17-19 | a rendered integer passes the attempts rule iff it is ≥ 1 |
| `ScoreValidation.PositiveIntHasPositiveValue` | backend/routes/gameScoreRoutes.js:18 | text that passes the attempts rule has a value of at least 1 |
| `ScoreValidation.NonZeroNumeral` | backend/routes/gameScoreRoutes.js:18 | digits with a non-zero digit have a value of at least 1 |
| `ScoreValidation.ExponentNotationIsNotNumeric` | backend/routes/gameScoreRoutes.js:13-16 | "1e3" passes the float check (`FloatText`, `NonNegativeFloat`) but fails the numeric check (`NumericText`) |
| `ScoreValidation.MinusZeroIsNonNegative` | backend/routes/gameScoreRoutes.js:13-19 | "-0" passes the score rule but fails the attempts rule |
| `ScoreValidation.SingleEach` | backend/routes/gameScoreRoutes.js:9-42 | a single value passes a rule iff its string form does |
| `ScoreValidation.NamePasses` | backend/routes/gameScoreRoutes.js:10-26 | a listed name passes its membership rule |
| `ScoreValidation.RenderedPasses` | backend/routes/gameScoreRoutes.js:13-37 | rendered integers pass the rule tests `IsNumeric`, `IsNonNegativeFloat` and `IsPositiveInt` in their ranges |
| `ScoreValidation.BooleanPasses` | backend/routes/gameScoreRoutes.js:27-29 | a JSON boolean passes the boolean rule (`IsBoolean`, the strict `BooleanText`) |
| `ScoreValidation.RenderedBodyPasses` | backend/routes/gameScoreRoutes.js:9-42 | a body with listed names, in-range integers, a boolean and an array of hints passes every rule |
| `UserValidation.CountedLength` | backend/middleware/validation.js:9 | `isLength` counts characters other than variation selectors |
| `UserValidation.FirstLine` | backend/middleware/validation.js:24 | the text `.` can cover from the start, up to the first line terminator |
| `UserValidation.Check` | backend/middleware/validation.js:4-31 | a rule errs iff its condition fails |
| `UserValidation.NameErrors` | backend/middleware/validation.js:5-12 | the name rules report nothing exactly when the trimmed name has 2 to 50 counted characters, all allowed |
| `UserValidation.EmailErrors` | backend/middleware/validation.js:14-19 | the email rules report nothing exactly when the address is an email and its normal form has at most 100 counted characters |
| `UserValidation.PasswordErrors` | backend/middleware/validation.js:21-25 | the password rules report nothing exactly when it has 6 to 128 counted characters and a lower-case letter and a digit before any line break |
| `UserValidation.ValidateRegistration` | backend/middleware/validation.js:4-31 | registration reports no error exactly when every field passes its checks |
| `UserValidation.BlankNameIsMissing` | backend/middleware/validation.js:5-12 | a blank name fails all three name rules, in order and ahead of every other error, since it is trimmed first |
| `UserValidation.LineBreakHidesDigit` | backend/middleware/validation.js:24 | a digit after a line break does not satisfy the password rule |
| `UserValidation.DigitOnFirstLineCounts` | backend/middleware/validation.js:24 | a lower-case letter and a digit on the first line do satisfy it |
| `UserValidation.ValidateLogin` | backend/middleware/validation.js:34-43 | login reports no error exactly when the email is valid and the password is non-empty |
| `UserValidation.RegistrationPasswordsLogIn` | backend/middleware/validation.js:21-43 | whatever registration accepts, login accepts |
| `UserValidation.RoleErrors` | backend/middleware/validation.js:27-30 | an absent role passes; a given one passes iff it is "user" or "admin", and fails with the role message otherwise |
| `UserValidation.ValidateUpdate` | backend/middleware/validation.js:46-63 | update reports no error exactly when every given field passes its checks |
| `UserValidation.UpdateIsLenient` | backend/middleware/validation.js:46-63 | an empty update passes, and update accepts whatever registration accepts |
| `UserValidation.PlainNameLength` | backend/middleware/validation.js:48 | a name without whitespace or variation selectors is counted one per character after trimming |
| `UserValidation.UpdateCountsPlainNames` | backend/middleware/validation.js:47-51 | such a name of 2 to 50 characters passes update |
| `UserValidation.UpdateSkipsNameCharacters` | backend/middleware/validation.js:47-51 | update accepts such names even with a character registration's character rule refuses |
| `Text.FirstIndex` | backend/middleware/validation.js:24 | the first position that satisfies the test, or the length |
| `Text.TrimStart` | backend/middleware/validation.js:6 | drops exactly the leading whitespace |
| `Text.TrimEnd` | backend/middleware/validation.js:6 | drops exactly the trailing whitespace |
| `Text.Trim` | backend/middleware/validation.js:6 | no whitespace at either end of the result |
| `Text.TrimIsSlice` | backend/middleware/validation.js:6 | the result is a slice of the input |
| `Text.TrimBlank` | backend/middleware/validation.js:6 | text of nothing but whitespace trims to the empty string |
| `Text.TrimIdempotent` | backend/middleware/validation.js:6 | trimming twice is trimming once |
| `Text.TrimKeepsNonSpace` | backend/middleware/validation.js:6 | text without whitespace is unchanged by trimming |
| `Text.Utf16Length` | frontend/src/pages/SignupPage.jsx:45 | `.length` counts UTF-16 units: between one and two per character, one each inside the Basic Multilingual Plane |
| `Text.Utf16LengthAppend` | frontend/src/pages/SignupPage.jsx:57 | appending a character adds at least one unit |
| `Text.DigitOf` | frontend/src/contexts/GameContext.jsx:78 | a character's digit value is below 10 exactly for decimal digits |
| `Text.DigitRun` | frontend/src/contexts/GameContext.jsx:78 | the longest prefix of digits |
| `Text.DigitChar` | frontend/src/contexts/GameContext.jsx:61 | the digit character of a value below 10 |
| `Text.ShowNat` | frontend/src/contexts/GameContext.jsx:61 | decimal rendering: non-empty digits without a leading zero |
| `Text.ShowNatRoundTrip` | frontend/src/contexts/GameContext.jsx:61 | the rendered digits read back as the number |
| `Text.ShowInt` | frontend/src/contexts/GameContext.jsx:61 | a negative number renders as a minus sign and its magnitude |
| `Text.ParseInt` | frontend/src/contexts/GameContext.jsx:78 | `parseInt` gives a number only if the input has a digit |
| `Text.ParseShowRoundTrip` | frontend/src/contexts/GameContext.jsx:78 | `parseInt` reads back every rendered integer |
| `Text.DigitRunOfNumeral` | frontend/src/contexts/GameContext.jsx:78 | a string of digits is its own digit run |
| `Game.FeedbackText` | frontend/src/contexts/GameContext.jsx:82-128 | the feedback shown is empty only in the idle state (before the first game or after a reset); the range, win, game-over and too-high or too-low messages all show text |
| `Game.InitialIsWf` | frontend/src/contexts/GameContext.jsx:17-27 | the initial state satisfies the game invariant |
| `Game.StartNewGame` | frontend/src/contexts/GameContext.jsx:29-42 | a new game is playing, with 5 of 5 attempts, no history, the drawn target and the start time |
| `Game.ResetGame` | frontend/src/contexts/GameContext.jsx:141-153 | reset returns to idle with no target, no start time and full attempts |
| `Game.ElapsedSeconds` | frontend/src/contexts/GameContext.jsx:49 | the elapsed seconds are the millisecond difference divided by 1000, rounded half up; not negative when the clock did not go back, negative when it went back more than half a second |
| `Game.ClientScore` | frontend/src/contexts/GameContext.jsx:54 | the score is 0 for a loss and never negative; at most 100 when the time is not negative, and above 100 for a first-guess win with ten or more negative seconds |
| `Game.ClientScoreAntitone` | frontend/src/contexts/GameContext.jsx:54 | more attempts or more time never score more |
| `Game.Hints` | frontend/src/contexts/GameContext.jsx:61 | one "Attempt a: g" line per guess, in order |
| `Game.Record` | frontend/src/contexts/GameContext.jsx:45-62 | a signed-in player with a start time other than 0 submits the attempts used, the score, the outcome, the guess, the rounded elapsed seconds and one hint per earlier guess |
| `Game.ReadGuess` | frontend/src/contexts/GameContext.jsx:78-79 | a guess is accepted exactly when `parseInt` reads a number from 1 to 20 |
| `Game.TypedNumberIsRead` | frontend/src/contexts/GameContext.jsx:78-79 | typing a number reads back as that guess exactly when it is in range |
| `Game.Advance` | frontend/src/contexts/GameContext.jsx:87-138 | a guess uses one attempt and adds one history entry; the game is won iff the guess is the target, lost iff it misses with one attempt left, and a game still in play submits nothing and leaves the counters alone |
| `Game.MakeGuess` | frontend/src/contexts/GameContext.jsx:75-139 | outside play nothing changes; an unreadable guess only sets the range message; a readable one takes a turn |
| `Game.BadGuessOnlyChangesFeedback` | frontend/src/contexts/GameContext.jsx:79-85 | an out-of-range or non-numeric guess changes only the feedback |
| `Game.GuessUsesOneAttempt` | frontend/src/contexts/GameContext.jsx:87-88 | a guess uses one attempt and is appended with its attempt number |
| `Game.GuessOutcome` | frontend/src/contexts/GameContext.jsx:93-129 | the right number wins, the last wrong guess loses, other guesses say too high or too low with the attempts left |
| `Game.ExtendedHistory` | frontend/src/contexts/GameContext.jsx:87-88 | after a guess the history stays numbered 1, 2, ... and in range, and every earlier guess missed |
| `Game.AdvanceKeepsWf` | frontend/src/contexts/GameContext.jsx:87-138 | a valid guess keeps the game invariant |
| `Game.MakeGuessKeepsWf` | frontend/src/contexts/GameContext.jsx:75-139 | every guess keeps the game invariant |
| `Game.SubmittedAttempts` | frontend/src/contexts/GameContext.jsx:45-62 | a finished game is submitted iff someone is signed in and the start time is not 0; the score is at most 100 when the time is not negative; a win reports all guesses, a loss reports one fewer (4) with score 0 |
| `Game.SubmissionShape` | frontend/src/contexts/GameContext.jsx:49-55 | a submission has a score of at least 0, at least one attempt, a target, and the rounded elapsed seconds as its time |
| `Game.AfterWin` | frontend/src/contexts/GameContext.jsx:101-110 | a win extends the current streak, never lowers the longest streak and keeps it at least the current one, and counts one more game and one more win |
| `Game.AfterLoss` | frontend/src/contexts/GameContext.jsx:119-124 | a loss resets the current streak, keeps the longest streak and the wins, and counts one more game |
| `Game.PlayerCounters` | frontend/src/contexts/GameContext.jsx:100-124 | a win increments streak, games and wins and raises the longest streak; a loss resets the streak and counts a game |
| `Game.CountersStayConsistent` | frontend/src/contexts/GameContext.jsx:100-124 | the player counters stay consistent: streak ≤ longest ≤ wins ≤ games |
| `Game.SubmissionsPassValidation` | frontend/src/contexts/GameContext.jsx:45-62 | a body the game posts passes the server's score rules exactly when its time is not negative, so always when the clock did not go back |
| `Game.BodyPassesIffTimeNotNegative` | backend/routes/gameScoreRoutes.js:9-42 | with a score of at least 0, an attempt and a target, only a negative time fails the rules |
| `Game.NegativeTimeRejected` | backend/routes/gameScoreRoutes.js:20-23 | a negative time fails the rules |
| `Game.ClockSetBackOverscores` | frontend/src/contexts/GameContext.jsx:49-54 | a first-guess win with the clock set back 20 seconds scores 102, and the server rejects the body |
| `Game.SubmissionsAreRecorded` | frontend/src/contexts/GameContext.jsx:45-64 | a finished game of a directory user that passes the rules is stored with the client's score, attempts and time |
| `Forms.ShapedMatches` | frontend/src/pages/SignupPage.jsx:51 | a shortest match is a match of the email pattern |
| `Forms.MatchIsShaped` | frontend/src/pages/SignupPage.jsx:51 | any match of the email pattern contains a shortest match |
| `Forms.EmailShapedIsThePattern` | frontend/src/pages/SignupPage.jsx:51 | the forms' email test is exactly "some substring matches `\S+@\S+\.\S+`" |
| `Forms.NeedsAtAndDot` | frontend/src/pages/SignupPage.jsx:51 | text without an `@` or without a `.` never passes |
| `Forms.EmailExamples` | frontend/src/pages/SignupPage.jsx:51 | "a@b.c", "x y@b.c z" and "a@b@c.d" pass; "a@b" does not |
| `Forms.Points` | frontend/src/pages/SignupPage.jsx:75-80 | at most five strength points |
| `Forms.PasswordStrength` | frontend/src/pages/SignupPage.jsx:71-91 | an empty password has strength 0 and no label; otherwise the points earned and the label of min(points, 4) |
| `Forms.StrengthGrows` | frontend/src/pages/SignupPage.jsx:75-80 | typing another character never lowers the strength |
| `Forms.StrongestPasswords` | frontend/src/pages/ResetPasswordPage.jsx:54-74 | full strength takes 8 units, an upper-case letter, a digit and a symbol; 4 and 5 both read "Strong" |
| `Forms.SixLettersAreWeak` | frontend/src/pages/SignupPage.jsx:71-91 | "abcdef" rates 1, "Weak" |
| `Forms.Note` | frontend/src/pages/SignupPage.jsx:41-66 | adding an error touches only that field |
| `Forms.NameMessage` | frontend/src/pages/SignupPage.jsx:43-47 | a name errs iff it is shorter than 2 units, "required" when empty |
| `Forms.EmailMessage` | frontend/src/pages/SignupPage.jsx:49-53 | an email errs iff it fails the pattern, "required" when empty |
| `Forms.NewPasswordMessage` | frontend/src/pages/SignupPage.jsx:55-59 | a password errs iff it is shorter than 6 units, "required" when empty |
| `Forms.ConfirmMessage` | frontend/src/pages/SignupPage.jsx:61-65 | confirmation errs iff it is empty or differs |
| `Forms.SignupErrors` | frontend/src/pages/SignupPage.jsx:40-69 | the sign-up errors never include a general error |
| `Forms.SignupErrorsIffInvalid` | frontend/src/pages/SignupPage.jsx:40-69 | no sign-up errors exactly when the form is valid, and each field errs exactly when its condition fails |
| `Forms.LoginErrors` | frontend/src/pages/LoginPage.jsx:37-52 | login errors concern only email and password |
| `Forms.LoginErrorsIffInvalid` | frontend/src/pages/LoginPage.jsx:37-52 | no login errors exactly when the email is well formed and the password non-empty |
| `Forms.ResetErrors` | frontend/src/pages/ResetPasswordPage.jsx:35-52 | reset errors concern only the two password fields |
| `Forms.ResetErrorsIffInvalid` | frontend/src/pages/ResetPasswordPage.jsx:35-52 | no reset errors exactly when the password has 6 units and the confirmation matches |
| `Forms.SignupIsStrictest` | frontend/src/pages/LoginPage.jsx:37-52 | whatever sign-up accepts, reset and login accept |
| `Forms.SubmitSignup` | frontend/src/pages/SignupPage.jsx:93-99 | sign-up is requested, with the form's name, email and password, exactly when the form is valid |
| `Forms.SubmitLogin` | frontend/src/pages/LoginPage.jsx:54-60 | login is requested exactly when the form is valid |
| `Forms.AfterReply` | frontend/src/pages/SignupPage.jsx:100-106 | success goes to the dashboard; failure shows only a general error |
| `Forms.SubmitReset` | frontend/src/pages/ResetPasswordPage.jsx:76-93 | the simulated reset starts exactly when the form is valid and ends on the login page |
| `Forms.Set` | frontend/src/pages/SignupPage.jsx:27-30 | setting a field changes only that field |
| `Forms.HandleChange` | frontend/src/pages/SignupPage.jsx:25-38 | typing stores the value and blanks only that field's error |
| `Forms.SubmitForgot` | frontend/src/pages/ForgotPasswordPage.jsx:15-36 | a malformed email sets exactly the email error; a well-formed one clears errors and starts loading |
| `Forms.RequestDone` | frontend/src/pages/ForgotPasswordPage.jsx:32-35 | the finished request stops loading and shows success |
| `Forms.EditForgot` | frontend/src/pages/ForgotPasswordPage.jsx:130-133 | typing clears every error if the email showed one |
| `Forms.ForgotAgreesWithLogin` | frontend/src/pages/ForgotPasswordPage.jsx:18-26 | the forgotten-password page rejects exactly the emails login rejects, with the same message |
| `Forms.ForgotReachesSuccess` | frontend/src/pages/ForgotPasswordPage.jsx:15-36 | a well-formed email leads to success without errors |
| `Forms.NoDigitFailsRegistration` | backend/middleware/validation.js:21-25 | every password (or missing password) without a digit fails registration |
| `Forms.BlankNameFailsRegistration` | backend/middleware/validation.js:5-10 | every name (or missing name) made only of white space fails registration |
| `Forms.LettersOnlyPasswordRefused` | backend/middleware/validation.js:21-25 | registration refuses the letters-only password "abcdef" |
| `Forms.SpacesNameRefused` | backend/middleware/validation.js:5-10 | registration refuses the name of two spaces |
| `Forms.PageLooserThanServer` | frontend/src/pages/SignupPage.jsx:40-69 | the sign-up page accepts forms that registration refuses |

## Left out

- Database plumbing is left out: queries, indexes, ObjectIds and `populate`. The store is a sequence of records plus a map of users.
- Hashed password comparison is a parameter. `bcrypt` is not modelled.
- JWT signing and expiry are left out. A session carries only its claims.
- The validator library's `isEmail` and `normalizeEmail` are parameters. They are not modelled.
- The HTTP layer is left out: controllers, routes other than score validation, the rate limiter, the response helpers, and the middleware that turns errors into responses.
- The client's API calls and `localStorage` are left out, and so is the React rendering.
- `Math.random` and `Date.now` become parameters.
- Concurrency between requests is left out. Each operation works on one snapshot.
- The User schema and its hooks are left out, except the fields the services read.
- Records.Chronological: records with the same creation time keep store order. The store's `sort({ createdAt: 1 })` leaves the order of such ties unspecified, and that order can change a streak when a win and a loss share a timestamp. The model fixes one order; the source promises none.
- Records.NewestFirst: records with the same creation time keep store order, where the store's `sort({ createdAt: -1 })` leaves their order, and so the page they land on, unspecified.
- Users.ActiveNewestFirst: users created at the same time keep id order, where the store's `sort({ createdAt: -1 })` leaves their order, and so the page they land on, unspecified.
- Leaderboard.Selected: players tied on best score, wins and win rate keep candidate order, where the store's `$sort` leaves their order, and so which of them the limit keeps, unspecified. Only the second-phase sort, a JavaScript array sort, is guaranteed stable.
- Stats.WinRate: the win rate is the exact percentage rounded half up. The source divides in floating point and then multiplies by 100, and a percentage that is exactly halfway can come out just below it and round one lower: 23 wins of 40 games give 57 there and 58 here.
- Stats.ComputeUserStats: the win rate is `Stats.WinRate`, with the halfway deviation stated there. Averages are the exact mean rounded half up, not the floating-point mean rounded. The average attempts, given to one decimal by the source, is kept as a whole number of tenths.
- Leaderboard.GetLeaderboard: the rows omit the `winRate` and `averageAttempts` fields, which the source rounds to one decimal with `$round`. The win-rate tie-break uses the exact fraction, where the store compares floating-point values.
- ScoreService.GetLeaderboardStats: the win rate is `Stats.WinRate`, with the halfway deviation stated there. The average score, attempts and time are the exact mean rounded half up, not the floating-point mean rounded. The average attempts is kept as a whole number of tenths.
- ScoreService.GetUserGameHistory: a limit below 1 is reported as a failure. The controller turns a missing, unreadable or zero limit into 20, so what reaches the service below 1 is a negative limit. The source then behaves differently. On page 1 the store serves up to |limit| games, since a negative limit there means "at most that many, in one batch", and `Math.ceil(total / limit)` reports 0 pages or fewer. From page 2 on the skip is negative and the store refuses the query.
- Users.GetAllUsers: a limit below 1 is reported as a failure. For a negative limit the source serves up to |limit| users on page 1 with 0 pages or fewer reported, and is refused by the store from page 2 on, as for the game history.
- ScoreService.RecordGameScore: score, attempts and time are whole numbers. Fractional values are not modelled.
- ScoreValidation.ValidateGameScore: numbers are given as the text the validator sees. How JavaScript renders numbers of 10^21 and above in exponent form, and how `isFloat` reads a negative value that underflows to -0, are not modelled.
- ScoreValidation.ValidateGameScore: nested arrays and objects inside an array field are not modelled.
- UserValidation.ValidateRegistration: only string fields are modelled. A non-string JSON value is treated like an absent field.
- UserValidation.ValidateLogin: only string fields are modelled. The source's `notEmpty` checks a number such as 123 as its text, so that password passes there; here it is an absent field and fails.
- UserValidation.ValidateUpdate: only string fields are modelled. The source's `optional()` skips only a missing field: a JSON `null` is checked as the empty string, so a `null` name fails the length rule there. Here `null` is an absent field and passes.
- Users.UpdateUser: the schema validators that `runValidators` runs are not modelled, and neither is an update that names the id. A password in the update is stored as given, because no save hook runs.
- Users.UpdateUser: email uniqueness is not checked on update. The source does not check it either, apart from a schema index that is not part of this model.
- Forms: the login and reset pages reuse the sign-up form's record and leave their unused fields empty. The displayed colours of the strength meter are not modelled.
