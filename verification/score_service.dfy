/**
 * The game-score service: recording a finished game, a user's paginated
 * history, the leaderboard and a user's place on it, and the global
 * statistics. Every query reads one store snapshot; a recorded game is
 * appended to it.
 */
module ScoreService {
  import opened Wrappers
  import opened Failures
  import opened Paging
  import opened Users
  import opened Records
  import opened Streak
  import opened Stats
  import Leaderboard

  /**
   * A submission as the route passes it on. Absent optional fields take the
   * store's defaults: number guessing, medium, no hints.
   */
  datatype GameData = GameData(
    userId: UserId,
    gameType: Option<GameType>,
    score: nat,
    attempts: nat,
    timeSpent: nat,
    difficulty: Option<Difficulty>,
    isWin: bool,
    targetNumber: Option<int>,
    guessedNumber: Option<int>,
    hints: Option<seq<string>>)

  /** The record a submission becomes when appended as record number `id` at time `now`. */
  function NewRecord(data: GameData, id: nat, now: int): (r: GameRecord)
    ensures r.userId == data.userId && r.isWin == data.isWin && r.createdAt == now
  {
    GameRecord(id, data.userId, data.gameType.GetOr(NumberGuessing), data.score, data.attempts, data.timeSpent,
               data.difficulty.GetOr(Medium), data.isWin, data.targetNumber, data.guessedNumber,
               data.hints.GetOr([]), now)
  }

  /**
   * `recordGameScore`: unknown users are refused; the store refuses a game
   * with no attempts (its schema wants at least one); otherwise the record
   * is appended and returned.
   */
  function RecordGameScore(store: Store, data: GameData, now: int): (res: Result<(Store, GameRecord), Error>)
    ensures res.Failure? <==> data.userId !in store.directory.users || data.attempts < 1
    ensures res.Failure? ==> res.error.context == RecordingScore
    ensures res.Failure? && data.userId !in store.directory.users ==> res.error.reason == UserNotFound
    ensures res.Failure? && data.userId in store.directory.users ==> res.error.reason == StoreRejected
    ensures res.Success? ==>
      var (after, r) := res.value;
      && after.directory == store.directory
      && after.records == store.records + [r]
      && r.id == |store.records| && r.userId == data.userId && r.createdAt == now
      && r.score == data.score && r.attempts == data.attempts && r.timeSpent == data.timeSpent
      && r.isWin == data.isWin
      && r.targetNumber == data.targetNumber && r.guessedNumber == data.guessedNumber
      && (r.gameType == if data.gameType.Some? then data.gameType.value else NumberGuessing)
      && (r.difficulty == if data.difficulty.Some? then data.difficulty.value else Medium)
      && (r.hints == if data.hints.Some? then data.hints.value else [])
  {
    if data.userId !in store.directory.users then Failure(Error(RecordingScore, UserNotFound))
    else if data.attempts < 1 then Failure(Error(RecordingScore, StoreRejected))
    else
      var r := NewRecord(data, |store.records|, now);
      Success((Store(store.records + [r], store.directory), r))
  }

  lemma UserRecordsAppend(records: seq<GameRecord>, r: GameRecord, v: UserId)
    ensures UserRecords(records + [r], v) == if r.userId == v then UserRecords(records, v) + [r] else UserRecords(records, v)
  {
    assert (records + [r])[..|records|] == records;
  }

  /**
   * Recording a game adds exactly that game to its player's records, one
   * game (and one win if it was won) and the game's score to their totals,
   * and leaves every other user's statistics as they were.
   */
  lemma RecordingTouchesOnlyThePlayer(store: Store, data: GameData, now: int, v: UserId)
    requires RecordGameScore(store, data, now).Success?
    ensures var (after, r) := RecordGameScore(store, data, now).value;
      && (v == data.userId ==> UserRecords(after.records, v) == UserRecords(store.records, v) + [r])
      && (v == data.userId ==> ComputeUserStats(after.records, v).totalGames == ComputeUserStats(store.records, v).totalGames + 1)
      && (v == data.userId ==> ComputeUserStats(after.records, v).totalWins
                               == ComputeUserStats(store.records, v).totalWins + (if data.isWin then 1 else 0))
      && (v == data.userId ==> ComputeUserStats(after.records, v).totalScore
                               == ComputeUserStats(store.records, v).totalScore + data.score)
      && (v != data.userId ==> ComputeUserStats(after.records, v) == ComputeUserStats(store.records, v))
  {
    var (after, r) := RecordGameScore(store, data, now).value;
    UserRecordsAppend(store.records, r, v);
    if v == data.userId {
      CountWinsAppend(UserRecords(store.records, v), [r]);
      assert CountWins([r]) == if r.isWin then 1 else 0 by {
        assert [r][..0] == [];
      }
      TotalsAppend(UserRecords(store.records, v), [r]);
      TotalsOfOne(r);
    }
  }

  /** One page of a user's games, newest first, and where it sits. */
  datatype History = History(games: seq<GameRecord>, pagination: Pagination)

  /** The games of `rs`, newest first, from position `skip` on, at most `limit` of them. */
  function NewestPage(rs: seq<GameRecord>, skip: nat, limit: nat): (games: seq<GameRecord>)
    ensures |games| == Max(0, Min(limit, |rs| - skip))
    ensures forall g :: g in games ==> g in rs
    ensures forall i, j :: 0 <= i < j < |games| ==> games[i].createdAt >= games[j].createdAt
    ensures forall k :: 0 <= k < |games| ==> games[k] == NewestFirst(rs)[skip + k]
  {
    var mine := NewestFirst(rs);
    var games := Window(mine, skip, limit);
    assert forall g :: g in games ==> g in multiset(mine);
    games
  }

  /**
   * `getUserGameHistory`: unknown users fail; a page before the first
   * (negative skip) or a limit below one is refused by the store; otherwise
   * the `page`-th block of `limit` games of the user, newest first.
   */
  function GetUserGameHistory(store: Store, u: UserId, page: int, limit: int): (res: Result<History, Error>)
    ensures res.Failure? <==> u !in store.directory.users || page < 1 || limit < 1
    ensures res.Failure? ==> res.error.context == FetchingHistory
    ensures res.Failure? && u !in store.directory.users ==> res.error.reason == UserNotFound
    ensures res.Failure? && u in store.directory.users ==> res.error.reason == StoreRejected
    ensures res.Success? ==>
      var h := res.value;
      var total := |UserRecords(store.records, u)|;
      && h.games == NewestPage(UserRecords(store.records, u), Skip(page, limit), limit)
      && (forall g :: g in h.games ==> g in store.records && g.userId == u)
      && h.pagination.currentPage == page
      && h.pagination.totalItems == total
      && h.pagination.totalPages == CeilDiv(total, limit)
      && (h.pagination.hasNext <==> page * limit < total)
      && (h.pagination.hasPrev <==> page > 1)
  {
    if u !in store.directory.users then Failure(Error(FetchingHistory, UserNotFound))
    else if page < 1 || limit < 1 then Failure(Error(FetchingHistory, StoreRejected))
    else
      var rs := UserRecords(store.records, u);
      Success(History(NewestPage(rs, Skip(page, limit), limit), Paginate(|rs|, page, limit)))
  }

  /** Reading every page in turn returns each of the user's games once, newest first. */
  lemma HistoryPagesCoverAllGames(store: Store, u: UserId, limit: int)
    requires u in store.directory.users && limit >= 1
    ensures var mine := NewestFirst(UserRecords(store.records, u));
      Pages(mine, limit, CeilDiv(|mine|, limit)) == mine
    ensures forall page :: 1 <= page <= CeilDiv(|UserRecords(store.records, u)|, limit) ==>
      GetUserGameHistory(store, u, page, limit).Success?
      && GetUserGameHistory(store, u, page, limit).value.games
         == Window(NewestFirst(UserRecords(store.records, u)), Skip(page, limit), limit)
  {
    PagesCoverAll(NewestFirst(UserRecords(store.records, u)), limit);
    forall page | 1 <= page <= CeilDiv(|UserRecords(store.records, u)|, limit)
      ensures GetUserGameHistory(store, u, page, limit).value.games
              == Window(NewestFirst(UserRecords(store.records, u)), Skip(page, limit), limit)
    {
      var rs := UserRecords(store.records, u);
      assert NewestPage(rs, Skip(page, limit), limit) == Window(NewestFirst(rs), Skip(page, limit), limit);
    }
  }

  /** Twenty-five games read twenty at a time: the second page holds five and is the last. */
  lemma SecondOfTwoPages(store: Store, u: UserId)
    requires u in store.directory.users && |UserRecords(store.records, u)| == 25
    ensures var h := GetUserGameHistory(store, u, 2, 20);
      && h.Success?
      && |h.value.games| == 5
      && h.value.pagination == Pagination(2, 2, 25, false, true)
  {
  }

  /** `getLeaderboard`: the store refuses a limit below one. */
  function GetLeaderboard(store: Store, limit: int): (res: Result<seq<Leaderboard.Entry>, Error>)
    ensures res.Failure? <==> limit < 1
    ensures res.Failure? ==> res.error == Error(FetchingLeaderboard, StoreRejected)
    ensures res.Success? ==> |res.value| == Min(limit, |Leaderboard.Candidates(store)|)
    ensures res.Success? ==> Leaderboard.RankedInOrder(res.value)
    ensures res.Success? ==> res.value == Leaderboard.GetLeaderboard(store, limit)
  {
    if limit < 1 then Failure(Error(FetchingLeaderboard, StoreRejected))
    else Success(Leaderboard.GetLeaderboard(store, limit))
  }

  /** How deep `getUserRank` looks: the first thousand rows. */
  const RankCap: nat := 1000

  /** `findIndex` on the user id: the first row of `u`, if any. */
  function FindEntry(board: seq<Leaderboard.Entry>, u: UserId): (e: Option<Leaderboard.Entry>)
    ensures e.None? <==> !Leaderboard.OnBoard(board, u)
    ensures e.Some? ==> e.value in board && e.value.standing.summary.userId == u
  {
    if board == [] then None
    else if board[0].standing.summary.userId == u then Some(board[0])
    else
      var e := FindEntry(board[1..], u);
      assert forall i :: 0 < i < |board| ==> board[1..][i - 1] == board[i];
      e
  }

  /**
   * `getUserRank`: unknown users fail; users without games have no rank;
   * otherwise the user's row among the first `RankCap` rows, or no rank if
   * they fall beyond it.
   */
  function GetUserRank(store: Store, u: UserId): (res: Result<Option<Leaderboard.Entry>, Error>)
    ensures res.Failure? <==> u !in store.directory.users
    ensures res.Failure? ==> res.error == Error(FetchingRank, UserNotFound)
    ensures res.Success? && UserRecords(store.records, u) == [] ==> res.value.None?
    ensures res.Success? && res.value.Some? ==>
      res.value.value in Leaderboard.GetLeaderboard(store, RankCap)
      && res.value.value.standing.summary.userId == u
    ensures res.Success? && res.value.None? && UserRecords(store.records, u) != [] ==>
      !Leaderboard.OnBoard(Leaderboard.GetLeaderboard(store, RankCap), u)
  {
    if u !in store.directory.users then Failure(Error(FetchingRank, UserNotFound))
    else if UserRecords(store.records, u) == [] then Success(None)
    else Success(FindEntry(Leaderboard.GetLeaderboard(store, RankCap), u))
  }

  /**
   * Below the cap every player in the directory is found, with the rank of
   * their row and their own statistics.
   */
  lemma PlayersAreRankedBelowTheCap(store: Store, u: UserId)
    requires u in store.directory.users && UserRecords(store.records, u) != []
    requires |Leaderboard.Candidates(store)| <= RankCap
    ensures GetUserRank(store, u).Success? && GetUserRank(store, u).value.Some?
    ensures var e := GetUserRank(store, u).value.value;
      && 1 <= e.rank <= |Leaderboard.Candidates(store)|
      && e.standing.summary.totalGames == |UserRecords(store.records, u)|
      && e.standing.longestStreak == UserStreak(store.records, u)
  {
    var board := Leaderboard.GetLeaderboard(store, RankCap);
    var c :| c in Leaderboard.Candidates(store) && c.userId == u;
    Leaderboard.RoomForEveryone(store, RankCap);
    Leaderboard.ShortlistedIsOnBoard(store, RankCap, c);
    assert |board| == |Leaderboard.Candidates(store)|;
    var e := FindEntry(board, u).value;
    assert GetUserRank(store, u) == Success(Some(e));
    var i :| 0 <= i < |board| && board[i] == e;
    Leaderboard.RowIsPlayerRow(store, RankCap, i);
    assert e.rank == i + 1;
  }

  /** The largest longest-streak among the given users; 0 for none. */
  function BestStreak(records: seq<GameRecord>, ids: seq<UserId>): (n: nat)
    ensures forall u :: u in ids ==> UserStreak(records, u) <= n
    ensures ids != [] ==> exists u :: u in ids && UserStreak(records, u) == n
    ensures ids == [] ==> n == 0
  {
    if ids == [] then 0
    else
      var front := ids[..|ids| - 1];
      assert ids == front + [ids[|ids| - 1]];
      Max(BestStreak(records, front), UserStreak(records, ids[|ids| - 1]))
  }

  /** The global figures; averages are rounded like the per-user ones. */
  datatype GlobalStats = GlobalStats(
    totalPlayers: nat,
    totalGames: nat,
    totalWins: nat,
    winRate: nat,
    topScore: nat,
    averageScore: nat,
    averageAttemptsTenths: nat,
    averageTime: nat,
    longestStreak: nat)

  /** `getLeaderboardStats`, over every record, whether or not its user is in the directory. */
  function GetLeaderboardStats(store: Store): (g: GlobalStats)
    ensures g.totalPlayers == |PlayerIds(store.records)|
    ensures g.totalGames == |store.records|
    ensures g.totalWins == CountWins(store.records) <= g.totalGames
    ensures g.winRate == WinRate(g.totalWins, g.totalGames) && g.winRate <= 100
    ensures g.averageScore == RoundedMean(TotalScore(store.records), g.totalGames)
    ensures g.averageAttemptsTenths == RoundedMean(10 * TotalAttempts(store.records), g.totalGames)
    ensures g.averageTime == RoundedMean(TotalTime(store.records), g.totalGames)
    ensures forall r :: r in store.records ==> r.score <= g.topScore
    ensures store.records != [] ==> exists r :: r in store.records && r.score == g.topScore
    ensures store.records == [] ==> g == GlobalStats(0, 0, 0, 0, 0, 0, 0, 0, 0)
    ensures forall u :: UserStreak(store.records, u) <= g.longestStreak
    ensures store.records != [] ==> exists u :: UserRecords(store.records, u) != [] && UserStreak(store.records, u) == g.longestStreak
  {
    var rs := store.records;
    var ids := PlayerIds(rs);
    assert rs != [] ==> rs[0] in UserRecords(rs, rs[0].userId);
    forall u | u !in ids ensures UserStreak(rs, u) == 0 {
      assert Chronological(UserRecords(rs, u)) == [];
    }
    GlobalStats(
      |ids|,
      |rs|,
      CountWins(rs),
      WinRate(CountWins(rs), |rs|),
      BestScore(rs),
      RoundedMean(TotalScore(rs), |rs|),
      RoundedMean(10 * TotalAttempts(rs), |rs|),
      RoundedMean(TotalTime(rs), |rs|),
      BestStreak(rs, ids))
  }

  /** The global longest streak is the best of the per-user statistics' streaks. */
  lemma GlobalStreakIsBestPlayerStreak(store: Store)
    ensures forall u :: ComputeUserStats(store.records, u).longestStreak <= GetLeaderboardStats(store).longestStreak
    ensures store.records != [] ==>
      exists u :: ComputeUserStats(store.records, u).longestStreak == GetLeaderboardStats(store).longestStreak
  {
    var g := GetLeaderboardStats(store);
    if store.records != [] {
      var u :| UserRecords(store.records, u) != [] && UserStreak(store.records, u) == g.longestStreak;
      assert ComputeUserStats(store.records, u).longestStreak == g.longestStreak;
    }
  }
}
