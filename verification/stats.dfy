/**
 * Per-user statistics (`getUserStats` of the game-score model): totals,
 * rounded win rate and averages, best score and longest winning streak.
 */
module Stats {
  import opened Wrappers
  import opened Records
  import opened Streak
  import opened Users
  import opened Paging

  /** `Math.round(n / d)` for whole `n >= 0` and `d > 0`: the whole number nearest to n/d, halves up. */
  function RoundDiv(n: nat, d: nat): (q: nat)
    requires d > 0
    ensures 2 * d * q <= 2 * n + d < 2 * d * (q + 1)
  {
    (2 * n + d) / (2 * d)
  }

  lemma RoundDivMonotone(n: nat, m: nat, d: nat)
    requires d > 0 && n <= m
    ensures RoundDiv(n, d) <= RoundDiv(m, d)
  {
    var q, r := RoundDiv(n, d), RoundDiv(m, d);
    if q > r {
      MulMonotone(r + 1, q, 2 * d);
      assert false;
    }
  }

  lemma WinRateAtMostHundred(wins: nat, games: nat)
    requires games > 0
    ensures wins <= games ==> RoundDiv(100 * wins, games) <= 100
  {
    if wins <= games {
      RoundDivMonotone(100 * wins, 100 * games, games);
      var q := RoundDiv(100 * games, games);
      assert 2 * games * q <= 200 * games + games;
      if q > 100 {
        MulMonotone(101, q, 2 * games);
        assert false;
      }
    }
  }

  /**
   * `Math.round(wins / games * 100)`, 0 when there are no games, taken on
   * the exact fraction: a percentage that is exactly halfway rounds up.
   */
  function WinRate(wins: nat, games: nat): (r: nat)
    ensures games == 0 ==> r == 0
    ensures games > 0 ==> 2 * games * r <= 200 * wins + games < 2 * games * (r + 1)
    ensures wins <= games ==> r <= 100
  {
    if games == 0 then 0
    else
      WinRateAtMostHundred(wins, games);
      RoundDiv(100 * wins, games)
  }

  /** 23 wins of 40 games is exactly 57.5 percent, which rounds to 58. */
  lemma WinRateHalfwayRoundsUp()
    ensures WinRate(23, 40) == 58
  {
  }

  /** `Math.round(total / count)`, 0 when there is nothing to average. */
  function RoundedMean(total: nat, count: nat): (m: nat)
    ensures count == 0 ==> m == 0
    ensures count > 0 ==> 2 * count * m <= 2 * total + count < 2 * count * (m + 1)
  {
    if count == 0 then 0 else RoundDiv(total, count)
  }

  /**
   * The eight statistics. `averageAttemptsTenths` is the average number of
   * attempts rounded to one decimal, counted in tenths.
   */
  datatype UserStats = UserStats(
    totalGames: nat,
    totalWins: nat,
    totalScore: nat,
    winRate: nat,
    averageAttemptsTenths: nat,
    averageTime: nat,
    bestScore: nat,
    longestStreak: nat)

  const NoStats := UserStats(0, 0, 0, 0, 0, 0, 0, 0)

  function ComputeUserStats(records: seq<GameRecord>, u: UserId): (st: UserStats)
    ensures UserRecords(records, u) == [] ==> st == NoStats
    ensures st.totalGames == |UserRecords(records, u)|
    ensures st.totalWins == CountWins(UserRecords(records, u))
    ensures st.longestStreak <= st.totalWins <= st.totalGames
    ensures st.winRate == WinRate(st.totalWins, st.totalGames) && st.winRate <= 100
    ensures st.totalScore == TotalScore(UserRecords(records, u))
    ensures st.averageAttemptsTenths == RoundedMean(10 * TotalAttempts(UserRecords(records, u)), st.totalGames)
    ensures st.averageTime == RoundedMean(TotalTime(UserRecords(records, u)), st.totalGames)
    ensures forall r :: r in records && r.userId == u ==> r.score <= st.bestScore
    ensures st.totalGames > 0 ==> exists r :: r in records && r.userId == u && r.score == st.bestScore
    ensures forall i, j :: WinRun(Chronological(UserRecords(records, u)), i, j) ==> j - i <= st.longestStreak
    ensures exists i, j :: WinRun(Chronological(UserRecords(records, u)), i, j) && j - i == st.longestStreak
    ensures st.longestStreak == UserStreak(records, u)
  {
    var rs := UserRecords(records, u);
    var chrono := Chronological(rs);
    LongestRunCharacterization(chrono);
    LongestRunAtMostWins(chrono);
    ChronologicalKeepsWins(rs);
    if rs == [] then
      assert chrono == [];
      NoStats
    else
      var games := |rs|;
      UserStats(
        games,
        CountWins(rs),
        TotalScore(rs),
        WinRate(CountWins(rs), games),
        RoundedMean(10 * TotalAttempts(rs), games),
        RoundedMean(TotalTime(rs), games),
        BestScore(rs),
        LongestRun(chrono))
  }

  datatype PlayerCard = PlayerCard(id: UserId, name: string, email: string)

  datatype StatsReply = StatsReply(user: PlayerCard, stats: UserStats)

  /** `getUserStats` of the service: unknown users fail, known users get their statistics. */
  function GetUserStats(store: Store, u: UserId): (res: Result<StatsReply, Failures.Error>)
    ensures res.Failure? <==> u !in store.directory.users
    ensures res.Failure? ==> res.error == Failures.Error(Failures.FetchingStats, Failures.UserNotFound)
    ensures res.Success? ==> res.value.stats == ComputeUserStats(store.records, u)
    ensures res.Success? ==> res.value.user.id == u && res.value.user.name == store.directory.users[u].name
                             && res.value.user.email == store.directory.users[u].email
  {
    if u !in store.directory.users then Failure(Failures.Error(Failures.FetchingStats, Failures.UserNotFound))
    else
      var user := store.directory.users[u];
      Success(StatsReply(PlayerCard(u, user.name, user.email), ComputeUserStats(store.records, u)))
  }
}
