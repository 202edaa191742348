/**
 * `getLeaderboard` of the game-score model, in two phases. Phase 1 groups
 * the records by user, joins each group with the user directory (groups
 * without a user are dropped), sorts by best score, then wins, then the
 * unrounded win rate, all descending, and keeps the first `limit`. Phase 2
 * computes each survivor's longest streak over all their records, re-sorts
 * by streak and then wins, descending, and numbers the rows from 1.
 */
module Leaderboard {
  import opened Wrappers
  import opened Sorting
  import opened Users
  import opened Records
  import opened Streak

  /** Phase 1 row: one user's aggregates joined with their name and email. */
  datatype Summary = Summary(
    userId: UserId,
    name: string,
    email: string,
    totalGames: nat,
    totalWins: nat,
    totalScore: nat,
    bestScore: nat,
    lastPlayed: int)

  /** Phase 2 row: the summary with the user's longest streak. */
  datatype Standing = Standing(summary: Summary, longestStreak: nat)

  /** A leaderboard row: a standing and its 1-based position. */
  datatype Entry = Entry(standing: Standing, rank: nat)

  function SummaryUser(c: Summary): UserId {
    c.userId
  }

  function StandingUser(s: Standing): UserId {
    s.summary.userId
  }

  /**
   * Phase 1 aggregate of one player's games: how many, how many won, the
   * score total, the best single score and the latest play time.
   */
  function Summarize(records: seq<GameRecord>, u: UserId, user: User): (c: Summary)
    requires UserRecords(records, u) != []
    ensures c.userId == u && c.name == user.name && c.email == user.email
    ensures 1 <= c.totalGames <= |records| && c.totalWins <= c.totalGames
    ensures forall r :: r in records && r.userId == u ==> r.score <= c.bestScore <= c.totalScore
    ensures exists r :: r in records && r.userId == u && r.score == c.bestScore
    ensures forall r :: r in records && r.userId == u ==> r.createdAt <= c.lastPlayed
    ensures exists r :: r in records && r.userId == u && r.createdAt == c.lastPlayed
  {
    var rs := UserRecords(records, u);
    Summary(u, user.name, user.email, |rs|, CountWins(rs), TotalScore(rs), BestScore(rs), LastPlayed(rs))
  }

  /** `totalWins / totalGames * 100`, unrounded; 0 without games. */
  function WinPercent(c: Summary): real {
    if c.totalGames > 0 then (c.totalWins as real / c.totalGames as real) * 100.0 else 0.0
  }

  /** Phase 1 order: best score, then wins, then win rate, each descending. */
  predicate SelectionBefore(a: Summary, b: Summary) {
    || a.bestScore > b.bestScore
    || (a.bestScore == b.bestScore && a.totalWins > b.totalWins)
    || (a.bestScore == b.bestScore && a.totalWins == b.totalWins && WinPercent(a) >= WinPercent(b))
  }

  /** Phase 2 order: longest streak, then wins, each descending. */
  predicate RankingBefore(a: Standing, b: Standing) {
    || a.longestStreak > b.longestStreak
    || (a.longestStreak == b.longestStreak && a.summary.totalWins >= b.summary.totalWins)
  }

  lemma OrdersArePreorders()
    ensures TotalPreorder(SelectionBefore)
    ensures TotalPreorder(RankingBefore)
  {
  }

  /**
   * The join: a summary for every id that has a directory entry, in the
   * order of `ids`; ids without a user are skipped.
   */
  function JoinPlayers(records: seq<GameRecord>, ids: seq<UserId>, users: map<UserId, User>): (cs: seq<Summary>)
    requires forall u :: u in ids ==> UserRecords(records, u) != []
    ensures forall c :: c in cs ==> c.userId in ids && c.userId in users
                                    && c == Summarize(records, c.userId, users[c.userId])
    ensures forall u :: u in ids && u in users ==> exists c :: c in cs && c.userId == u
  {
    if ids == [] then []
    else
      var rest := JoinPlayers(records, ids[1..], users);
      if ids[0] in users then [Summarize(records, ids[0], users[ids[0]])] + rest else rest
  }

  lemma {:induction false} JoinKeepsDistinct(records: seq<GameRecord>, ids: seq<UserId>, users: map<UserId, User>)
    requires forall u :: u in ids ==> UserRecords(records, u) != []
    requires Distinct(ids)
    ensures DistinctBy(SummaryUser, JoinPlayers(records, ids, users))
  {
    if ids != [] {
      var tail := ids[1..];
      assert Distinct(tail) by {
        forall i, j | 0 <= i < j < |tail| ensures tail[i] != tail[j] {
          assert tail[i] == ids[i + 1] && tail[j] == ids[j + 1];
        }
      }
      JoinKeepsDistinct(records, tail, users);
      var rest := JoinPlayers(records, tail, users);
      if ids[0] in users {
        assert ids[0] !in tail;
        forall c | c in rest ensures SummaryUser(c) != ids[0] {
          assert c.userId in tail;
        }
        ConsKeepsDistinctBy(SummaryUser, Summarize(records, ids[0], users[ids[0]]), rest);
      }
    }
  }

  /** Every player (a user with at least one record) who has a directory entry, summarised once. */
  function Candidates(store: Store): (cs: seq<Summary>)
    ensures forall c :: c in cs ==> c.userId in store.directory.users
                                    && UserRecords(store.records, c.userId) != []
                                    && c == Summarize(store.records, c.userId, store.directory.users[c.userId])
    ensures forall u :: u in store.directory.users && UserRecords(store.records, u) != [] ==>
                          exists c :: c in cs && c.userId == u
    ensures DistinctBy(SummaryUser, cs)
  {
    JoinKeepsDistinct(store.records, PlayerIds(store.records), store.directory.users);
    JoinPlayers(store.records, PlayerIds(store.records), store.directory.users)
  }

  function Selected(store: Store): (cs: seq<Summary>)
    ensures multiset(cs) == multiset(Candidates(store))
    ensures SortedBy(SelectionBefore, cs)
  {
    OrdersArePreorders();
    SortBy(SelectionBefore, Candidates(store))
  }

  /** Phase 1: the candidates in selection order, cut to `limit`. */
  function Shortlist(store: Store, limit: nat): (cs: seq<Summary>)
    ensures |cs| == Min(limit, |Candidates(store)|)
    ensures DistinctBy(SummaryUser, cs)
    ensures SortedBy(SelectionBefore, cs)
  {
    var sorted := Selected(store);
    PermutationKeepsDistinctBy(SummaryUser, Candidates(store), sorted);
    SortedPrefix(SelectionBefore, sorted, limit);
    Take(sorted, limit)
  }

  /**
   * The shortlist is drawn from the candidates, and each kept candidate may
   * precede, in selection order, each one left out.
   */
  lemma ShortlistKeepsTheBest(store: Store, limit: nat)
    ensures forall c :: c in Shortlist(store, limit) ==> c in Candidates(store)
    ensures forall a, b :: a in Shortlist(store, limit) && b in Candidates(store) && b !in Shortlist(store, limit) ==>
                           SelectionBefore(a, b)
  {
    var sorted := Selected(store);
    var cs := Shortlist(store, limit);
    KeptPrecedeDropped(SelectionBefore, sorted, limit);
    forall c | c in cs ensures c in Candidates(store) {
      assert c in sorted;
      assert c in multiset(sorted);
    }
    forall b | b in Candidates(store) ensures b in sorted {
      assert b in multiset(Candidates(store));
    }
  }

  /** With room for every candidate, nobody is cut. */
  lemma RoomForEveryone(store: Store, limit: nat)
    requires limit >= |Candidates(store)|
    ensures forall c :: c in Candidates(store) ==> c in Shortlist(store, limit)
  {
    var sorted := Selected(store);
    assert Take(sorted, limit) == sorted;
    forall c | c in Candidates(store) ensures c in Shortlist(store, limit) {
      assert c in multiset(sorted);
    }
  }

  /** Phase 2, first step: attach each user's longest streak over all of their records. */
  function WithStreaks(records: seq<GameRecord>, cs: seq<Summary>): (ss: seq<Standing>)
    ensures |ss| == |cs|
    ensures forall i :: 0 <= i < |cs| ==> ss[i] == Standing(cs[i], UserStreak(records, cs[i].userId))
  {
    seq(|cs|, i requires 0 <= i < |cs| => Standing(cs[i], UserStreak(records, cs[i].userId)))
  }

  function AssignRanks(ss: seq<Standing>): (board: seq<Entry>)
    ensures |board| == |ss|
    ensures forall i :: 0 <= i < |ss| ==> board[i] == Entry(ss[i], i + 1)
  {
    seq(|ss|, i requires 0 <= i < |ss| => Entry(ss[i], i + 1))
  }

  function StandingsOf(board: seq<Entry>): (ss: seq<Standing>)
    ensures |ss| == |board|
    ensures forall i :: 0 <= i < |board| ==> ss[i] == board[i].standing
  {
    seq(|board|, i requires 0 <= i < |board| => board[i].standing)
  }

  /** The whole leaderboard query over one store snapshot. */
  function GetLeaderboard(store: Store, limit: nat): (board: seq<Entry>)
    ensures |board| == Min(limit, |Candidates(store)|)
    ensures forall i :: 0 <= i < |board| ==> board[i].rank == i + 1
    ensures forall i, j :: 0 <= i < j < |board| ==> RankingBefore(board[i].standing, board[j].standing)
    ensures multiset(StandingsOf(board)) == multiset(WithStreaks(store.records, Shortlist(store, limit)))
  {
    OrdersArePreorders();
    var ranked := SortBy(RankingBefore, WithStreaks(store.records, Shortlist(store, limit)));
    var board := AssignRanks(ranked);
    assert StandingsOf(board) == ranked;
    board
  }

  /**
   * The phase 2 sort is stable: for every standing `z`, the rows the ranking
   * order cannot tell apart from `z` (same streak, same wins) appear on the
   * board in the order the shortlist gave them.
   */
  lemma TiesKeepShortlistOrder(store: Store, limit: nat, z: Standing)
    ensures TiedWith(RankingBefore, z, StandingsOf(GetLeaderboard(store, limit)))
            == TiedWith(RankingBefore, z, WithStreaks(store.records, Shortlist(store, limit)))
  {
    OrdersArePreorders();
    var ss := WithStreaks(store.records, Shortlist(store, limit));
    SortByIsStable(RankingBefore, ss, z);
    assert StandingsOf(GetLeaderboard(store, limit)) == SortBy(RankingBefore, ss);
  }

  predicate OnBoard(board: seq<Entry>, u: UserId) {
    exists i | 0 <= i < |board| :: board[i].standing.summary.userId == u
  }

  /** Each row's standing comes from the shortlist, with that user's own streak. */
  lemma RowsComeFromShortlist(store: Store, limit: nat, i: int)
    requires 0 <= i < |GetLeaderboard(store, limit)|
    ensures var st := GetLeaderboard(store, limit)[i].standing;
      && st.summary in Shortlist(store, limit)
      && st.longestStreak == UserStreak(store.records, st.summary.userId)
  {
    var board := GetLeaderboard(store, limit);
    var ws := WithStreaks(store.records, Shortlist(store, limit));
    assert StandingsOf(board)[i] in multiset(ws);
    var k :| 0 <= k < |ws| && ws[k] == board[i].standing;
  }

  /**
   * A row of player `st.summary.userId`: a user in the directory who has
   * played, whose totals and streak are theirs, with
   * 0 <= streak <= wins <= games and at least one game.
   */
  ghost predicate PlayerRow(store: Store, st: Standing) {
    var c := st.summary;
    var rs := UserRecords(store.records, c.userId);
    && c.userId in store.directory.users
    && c.name == store.directory.users[c.userId].name
    && c.email == store.directory.users[c.userId].email
    && 1 <= c.totalGames == |rs|
    && c.totalWins == CountWins(rs)
    && c.totalScore == TotalScore(rs)
    && c.bestScore == BestScore(rs)
    && c.lastPlayed == LastPlayed(rs)
    && st.longestStreak == UserStreak(store.records, c.userId)
    && st.longestStreak <= c.totalWins <= c.totalGames
  }

  lemma RowIsPlayerRow(store: Store, limit: nat, i: int)
    requires 0 <= i < |GetLeaderboard(store, limit)|
    ensures PlayerRow(store, GetLeaderboard(store, limit)[i].standing)
  {
    var st := GetLeaderboard(store, limit)[i].standing;
    RowsComeFromShortlist(store, limit, i);
    ShortlistKeepsTheBest(store, limit);
    assert st.summary in Candidates(store);
    var rs := UserRecords(store.records, st.summary.userId);
    LongestRunAtMostWins(Chronological(rs));
    ChronologicalKeepsWins(rs);
  }

  /** Every row of the board is a player row. */
  lemma RowsArePlayerRows(store: Store, limit: nat)
    ensures forall i :: 0 <= i < |GetLeaderboard(store, limit)| ==> PlayerRow(store, GetLeaderboard(store, limit)[i].standing)
  {
    forall i | 0 <= i < |GetLeaderboard(store, limit)|
      ensures PlayerRow(store, GetLeaderboard(store, limit)[i].standing)
    {
      RowIsPlayerRow(store, limit, i);
    }
  }

  /** No user appears twice. */
  lemma RowsHaveDistinctUsers(store: Store, limit: nat)
    ensures forall i, j :: 0 <= i < j < |GetLeaderboard(store, limit)| ==>
      GetLeaderboard(store, limit)[i].standing.summary.userId != GetLeaderboard(store, limit)[j].standing.summary.userId
  {
    var board := GetLeaderboard(store, limit);
    var sl := Shortlist(store, limit);
    var ws := WithStreaks(store.records, sl);
    assert DistinctBy(StandingUser, ws) by {
      forall i, j | 0 <= i < j < |ws| ensures StandingUser(ws[i]) != StandingUser(ws[j]) {
        assert SummaryUser(sl[i]) != SummaryUser(sl[j]);
      }
    }
    PermutationKeepsDistinctBy(StandingUser, ws, StandingsOf(board));
    forall i, j | 0 <= i < j < |board|
      ensures board[i].standing.summary.userId != board[j].standing.summary.userId
    {
      assert StandingUser(StandingsOf(board)[i]) != StandingUser(StandingsOf(board)[j]);
    }
  }

  /** A shortlisted user always gets a row. */
  lemma ShortlistedIsOnBoard(store: Store, limit: nat, c: Summary)
    requires c in Shortlist(store, limit)
    ensures OnBoard(GetLeaderboard(store, limit), c.userId)
  {
    var board := GetLeaderboard(store, limit);
    var sl := Shortlist(store, limit);
    var ws := WithStreaks(store.records, sl);
    var k :| 0 <= k < |sl| && sl[k] == c;
    assert ws[k] in multiset(StandingsOf(board));
    var m :| 0 <= m < |board| && StandingsOf(board)[m] == ws[k];
    assert board[m].standing.summary.userId == c.userId;
  }

  /**
   * Phase 1 decides membership: every row's summary may precede, in
   * selection order, every candidate that did not make the board.
   */
  lemma MembersOutrankTheRest(store: Store, limit: nat, i: int, c: Summary)
    requires 0 <= i < |GetLeaderboard(store, limit)|
    requires c in Candidates(store) && !OnBoard(GetLeaderboard(store, limit), c.userId)
    ensures SelectionBefore(GetLeaderboard(store, limit)[i].standing.summary, c)
  {
    RowsComeFromShortlist(store, limit, i);
    ShortlistKeepsTheBest(store, limit);
    if c in Shortlist(store, limit) {
      ShortlistedIsOnBoard(store, limit, c);
    }
  }

  /** Ranks number the rows from 1 and the rows follow the phase 2 order. */
  ghost predicate RankedInOrder(board: seq<Entry>) {
    && (forall i :: 0 <= i < |board| ==> board[i].rank == i + 1)
    && (forall i, j :: 0 <= i < j < |board| ==> RankingBefore(board[i].standing, board[j].standing))
  }

  lemma StreakDecidesRank(board: seq<Entry>, i: int, j: int)
    requires RankedInOrder(board)
    requires 0 <= i < |board| && 0 <= j < |board|
    requires board[i].standing.longestStreak > board[j].standing.longestStreak
    ensures board[i].rank < board[j].rank
  {
  }

  /** A strictly longer streak always means a better (smaller) rank. */
  lemma LongerStreakRanksHigher(store: Store, limit: nat, i: int, j: int)
    requires 0 <= i < |GetLeaderboard(store, limit)| && 0 <= j < |GetLeaderboard(store, limit)|
    requires GetLeaderboard(store, limit)[i].standing.longestStreak > GetLeaderboard(store, limit)[j].standing.longestStreak
    ensures GetLeaderboard(store, limit)[i].rank < GetLeaderboard(store, limit)[j].rank
  {
    StreakDecidesRank(GetLeaderboard(store, limit), i, j);
  }
}
