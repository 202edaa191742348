/**
 * The game-score document: one immutable record per finished game, and the
 * per-user folds every statistic is built from. The store keeps records in
 * the order they were appended.
 */
module Records {
  import opened Wrappers
  import opened Sorting
  import opened Users

  datatype GameType = NumberGuessing | WordGuessing | General

  datatype Difficulty = Easy | Medium | Hard

  /**
   * A stored game. `score`, `attempts` and `timeSpent` are whole numbers
   * (the client sends integer seconds); `createdAt` is the store's clock
   * reading when the record was appended.
   */
  datatype GameRecord = GameRecord(
    id: nat,
    userId: UserId,
    gameType: GameType,
    score: nat,
    attempts: nat,
    timeSpent: nat,
    difficulty: Difficulty,
    isWin: bool,
    targetNumber: Option<int>,
    guessedNumber: Option<int>,
    hints: seq<string>,
    createdAt: int)

  /** A snapshot of the document store: game records in append order, and the user directory. */
  datatype Store = Store(records: seq<GameRecord>, directory: Directory)

  /** The records of one user, in store order. */
  function UserRecords(records: seq<GameRecord>, u: UserId): (rs: seq<GameRecord>)
    ensures forall r :: r in rs <==> r in records && r.userId == u
    ensures |rs| <= |records|
  {
    if records == [] then []
    else
      var last := records[|records| - 1];
      var front := records[..|records| - 1];
      assert records == front + [last];
      if last.userId == u then UserRecords(front, u) + [last] else UserRecords(front, u)
  }

  function CountWins(rs: seq<GameRecord>): (n: nat)
    ensures n <= |rs|
    ensures n == 0 <== forall r :: r in rs ==> !r.isWin
  {
    if rs == [] then 0
    else CountWins(rs[..|rs| - 1]) + (if rs[|rs| - 1].isWin then 1 else 0)
  }

  /** `$sum` of the scores: no single game scores more than the total. */
  function TotalScore(rs: seq<GameRecord>): (t: nat)
    ensures forall i :: 0 <= i < |rs| ==> rs[i].score <= t
  {
    if rs == [] then 0 else TotalScore(rs[..|rs| - 1]) + rs[|rs| - 1].score
  }

  /** The sum of the attempts: no single game takes more than the total. */
  function TotalAttempts(rs: seq<GameRecord>): (t: nat)
    ensures forall i :: 0 <= i < |rs| ==> rs[i].attempts <= t
  {
    if rs == [] then 0 else TotalAttempts(rs[..|rs| - 1]) + rs[|rs| - 1].attempts
  }

  /** The sum of the times: no single game lasts longer than the total. */
  function TotalTime(rs: seq<GameRecord>): (t: nat)
    ensures forall i :: 0 <= i < |rs| ==> rs[i].timeSpent <= t
  {
    if rs == [] then 0 else TotalTime(rs[..|rs| - 1]) + rs[|rs| - 1].timeSpent
  }

  /** The largest score, 0 for no records. */
  function BestScore(rs: seq<GameRecord>): (m: nat)
    ensures forall r :: r in rs ==> r.score <= m
    ensures rs != [] ==> exists r :: r in rs && r.score == m
    ensures rs == [] ==> m == 0
  {
    if rs == [] then 0
    else
      var front := rs[..|rs| - 1];
      assert rs == front + [rs[|rs| - 1]];
      Max(BestScore(front), rs[|rs| - 1].score)
  }

  /** The latest creation time among non-empty records. */
  function LastPlayed(rs: seq<GameRecord>): (t: int)
    requires rs != []
    ensures forall r :: r in rs ==> r.createdAt <= t
    ensures exists r :: r in rs && r.createdAt == t
  {
    var front := rs[..|rs| - 1];
    assert rs == front + [rs[|rs| - 1]];
    if front == [] then rs[0].createdAt else Max(LastPlayed(front), rs[|rs| - 1].createdAt)
  }

  predicate EarlierOrSame(a: GameRecord, b: GameRecord) {
    a.createdAt <= b.createdAt
  }

  predicate LaterOrSame(a: GameRecord, b: GameRecord) {
    a.createdAt >= b.createdAt
  }

  lemma CreationOrdersArePreorders()
    ensures TotalPreorder(EarlierOrSame)
    ensures TotalPreorder(LaterOrSame)
  {
  }

  /** A user's records sorted by `createdAt` ascending; equal times keep store order. */
  function Chronological(rs: seq<GameRecord>): (c: seq<GameRecord>)
    ensures multiset(c) == multiset(rs)
    ensures forall i, j :: 0 <= i < j < |c| ==> c[i].createdAt <= c[j].createdAt
  {
    CreationOrdersArePreorders();
    SortBy(EarlierOrSame, rs)
  }

  /** The same records sorted by `createdAt` descending, newest first. */
  function NewestFirst(rs: seq<GameRecord>): (c: seq<GameRecord>)
    ensures multiset(c) == multiset(rs) && |c| == |rs|
    ensures forall i, j :: 0 <= i < j < |c| ==> c[i].createdAt >= c[j].createdAt
  {
    CreationOrdersArePreorders();
    SortBy(LaterOrSame, rs)
  }

  /** The distinct user ids of the records, in order of first appearance. */
  function PlayerIds(records: seq<GameRecord>): (ids: seq<UserId>)
    ensures Distinct(ids)
    ensures forall u :: u in ids <==> UserRecords(records, u) != []
  {
    if records == [] then []
    else
      var front := records[..|records| - 1];
      var u := records[|records| - 1].userId;
      var ids := PlayerIds(front);
      assert records == front + [records[|records| - 1]];
      assert records[|records| - 1] in UserRecords(records, u);
      if u in ids then ids else ids + [u]
  }

  lemma {:induction false} CountWinsAppend(a: seq<GameRecord>, b: seq<GameRecord>)
    ensures CountWins(a + b) == CountWins(a) + CountWins(b)
  {
    if b != [] {
      var front := b[..|b| - 1];
      var ab := a + b;
      assert ab[..|ab| - 1] == a + front;
      assert ab[|ab| - 1] == b[|b| - 1];
      CountWinsAppend(a, front);
      assert CountWins(ab) == CountWins(a + front) + (if b[|b| - 1].isWin then 1 else 0);
    } else {
      assert a + b == a;
    }
  }

  /** The three sums split over a concatenation, whichever way the records are grouped. */
  lemma {:induction false} TotalsAppend(a: seq<GameRecord>, b: seq<GameRecord>)
    ensures TotalScore(a + b) == TotalScore(a) + TotalScore(b)
    ensures TotalAttempts(a + b) == TotalAttempts(a) + TotalAttempts(b)
    ensures TotalTime(a + b) == TotalTime(a) + TotalTime(b)
  {
    if b != [] {
      var front := b[..|b| - 1];
      var ab := a + b;
      assert ab[..|ab| - 1] == a + front;
      assert ab[|ab| - 1] == b[|b| - 1];
      TotalsAppend(a, front);
    } else {
      assert a + b == a;
    }
  }

  /** One game's totals are its own numbers. */
  lemma TotalsOfOne(r: GameRecord)
    ensures TotalScore([r]) == r.score && TotalAttempts([r]) == r.attempts && TotalTime([r]) == r.timeSpent
  {
    assert [r][..0] == [];
  }

  lemma CountWinsCons(x: GameRecord, s: seq<GameRecord>)
    ensures CountWins([x] + s) == (if x.isWin then 1 else 0) + CountWins(s)
  {
    CountWinsAppend([x], s);
    assert [x][..0] == [];
  }

  lemma {:induction false} CountWinsInsert(before: (GameRecord, GameRecord) -> bool, x: GameRecord, s: seq<GameRecord>)
    ensures CountWins(Insert(before, x, s)) == CountWins(s) + (if x.isWin then 1 else 0)
  {
    if s == [] {
      CountWinsCons(x, s);
    } else if before(x, s[0]) {
      CountWinsCons(x, s);
    } else {
      CountWinsInsert(before, x, s[1..]);
      CountWinsCons(s[0], Insert(before, x, s[1..]));
      CountWinsCons(s[0], s[1..]);
      assert s == [s[0]] + s[1..];
    }
  }

  /** Sorting records does not change how many of them were won. */
  lemma {:induction false} CountWinsSorted(before: (GameRecord, GameRecord) -> bool, s: seq<GameRecord>)
    requires TotalPreorder(before)
    ensures CountWins(SortBy(before, s)) == CountWins(s)
  {
    if s != [] {
      CountWinsSorted(before, s[1..]);
      CountWinsInsert(before, s[0], SortBy(before, s[1..]));
      CountWinsCons(s[0], s[1..]);
      assert s == [s[0]] + s[1..];
    }
  }

  lemma ChronologicalKeepsWins(rs: seq<GameRecord>)
    ensures CountWins(Chronological(rs)) == CountWins(rs)
    ensures |Chronological(rs)| == |rs|
  {
    CreationOrdersArePreorders();
    CountWinsSorted(EarlierOrSame, rs);
    assert |multiset(Chronological(rs))| == |multiset(rs)|;
  }
}
