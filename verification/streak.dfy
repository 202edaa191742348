/**
 * The longest winning streak: the length of the longest run of consecutive
 * wins in a sequence of games taken in the order they were played.
 */
module Streak {
  import opened Wrappers
  import opened Records
  import opened Users

  /** Games `i` up to (not including) `j` were all won. */
  ghost predicate WinRun(s: seq<GameRecord>, i: int, j: int) {
    0 <= i <= j <= |s| && forall k :: i <= k < j ==> s[k].isWin
  }

  /** The wins at the end of `s`: the current streak after playing `s`. */
  function TrailingWins(s: seq<GameRecord>): (n: nat)
    ensures n <= |s|
  {
    if s == [] then 0
    else if s[|s| - 1].isWin then TrailingWins(s[..|s| - 1]) + 1
    else 0
  }

  /** The scan of the source: the best current streak seen along the way. */
  function LongestRun(s: seq<GameRecord>): (n: nat)
    ensures TrailingWins(s) <= n <= |s|
  {
    if s == [] then 0
    else Max(LongestRun(s[..|s| - 1]), TrailingWins(s))
  }

  lemma {:induction false} TrailingWinsIsARun(s: seq<GameRecord>)
    ensures WinRun(s, |s| - TrailingWins(s), |s|)
  {
    if s != [] && s[|s| - 1].isWin {
      var front := s[..|s| - 1];
      TrailingWinsIsARun(front);
      forall k | |s| - TrailingWins(s) <= k < |s| ensures s[k].isWin {
        if k < |s| - 1 {
          assert s[k] == front[k];
        }
      }
    }
  }

  lemma {:induction false} TrailingWinsIsLongestSuffix(s: seq<GameRecord>, i: int)
    requires WinRun(s, i, |s|)
    ensures |s| - i <= TrailingWins(s)
  {
    if i < |s| {
      var front := s[..|s| - 1];
      assert WinRun(front, i, |front|) by {
        forall k | i <= k < |front| ensures front[k].isWin {
          assert front[k] == s[k];
        }
      }
      TrailingWinsIsLongestSuffix(front, i);
    }
  }

  /** No run of wins is longer than the scan's result. */
  lemma {:induction false} LongestRunIsMaximal(s: seq<GameRecord>, i: int, j: int)
    requires WinRun(s, i, j)
    ensures j - i <= LongestRun(s)
  {
    if s != [] {
      var front := s[..|s| - 1];
      if j == |s| {
        TrailingWinsIsLongestSuffix(s, i);
      } else {
        assert WinRun(front, i, j) by {
          forall k | i <= k < j ensures front[k].isWin {
            assert front[k] == s[k];
          }
        }
        LongestRunIsMaximal(front, i, j);
      }
    }
  }

  /** The scan's result is the length of an actual run of wins. */
  lemma {:induction false} LongestRunIsAttained(s: seq<GameRecord>)
    ensures exists i, j :: WinRun(s, i, j) && j - i == LongestRun(s)
  {
    if s == [] {
      assert WinRun(s, 0, 0);
    } else {
      var front := s[..|s| - 1];
      if LongestRun(s) == TrailingWins(s) {
        TrailingWinsIsARun(s);
        assert WinRun(s, |s| - TrailingWins(s), |s|);
      } else {
        LongestRunIsAttained(front);
        var i, j :| WinRun(front, i, j) && j - i == LongestRun(front);
        assert WinRun(s, i, j) by {
          forall k | i <= k < j ensures s[k].isWin {
            assert s[k] == front[k];
          }
        }
      }
    }
  }

  /** The scan equals the longest run of consecutive wins, in both directions. */
  lemma LongestRunCharacterization(s: seq<GameRecord>)
    ensures exists i, j :: WinRun(s, i, j) && j - i == LongestRun(s)
    ensures forall i, j :: WinRun(s, i, j) ==> j - i <= LongestRun(s)
  {
    LongestRunIsAttained(s);
    forall i, j | WinRun(s, i, j) ensures j - i <= LongestRun(s) {
      LongestRunIsMaximal(s, i, j);
    }
  }

  lemma {:induction false} TrailingWinsAtMostWins(s: seq<GameRecord>)
    ensures TrailingWins(s) <= CountWins(s)
  {
    if s != [] {
      TrailingWinsAtMostWins(s[..|s| - 1]);
    }
  }

  /** A streak never exceeds the number of wins, which never exceeds the games. */
  lemma {:induction false} LongestRunAtMostWins(s: seq<GameRecord>)
    ensures LongestRun(s) <= CountWins(s) <= |s|
  {
    if s != [] {
      LongestRunAtMostWins(s[..|s| - 1]);
      TrailingWinsAtMostWins(s);
    }
  }

  /** A user's longest streak over their records in `createdAt` order. */
  function UserStreak(records: seq<GameRecord>, u: UserId): (n: nat)
    ensures n <= CountWins(UserRecords(records, u))
    ensures (forall r :: r in records && r.userId == u ==> !r.isWin) ==> n == 0
  {
    var rs := UserRecords(records, u);
    LongestRunAtMostWins(Chronological(rs));
    ChronologicalKeepsWins(rs);
    LongestRun(Chronological(rs))
  }

  /**
   * The loop the source runs over a user's games: `current` counts the wins
   * since the last loss, `longest` remembers the largest value it reached.
   */
  method ScanStreak(games: seq<GameRecord>) returns (longest: nat)
    ensures longest == LongestRun(games)
    ensures forall i, j :: WinRun(games, i, j) ==> j - i <= longest
    ensures exists i, j :: WinRun(games, i, j) && j - i == longest
  {
    longest := 0;
    var current: nat := 0;
    var k := 0;
    while k < |games|
      invariant 0 <= k <= |games|
      invariant current == TrailingWins(games[..k])
      invariant longest == LongestRun(games[..k])
    {
      assert games[..k + 1][..k] == games[..k];
      if games[k].isWin {
        current := current + 1;
        longest := Max(longest, current);
      } else {
        current := 0;
      }
      k := k + 1;
    }
    assert games[..k] == games;
    LongestRunCharacterization(games);
  }

  /** The worked example: win, win, loss, win has a longest streak of 2. */
  lemma ExampleStreak(a: GameRecord, b: GameRecord, c: GameRecord, d: GameRecord)
    requires a.isWin && b.isWin && !c.isWin && d.isWin
    ensures LongestRun([a, b, c, d]) == 2
  {
    assert [a, b, c, d][..3] == [a, b, c];
    assert [a, b, c][..2] == [a, b];
    assert [a, b][..1] == [a];
    assert [a][..0] == [];
    assert LongestRun([a]) == 1;
    assert TrailingWins([a, b]) == 2;
    assert LongestRun([a, b]) == 2;
    assert LongestRun([a, b, c]) == 2;
    assert TrailingWins([a, b, c, d]) == 1;
  }
}
