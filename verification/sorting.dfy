/**
 * Ordering helpers shared by every query that sorts: a stable insertion sort
 * parameterised by a "may come before" relation, and the facts the
 * leaderboard needs about sorted sequences, prefixes and permutations.
 */
module Sorting {

  /** `before` is total and transitive: a comparator that sorting can honour. */
  ghost predicate TotalPreorder<T(!new)>(before: (T, T) -> bool) {
    && (forall a, b :: before(a, b) || before(b, a))
    && (forall a, b, c :: before(a, b) && before(b, c) ==> before(a, c))
  }

  ghost predicate SortedBy<T>(before: (T, T) -> bool, s: seq<T>) {
    forall i, j :: 0 <= i < j < |s| ==> before(s[i], s[j])
  }

  ghost predicate Distinct<T>(s: seq<T>) {
    forall i, j :: 0 <= i < j < |s| ==> s[i] != s[j]
  }

  ghost predicate DistinctBy<T, K>(key: T -> K, s: seq<T>) {
    forall i, j :: 0 <= i < j < |s| ==> key(s[i]) != key(s[j])
  }

  /**
   * Puts `x` in front of the first element it may precede, so elements that
   * compare equal to `x` stay behind it: sorting from the back with this
   * keeps equal elements in their original order.
   */
  function Insert<T>(before: (T, T) -> bool, x: T, s: seq<T>): (r: seq<T>)
    ensures multiset(r) == multiset(s) + multiset{x}
    ensures |r| == |s| + 1
  {
    if s == [] then [x]
    else if before(x, s[0]) then [x] + s
    else
      assert s == [s[0]] + s[1..];
      [s[0]] + Insert(before, x, s[1..])
  }

  /** An element that may precede every element of a sorted sequence can lead it. */
  lemma ConsKeepsSorted<T>(before: (T, T) -> bool, a: T, t: seq<T>)
    requires SortedBy(before, t)
    requires forall k :: 0 <= k < |t| ==> before(a, t[k])
    ensures SortedBy(before, [a] + t)
  {
    var r := [a] + t;
    forall i, j | 0 <= i < j < |r| ensures before(r[i], r[j]) {
      if i > 0 {
        assert r[i] == t[i - 1] && r[j] == t[j - 1];
      } else {
        assert r[j] == t[j - 1];
      }
    }
  }

  /** An element that may precede `x` and all of `u` may precede all of `u` with `x` inserted. */
  lemma LeadsInsert<T>(before: (T, T) -> bool, a: T, x: T, u: seq<T>)
    requires before(a, x)
    requires forall k :: 0 <= k < |u| ==> before(a, u[k])
    ensures forall k :: 0 <= k < |Insert(before, x, u)| ==> before(a, Insert(before, x, u)[k])
  {
    var t := Insert(before, x, u);
    forall k | 0 <= k < |t| ensures before(a, t[k]) {
      assert t[k] in multiset(t);
      if t[k] != x {
        assert t[k] in multiset(u);
        var m :| 0 <= m < |u| && u[m] == t[k];
      }
    }
  }

  lemma {:induction false} InsertKeepsSorted<T(!new)>(before: (T, T) -> bool, x: T, s: seq<T>)
    requires TotalPreorder(before)
    requires SortedBy(before, s)
    ensures SortedBy(before, Insert(before, x, s))
  {
    if s == [] {
      assert Insert(before, x, s) == [x];
    } else if before(x, s[0]) {
      forall k | 0 <= k < |s| ensures before(x, s[k]) {
        if k > 0 {
          assert before(s[0], s[k]);
        }
      }
      ConsKeepsSorted(before, x, s);
    } else {
      var rest := s[1..];
      assert before(s[0], x);
      InsertKeepsSorted(before, x, rest);
      forall k | 0 <= k < |rest| ensures before(s[0], rest[k]) {
        assert rest[k] == s[k + 1];
      }
      LeadsInsert(before, s[0], x, rest);
      ConsKeepsSorted(before, s[0], Insert(before, x, rest));
    }
  }

  /** Stable insertion sort: a sorted permutation of `s`. */
  function SortBy<T(!new)>(before: (T, T) -> bool, s: seq<T>): (r: seq<T>)
    requires TotalPreorder(before)
    ensures multiset(r) == multiset(s)
    ensures |r| == |s|
    ensures SortedBy(before, r)
  {
    if s == [] then []
    else
      assert s == [s[0]] + s[1..];
      var t := SortBy(before, s[1..]);
      InsertKeepsSorted(before, s[0], t);
      Insert(before, s[0], t)
  }

  /** `a` and `b` may each come before the other: the comparator cannot tell them apart. */
  predicate Tied<T>(before: (T, T) -> bool, a: T, b: T) {
    before(a, b) && before(b, a)
  }

  /** The elements of `s` tied with `z`, in the order `s` has them. */
  function TiedWith<T>(before: (T, T) -> bool, z: T, s: seq<T>): (r: seq<T>)
    ensures |r| <= |s|
    ensures forall x :: x in r ==> x in s && Tied(before, z, x)
  {
    if s == [] then []
    else (if Tied(before, z, s[0]) then [s[0]] else []) + TiedWith(before, z, s[1..])
  }

  /** A first element tied with `z` stays at the front of `TiedWith`. */
  lemma TiedWithConsTied<T>(before: (T, T) -> bool, z: T, a: T, w: seq<T>)
    requires Tied(before, z, a)
    ensures TiedWith(before, z, [a] + w) == [a] + TiedWith(before, z, w)
  {
    assert ([a] + w)[0] == a && ([a] + w)[1..] == w;
  }

  /** A first element not tied with `z` is dropped by `TiedWith`. */
  lemma TiedWithConsUntied<T>(before: (T, T) -> bool, z: T, a: T, w: seq<T>)
    requires !Tied(before, z, a)
    ensures TiedWith(before, z, [a] + w) == TiedWith(before, z, w)
  {
    assert ([a] + w)[0] == a && ([a] + w)[1..] == w;
  }

  /** If `x` is tied with `z`, so is nothing `x` may not precede. */
  ghost predicate NoTiePassed<T(!new)>(before: (T, T) -> bool, x: T, z: T) {
    Tied(before, z, x) ==> forall y :: !before(x, y) ==> !Tied(before, z, y)
  }

  /**
   * Inserting `x` puts it in front of every element tied with it, and
   * leaves the order of the other tied elements alone.
   */
  lemma InsertTiedWith<T(!new)>(before: (T, T) -> bool, x: T, t: seq<T>, z: T)
    requires TotalPreorder(before)
    ensures TiedWith(before, z, Insert(before, x, t))
            == (if Tied(before, z, x) then [x] else []) + TiedWith(before, z, t)
  {
    forall y | Tied(before, z, x) && !before(x, y) ensures !Tied(before, z, y) {
      TiedNotPassed(before, x, y, z);
    }
    InsertTiedWithAt(before, x, t, z);
  }

  /** `InsertTiedWith` by induction on `t`, with transitivity used only through `NoTiePassed`. */
  lemma {:induction false} InsertTiedWithAt<T(!new)>(before: (T, T) -> bool, x: T, t: seq<T>, z: T)
    requires NoTiePassed(before, x, z)
    ensures TiedWith(before, z, Insert(before, x, t))
            == (if Tied(before, z, x) then [x] else []) + TiedWith(before, z, t)
  {
    if t == [] || before(x, t[0]) {
      assert Insert(before, x, t) == [x] + t;
      if Tied(before, z, x) {
        TiedWithConsTied(before, z, x, t);
      } else {
        TiedWithConsUntied(before, z, x, t);
      }
    } else {
      var a, rest := t[0], t[1..];
      assert t == [a] + rest;
      var inserted := Insert(before, x, rest);
      assert Insert(before, x, t) == [a] + inserted;
      InsertTiedWithAt(before, x, rest, z);
      if Tied(before, z, a) {
        TiedWithConsTied(before, z, a, inserted);
        TiedWithConsTied(before, z, a, rest);
      } else {
        TiedWithConsUntied(before, z, a, inserted);
        TiedWithConsUntied(before, z, a, rest);
      }
    }
  }

  /** An element tied with `z` is tied with nothing it may not precede. */
  lemma TiedNotPassed<T(!new)>(before: (T, T) -> bool, x: T, y: T, z: T)
    requires TotalPreorder(before)
    requires Tied(before, z, x) && !before(x, y)
    ensures !Tied(before, z, y)
  {
  }

  /**
   * The sort is stable: for every `z`, the elements tied with `z` come out
   * in the order they went in.
   */
  lemma {:induction false} SortByIsStable<T(!new)>(before: (T, T) -> bool, s: seq<T>, z: T)
    requires TotalPreorder(before)
    ensures TiedWith(before, z, SortBy(before, s)) == TiedWith(before, z, s)
  {
    if s != [] {
      SortByIsStable(before, s[1..], z);
      InsertTiedWith(before, s[0], SortBy(before, s[1..]), z);
    }
  }

  /** The first `n` elements, or all of them when there are fewer. */
  function Take<T>(s: seq<T>, n: nat): (r: seq<T>)
    ensures |r| == if n <= |s| then n else |s|
    ensures r <= s
  {
    if n <= |s| then s[..n] else s
  }

  lemma SortedPrefix<T>(before: (T, T) -> bool, s: seq<T>, n: nat)
    requires SortedBy(before, s)
    ensures SortedBy(before, Take(s, n))
  {
  }

  /**
   * Cutting a sorted sequence keeps everything that may precede what was cut:
   * every kept element may come before every element that was dropped.
   */
  lemma {:induction false} KeptPrecedeDropped<T>(before: (T, T) -> bool, s: seq<T>, n: nat)
    requires SortedBy(before, s)
    ensures forall a, b :: a in Take(s, n) && b in s && b !in Take(s, n) ==> before(a, b)
  {
    var p := Take(s, n);
    forall a, b | a in p && b in s && b !in p ensures before(a, b) {
      var i :| 0 <= i < |p| && p[i] == a;
      var j :| 0 <= j < |s| && s[j] == b;
      assert j >= |p|;
      assert s[i] == a;
    }
  }

  lemma {:induction false} DistinctCount<T>(s: seq<T>, x: T)
    requires Distinct(s)
    ensures multiset(s)[x] <= 1
  {
    if s != [] {
      var t := s[1..];
      assert s == [s[0]] + t;
      assert Distinct(t) by {
        forall i, j | 0 <= i < j < |t| ensures t[i] != t[j] {
          assert t[i] == s[i + 1] && t[j] == s[j + 1];
        }
      }
      DistinctCount(t, x);
      if s[0] == x {
        assert x !in t;
      }
    }
  }

  lemma RepeatCount<T>(s: seq<T>, i: nat, j: nat)
    requires i < j < |s| && s[i] == s[j]
    ensures multiset(s)[s[i]] >= 2
  {
    assert s == s[..j] + [s[j]] + s[j + 1..];
    assert s[..j][i] == s[i];
    assert s[i] in multiset(s[..j]);
  }

  /** An element whose key no other element has can be put in front. */
  lemma ConsKeepsDistinctBy<T, K>(key: T -> K, x: T, s: seq<T>)
    requires DistinctBy(key, s)
    requires forall y :: y in s ==> key(y) != key(x)
    ensures DistinctBy(key, [x] + s)
  {
    var r := [x] + s;
    forall i, j | 0 <= i < j < |r| ensures key(r[i]) != key(r[j]) {
      assert r[j] == s[j - 1];
      if i > 0 {
        assert r[i] == s[i - 1];
      } else {
        assert s[j - 1] in s;
      }
    }
  }

  /** A permutation of a sequence whose elements have distinct keys has distinct keys too. */
  lemma {:induction false} PermutationKeepsDistinctBy<T, K>(key: T -> K, s: seq<T>, t: seq<T>)
    requires multiset(s) == multiset(t)
    requires DistinctBy(key, s)
    ensures DistinctBy(key, t)
  {
    assert Distinct(s) by {
      forall i, j | 0 <= i < j < |s| ensures s[i] != s[j] {
        assert key(s[i]) != key(s[j]);
      }
    }
    forall i, j | 0 <= i < j < |t| ensures key(t[i]) != key(t[j]) {
      assert t[i] in multiset(s) && t[j] in multiset(s);
      var p :| 0 <= p < |s| && s[p] == t[i];
      var q :| 0 <= q < |s| && s[q] == t[j];
      if key(t[i]) == key(t[j]) {
        assert p == q;
        assert t[i] == t[j];
        RepeatCount(t, i, j);
        DistinctCount(s, t[i]);
        assert false;
      }
    }
  }
}
