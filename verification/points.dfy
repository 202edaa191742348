/**
 * The `points` virtual of a game record: 100 for a win, a bonus of 10 per
 * attempt under ten, a bonus of a tenth of a point per second under five
 * minutes (rounded), all scaled by the difficulty, and 0 for a loss.
 */
module Points {
  import opened Records

  const BonusAttempts: nat := 10
  const BonusSeconds: nat := 300

  /** `max(0, (10 - attempts) * 10)`. */
  function AttemptBonus(attempts: nat): nat {
    if attempts < BonusAttempts then (BonusAttempts - attempts) * 10 else 0
  }

  /** `Math.round(max(0, (300 - timeSpent) / 10))` for whole seconds. */
  function TimeBonus(timeSpent: nat): (b: nat)
    ensures 10 * b <= (if timeSpent < BonusSeconds then BonusSeconds - timeSpent else 0) + 5
    ensures (if timeSpent < BonusSeconds then BonusSeconds - timeSpent else 0) + 5 < 10 * (b + 1)
  {
    if timeSpent < BonusSeconds then (BonusSeconds - timeSpent + 5) / 10 else 0
  }

  /**
   * Multiplying by 1, 1.5 or 2 and rounding: for a whole number `p`,
   * `Math.round(1.5 * p)` is `(3 * p + 1) / 2`.
   */
  function Scaled(d: Difficulty, p: nat): (q: nat)
    ensures d == Easy ==> q == p
    ensures d == Hard ==> q == 2 * p
    ensures d == Medium ==> 2 * q <= 3 * p + 1 < 2 * q + 2
  {
    match d
    case Easy => p
    case Medium => (3 * p + 1) / 2
    case Hard => 2 * p
  }

  function Points(r: GameRecord): (p: nat)
    ensures !r.isWin ==> p == 0
    ensures r.isWin ==> 100 <= p
    ensures r.isWin && r.attempts >= 1 ==> p <= 440
  {
    if r.isWin then Scaled(r.difficulty, 100 + AttemptBonus(r.attempts) + TimeBonus(r.timeSpent))
    else 0
  }

  lemma ScaledMonotone(d: Difficulty, p: nat, q: nat)
    requires p <= q
    ensures Scaled(d, p) <= Scaled(d, q)
  {
  }

  /** The extremes of a win: 100 (easy, ten attempts, five minutes) and 440 (hard, first try, no time). */
  lemma PointsExtremes(r: GameRecord)
    requires r.isWin
    ensures r.difficulty == Easy && r.attempts >= 10 && r.timeSpent >= 300 ==> Points(r) == 100
    ensures r.difficulty == Hard && r.attempts == 1 && r.timeSpent == 0 ==> Points(r) == 440
  {
  }

  /** More attempts never earn more points, other fields fixed. */
  lemma PointsAntitoneInAttempts(r: GameRecord, fewer: nat, more: nat)
    requires fewer <= more
    ensures Points(r.(attempts := more)) <= Points(r.(attempts := fewer))
  {
    if r.isWin {
      ScaledMonotone(r.difficulty,
        100 + AttemptBonus(more) + TimeBonus(r.timeSpent),
        100 + AttemptBonus(fewer) + TimeBonus(r.timeSpent));
    }
  }

  /** More time never earns more points, other fields fixed. */
  lemma PointsAntitoneInTime(r: GameRecord, faster: nat, slower: nat)
    requires faster <= slower
    ensures Points(r.(timeSpent := slower)) <= Points(r.(timeSpent := faster))
  {
    if r.isWin {
      assert TimeBonus(slower) <= TimeBonus(faster);
      ScaledMonotone(r.difficulty,
        100 + AttemptBonus(r.attempts) + TimeBonus(slower),
        100 + AttemptBonus(r.attempts) + TimeBonus(faster));
    }
  }

  /** Harder games are worth at least as much: easy <= medium <= hard. */
  lemma PointsMonotoneInDifficulty(r: GameRecord)
    ensures Points(r.(difficulty := Easy)) <= Points(r.(difficulty := Medium))
    ensures Points(r.(difficulty := Medium)) <= Points(r.(difficulty := Hard))
  {
  }
}
