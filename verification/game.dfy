/**
 * The client's number-guessing game: five attempts to find a target in
 * 1..20, hints after each wrong guess, a score submission when the game
 * ends and the player's local streak counters. The target and the clock
 * readings (milliseconds, as `Date.now()` gives them) are inputs here.
 */
module Game {
  import opened Wrappers
  import opened Text
  import opened Records
  import ScoreValidation
  import ScoreService
  import Users

  const MaxAttempts: int := 5
  const Lowest: int := 1
  const Highest: int := 20

  datatype Status = Idle | Playing | Won | Lost

  /** One accepted guess and its 1-based position. */
  datatype Guess = Guess(guess: int, attempt: int)

  datatype Feedback =
    | Silent
    | Prompt
    | OutOfRange
    | Correct(attempts: int)
    | GameOver(target: int)
    | TooHigh(left: int)
    | TooLow(left: int)

  /** The text shown for each feedback. */
  function FeedbackText(f: Feedback): (text: string)
    ensures text == "" <==> f.Silent?
  {
    match f
    case Silent => ""
    case Prompt => "Guess a number between 1 and 20!"
    case OutOfRange => "Please enter a number between 1 and 20!"
    case Correct(n) => "\U{1F389} Correct! You won in " + ShowInt(n) + " attempts!"
    case GameOver(t) => "\U{1F61E} Game over! The number was " + ShowInt(t) + "."
    case TooHigh(n) => "Too high! " + ShowInt(n) + " attempts left."
    case TooLow(n) => "Too low! " + ShowInt(n) + " attempts left."
  }

  datatype GameState = GameState(
    targetNumber: Option<int>,
    currentGuess: string,
    attempts: int,
    maxAttempts: int,
    status: Status,
    feedback: Feedback,
    history: seq<Guess>,
    startTime: Option<int>,
    difficulty: Difficulty)

  /** The signed-in player's local counters. */
  datatype PlayerStats = PlayerStats(currentStreak: int, longestStreak: int, totalGames: int, totalWins: int)

  /** What the client sends to record a finished game. */
  datatype Submission = Submission(
    score: int,
    attempts: int,
    timeSpent: int,
    difficulty: Difficulty,
    isWin: bool,
    targetNumber: Option<int>,
    guessedNumber: int,
    hints: seq<string>)

  /** The result of one call: the next state, what was submitted (if anything), the player's counters. */
  datatype Turn = Turn(state: GameState, submission: Option<Submission>, player: Option<PlayerStats>)

  predicate InRange(n: int) {
    Lowest <= n <= Highest
  }

  /** The state before any game and after a reset. */
  const Initial := GameState(None, "", MaxAttempts, MaxAttempts, Idle, Silent, [], None, Medium)

  /**
   * The states the game can reach: the attempt counter and the history
   * agree, guesses are numbered 1, 2, ..., and the status matches where the
   * guesses stand relative to the target.
   */
  ghost predicate Wf(s: GameState) {
    && s.maxAttempts == MaxAttempts
    && 0 <= s.attempts <= s.maxAttempts
    && |s.history| == s.maxAttempts - s.attempts
    && (forall k :: 0 <= k < |s.history| ==> s.history[k].attempt == k + 1 && InRange(s.history[k].guess))
    && (s.status == Idle <==> s.targetNumber.None?)
    && (s.status == Idle ==> s.history == [] && s.startTime.None?)
    && (s.status != Idle ==> s.startTime.Some? && InRange(s.targetNumber.value))
    && (s.status == Playing ==> s.attempts >= 1 && forall g :: g in s.history ==> Some(g.guess) != s.targetNumber)
    && (s.status == Won ==> |s.history| >= 1 && Some(s.history[|s.history| - 1].guess) == s.targetNumber
                            && forall k :: 0 <= k < |s.history| - 1 ==> Some(s.history[k].guess) != s.targetNumber)
    && (s.status == Lost ==> s.attempts == 0 && forall g :: g in s.history ==> Some(g.guess) != s.targetNumber)
  }

  lemma InitialIsWf()
    ensures Wf(Initial)
  {
  }

  /** `startNewGame`, given the drawn target and the clock. */
  function StartNewGame(target: int, now: int): (s: GameState)
    requires InRange(target)
    ensures Wf(s)
    ensures s.status == Playing && s.attempts == s.maxAttempts == 5 && s.history == []
    ensures s.targetNumber == Some(target) && s.startTime == Some(now)
  {
    GameState(Some(target), "", MaxAttempts, MaxAttempts, Playing, Prompt, [], Some(now), Medium)
  }

  /** `resetGame`: back to idle, with no target and no start time. */
  function ResetGame(): (s: GameState)
    ensures Wf(s)
    ensures s.status == Idle && s.targetNumber.None? && s.startTime.None?
    ensures s.attempts == s.maxAttempts && s.history == []
  {
    Initial
  }

  /**
   * `Math.round((now - start) / 1000)`: the seconds between two clock
   * readings, halves rounded up. Negative when the clock went back.
   */
  function ElapsedSeconds(start: int, now: int): (t: int)
    ensures 1000 * t - 500 <= now - start < 1000 * t + 500
    ensures now >= start ==> t >= 0
    ensures now < start - 500 ==> t < 0
  {
    (2 * (now - start) + 1000) / 2000
  }

  /**
   * `max(0, 100 - (attemptsUsed - 1) * 10 - floor(timeSpent / 10))` for a
   * win, 0 otherwise. A negative time adds to the score.
   */
  function ClientScore(isWin: bool, attemptsUsed: int, timeSpent: int): (score: int)
    ensures 0 <= score
    ensures attemptsUsed >= 1 && timeSpent >= 0 ==> score <= 100
    ensures isWin && attemptsUsed == 1 && timeSpent <= -10 ==> score > 100
    ensures !isWin ==> score == 0
  {
    if isWin then Wrappers.Max(0, 100 - (attemptsUsed - 1) * 10 - timeSpent / 10) else 0
  }

  /** The client's score never grows with more attempts or more time. */
  lemma ClientScoreAntitone(a1: int, a2: int, t1: int, t2: int)
    requires a1 <= a2 && t1 <= t2
    ensures ClientScore(true, a2, t2) <= ClientScore(true, a1, t1)
  {
    assert t1 / 10 <= t2 / 10;
  }

  /** The hint recorded for an earlier guess, as the template `Attempt ${attempt}: ${guess}` renders it. */
  function HintText(g: Guess): string {
    "Attempt " + ShowInt(g.attempt) + ": " + ShowInt(g.guess)
  }

  function Hints(history: seq<Guess>): (hs: seq<string>)
    ensures |hs| == |history|
    ensures forall k :: 0 <= k < |history| ==> hs[k] == HintText(history[k])
  {
    seq(|history|, k requires 0 <= k < |history| => HintText(history[k]))
  }

  /** `!gameState.startTime`: no start time, or the falsy reading 0. */
  predicate NoStartTime(s: GameState) {
    s.startTime.None? || s.startTime.value == 0
  }

  /**
   * The client's `recordGameScore`, read against the state BEFORE the
   * deciding guess, with the clock reading `now`: nothing without a
   * signed-in player or a (truthy) start time.
   */
  function Record(s: GameState, signedIn: bool, isWin: bool, finalGuess: int, now: int): (sub: Option<Submission>)
    ensures sub.Some? <==> signedIn && s.startTime.Some? && s.startTime.value != 0
    ensures sub.Some? ==> sub.value.attempts == s.maxAttempts - s.attempts + (if isWin then 1 else 0)
    ensures sub.Some? ==> sub.value.timeSpent == ElapsedSeconds(s.startTime.value, now)
    ensures sub.Some? ==> sub.value.score == ClientScore(isWin, sub.value.attempts, sub.value.timeSpent)
    ensures sub.Some? ==> sub.value.isWin == isWin && sub.value.guessedNumber == finalGuess
                          && sub.value.targetNumber == s.targetNumber
    ensures sub.Some? ==> |sub.value.hints| == |s.history|
  {
    if !signedIn || NoStartTime(s) then None
    else
      var timeSpent := ElapsedSeconds(s.startTime.value, now);
      var used := s.maxAttempts - s.attempts + (if isWin then 1 else 0);
      Some(Submission(ClientScore(isWin, used, timeSpent), used, timeSpent, s.difficulty, isWin,
                      s.targetNumber, finalGuess, Hints(s.history)))
  }

  /** `updateUserStats` after a win. */
  function AfterWin(p: PlayerStats): (q: PlayerStats)
    ensures q.currentStreak == p.currentStreak + 1 <= q.longestStreak
    ensures p.longestStreak <= q.longestStreak
    ensures q.totalGames == p.totalGames + 1 && q.totalWins == p.totalWins + 1
  {
    var current := p.currentStreak + 1;
    PlayerStats(current, Wrappers.Max(p.longestStreak, current), p.totalGames + 1, p.totalWins + 1)
  }

  /** `updateUserStats` after a loss: the longest streak and the wins stay. */
  function AfterLoss(p: PlayerStats): (q: PlayerStats)
    ensures q.currentStreak == 0
    ensures q.longestStreak == p.longestStreak && q.totalWins == p.totalWins
    ensures q.totalGames == p.totalGames + 1
  {
    p.(currentStreak := 0, totalGames := p.totalGames + 1)
  }

  /** The numeric guess typed, if `parseInt` reads a number in 1..20. */
  function ReadGuess(input: string): (g: Option<int>)
    ensures g.Some? ==> InRange(g.value)
    ensures g.Some? <==> ParseInt(input).Some? && InRange(ParseInt(input).value)
  {
    match ParseInt(input)
    case Some(n) => if InRange(n) then Some(n) else None
    case None => None
  }

  /** Typing any number in range, as the number input renders it, reads back as that guess; numbers out of range are refused. */
  lemma TypedNumberIsRead(n: int)
    ensures ReadGuess(ShowInt(n)) == (if InRange(n) then Some(n) else None)
  {
    ParseShowRoundTrip(n);
  }

  /** An accepted guess `g`: one attempt used, the guess appended, the outcome decided. */
  function Advance(s: GameState, player: Option<PlayerStats>, g: int, now: int): (t: Turn)
    requires s.status == Playing && s.attempts > 0
    ensures t.state.attempts == s.attempts - 1 && |t.state.history| == |s.history| + 1
    ensures t.state.status == Won <==> Some(g) == s.targetNumber
    ensures t.state.status == Lost <==> Some(g) != s.targetNumber && s.attempts == 1
    ensures t.state.status == Playing ==> t.submission.None? && t.player == player
    ensures player.None? ==> t.player.None?
  {
    var left := s.attempts - 1;
    var history := s.history + [Guess(g, s.maxAttempts - left)];
    var next := s.(attempts := left, history := history, currentGuess := "");
    if Some(g) == s.targetNumber then
      Turn(next.(status := Won, feedback := Correct(s.maxAttempts - left)),
           Record(s, player.Some?, true, g, now),
           if player.Some? then Some(AfterWin(player.value)) else None)
    else if left == 0 then
      Turn(next.(status := Lost, feedback := GameOver(s.targetNumber.GetOr(0))),
           Record(s, player.Some?, false, g, now),
           if player.Some? then Some(AfterLoss(player.value)) else None)
    else
      var target := s.targetNumber.GetOr(0);
      Turn(next.(status := Playing, feedback := if g > target then TooHigh(left) else TooLow(left)),
           None, player)
  }

  /** `makeGuess` with the typed text and the seconds since the game started. */
  function MakeGuess(s: GameState, player: Option<PlayerStats>, input: string, now: int): (t: Turn)
    ensures s.status != Playing || s.attempts <= 0 ==> t == Turn(s, None, player)
    ensures s.status == Playing && s.attempts > 0 && ReadGuess(input).None? ==>
              t == Turn(s.(feedback := OutOfRange), None, player)
    ensures s.status == Playing && s.attempts > 0 && ReadGuess(input).Some? ==>
              t == Advance(s, player, ReadGuess(input).value, now)
  {
    if s.status != Playing || s.attempts <= 0 then Turn(s, None, player)
    else match ReadGuess(input)
      case None => Turn(s.(feedback := OutOfRange), None, player)
      case Some(g) => Advance(s, player, g, now)
  }

  /** A guess that is not a number in 1..20 only changes the feedback. */
  lemma BadGuessOnlyChangesFeedback(s: GameState, player: Option<PlayerStats>, input: string, now: int)
    requires s.status == Playing && s.attempts > 0
    requires ParseInt(input).None? || !InRange(ParseInt(input).value)
    ensures MakeGuess(s, player, input, now) == Turn(s.(feedback := OutOfRange), None, player)
  {
  }

  /**
   * An accepted guess uses exactly one attempt and is appended to the
   * history with its position, so the history always holds
   * `maxAttempts - attempts` guesses.
   */
  lemma GuessUsesOneAttempt(s: GameState, player: Option<PlayerStats>, g: int, now: int)
    requires Wf(s) && s.status == Playing
    ensures var t := Advance(s, player, g, now);
      && t.state.attempts == s.attempts - 1
      && t.state.history == s.history + [Guess(g, s.maxAttempts - t.state.attempts)]
      && |t.state.history| == t.state.maxAttempts - t.state.attempts
      && t.state.targetNumber == s.targetNumber && t.state.startTime == s.startTime
  {
  }

  /**
   * The outcome: the target decides first, so a correct last guess still
   * wins; a wrong guess with no attempts left loses; otherwise play goes
   * on with a too-high or too-low hint and nothing submitted.
   */
  lemma GuessOutcome(s: GameState, player: Option<PlayerStats>, g: int, now: int)
    requires Wf(s) && s.status == Playing
    ensures var t := Advance(s, player, g, now);
      && (Some(g) == s.targetNumber ==> t.state.status == Won && t.state.feedback == Correct(|t.state.history|))
      && (Some(g) != s.targetNumber && s.attempts == 1 ==>
            t.state.status == Lost && t.state.feedback == GameOver(s.targetNumber.value))
      && (Some(g) != s.targetNumber && s.attempts > 1 ==>
            && t.state.status == Playing && t.submission.None? && t.player == player
            && t.state.feedback == if g > s.targetNumber.value then TooHigh(t.state.attempts) else TooLow(t.state.attempts))
  {
  }

  /** Every transition keeps the state well formed. */
  lemma AdvanceKeepsWf(s: GameState, player: Option<PlayerStats>, g: int, now: int)
    requires Wf(s) && s.status == Playing && InRange(g)
    ensures Wf(Advance(s, player, g, now).state)
  {
    GuessUsesOneAttempt(s, player, g, now);
    GuessOutcome(s, player, g, now);
    ExtendedHistory(s, g);
  }

  /** The history after a guess: numbered in order, in range, and the earlier guesses all missed. */
  lemma ExtendedHistory(s: GameState, g: int)
    requires Wf(s) && s.status == Playing && InRange(g)
    ensures var h := s.history + [Guess(g, s.maxAttempts - (s.attempts - 1))];
      && (forall k :: 0 <= k < |h| ==> h[k].attempt == k + 1 && InRange(h[k].guess))
      && (forall k :: 0 <= k < |h| - 1 ==> Some(h[k].guess) != s.targetNumber)
      && (Some(g) != s.targetNumber ==> forall x :: x in h ==> Some(x.guess) != s.targetNumber)
  {
    var h := s.history + [Guess(g, s.maxAttempts - (s.attempts - 1))];
    forall k | 0 <= k < |h| - 1 ensures h[k] == s.history[k] && Some(h[k].guess) != s.targetNumber {
      assert s.history[k] in s.history;
    }
    assert forall x :: x in h ==> x in s.history || x == h[|h| - 1];
  }

  lemma MakeGuessKeepsWf(s: GameState, player: Option<PlayerStats>, input: string, now: int)
    requires Wf(s)
    ensures Wf(MakeGuess(s, player, input, now).state)
  {
    if s.status == Playing && s.attempts > 0 && ReadGuess(input).Some? {
      AdvanceKeepsWf(s, player, ReadGuess(input).value, now);
    }
  }

  /**
   * A finished game submits only for a signed-in player and a start time
   * other than the falsy 0. A win records every guess made; a loss records
   * one fewer than the five guesses made, because the count is read before
   * the final guess is counted.
   */
  lemma SubmittedAttempts(s: GameState, player: Option<PlayerStats>, g: int, now: int)
    requires Wf(s) && s.status == Playing
    ensures var t := Advance(s, player, g, now);
      && (t.submission.Some? <==> player.Some? && t.state.status != Playing && !NoStartTime(s))
      && (t.submission.Some? ==> 0 <= t.submission.value.score)
      && (t.submission.Some? && t.submission.value.timeSpent >= 0 ==> t.submission.value.score <= 100)
      && (t.submission.Some? && t.state.status == Won ==> t.submission.value.attempts == |t.state.history|)
      && (t.submission.Some? && t.state.status == Lost ==>
            t.submission.value.attempts == |t.state.history| - 1 == MaxAttempts - 1 && t.submission.value.score == 0)
      && (t.submission.Some? ==> t.submission.value.hints == Hints(s.history))
  {
  }

  /** The local counters after a finished game. */
  lemma PlayerCounters(s: GameState, p: PlayerStats, g: int, now: int)
    requires Wf(s) && s.status == Playing
    ensures var t := Advance(s, Some(p), g, now);
      && (t.state.status == Won ==> t.player == Some(PlayerStats(p.currentStreak + 1,
                                                              Wrappers.Max(p.longestStreak, p.currentStreak + 1),
                                                              p.totalGames + 1, p.totalWins + 1)))
      && (t.state.status == Lost ==> t.player == Some(PlayerStats(0, p.longestStreak, p.totalGames + 1, p.totalWins)))
      && (t.state.status == Playing ==> t.player == Some(p))
  {
  }

  /** Counters that start consistent stay consistent: streak <= longest <= wins <= games. */
  ghost predicate Consistent(p: PlayerStats) {
    0 <= p.currentStreak <= p.longestStreak <= p.totalWins <= p.totalGames
  }

  lemma CountersStayConsistent(p: PlayerStats)
    requires Consistent(p)
    ensures Consistent(AfterWin(p)) && Consistent(AfterLoss(p))
  {
  }

  function DifficultyName(d: Difficulty): string {
    match d
    case Easy => "easy"
    case Medium => "medium"
    case Hard => "hard"
  }

  /** The JSON body the client posts for a submission. */
  function Body(sub: Submission): ScoreValidation.Submission {
    ScoreValidation.Submission(
      ScoreValidation.Single(ScoreValidation.Str("number_guessing")),
      ScoreValidation.Single(ScoreValidation.Num(ShowInt(sub.score))),
      ScoreValidation.Single(ScoreValidation.Num(ShowInt(sub.attempts))),
      ScoreValidation.Single(ScoreValidation.Num(ShowInt(sub.timeSpent))),
      ScoreValidation.Single(ScoreValidation.Str(DifficultyName(sub.difficulty))),
      ScoreValidation.Single(ScoreValidation.Bool(sub.isWin)),
      match sub.targetNumber
        case Some(n) => ScoreValidation.Single(ScoreValidation.Num(ShowInt(n)))
        case None => ScoreValidation.Single(ScoreValidation.Null),
      ScoreValidation.Single(ScoreValidation.Num(ShowInt(sub.guessedNumber))),
      ScoreValidation.Arr(HintValues(sub.hints)))
  }

  function HintValues(hints: seq<string>): seq<ScoreValidation.Scalar> {
    seq(|hints|, k requires 0 <= k < |hints| => ScoreValidation.Str(hints[k]))
  }

  /**
   * What the game submits passes the server's rule list exactly when the
   * elapsed time is not negative (numbers render as their decimal digits,
   * as JavaScript does below 10^21). A clock that went back more than half
   * a second since the start gets the body rejected.
   */
  lemma SubmissionsPassValidation(s: GameState, player: Option<PlayerStats>, g: int, now: int)
    requires Wf(s) && s.status == Playing
    requires Advance(s, player, g, now).submission.Some?
    ensures var sub := Advance(s, player, g, now).submission.value;
      ScoreValidation.ValidateGameScore(Body(sub)) == [] <==> sub.timeSpent >= 0
    ensures now >= s.startTime.value ==>
      ScoreValidation.ValidateGameScore(Body(Advance(s, player, g, now).submission.value)) == []
  {
    SubmissionShape(s, player, g, now);
    BodyPassesIffTimeNotNegative(Advance(s, player, g, now).submission.value);
  }

  /** What the body rules look at in a submission of a finished game. */
  lemma SubmissionShape(s: GameState, player: Option<PlayerStats>, g: int, now: int)
    requires Wf(s) && s.status == Playing
    requires Advance(s, player, g, now).submission.Some?
    ensures var sub := Advance(s, player, g, now).submission.value;
      && sub.score >= 0 && sub.attempts >= 1 && sub.targetNumber.Some?
      && sub.timeSpent == ElapsedSeconds(s.startTime.value, now)
  {
  }

  /** With a score of at least 0 and at least one attempt, only the time can fail a body. */
  lemma BodyPassesIffTimeNotNegative(sub: Submission)
    requires sub.score >= 0 && sub.attempts >= 1 && sub.targetNumber.Some?
    ensures ScoreValidation.ValidateGameScore(Body(sub)) == [] <==> sub.timeSpent >= 0
  {
    if sub.timeSpent >= 0 {
      ScoreValidation.RenderedBodyPasses("number_guessing", sub.score, sub.attempts, sub.timeSpent,
                                         DifficultyName(sub.difficulty), sub.isWin, sub.targetNumber.value,
                                         sub.guessedNumber, HintValues(sub.hints));
    } else {
      NegativeTimeRejected(sub);
    }
  }

  /** A body whose time is negative fails the `timeSpent` rule. */
  lemma NegativeTimeRejected(sub: Submission)
    requires sub.timeSpent < 0
    ensures ScoreValidation.ValidateGameScore(Body(sub)) != []
  {
    var v := ScoreValidation.Num(ShowInt(sub.timeSpent));
    ScoreValidation.IntegerAcceptedIffNonNegative(sub.timeSpent);
    ScoreValidation.SingleEach(v, ScoreValidation.IsNonNegativeFloat);
    assert !ScoreValidation.Each(Body(sub).timeSpent, ScoreValidation.IsNonNegativeFloat);
  }

  /**
   * Twenty seconds of clock set back on a first-guess win: the client
   * computes a score of 102, and the server rejects the body.
   */
  lemma ClockSetBackOverscores(s: GameState, player: Option<PlayerStats>)
    requires Wf(s) && s.status == Playing && s.attempts == MaxAttempts && s.startTime == Some(100000)
    requires player.Some? && s.targetNumber.Some?
    ensures var sub := Advance(s, player, s.targetNumber.value, 80000).submission;
      && sub.Some? && sub.value.timeSpent == -20 && sub.value.score == 102
      && ScoreValidation.ValidateGameScore(Body(sub.value)) != []
  {
    var sub := Advance(s, player, s.targetNumber.value, 80000).submission.value;
    assert ElapsedSeconds(100000, 80000) == -20;
    NegativeTimeRejected(sub);
  }

  /**
   * The service's view of a submission from player `u`. The route has
   * already rejected negative numbers, so the clamps to 0 never act on a
   * body that reaches the service.
   */
  function GameData(sub: Submission, u: Users.UserId): ScoreService.GameData {
    ScoreService.GameData(u, Some(NumberGuessing), if sub.score >= 0 then sub.score else 0,
                          if sub.attempts >= 0 then sub.attempts else 0,
                          if sub.timeSpent >= 0 then sub.timeSpent else 0, Some(sub.difficulty),
                          sub.isWin, sub.targetNumber, Some(sub.guessedNumber), Some(sub.hints))
  }

  /**
   * A signed-in player in the directory whose finished game the route
   * admits gets it recorded with the client's own numbers.
   */
  lemma SubmissionsAreRecorded(s: GameState, p: PlayerStats, g: int, now: int,
                               store: Store, u: Users.UserId, recordedAt: int)
    requires Wf(s) && s.status == Playing
    requires Advance(s, Some(p), g, now).submission.Some?
    requires ScoreValidation.ValidateGameScore(Body(Advance(s, Some(p), g, now).submission.value)) == []
    requires u in store.directory.users
    ensures var sub := Advance(s, Some(p), g, now).submission.value;
      var res := ScoreService.RecordGameScore(store, GameData(sub, u), recordedAt);
      && res.Success?
      && res.value.1.score == sub.score && res.value.1.attempts == sub.attempts
      && res.value.1.timeSpent == sub.timeSpent
  {
    SubmissionShape(s, Some(p), g, now);
    SubmissionsPassValidation(s, Some(p), g, now);
  }
}
