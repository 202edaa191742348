/**
 * The rule list that guards score submission. Each field is checked by
 * express-validator rules that read the value's string form; a rule on an
 * array value checks every element and reports one error per failing
 * element, while `isArray` looks at the value itself. `optional()` skips
 * only an absent field. Every failing rule adds an error, in rule order.
 */
module ScoreValidation {
  import opened Text

  /** A JSON value that is not an array, plus `Undefined` for an absent field. */
  datatype Scalar = Undefined | Null | Bool(b: bool) | Num(text: string) | Str(s: string) | Obj

  /**
   * A request-body field. A number carries the text JavaScript renders it
   * as; arrays hold scalars.
   */
  datatype Json = Single(value: Scalar) | Arr(items: seq<Scalar>)

  const Missing := Single(Undefined)

  /** The string a rule sees. */
  function Show(v: Scalar): string {
    match v
    case Undefined => ""
    case Null => ""
    case Bool(b) => if b then "true" else "false"
    case Num(text) => text
    case Str(s) => s
    case Obj => "[object Object]"
  }

  /** The values a rule checks: the elements of an array, else the value itself. */
  function Checked(v: Json): seq<Scalar> {
    match v
    case Single(x) => [x]
    case Arr(items) => items
  }

  function SignLength(s: string): (n: nat)
    ensures n <= |s|
  {
    if s != [] && (s[0] == '+' || s[0] == '-') then 1 else 0
  }

  predicate IsNegative(s: string) {
    s != [] && s[0] == '-'
  }

  /** Some character of `s` is a digit other than `0`. */
  predicate HasNonZeroDigit(s: string) {
    exists i :: 0 <= i < |s| && IsDigit(s[i]) && s[i] != '0'
  }

  predicate HasDigit(s: string) {
    exists i :: 0 <= i < |s| && IsDigit(s[i])
  }

  /** Digits with at most one `.` among them. */
  predicate DecimalDigits(s: string) {
    && (forall i :: 0 <= i < |s| ==> IsDigit(s[i]) || s[i] == '.')
    && (forall i, j :: 0 <= i < j < |s| && s[i] == '.' ==> s[j] != '.')
  }

  /** `isNumeric`: `^[+-]?([0-9]*[.])?[0-9]+$`. */
  predicate NumericText(s: string) {
    var body := s[SignLength(s)..];
    body != [] && IsDigit(body[|body| - 1]) && DecimalDigits(body)
  }

  predicate IsExponentMark(c: char) {
    c == 'e' || c == 'E'
  }

  /** An exponent part: `e` or `E`, an optional sign, then one or more digits. */
  predicate ExponentText(x: string) {
    |x| >= 2 && IsExponentMark(x[0]) && var rest := x[1..];
    rest[SignLength(rest)..] != [] && AllDigits(rest[SignLength(rest)..])
  }

  /** The mantissa of a float numeral: the text between the sign and the exponent. */
  function Mantissa(s: string): string {
    var body := s[SignLength(s)..];
    body[..FirstIndex(body, IsExponentMark)]
  }

  /**
   * The numeral test of `isFloat`:
   * `^[-+]?[0-9]*(\.[0-9]*)?([eE][+-]?[0-9]+)?$`, excluding the texts
   * `""`, `"."`, `"+"` and `"-"`.
   */
  predicate FloatText(s: string) {
    var body := s[SignLength(s)..];
    var e := FirstIndex(body, IsExponentMark);
    && s !in {"", ".", "+", "-"}
    && DecimalDigits(body[..e])
    && (e == |body| || ExponentText(body[e..]))
  }

  /**
   * `isFloat({ min: 0 })`: a float numeral whose value is a number (the
   * mantissa has a digit) and not below zero (no minus sign, or only zero
   * digits in the mantissa, which reads as -0).
   */
  predicate NonNegativeFloat(s: string) {
    FloatText(s) && HasDigit(Mantissa(s)) && !(IsNegative(s) && HasNonZeroDigit(Mantissa(s)))
  }

  /** `isInt({ min: 1 })`: `^[-+]?[0-9]+$` with a value of at least one. */
  predicate PositiveIntText(s: string) {
    var body := s[SignLength(s)..];
    body != [] && AllDigits(body) && !IsNegative(s) && HasNonZeroDigit(body)
  }

  /** `isBoolean()` in its strict form. */
  predicate BooleanText(s: string) {
    s in {"true", "false", "1", "0"}
  }

  const GameTypeNames: set<string> := {"number_guessing", "word_guessing", "general"}

  const DifficultyNames: set<string> := {"easy", "medium", "hard"}

  datatype Field = GameTypeField | ScoreField | AttemptsField | TimeSpentField | DifficultyField
                 | IsWinField | TargetNumberField | GuessedNumberField | HintsField

  datatype FieldError = FieldError(field: Field, message: string)

  /** The message of a rule given no message of its own. */
  const DefaultMessage := "Invalid value"

  /** Every checked value of `v` satisfies `p`. */
  predicate Each(v: Json, p: string -> bool) {
    forall x :: x in Checked(v) ==> p(Show(x))
  }

  /** The values of `v` that fail `test`, one error each. */
  function Rule(v: Json, test: string -> bool, field: Field, message: string): (errs: seq<FieldError>)
    ensures forall e :: e in errs ==> e == FieldError(field, message)
    ensures errs == [] <==> Each(v, test)
  {
    RuleOver(Checked(v), test, field, message)
  }

  function RuleOver(xs: seq<Scalar>, test: string -> bool, field: Field, message: string): (errs: seq<FieldError>)
    ensures |errs| <= |xs|
    ensures forall e :: e in errs ==> e == FieldError(field, message)
    ensures errs == [] <==> forall x :: x in xs ==> test(Show(x))
  {
    if xs == [] then []
    else
      var rest := RuleOver(xs[1..], test, field, message);
      assert forall x :: x in xs <==> x == xs[0] || x in xs[1..];
      if test(Show(xs[0])) then rest else [FieldError(field, message)] + rest
  }

  /** `optional()`: an absent field is not checked at all. */
  function Optional(v: Json, errs: seq<FieldError>): seq<FieldError> {
    if v == Missing then [] else errs
  }

  predicate IsArray(v: Json) {
    v.Arr?
  }

  datatype Submission = Submission(
    gameType: Json,
    score: Json,
    attempts: Json,
    timeSpent: Json,
    difficulty: Json,
    isWin: Json,
    targetNumber: Json,
    guessedNumber: Json,
    hints: Json)

  function InGameTypes(s: string): bool { s in GameTypeNames }
  function InDifficulties(s: string): bool { s in DifficultyNames }
  function IsNumeric(s: string): bool { NumericText(s) }
  function IsNonNegativeFloat(s: string): bool { NonNegativeFloat(s) }
  function IsPositiveInt(s: string): bool { PositiveIntText(s) }
  function IsBoolean(s: string): bool { BooleanText(s) }

  /** What the rule list accepts, field by field. */
  predicate Acceptable(b: Submission) {
    && Each(b.gameType, InGameTypes)
    && Each(b.score, IsNumeric) && Each(b.score, IsNonNegativeFloat)
    && Each(b.attempts, IsPositiveInt)
    && Each(b.timeSpent, IsNumeric) && Each(b.timeSpent, IsNonNegativeFloat)
    && Each(b.difficulty, InDifficulties)
    && Each(b.isWin, IsBoolean)
    && (b.targetNumber == Missing || Each(b.targetNumber, IsNumeric))
    && (b.guessedNumber == Missing || Each(b.guessedNumber, IsNumeric))
    && (b.hints == Missing || IsArray(b.hints))
  }

  /** Every error the rule list reports for `b`, in rule order. */
  function ValidateGameScore(b: Submission): (errs: seq<FieldError>)
    ensures errs == [] <==> Acceptable(b)
  {
    Rule(b.gameType, InGameTypes, GameTypeField,
         "Game type must be one of: number_guessing, word_guessing, general")
    + Rule(b.score, IsNumeric, ScoreField, DefaultMessage)
    + Rule(b.score, IsNonNegativeFloat, ScoreField, "Score must be a non-negative number")
    + Rule(b.attempts, IsPositiveInt, AttemptsField, "Attempts must be a positive integer")
    + Rule(b.timeSpent, IsNumeric, TimeSpentField, DefaultMessage)
    + Rule(b.timeSpent, IsNonNegativeFloat, TimeSpentField, "Time spent must be a non-negative number")
    + Rule(b.difficulty, InDifficulties, DifficultyField, "Difficulty must be one of: easy, medium, hard")
    + Rule(b.isWin, IsBoolean, IsWinField, "isWin must be a boolean value")
    + Optional(b.targetNumber, Rule(b.targetNumber, IsNumeric, TargetNumberField, "Target number must be numeric"))
    + Optional(b.guessedNumber, Rule(b.guessedNumber, IsNumeric, GuessedNumberField, "Guessed number must be numeric"))
    + Optional(b.hints, if IsArray(b.hints) then [] else [FieldError(HintsField, "Hints must be an array")])
  }

  /** An absent field is read as the empty string: a rule that refuses `""` reports it once. */
  lemma MissingFailsRule(test: string -> bool, field: Field, message: string)
    requires !test("")
    ensures Rule(Missing, test, field, message) == [FieldError(field, message)]
  {
    assert Checked(Missing) == [Undefined];
    assert Checked(Missing)[1..] == [];
  }

  /** The game type is required: leaving it out is an error, and it comes first. */
  lemma GameTypeRequired(b: Submission)
    requires b.gameType == Missing
    ensures ValidateGameScore(b) != []
    ensures ValidateGameScore(b)[0] == FieldError(GameTypeField, "Game type must be one of: number_guessing, word_guessing, general")
  {
    assert !InGameTypes("");
    MissingFailsRule(InGameTypes, GameTypeField, "Game type must be one of: number_guessing, word_guessing, general");
  }

  /** Optional fields may be absent, but a `null` one is checked: `null` hints are not an array. */
  lemma NullIsNotAbsent(b: Submission)
    requires Acceptable(b.(hints := Missing))
    ensures ValidateGameScore(b.(hints := Missing)) == []
    ensures b.hints == Single(Null) ==> ValidateGameScore(b) == [FieldError(HintsField, "Hints must be an array")]
  {
  }

  lemma NoExponentMark(s: string)
    requires AllDigits(s)
    ensures FirstIndex(s, IsExponentMark) == |s|
  {
  }

  /** A rendered whole number: numeric, a non-negative float, and an integer of at least one unless zero. */
  lemma RenderedNatChecks(n: nat)
    ensures NumericText(ShowNat(n))
    ensures NonNegativeFloat(ShowNat(n))
    ensures PositiveIntText(ShowNat(n)) <==> n >= 1
  {
    var s := ShowNat(n);
    assert SignLength(s) == 0 && s[SignLength(s)..] == s;
    NoExponentMark(s);
    assert Mantissa(s) == s;
    assert IsDigit(s[0]);
    if n >= 1 {
      assert s[0] != '0';
    } else {
      assert s == "0";
    }
  }

  /** A rendered integer is always numeric, so only the sign rules can reject it. */
  lemma RenderedIntIsNumeric(i: int)
    ensures NumericText(ShowInt(i))
  {
    var m: nat := if i < 0 then -i else i;
    RenderedNatChecks(m);
    if i < 0 {
      var s := ShowInt(i);
      assert s[SignLength(s)..] == ShowNat(m);
    }
  }

  /** An integral score or time passes `isFloat({ min: 0 })` exactly when it is not negative. */
  lemma IntegerAcceptedIffNonNegative(i: int)
    ensures NonNegativeFloat(ShowInt(i)) <==> i >= 0
  {
    if i >= 0 {
      RenderedNatChecks(i);
    } else {
      var s := ShowInt(i);
      var m := ShowNat(-i);
      assert s[SignLength(s)..] == m;
      NoExponentMark(m);
      assert Mantissa(s) == m;
      assert m[0] != '0' && IsDigit(m[0]);
    }
  }

  /** An integral attempt count passes `isInt({ min: 1 })` exactly when it is at least one. */
  lemma IntegerAttemptsIffPositive(i: int)
    ensures PositiveIntText(ShowInt(i)) <==> i >= 1
  {
    if i >= 0 {
      RenderedNatChecks(i);
    } else {
      assert IsNegative(ShowInt(i));
    }
  }

  /**
   * Whatever text passes `isInt({ min: 1 })` reads, without its `+`, as a
   * numeral of value at least one: the count the store demands.
   */
  lemma {:induction false} PositiveIntHasPositiveValue(s: string)
    requires PositiveIntText(s)
    ensures var body := s[SignLength(s)..]; AllDigitsIn(body, 10) && NumeralValue(body, 10) >= 1
  {
    var body := s[SignLength(s)..];
    NonZeroNumeral(body);
  }

  lemma {:induction false} NonZeroNumeral(s: string)
    requires AllDigits(s) && HasNonZeroDigit(s)
    ensures AllDigitsIn(s, 10) && NumeralValue(s, 10) >= 1
  {
    var front := s[..|s| - 1];
    assert forall i :: 0 <= i < |front| ==> front[i] == s[i];
    if s[|s| - 1] == '0' {
      var k :| 0 <= k < |s| && IsDigit(s[k]) && s[k] != '0';
      assert k < |front| && front[k] == s[k];
      NonZeroNumeral(front);
    }
  }

  /** Text the store's number parsing would accept but `isNumeric` does not: an exponent. */
  lemma ExponentNotationIsNotNumeric()
    ensures !NumericText("1e3") && NonNegativeFloat("1e3")
  {
    assert "1e3"[SignLength("1e3")..] == "1e3";
    assert FirstIndex("1e3", IsExponentMark) == 1;
    assert "1e3"[1..] == "e3" && "e3"[1..] == "3";
    assert Mantissa("1e3") == "1";
    assert IsDigit("1"[0]);
  }

  /** Minus zero is not below zero. */
  lemma MinusZeroIsNonNegative()
    ensures NumericText("-0") && NonNegativeFloat("-0") && !PositiveIntText("-0")
  {
    assert "-0"[SignLength("-0")..] == "0";
    assert FirstIndex("0", IsExponentMark) == 1;
    assert Mantissa("-0") == "0";
    assert IsDigit("0"[0]);
  }

  /** A single value passes a rule exactly when its string form does. */
  lemma SingleEach(x: Scalar, p: string -> bool)
    ensures Each(Single(x), p) <==> p(Show(x))
  {
    assert Checked(Single(x)) == [x];
  }

  lemma NamePasses(name: string, p: string -> bool)
    requires p(name)
    ensures Each(Single(Str(name)), p)
  {
    SingleEach(Str(name), p);
  }

  lemma RenderedPasses(i: int)
    ensures Each(Single(Num(ShowInt(i))), IsNumeric)
    ensures i >= 0 ==> Each(Single(Num(ShowInt(i))), IsNonNegativeFloat)
    ensures i >= 1 ==> Each(Single(Num(ShowInt(i))), IsPositiveInt)
  {
    RenderedIntIsNumeric(i);
    IntegerAcceptedIffNonNegative(i);
    IntegerAttemptsIffPositive(i);
    SingleEach(Num(ShowInt(i)), IsNumeric);
    SingleEach(Num(ShowInt(i)), IsNonNegativeFloat);
    SingleEach(Num(ShowInt(i)), IsPositiveInt);
  }

  lemma BooleanPasses(b: bool)
    ensures Each(Single(Bool(b)), IsBoolean)
  {
    SingleEach(Bool(b), IsBoolean);
  }

  /**
   * A body of rendered integers passes every rule when the score and time
   * are not negative, there is at least one attempt, and the type and
   * difficulty are known names.
   */
  lemma RenderedBodyPasses(gameType: string, score: int, attempts: int, timeSpent: int, difficulty: string,
                           isWin: bool, target: int, guessed: int, hints: seq<Scalar>)
    requires gameType in GameTypeNames && difficulty in DifficultyNames
    requires score >= 0 && attempts >= 1 && timeSpent >= 0
    ensures ValidateGameScore(Submission(
      Single(Str(gameType)), Single(Num(ShowInt(score))), Single(Num(ShowInt(attempts))),
      Single(Num(ShowInt(timeSpent))), Single(Str(difficulty)), Single(Bool(isWin)),
      Single(Num(ShowInt(target))), Single(Num(ShowInt(guessed))), Arr(hints))) == []
  {
    NamePasses(gameType, InGameTypes);
    NamePasses(difficulty, InDifficulties);
    RenderedPasses(score);
    RenderedPasses(attempts);
    RenderedPasses(timeSpent);
    RenderedPasses(target);
    RenderedPasses(guessed);
    BooleanPasses(isWin);
  }
}
