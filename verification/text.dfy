/**
 * JavaScript string primitives the validators and the game rely on:
 * the `\s` character class (which is also what `trim` strips and what
 * `parseInt` skips), ASCII character classes, UTF-16 length, decimal
 * rendering of integers and `parseInt` with no radix.
 */
module Text {
  import opened Wrappers

  /** ECMAScript LineTerminator. */
  predicate IsLineTerminator(c: char) {
    c == '\n' || c == '\r' || c == '\U{2028}' || c == '\U{2029}'
  }

  /** ECMAScript WhiteSpace or LineTerminator: the `\s` class. */
  predicate IsSpace(c: char) {
    || c == '\t' || c == '\U{000B}' || c == '\U{000C}' || c == ' ' || c == '\U{00A0}' || c == '\U{FEFF}'
    || c == '\U{1680}' || ('\U{2000}' <= c <= '\U{200A}') || c == '\U{202F}' || c == '\U{205F}' || c == '\U{3000}'
    || IsLineTerminator(c)
  }

  predicate IsDigit(c: char) {
    '0' <= c <= '9'
  }

  predicate IsLower(c: char) {
    'a' <= c <= 'z'
  }

  predicate IsUpper(c: char) {
    'A' <= c <= 'Z'
  }

  /** `[a-zA-Z0-9]`. */
  predicate IsAlphanumeric(c: char) {
    IsLower(c) || IsUpper(c) || IsDigit(c)
  }

  predicate AllDigits(s: string) {
    forall i :: 0 <= i < |s| ==> IsDigit(s[i])
  }

  predicate HasSpace(s: string) {
    exists i :: 0 <= i < |s| && IsSpace(s[i])
  }

  /** The index of the first character satisfying `p`, or `|s|`. */
  function FirstIndex(s: string, p: char -> bool): (k: nat)
    ensures k <= |s|
    ensures forall i :: 0 <= i < k ==> !p(s[i])
    ensures k < |s| ==> p(s[k])
  {
    if s == [] || p(s[0]) then 0 else 1 + FirstIndex(s[1..], p)
  }

  /** `k` is the first position satisfying `p`, or the length if none does. */
  lemma FirstIndexIs(s: string, p: char -> bool, k: nat)
    requires k <= |s|
    requires forall i :: 0 <= i < k ==> !p(s[i])
    requires k < |s| ==> p(s[k])
    ensures FirstIndex(s, p) == k
  {
  }

  /** The leading `\s` characters removed. */
  function TrimStart(s: string): (r: string)
    ensures |r| <= |s| && r == s[|s| - |r|..]
    ensures r != [] ==> !IsSpace(r[0])
    ensures forall i :: 0 <= i < |s| - |r| ==> IsSpace(s[i])
  {
    if s != [] && IsSpace(s[0]) then TrimStart(s[1..]) else s
  }

  /** The trailing `\s` characters removed. */
  function TrimEnd(s: string): (r: string)
    ensures |r| <= |s| && r == s[..|r|]
    ensures r != [] ==> !IsSpace(r[|r| - 1])
    ensures forall i :: |r| <= i < |s| ==> IsSpace(s[i])
  {
    if s != [] && IsSpace(s[|s| - 1]) then TrimEnd(s[..|s| - 1]) else s
  }

  /** `String.prototype.trim`. */
  function Trim(s: string): (r: string)
    ensures r != [] ==> !IsSpace(r[0]) && !IsSpace(r[|r| - 1])
  {
    TrimEnd(TrimStart(s))
  }

  /** Trimming only cuts `\s` from both ends: the result is a slice of the input. */
  lemma TrimIsSlice(s: string)
    ensures exists i, j :: 0 <= i <= j <= |s| && Trim(s) == s[i..j]
  {
    var t := TrimStart(s);
    var r := TrimEnd(t);
    var k := |s| - |t|;
    assert t == s[k..];
    assert r == t[..|r|];
    assert r == s[k..k + |r|];
  }

  /** Trimming twice is trimming once. */
  lemma TrimIdempotent(s: string)
    ensures Trim(Trim(s)) == Trim(s)
  {
    var r := Trim(s);
    assert TrimStart(r) == r;
    assert TrimEnd(r) == r;
  }

  /** Trimming removes nothing that is not `\s`, and text without `\s` trims to itself. */
  lemma TrimKeepsNonSpace(s: string)
    requires !HasSpace(s)
    ensures Trim(s) == s
  {
    if s != [] {
      assert !IsSpace(s[0]) && !IsSpace(s[|s| - 1]);
    }
  }

  /** Text of nothing but `\s` trims to the empty string. */
  lemma TrimBlank(s: string)
    requires forall i :: 0 <= i < |s| ==> IsSpace(s[i])
    ensures Trim(s) == []
  {
    assert TrimStart(s) == [];
  }

  /** `String.prototype.length`: characters beyond the Basic Multilingual Plane take two UTF-16 units. */
  function Utf16Length(s: string): (n: nat)
    ensures |s| <= n <= 2 * |s|
    ensures (forall i :: 0 <= i < |s| ==> s[i] as int <= 0xFFFF) ==> n == |s|
  {
    if s == [] then 0
    else Utf16Length(s[..|s| - 1]) + (if s[|s| - 1] as int > 0xFFFF then 2 else 1)
  }

  lemma Utf16LengthAppend(s: string, c: char)
    ensures Utf16Length(s + [c]) >= Utf16Length(s) + 1
  {
    assert (s + [c])[..|s|] == s;
  }

  /**
   * The digit a character stands for in bases up to 36: `0-9`, then
   * `a-z` or `A-Z` for 10 to 35; any other character maps to 36, a digit
   * in no base.
   */
  function DigitOf(c: char): (d: nat)
    ensures d <= 36
    ensures d < 10 <==> IsDigit(c)
  {
    if IsDigit(c) then c as int - '0' as int
    else if IsLower(c) then c as int - 'a' as int + 10
    else if IsUpper(c) then c as int - 'A' as int + 10
    else 36
  }

  predicate IsDigitIn(c: char, radix: nat) {
    DigitOf(c) < radix
  }

  predicate AllDigitsIn(s: string, radix: nat) {
    forall i :: 0 <= i < |s| ==> IsDigitIn(s[i], radix)
  }

  /** The value of a numeral in base `radix`, most significant digit first. */
  function NumeralValue(s: string, radix: nat): nat
    requires AllDigitsIn(s, radix)
  {
    if s == [] then 0
    else NumeralValue(s[..|s| - 1], radix) * radix + DigitOf(s[|s| - 1])
  }

  /** The length of the longest prefix of `s` made of base-`radix` digits. */
  function DigitRun(s: string, radix: nat): (n: nat)
    ensures n <= |s|
    ensures AllDigitsIn(s[..n], radix)
    ensures n < |s| ==> !IsDigitIn(s[n], radix)
  {
    if s == [] || !IsDigitIn(s[0], radix) then 0
    else
      var n := 1 + DigitRun(s[1..], radix);
      assert forall i :: 1 <= i < n ==> s[..n][i] == s[1..][..n - 1][i - 1];
      n
  }

  function DigitChar(d: nat): (c: char)
    requires d < 10
    ensures IsDigit(c) && DigitOf(c) == d
  {
    ('0' as int + d) as char
  }

  /** `String(n)` for a whole number below 10^21: its decimal digits, no leading zero. */
  function ShowNat(n: nat): (s: string)
    ensures s != [] && AllDigits(s) && AllDigitsIn(s, 10)
    ensures |s| > 1 ==> s[0] != '0'
    ensures s[0] == '0' ==> n == 0
  {
    if n < 10 then [DigitChar(n)]
    else
      var s := ShowNat(n / 10) + [DigitChar(n % 10)];
      assert s[0] == ShowNat(n / 10)[0];
      s
  }

  /** Reading a rendered number back gives the number. */
  lemma {:induction false} ShowNatRoundTrip(n: nat)
    ensures NumeralValue(ShowNat(n), 10) == n
  {
    if n >= 10 {
      ShowNatRoundTrip(n / 10);
      var s := ShowNat(n);
      assert s[..|s| - 1] == ShowNat(n / 10);
    }
  }

  /** `String(i)` for an integer of magnitude below 10^21. */
  function ShowInt(i: int): (s: string)
    ensures s != []
    ensures i >= 0 ==> s == ShowNat(i)
    ensures i < 0 ==> s == "-" + ShowNat(-i)
  {
    if i < 0 then "-" + ShowNat(-i) else ShowNat(i)
  }

  /**
   * `parseInt(s)` with no radix: skip leading `\s`, take one sign, take a
   * `0x`/`0X` prefix as base 16, then read the longest run of digits; no
   * digits is NaN, here `None`. The value is exact (a negative zero reads
   * as 0).
   */
  function ParseInt(s: string): (r: Option<int>)
    ensures r.Some? ==> exists i :: 0 <= i < |s| && IsDigit(s[i])
  {
    var t := TrimStart(s);
    var negative := t != [] && t[0] == '-';
    var u := if t != [] && (t[0] == '-' || t[0] == '+') then t[1..] else t;
    var hex := |u| >= 2 && u[0] == '0' && (u[1] == 'x' || u[1] == 'X');
    var radix := if hex then 16 else 10;
    var digits := if hex then u[2..] else u;
    var n := DigitRun(digits, radix);
    if n == 0 then None
    else
      var m: int := NumeralValue(digits[..n], radix);
      var k := |s| - |u|;
      assert u == s[k..];
      assert u[0] == s[k];
      assert IsDigit(u[0]) by {
        if !hex {
          assert digits[..n][0] == u[0];
        }
      }
      Some(if negative then -m else m)
  }

  /** `parseInt(String(i)) == i`: rendering then parsing an integer round-trips. */
  lemma ParseShowRoundTrip(i: int)
    ensures ParseInt(ShowInt(i)) == Some(i)
  {
    var s := ShowInt(i);
    var m: nat := if i < 0 then -i else i;
    var digits := ShowNat(m);
    assert !IsSpace(s[0]);
    assert TrimStart(s) == s;
    var u := if i < 0 then s[1..] else s;
    assert u == digits;
    assert !(|u| >= 2 && u[0] == '0');
    DigitRunOfNumeral(digits, 10);
    assert digits[..|digits|] == digits;
    ShowNatRoundTrip(m);
  }

  lemma DigitRunOfNumeral(s: string, radix: nat)
    requires AllDigitsIn(s, radix)
    ensures DigitRun(s, radix) == |s|
  {
    if s != [] {
      DigitRunOfNumeral(s[1..], radix);
    }
  }
}
