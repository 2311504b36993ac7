/**
 * `typed(value)`: Python's `int(value)` if that succeeds, else `float(value)`
 * if that succeeds, else the string itself. Both conversions are modelled by
 * the grammar CPython accepts for a string argument (ASCII digits); the float
 * value itself is left opaque and is represented by the literal it came from.
 */
module Typing {
  import opened Wrappers

  datatype Typed = IntVal(i: int) | FloatVal(literal: string) | Str(s: string)

  /**
   * The characters `int()` and `float()` strip around a numeric literal: the
   * ASCII whitespace of the C locale (tab, line feed, vertical tab, form feed,
   * carriage return, space) and the non-ASCII Unicode spaces, which both
   * conversions turn into a plain space first. The ASCII separators
   * U+001C to U+001F are not among them, although `str.isspace` accepts them.
   */
  predicate IsSpace(c: char) {
    var n := c as int;
    (9 <= n <= 13) || n == 32 || n == 0x85 || n == 0xA0 || n == 0x1680 ||
    (0x2000 <= n <= 0x200A) || n == 0x2028 || n == 0x2029 || n == 0x202F ||
    n == 0x205F || n == 0x3000
  }

  predicate IsDigit(c: char) {
    '0' <= c <= '9'
  }

  function StripLeft(s: string): (r: string)
    ensures |r| <= |s|
  {
    if |s| > 0 && IsSpace(s[0]) then StripLeft(s[1..]) else s
  }

  function StripRight(s: string): (r: string)
    ensures |r| <= |s|
  {
    if |s| > 0 && IsSpace(s[|s| - 1]) then StripRight(s[..|s| - 1]) else s
  }

  function Strip(s: string): string {
    StripRight(StripLeft(s))
  }

  predicate IsSign(c: char) {
    c == '+' || c == '-'
  }

  /** `digit (["_"] digit)*`: digits, single underscores only between two digits. */
  predicate IsDigitPart(s: string)
    decreases |s|
  {
    |s| > 0 && IsDigit(s[|s| - 1]) &&
    (|s| == 1 || IsDigitPart(s[..|s| - 1]) ||
     (|s| >= 3 && s[|s| - 2] == '_' && IsDigitPart(s[..|s| - 2])))
  }

  function DigitValue(c: char): nat
    requires IsDigit(c)
  {
    (c as int) - ('0' as int)
  }

  /** The number a digit part denotes; underscores are ignored. */
  function DigitsValue(s: string): nat
    decreases |s|
  {
    if |s| == 0 then 0
    else if IsDigit(s[|s| - 1]) then 10 * DigitsValue(s[..|s| - 1]) + DigitValue(s[|s| - 1])
    else DigitsValue(s[..|s| - 1])
  }

  /**
   * `int(s)` for a string `s`: `None` where Python raises `ValueError`. Only a
   * string holding at least one digit is accepted.
   */
  function ParseInt(s: string): (r: Option<int>)
    ensures r.Some? ==> exists i :: 0 <= i < |s| && IsDigit(s[i])
  {
    var t := Strip(s);
    if |t| > 0 && IsSign(t[0]) then
      if IsDigitPart(t[1..]) then
        StripChars(s);
        assert t[1..][|t| - 2] == t[|t| - 1];
        assert IsDigit(s[|s| - |StripLeft(s)| + |t| - 1]);
        var n: int := DigitsValue(t[1..]);
        Some(if t[0] == '-' then -n else n)
      else None
    else if IsDigitPart(t) then
      StripChars(s);
      assert IsDigit(s[|s| - |StripLeft(s)| + |t| - 1]);
      Some(DigitsValue(t))
    else None
  }

  function Lower(s: string): (r: string)
    ensures |r| == |s|
  {
    if |s| == 0 then ""
    else [if 'A' <= s[0] <= 'Z' then (s[0] as int + 32) as char else s[0]] + Lower(s[1..])
  }

  /** The index of the first character of `s` that is `a` or `b`. */
  function IndexOfEither(s: string, a: char, b: char): (r: Option<nat>)
    ensures r.Some? ==> r.value < |s| && (s[r.value] == a || s[r.value] == b)
    ensures r.None? <==> forall i :: 0 <= i < |s| ==> s[i] != a && s[i] != b
  {
    if |s| == 0 then None
    else if s[0] == a || s[0] == b then Some(0)
    else
      match IndexOfEither(s[1..], a, b)
      case None => assert forall i :: 0 < i < |s| ==> s[i] == s[1..][i - 1]; None
      case Some(i) => Some(i + 1)
  }

  /** `[digitpart] "." digitpart | digitpart ["."]` */
  predicate IsNumber(m: string) {
    match IndexOfEither(m, '.', '.')
    case None => IsDigitPart(m)
    case Some(i) =>
      var whole, fraction := m[..i], m[i + 1..];
      (whole == "" || IsDigitPart(whole)) && (fraction == "" || IsDigitPart(fraction)) &&
      (whole != "" || fraction != "")
  }

  /** `["+" | "-"] digitpart`, what follows the `e` of an exponent. */
  predicate IsExponent(x: string) {
    if |x| > 0 && IsSign(x[0]) then IsDigitPart(x[1..]) else IsDigitPart(x)
  }

  /** `number [exponent]` */
  predicate IsFloatNumber(u: string) {
    match IndexOfEither(u, 'e', 'E')
    case None => IsNumber(u)
    case Some(i) => IsNumber(u[..i]) && IsExponent(u[i + 1..])
  }

  /** The text `float()` reads after stripping spaces and one leading sign. */
  function Unsigned(s: string): string {
    var t := Strip(s);
    if |t| > 0 && IsSign(t[0]) then t[1..] else t
  }

  /**
   * Whether `float(s)` succeeds for a string `s`. Every literal it accepts holds
   * a digit or the letter n, which all spellings of infinity and NaN contain.
   */
  predicate IsFloatLiteral(s: string)
    ensures IsFloatLiteral(s) ==> exists i :: 0 <= i < |s| && NumericMark(s[i])
  {
    NoMarkNotFloat(s);
    var u := Unsigned(s);
    Lower(u) in {"inf", "infinity", "nan"} || IsFloatNumber(u)
  }

  /**
   * `typed(value)` for a string value. An integer exactly when `int()` accepts
   * the value; the string itself exactly when `float()` rejects it, since every
   * integer literal is a float literal too; otherwise the float.
   */
  function TypedOf(s: string): (r: Typed)
    ensures r.IntVal? <==> ParseInt(s).Some?
    ensures r.IntVal? ==> ParseInt(s) == Some(r.i)
    ensures r.Str? <==> !IsFloatLiteral(s)
    ensures r.FloatVal? ==> r.literal == s
    ensures r.Str? ==> r.s == s
  {
    match ParseInt(s)
    case Some(n) => IntIsFloat(s); IntVal(n)
    case None => if IsFloatLiteral(s) then FloatVal(s) else Str(s)
  }

  /** `str(n)` for a non-negative `n`: decimal, no leading zeros. */
  function ShowNat(n: nat): (r: string)
    decreases n
  {
    if n < 10 then [('0' as int + n) as char]
    else ShowNat(n / 10) + [('0' as int + n % 10) as char]
  }

  /** `str(n)`. */
  function Show(n: int): string {
    if n < 0 then "-" + ShowNat(-n) else ShowNat(n)
  }

  lemma {:induction false} DigitPartChars(s: string)
    requires IsDigitPart(s)
    ensures forall i :: 0 <= i < |s| ==> IsDigit(s[i]) || s[i] == '_'
    decreases |s|
  {
    if |s| > 1 {
      var k := if IsDigitPart(s[..|s| - 1]) then |s| - 1 else |s| - 2;
      DigitPartChars(s[..k]);
      assert forall i :: 0 <= i < k ==> s[i] == s[..k][i];
    }
  }

  lemma {:induction false} ShowNatDigits(n: nat)
    ensures IsDigitPart(ShowNat(n)) && DigitsValue(ShowNat(n)) == n
    decreases n
  {
    if n >= 10 {
      ShowNatDigits(n / 10);
      var x := ShowNat(n / 10);
      assert (x + [('0' as int + n % 10) as char])[..|x|] == x;
    }
  }

  /** `int(str(n)) == n`: printing an integer and reading it back gives the integer. */
  lemma ParseIntShow(n: int)
    ensures ParseInt(Show(n)) == Some(n)
  {
    var s := Show(n);
    var m: nat := if n < 0 then -n else n;
    ShowNatDigits(m);
    assert ShowNat(m) == Show(n)[if n < 0 then 1 else 0..];
    DigitPartChars(ShowNat(m));
    assert !IsSpace(s[0]) && !IsSpace(s[|s| - 1]);
    assert Strip(s) == s;
  }

  /** Typing the printed form of an integer gives that integer back. */
  lemma TypedShow(n: int)
    ensures TypedOf(Show(n)) == IntVal(n)
  {
    ParseIntShow(n);
  }

  /** Every string `int()` accepts is also accepted by `float()`. */
  lemma IntIsFloat(s: string)
    requires ParseInt(s).Some?
    ensures IsFloatLiteral(s)
  {
    var u := Unsigned(s);
    assert IsDigitPart(u);
    DigitPartChars(u);
    assert IndexOfEither(u, 'e', 'E').None?;
    assert IndexOfEither(u, '.', '.').None?;
  }

  lemma {:induction false} StripLeftSuffix(s: string)
    ensures StripLeft(s) == s[|s| - |StripLeft(s)|..]
    decreases |s|
  {
    if |s| > 0 && IsSpace(s[0]) {
      StripLeftSuffix(s[1..]);
    }
  }

  lemma {:induction false} StripRightPrefix(s: string)
    ensures StripRight(s) == s[..|StripRight(s)|]
    decreases |s|
  {
    if |s| > 0 && IsSpace(s[|s| - 1]) {
      StripRightPrefix(s[..|s| - 1]);
    }
  }

  lemma {:induction false} LowerAt(s: string, k: nat)
    requires k < |s|
    ensures Lower(s)[k] == if 'A' <= s[k] <= 'Z' then (s[k] as int + 32) as char else s[k]
    decreases |s|
  {
    if k > 0 {
      LowerAt(s[1..], k - 1);
    }
  }

  /** A character of `s` that none of `float()`'s literals can do without. */
  predicate NumericMark(c: char) {
    IsDigit(c) || c == 'n' || c == 'N'
  }

  predicate NoNumericMark(s: string) {
    forall i :: 0 <= i < |s| ==> !NumericMark(s[i])
  }

  /** `Strip(s)` is the slice of `s` that starts after the leading spaces. */
  lemma StripChars(s: string)
    ensures |s| - |StripLeft(s)| + |Strip(s)| <= |s|
    ensures forall i :: 0 <= i < |Strip(s)| ==> Strip(s)[i] == s[|s| - |StripLeft(s)| + i]
  {
    StripLeftSuffix(s);
    StripRightPrefix(StripLeft(s));
  }

  lemma NoMarkNotSpecial(u: string)
    requires NoNumericMark(u)
    ensures Lower(u) !in {"inf", "infinity", "nan"}
  {
    if |u| > 0 {
      LowerAt(u, 0);
    }
    if |u| > 1 {
      LowerAt(u, 1);
    }
  }

  lemma NoMarkNotNumber(m: string)
    requires NoNumericMark(m)
    ensures !IsNumber(m)
  {
    match IndexOfEither(m, '.', '.')
    case None =>
    case Some(i) =>
      assert forall j :: 0 <= j < i ==> m[..i][j] == m[j];
      var fraction := m[i + 1..];
      assert forall j :: 0 <= j < |fraction| ==> fraction[j] == m[i + 1 + j];
  }

  lemma NoMarkNotFloatNumber(u: string)
    requires NoNumericMark(u)
    ensures !IsFloatNumber(u)
  {
    match IndexOfEither(u, 'e', 'E')
    case None => NoMarkNotNumber(u);
    case Some(i) =>
      assert forall j :: 0 <= j < i ==> u[..i][j] == u[j];
      NoMarkNotNumber(u[..i]);
  }

  /** Without a digit or the letter n, `float()` has nothing to read. */
  lemma NoMarkNotFloat(s: string)
    ensures NoNumericMark(s) ==>
      Lower(Unsigned(s)) !in {"inf", "infinity", "nan"} && !IsFloatNumber(Unsigned(s))
  {
    if NoNumericMark(s) {
      StripChars(s);
      var t := Strip(s);
      assert NoNumericMark(t);
      var u := Unsigned(s);
      assert forall i :: 0 <= i < |u| ==> u[i] == t[i + |t| - |u|];
      NoMarkNotSpecial(u);
      NoMarkNotFloatNumber(u);
    }
  }
}
