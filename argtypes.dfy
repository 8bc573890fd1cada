/**
 * The command-line integer validators of argparse_utils/types.py:
 * `int_ge_than_x` and its two fixed-bound forms `int_ge_two` and
 * `int_ge_zero`, over a model of the decimal strings Python's `int()`
 * accepts.
 */
module ArgTypes {
  import opened Wrappers

  /** argparse's `ArgumentTypeError`, carrying its message. */
  datatype ArgumentTypeError = ArgumentTypeError(message: string)

  // ---------------------------------------------------------------------
  // Python's int(string), base 10
  // ---------------------------------------------------------------------

  /** The ASCII whitespace `int()` ignores around the number: space, and tab through carriage return. */
  predicate IsSpace(c: char) {
    c == ' ' || 9 <= c as int <= 13
  }

  predicate IsDigit(c: char) {
    '0' <= c <= '9'
  }

  function DigitValue(c: char): (d: nat)
    requires IsDigit(c)
    ensures d < 10
  {
    c as int - '0' as int
  }

  /** The character for a digit value. */
  function Digit(d: nat): (c: char)
    requires d < 10
    ensures IsDigit(c) && DigitValue(c) == d
  {
    ('0' as int + d) as char
  }

  /** `s` without its leading whitespace. */
  function TrimStart(s: string): (r: string)
    ensures r == [] || !IsSpace(r[0])
    ensures |r| <= |s| && r == s[|s| - |r|..]
    decreases |s|
  {
    if s != [] && IsSpace(s[0]) then TrimStart(s[1..]) else s
  }

  /** `s` without its trailing whitespace. */
  function TrimEnd(s: string): (r: string)
    ensures r == [] || !IsSpace(r[|r| - 1])
    ensures |r| <= |s| && r == s[..|r|]
    decreases |s|
  {
    if s != [] && IsSpace(s[|s| - 1]) then TrimEnd(s[..|s| - 1]) else s
  }

  /** `s.strip()` for the whitespace above. */
  function Strip(s: string): string {
    TrimEnd(TrimStart(s))
  }

  /**
   * Digits with single underscores between them, as `int()` allows:
   * `1_000` but not `_1`, `1_` or `1__0`.
   */
  predicate WellFormedDigits(t: string) {
    && t != []
    && IsDigit(t[0]) && IsDigit(t[|t| - 1])
    && (forall i :: 0 <= i < |t| ==> IsDigit(t[i]) || t[i] == '_')
    && (forall i :: 0 <= i < |t| - 1 ==> t[i] == '_' ==> t[i + 1] != '_')
  }

  /** The decimal value of the digits of `t`, underscores skipped. */
  function DigitsValue(t: string): nat
    decreases |t|
  {
    if t == [] then 0
    else if IsDigit(t[|t| - 1]) then DigitsValue(t[..|t| - 1]) * 10 + DigitValue(t[|t| - 1])
    else DigitsValue(t[..|t| - 1])
  }

  /**
   * `int(string)`: surrounding whitespace, an optional sign, then
   * well-formed digits; anything else raises `ValueError` (`None`).
   */
  function ParseInt(s: string): Option<int> {
    var t := Strip(s);
    if t == [] then None
    else if t[0] == '-' || t[0] == '+' then
      if WellFormedDigits(t[1..]) then
        var magnitude: int := DigitsValue(t[1..]);
        Some(if t[0] == '-' then -magnitude else magnitude)
      else None
    else if WellFormedDigits(t) then Some(DigitsValue(t))
    else None
  }

  /** The decimal digits of `n`, most significant first. */
  function NatToString(n: nat): string
    decreases n
  {
    if n < 10 then [Digit(n)] else NatToString(n / 10) + [Digit(n % 10)]
  }

  /** `str(n)`. */
  function IntToString(n: int): string {
    if n < 0 then "-" + NatToString(-n) else NatToString(n)
  }

  /** The decimal form of `n` is made of digits only, and reads back as `n`. */
  lemma {:induction false} NatToStringValue(n: nat)
    ensures var s := NatToString(n);
      && s != []
      && (forall i :: 0 <= i < |s| ==> IsDigit(s[i]))
      && DigitsValue(s) == n
    decreases n
  {
    var s := NatToString(n);
    if n < 10 {
      assert s[..0] == [];
    } else {
      NatToStringValue(n / 10);
      assert s[..|s| - 1] == NatToString(n / 10);
    }
  }

  /** A string that neither starts nor ends with whitespace is its own strip. */
  lemma StripUnpadded(s: string)
    requires s != [] && !IsSpace(s[0]) && !IsSpace(s[|s| - 1])
    ensures Strip(s) == s
  {
    assert TrimStart(s) == s;
  }

  /** A non-empty run of digits is well formed. */
  lemma DigitsWellFormed(t: string)
    requires t != [] && forall i :: 0 <= i < |t| ==> IsDigit(t[i])
    ensures WellFormedDigits(t)
  {
  }

  /** A run of digits reads as its value. */
  lemma ParseUnsigned(d: string)
    requires d != [] && forall i :: 0 <= i < |d| ==> IsDigit(d[i])
    ensures ParseInt(d) == Some(DigitsValue(d))
  {
    StripUnpadded(d);
    DigitsWellFormed(d);
  }

  /** An unpadded minus sign before well-formed digits reads as the negated value. */
  lemma ParseMinus(t: string)
    requires t != [] && Strip(t) == t && t[0] == '-' && WellFormedDigits(t[1..])
    ensures ParseInt(t) == Some(-(DigitsValue(t[1..]) as int))
  {
  }

  /** A minus sign before a run of digits reads as the negated value. */
  lemma ParseNegative(t: string)
    requires |t| >= 2 && t[0] == '-' && forall i :: 1 <= i < |t| ==> IsDigit(t[i])
    ensures ParseInt(t) == Some(-(DigitsValue(t[1..]) as int))
  {
    StripUnpadded(t);
    DigitsWellFormed(t[1..]);
    ParseMinus(t);
  }

  /** `str(n)` of a negative integer is a minus sign before the digits of `-n`. */
  lemma NegativeString(n: int)
    requires n < 0
    ensures var s := IntToString(n);
      && |s| >= 2 && s[0] == '-'
      && (forall i :: 1 <= i < |s| ==> IsDigit(s[i]))
      && DigitsValue(s[1..]) == -n
  {
    NatToStringValue(-n);
    var s := IntToString(n);
    assert s[1..] == NatToString(-n);
  }

  /** `int(str(n)) == n` for a negative integer. */
  lemma ParseIntOfNegative(n: int)
    requires n < 0
    ensures ParseInt(IntToString(n)) == Some(n)
  {
    NegativeString(n);
    ParseNegative(IntToString(n));
  }


  /** `int(str(n)) == n` for every integer. */
  lemma ParseIntOfString(n: int)
    ensures ParseInt(IntToString(n)) == Some(n)
  {
    if n < 0 {
      ParseIntOfNegative(n);
    } else {
      NatToStringValue(n);
      ParseUnsigned(NatToString(n));
    }
  }



  /** Surrounding whitespace is ignored. */
  lemma ParsePaddedExample()
    ensures ParseInt(" 42\n") == Some(42)
  {
    assert TrimStart(" 42\n") == "42\n" by {
      assert " 42\n"[1..] == "42\n";
    }
    assert TrimEnd("42\n") == "42" by {
      assert "42\n"[..2] == "42";
    }
    assert "42"[..1] == "4" && "4"[..0] == [];
  }

  /** Underscores may separate digits. */
  lemma ParseUnderscoreExample()
    ensures ParseInt("1_000") == Some(1000)
  {
    var t := "1_000";
    assert Strip(t) == t;
    assert t[..4] == "1_00" && "1_00"[..3] == "1_0" && "1_0"[..2] == "1_";
    assert "1_"[..1] == "1" && "1"[..0] == [];
    assert DigitsValue("1_") == 1;
    assert DigitsValue(t) == 1000;
    assert WellFormedDigits(t);
  }

  /** Two underscores in a row are refused. */
  lemma ParseDoubleUnderscoreExample()
    ensures ParseInt("1__0") == None
  {
    var t := "1__0";
    assert Strip(t) == t;
    assert t[1] == '_' && t[2] == '_';
  }

  /** The empty string and a word are refused. */
  lemma ParseRefusalExample()
    ensures ParseInt("") == None
    ensures ParseInt("two") == None
  {
    assert "two"[0] == 't';
  }

  // ---------------------------------------------------------------------
  // The validators
  // ---------------------------------------------------------------------

  /** The message raised for every refusal, whatever the bound. */
  function RefusalMessage(s: string): string {
    "Not an int >= 0: '" + s + "'"
  }

  /**
   * `int_ge_than_x(string, x)`: the parsed number when it is strictly
   * greater than `x`; otherwise, and when `int()` refuses the string,
   * `ArgumentTypeError`.
   */
  function IntGeThanX(s: string, x: int): (r: Result<int, ArgumentTypeError>)
    ensures r.Ok? <==> ParseInt(s).Some? && ParseInt(s).value > x
    ensures r.Ok? ==> r.value == ParseInt(s).value
    ensures r.Err? ==> r.error == ArgumentTypeError(RefusalMessage(s))
  {
    match ParseInt(s)
    case None => Err(ArgumentTypeError(RefusalMessage(s)))
    case Some(number) =>
      if number <= x then Err(ArgumentTypeError(RefusalMessage(s))) else Ok(number)
  }

  /** `int_ge_two()`: the validator with `x` fixed to 2. */
  function IntGeTwo(): string -> Result<int, ArgumentTypeError> {
    s => IntGeThanX(s, 2)
  }

  /** `int_ge_zero()`: the validator with `x` fixed to 0. */
  function IntGeZero(): string -> Result<int, ArgumentTypeError> {
    s => IntGeThanX(s, 0)
  }

  /** On the decimal form of a number, the validator returns it exactly when it is above the bound. */
  lemma IntGeThanXOnNumber(n: int, x: int)
    ensures IntGeThanX(IntToString(n), x) == if n > x then Ok(n) else Err(ArgumentTypeError(RefusalMessage(IntToString(n))))
  {
    ParseIntOfString(n);
  }

  /** The bound itself is refused: `int_ge_than_x(str(x), x)` raises. */
  lemma IntGeThanXRejectsBound(x: int)
    ensures IntGeThanX(IntToString(x), x).Err?
  {
    IntGeThanXOnNumber(x, x);
  }

  /** `int_ge_two` accepts 3 and above, and refuses 2 although its name says "at least two". */
  lemma IntGeTwoAcceptsFromThree(n: int)
    ensures IntGeTwo()(IntToString(n)).Ok? <==> n >= 3
    ensures IntGeTwo()(IntToString(2)).Err?
  {
    IntGeThanXOnNumber(n, 2);
    IntGeThanXOnNumber(2, 2);
  }

  /** `int_ge_zero` accepts 1 and above, and refuses 0. */
  lemma IntGeZeroAcceptsFromOne(n: int)
    ensures IntGeZero()(IntToString(n)).Ok? <==> n >= 1
    ensures IntGeZero()(IntToString(0)).Err?
  {
    IntGeThanXOnNumber(n, 0);
    IntGeThanXOnNumber(0, 0);
  }

  /** The refusal says ">= 0" for every bound: two bounds that refuse a string raise the same error. */
  lemma RefusalIgnoresBound(s: string, x: int, y: int)
    requires IntGeThanX(s, x).Err? && IntGeThanX(s, y).Err?
    ensures IntGeThanX(s, x) == IntGeThanX(s, y)
  {
  }

  // ---------------------------------------------------------------------
  // The validator its name describes
  // ---------------------------------------------------------------------

  /** The refusal message naming the bound. */
  function AtLeastMessage(s: string, x: int): string {
    "Not an int >= " + IntToString(x) + ": '" + s + "'"
  }

  /**
   * "Return int of string if greater equal to x": the parsed number when
   * it is at least `x`, otherwise `ArgumentTypeError` naming `x`.
   */
  function IntAtLeast(s: string, x: int): (r: Result<int, ArgumentTypeError>)
    ensures r.Ok? <==> ParseInt(s).Some? && ParseInt(s).value >= x
    ensures r.Ok? ==> r.value == ParseInt(s).value
    ensures r.Err? ==> r.error == ArgumentTypeError(AtLeastMessage(s, x))
  {
    match ParseInt(s)
    case None => Err(ArgumentTypeError(AtLeastMessage(s, x)))
    case Some(number) =>
      if number < x then Err(ArgumentTypeError(AtLeastMessage(s, x))) else Ok(number)
  }

  /** On the decimal form of a number, the corrected validator returns it exactly when it reaches the bound, the bound included. */
  lemma IntAtLeastOnNumber(n: int, x: int)
    ensures IntAtLeast(IntToString(n), x) == if n >= x then Ok(n) else Err(ArgumentTypeError(AtLeastMessage(IntToString(n), x)))
    ensures IntAtLeast(IntToString(x), x) == Ok(x)
  {
    ParseIntOfString(n);
    ParseIntOfString(x);
  }

  /** The two validators differ only at the bound: above it both accept, below it both refuse. */
  lemma IntAtLeastAgreesAwayFromBound(n: int, x: int)
    requires n != x
    ensures IntAtLeast(IntToString(n), x).Ok? == IntGeThanX(IntToString(n), x).Ok?
  {
    IntAtLeastOnNumber(n, x);
    IntGeThanXOnNumber(n, x);
  }
}
