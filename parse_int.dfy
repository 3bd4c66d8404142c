/**
 * The global `parseInt(x)` called without a radix, as the statistics helpers
 * use it: `x` is first converted with `String`, leading white space is
 * skipped, one sign is read, a `0x`/`0X` prefix switches to base 16, and the
 * longest run of digits that follows is the result. No digits gives NaN,
 * modelled as `None`; `-0` is the falsy 0 and is modelled as `Some(0)`.
 */
module ParseInt {
  import opened JsValue

  /** StrWhiteSpaceChar: tab, line feed, vertical tab, form feed, carriage
      return, space, no-break space, the Unicode space separators, the line
      and paragraph separators and the byte order mark. */
  predicate IsWhiteSpace(c: char) {
    ('\t' <= c <= '\r') || c == ' ' || c == '\U{00A0}' || c == '\U{1680}' ||
    ('\U{2000}' <= c <= '\U{200A}') || c == '\U{2028}' || c == '\U{2029}' ||
    c == '\U{202F}' || c == '\U{205F}' || c == '\U{3000}' || c == '\U{FEFF}'
  }

  /** Leading white space removed: what follows starts with no white space. */
  function TrimStart(s: string): (t: string)
    ensures t == [] || !IsWhiteSpace(t[0])
  {
    if s != [] && IsWhiteSpace(s[0]) then TrimStart(s[1..]) else s
  }

  predicate IsDigit(c: char, radix: nat) {
    ('0' <= c <= '9') || (radix == 16 && (('a' <= c <= 'f') || ('A' <= c <= 'F')))
  }

  function DigitValue(c: char): nat {
    if '0' <= c <= '9' then c as int - '0' as int
    else if 'a' <= c <= 'f' then c as int - 'a' as int + 10
    else if 'A' <= c <= 'F' then c as int - 'A' as int + 10
    else 0
  }

  /** The longest prefix of `s` made of digits of the given radix. */
  function DigitRun(s: string, radix: nat): (d: string)
    ensures |d| <= |s| && d == s[..|d|]
    ensures forall i :: 0 <= i < |d| ==> IsDigit(d[i], radix)
    ensures |d| < |s| ==> !IsDigit(s[|d|], radix)
  {
    if s != [] && IsDigit(s[0], radix) then [s[0]] + DigitRun(s[1..], radix) else []
  }

  /** The number a digit string denotes, most significant digit first. */
  function Magnitude(ds: string, radix: nat): nat {
    if ds == [] then 0
    else Magnitude(ds[..|ds| - 1], radix) * radix + DigitValue(ds[|ds| - 1])
  }

  /** The digits after the sign: a `0x`/`0X` prefix selects base 16. */
  function ParseDigits(u: string): Option<nat> {
    var hex := |u| >= 2 && u[0] == '0' && (u[1] == 'x' || u[1] == 'X');
    var radix := if hex then 16 else 10;
    var z := DigitRun(if hex then u[2..] else u, radix);
    if z == [] then None else Some(Magnitude(z, radix))
  }

  function ParseIntString(s: string): Option<int> {
    var t := TrimStart(s);
    var sign := if t != [] && t[0] == '-' then -1 else 1;
    var u := if t != [] && (t[0] == '+' || t[0] == '-') then t[1..] else t;
    match ParseDigits(u)
    case None => None
    case Some(m) => Some(sign * m)
  }

  /** `parseInt(v)` where `v` is a property read that may be `undefined`,
      case by case: an integer Number reads back as itself, a string or an
      array is parsed from its `String` rendering, and `undefined`, `true`,
      `false` and `null` render as words that are NaN. `ParseIntCoerces`
      proves this equal to `parseInt(String(v))` for every `v`. */
  function ParseIntValue(v: Option<Value>): Option<int> {
    match v
    case Some(Num(n)) => Some(n)
    case Some(Str(s)) => ParseIntString(s)
    case Some(StrList(items)) => ParseIntString(Join(items))
    case _ => None
  }

  lemma {:induction false} DigitChar(k: nat)
    requires k < 10
    ensures DigitValue("0123456789"[k]) == k
  {
  }

  lemma {:induction false} MagnitudeOfDigits(n: nat)
    ensures Magnitude(NatToString(n), 10) == n
  {
    var s := NatToString(n);
    if n < 10 {
      DigitChar(n);
      assert s[..0] == [];
    } else {
      assert s[..|s| - 1] == NatToString(n / 10);
      DigitChar(n % 10);
      MagnitudeOfDigits(n / 10);
    }
  }

  lemma {:induction false} DigitRunPrefix(d: string, rest: string, radix: nat)
    requires forall i :: 0 <= i < |d| ==> IsDigit(d[i], radix)
    requires rest == [] || !IsDigit(rest[0], radix)
    ensures DigitRun(d + rest, radix) == d
  {
    if d != [] {
      assert (d + rest)[1..] == d[1..] + rest;
      DigitRunPrefix(d[1..], rest, radix);
    }
  }

  lemma {:induction false} DecimalDigits(m: nat, suffix: string)
    requires suffix == [] || !IsDigit(suffix[0], 10)
    requires m == 0 ==> suffix == [] || (suffix[0] != 'x' && suffix[0] != 'X')
    ensures ParseDigits(NatToString(m) + suffix) == Some(m)
  {
    var d := NatToString(m);
    DigitRunPrefix(d, suffix, 10);
    MagnitudeOfDigits(m);
    assert (d + suffix)[0] == d[0];
    assert |d| >= 2 ==> (d + suffix)[1] == d[1];
    assert |d| == 1 && suffix != [] ==> (d + suffix)[1] == suffix[0];
  }

  lemma {:induction false} ParseNegative(u: string, m: nat)
    requires ParseDigits(u) == Some(m)
    ensures ParseIntString("-" + u) == Some(-(m as int))
  {
    var s := "-" + u;
    assert s[0] == '-' && !IsWhiteSpace(s[0]);
    assert TrimStart(s) == s;
    assert s[1..] == u;
  }

  lemma {:induction false} ParseUnsigned(s: string, m: nat)
    requires s != [] && '0' <= s[0] <= '9' && ParseDigits(s) == Some(m)
    ensures ParseIntString(s) == Some(m)
  {
    assert !IsWhiteSpace(s[0]);
    assert TrimStart(s) == s;
  }

  lemma {:induction false} NegativeDigits(n: int, suffix: string)
    requires n < 0 && (suffix == [] || !IsDigit(suffix[0], 10))
    ensures ParseIntString("-" + (NatToString(-n) + suffix)) == Some(n)
  {
    var m: nat := -n;
    DecimalDigits(m, suffix);
    ParseNegative(NatToString(m) + suffix, m);
  }

  lemma {:induction false} NegativeRendering(n: int, suffix: string)
    requires n < 0
    ensures IntToString(n) + suffix == "-" + (NatToString(-n) + suffix)
  {
  }

  lemma {:induction false} NegativePrefix(n: int, suffix: string)
    requires n < 0 && (suffix == [] || !IsDigit(suffix[0], 10))
    ensures ParseIntString(IntToString(n) + suffix) == Some(n)
  {
    NegativeRendering(n, suffix);
    NegativeDigits(n, suffix);
  }

  lemma {:induction false} NonNegativePrefix(n: nat, suffix: string)
    requires suffix == [] || !IsDigit(suffix[0], 10)
    requires n == 0 ==> suffix == [] || (suffix[0] != 'x' && suffix[0] != 'X')
    ensures ParseIntString(IntToString(n) + suffix) == Some(n)
  {
    var d := NatToString(n);
    assert ParseIntString(d + suffix) == Some(n) by {
      DecimalDigits(n, suffix);
      assert (d + suffix)[0] == d[0];
      ParseUnsigned(d + suffix, n);
    }
    assert IntToString(n) + suffix == d + suffix;
  }

  /** The decimal rendering of an integer, followed by anything that does not
      continue the digit run, parses back to that integer. A leading `0`
      followed by `x` or `X` is the one exception: it is read as hexadecimal. */
  lemma {:induction false} ParseIntPrefix(n: int, suffix: string)
    requires suffix == [] || !IsDigit(suffix[0], 10)
    requires n == 0 ==> suffix == [] || (suffix[0] != 'x' && suffix[0] != 'X')
    ensures ParseIntString(IntToString(n) + suffix) == Some(n)
  {
    if n < 0 {
      NegativePrefix(n, suffix);
    } else {
      NonNegativePrefix(n, suffix);
    }
  }

  /** `String(n)` of an integer Number parses back to `n`. */
  lemma {:induction false} ParseIntOfNumber(n: int)
    ensures ParseIntString(IntToString(n)) == Some(n)
  {
    ParseIntPrefix(n, []);
    assert IntToString(n) + [] == IntToString(n);
  }

  /** `parseInt` converts its argument with `String` first. */
  lemma {:induction false} ParseIntCoerces(v: Option<Value>)
    ensures ParseIntValue(v) == ParseIntString(Coerce(v))
  {
    match v
    case Some(Num(n)) => ParseIntOfNumber(n);
    case Some(Bool(b)) => NonNumericIsNaN(if b then "true" else "false");
    case Some(Null) => NonNumericIsNaN("null");
    case None => NonNumericIsNaN("undefined");
    case _ =>
  }

  /** A string whose first character is neither white space, a sign nor a
      decimal digit is NaN. */
  lemma {:induction false} NonNumericIsNaN(s: string)
    requires s != [] && !IsWhiteSpace(s[0]) && s[0] != '+' && s[0] != '-'
    requires !IsDigit(s[0], 10)
    ensures ParseIntString(s) == None
  {
    assert TrimStart(s) == s;
  }
}
