/**
  The scalar-to-int conversion of MyDbUtils (package org.h819.web.jdbc): objectToInteger,
  which turns the text of a query's scalar result into a Java int, and the two getCount
  overloads that run a scalar query and convert what it returns.

  A scalar is modelled as the text of its toString(), or None for Java's null. Parsing
  follows Java's Integer.parseInt in radix 10 restricted to ASCII digits.
*/
module Jdbc {
  import opened Wrappers

  /** Bounds of a Java int. */
  const MinInt: int := -0x8000_0000
  const MaxInt: int := 0x7fff_ffff

  predicate InIntRange(v: int) { MinInt <= v <= MaxInt }

  // ---------------------------------------------------------------------------
  // String.trim: strip leading and trailing characters whose code is at most U+0020
  // ---------------------------------------------------------------------------

  predicate IsTrimmed(c: char) { c <= ' ' }

  /** Every character of s is one that String.trim removes. */
  predicate IsBlank(s: string) {
    forall k :: 0 <= k < |s| ==> IsTrimmed(s[k])
  }

  function TrimLeading(s: string): (r: string)
    ensures |r| <= |s| && r == s[|s| - |r|..]
    ensures IsBlank(s[..|s| - |r|])
    ensures r == [] || !IsTrimmed(r[0])
  {
    if |s| > 0 && IsTrimmed(s[0]) then TrimLeading(s[1..]) else s
  }

  function TrimTrailing(s: string): (r: string)
    ensures |r| <= |s| && r == s[..|r|]
    ensures IsBlank(s[|r|..])
    ensures r == [] || !IsTrimmed(r[|r| - 1])
  {
    if |s| > 0 && IsTrimmed(s[|s| - 1]) then
      var init := s[..|s| - 1];
      var r := TrimTrailing(init);
      assert s[|r|..] == init[|r|..] + [s[|s| - 1]];
      BlankAppend(init[|r|..], [s[|s| - 1]]);
      r
    else s
  }

  lemma BlankAppend(a: string, b: string)
    requires IsBlank(a) && IsBlank(b)
    ensures IsBlank(a + b)
  {
    forall k | 0 <= k < |a + b| ensures IsTrimmed((a + b)[k]) {
      if k < |a| { assert (a + b)[k] == a[k]; } else { assert (a + b)[k] == b[k - |a|]; }
    }
  }

  /** r is what is left of s once its first a characters and all after a + |r| are cut, and those are blank. */
  predicate StripsTo(s: string, a: int, r: string) {
    0 <= a <= |s| - |r| && r == s[a..a + |r|] && IsBlank(s[..a]) && IsBlank(s[a + |r|..])
  }

  /** Java's String.trim(). */
  function Trim(s: string): (r: string)
    ensures r == [] <==> IsBlank(s)
    ensures r != [] ==> !IsTrimmed(r[0]) && !IsTrimmed(r[|r| - 1])
    ensures |r| <= |s|
    // r is s without a blank prefix and a blank suffix.
    ensures exists a :: StripsTo(s, a, r)
  {
    var lead := TrimLeading(s);
    var r := TrimTrailing(lead);
    TrimSlices(s, lead, r);
    assert r != [] ==> r[0] == lead[0];
    TrimAround(s, lead, r);
    r
  }

  /** What the two halves of Trim leave is s without a blank prefix and a blank suffix. */
  lemma TrimAround(s: string, lead: string, r: string)
    requires lead == TrimLeading(s) && r == TrimTrailing(lead)
    ensures exists a :: StripsTo(s, a, r)
  {
    var a := |s| - |lead|;
    assert s[a..] == lead;
    assert s[a..a + |r|] == lead[..|r|];
    assert s[a + |r|..] == lead[|r|..];
    assert StripsTo(s, a, r);
  }

  /** The two halves of Trim drop only blank text, so nothing is left exactly when s is blank. */
  lemma TrimSlices(s: string, lead: string, r: string)
    requires lead == TrimLeading(s) && r == TrimTrailing(lead)
    ensures r == [] <==> IsBlank(s)
  {
    var cut := |s| - |lead|;
    if r == [] {
      assert IsBlank(lead[|r|..]);
      assert lead[|r|..] == lead;
      assert IsBlank(s[..cut]);
      assert s == s[..cut] + lead;
      BlankAppend(s[..cut], lead);
    }
  }

  // ---------------------------------------------------------------------------
  // Integer.parseInt(s), radix 10
  // ---------------------------------------------------------------------------

  predicate IsDigit(c: char) { '0' <= c <= '9' }

  predicate AllDigits(s: string) {
    forall k :: 0 <= k < |s| ==> IsDigit(s[k])
  }

  function DigitValue(c: char): (d: nat)
    requires IsDigit(c)
    ensures d < 10
  {
    c as int - '0' as int
  }

  /** The value of a string of decimal digits, most significant first. */
  function DigitsValue(ds: string): nat
    requires AllDigits(ds)
  {
    if ds == [] then 0
    else DigitsValue(ds[..|ds| - 1]) * 10 + DigitValue(ds[|ds| - 1])
  }

  /**
    Integer.parseInt: an optional single '+' or '-', then one or more decimal digits,
    denoting a value in the range of a Java int. Anything else is a NumberFormatException,
    here None.
  */
  function ParseInt(s: string): (r: Option<int>)
    ensures r.Some? ==> InIntRange(r.value)
    ensures r.Some? ==> |s| > 0 && !IsTrimmed(s[0]) && IsDigit(s[|s| - 1])
  {
    if |s| == 0 then None
    else
      var signed := s[0] == '-' || s[0] == '+';
      var digits := if signed then s[1..] else s;
      if |digits| == 0 || !AllDigits(digits) then None
      else
        assert IsDigit(digits[|digits| - 1]);
        var magnitude: int := DigitsValue(digits);
        var v := if s[0] == '-' then -magnitude else magnitude;
        if InIntRange(v) then Some(v) else None
  }

  // ---------------------------------------------------------------------------
  // Integer.toString, the decimal text a numeric scalar prints as
  // ---------------------------------------------------------------------------

  function DigitChar(d: nat): (c: char)
    requires d < 10
    ensures IsDigit(c) && DigitValue(c) == d
  {
    ('0' as int + d) as char
  }

  function NatDigits(m: nat): (ds: string)
    ensures |ds| > 0
  {
    if m < 10 then [DigitChar(m)] else NatDigits(m / 10) + [DigitChar(m % 10)]
  }

  /** The canonical decimal text of an integer: '-' for negatives, no leading zeros. */
  function Format(n: int): string {
    if n < 0 then "-" + NatDigits(-n) else NatDigits(n)
  }

  lemma {:induction false} NatDigitsValue(m: nat)
    ensures AllDigits(NatDigits(m)) && DigitsValue(NatDigits(m)) == m
  {
    var ds := NatDigits(m);
    if m >= 10 {
      NatDigitsValue(m / 10);
      var prefix := NatDigits(m / 10);
      assert ds == prefix + [DigitChar(m % 10)];
      assert ds[..|ds| - 1] == prefix;
      assert forall k :: 0 <= k < |ds| ==> ds[k] == (if k < |prefix| then prefix[k] else DigitChar(m % 10));
    }
  }

  /** Parsing the decimal text of any Java int gives that int back. */
  lemma ParseFormat(n: int)
    requires InIntRange(n)
    ensures ParseInt(Format(n)) == Some(n)
  {
    var s := Format(n);
    if n < 0 {
      NatDigitsValue(-n);
      assert s[1..] == NatDigits(-n);
    } else {
      NatDigitsValue(n);
      assert IsDigit(s[0]);
    }
  }

  /** The decimal text of a value outside the int range is rejected by parseInt. */
  lemma ParseFormatOutOfRange(n: int)
    requires !InIntRange(n)
    ensures ParseInt(Format(n)) == None
  {
    var s := Format(n);
    if n < 0 {
      NatDigitsValue(-n);
      assert s[1..] == NatDigits(-n);
    } else {
      NatDigitsValue(n);
      assert IsDigit(s[0]);
    }
  }

  /** The value a sign ("", "+" or "-") and a run of digits denote. */
  function SignedValue(sign: string, ds: string): int
    requires AllDigits(ds)
  {
    if sign == "-" then -(DigitsValue(ds) as int) else DigitsValue(ds)
  }

  /** parseInt accepts exactly an optional sign and a non-empty run of digits in range. */
  lemma ParseSigned(sign: string, ds: string)
    requires sign in {"", "+", "-"}
    requires |ds| > 0 && AllDigits(ds)
    requires InIntRange(SignedValue(sign, ds))
    ensures ParseInt(sign + ds) == Some(SignedValue(sign, ds))
  {
    var s := sign + ds;
    if sign == "" {
      assert s == ds;
      assert IsDigit(ds[0]);
    } else {
      assert s[1..] == ds;
    }
  }

  /** Digits whose signed value lies outside the int range are rejected, whatever the sign or leading zeros. */
  lemma ParseSignedOutOfRange(sign: string, ds: string)
    requires sign in {"", "+", "-"}
    requires |ds| > 0 && AllDigits(ds)
    requires !InIntRange(SignedValue(sign, ds))
    ensures ParseInt(sign + ds) == None
  {
    var s := sign + ds;
    if sign == "" {
      assert s == ds;
      assert IsDigit(ds[0]);
    } else {
      assert s[1..] == ds;
    }
  }

  /** Every text parseInt accepts is an optional sign and a non-empty run of digits, read as their signed value. */
  lemma ParseIntAccepted(s: string)
    requires ParseInt(s).Some?
    ensures exists sign, ds :: sign in {"", "+", "-"} && |ds| > 0 && AllDigits(ds) && s == sign + ds &&
                               ParseInt(s).value == SignedValue(sign, ds)
  {
    var sign, ds := if s[0] == '-' || s[0] == '+' then s[..1] else "", if s[0] == '-' || s[0] == '+' then s[1..] else s;
    assert s == sign + ds;
    assert sign == "" || sign == [s[0]];
    assert sign in {"", "+", "-"} && |ds| > 0 && AllDigits(ds) && ParseInt(s).value == SignedValue(sign, ds);
  }

  /** Blank text never parses, so the blank test of objectToInteger never changes its result. */
  lemma BlankNotParsed(s: string)
    requires IsBlank(s)
    ensures ParseInt(s) == None
  {
    if |s| > 0 {
      assert IsTrimmed(s[0]);
    }
  }

  // ---------------------------------------------------------------------------
  // MyDbUtils
  // ---------------------------------------------------------------------------

  /**
    objectToInteger: null or text that is blank after trim gives 0; otherwise the
    untrimmed text goes through Integer.parseInt, and a NumberFormatException gives 0.
  */
  function ObjectToInteger(obj: Option<string>): (r: int)
    ensures InIntRange(r)
    ensures obj.None? ==> r == 0
    ensures obj.Some? && IsBlank(obj.value) ==> r == 0
    ensures obj.Some? && ParseInt(obj.value).Some? ==> r == ParseInt(obj.value).value
    ensures obj.Some? && ParseInt(obj.value).None? ==> r == 0
  {
    if obj.Some? && Trim(obj.value) != "" then
      match ParseInt(obj.value)
      case Some(v) => v
      case None => 0
    else
      if obj.Some? then BlankNotParsed(obj.value); 0 else 0
  }

  /** A scalar holding the decimal text of a Java int converts to exactly that int. */
  lemma ObjectToIntegerOfInt(n: int)
    requires InIntRange(n)
    ensures ObjectToInteger(Some(Format(n))) == n
  {
    ParseFormat(n);
  }

  /** A count larger than 2^31-1 (or below -2^31) converts to 0, not to a truncated value. */
  lemma ObjectToIntegerOverflow(n: int)
    requires !InIntRange(n)
    ensures ObjectToInteger(Some(Format(n))) == 0
  {
    ParseFormatOutOfRange(n);
  }

  /** Surrounding whitespace makes the result 0: parseInt sees the untrimmed text. */
  lemma ObjectToIntegerPadded(s: string)
    requires |s| > 0 && (IsTrimmed(s[0]) || IsTrimmed(s[|s| - 1]))
    ensures ObjectToInteger(Some(s)) == 0
  {
  }

  /** Text with a character that is neither a digit nor a leading sign converts to 0. */
  lemma ObjectToIntegerNonNumeric(s: string, k: nat)
    requires k < |s| && !IsDigit(s[k])
    requires k > 0 || (s[k] != '+' && s[k] != '-')
    ensures ObjectToInteger(Some(s)) == 0
  {
    var signed := s[0] == '-' || s[0] == '+';
    var digits := if signed then s[1..] else s;
    if signed {
      assert k > 0 && digits[k - 1] == s[k];
    } else {
      assert digits[k] == s[k];
    }
    assert !AllDigits(digits);
  }

  /** What running a scalar query gives: the first column of the first row, or an SQLException. */
  datatype ScalarOutcome = Scalar(value: Option<string>) | SqlFailure

  /** A query parameter, by the text of its toString() (None for null). */
  type Param = Option<string>

  /** QueryRunner.query(sql, new ScalarHandler(), params), as seen from outside. */
  type ScalarQuery = (string, seq<Param>) -> ScalarOutcome

  /** getCount(sql, params): the converted scalar, or 0 when the query throws. */
  function GetCount(query: ScalarQuery, sql: string, params: seq<Param>): (r: int)
    ensures InIntRange(r)
    ensures query(sql, params).SqlFailure? ==> r == 0
    ensures query(sql, params).Scalar? ==> r == ObjectToInteger(query(sql, params).value)
  {
    match query(sql, params)
    case Scalar(value) => ObjectToInteger(value)
    case SqlFailure => 0
  }

  /** getCount(sql): the same, for a query run without parameters. */
  function GetCountNoParams(query: ScalarQuery, sql: string): (r: int)
    ensures InIntRange(r)
    ensures query(sql, []).SqlFailure? ==> r == 0
    ensures query(sql, []).Scalar? ==> r == ObjectToInteger(query(sql, []).value)
  {
    match query(sql, [])
    case Scalar(value) => ObjectToInteger(value)
    case SqlFailure => 0
  }
}
