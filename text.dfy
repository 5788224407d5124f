/** The string and number helpers of Go's standard library that the menu
    navigator relies on: strings.TrimSpace, strings.Repeat("  ", n), the
    decimal rendering of fmt's %d verb and the integer parse of fmt.Sscan
    (this last one simplified to an optional sign and decimal digits). */
module Text {

  datatype Option<T> = None | Some(value: T)

  /** Go's `int` on the 64-bit platforms the program targets. */
  newtype int64 = x: int | -0x8000_0000_0000_0000 <= x < 0x8000_0000_0000_0000

  predicate IsInt64(x: int) {
    -0x8000_0000_0000_0000 <= x < 0x8000_0000_0000_0000
  }

  // ---------------------------------------------------------------------
  // strings.TrimSpace
  // ---------------------------------------------------------------------

  /** unicode.IsSpace: the Latin-1 spaces and the other White_Space code points. */
  predicate IsSpace(c: char) {
    || c == '\t' || c == '\n' || c == '\U{000B}' || c == '\U{000C}' || c == '\r' || c == ' '
    || c == '\U{0085}' || c == '\U{00A0}' || c == '\U{1680}'
    || ('\U{2000}' <= c <= '\U{200A}')
    || c == '\U{2028}' || c == '\U{2029}' || c == '\U{202F}' || c == '\U{205F}' || c == '\U{3000}'
  }

  /** Every character of s[lo..hi] is white space. */
  ghost predicate Blank(s: string, lo: int, hi: int)
    requires 0 <= lo <= hi <= |s|
  {
    forall k :: lo <= k < hi ==> IsSpace(s[k])
  }

  /** r is what remains of s once the white space at both of its ends is cut off:
      a slice of s, only white space outside it, and a non-space character at
      each of its ends. */
  ghost predicate TrimmedFrom(s: string, r: string) {
    && |r| <= |s|
    && (r == [] || (!IsSpace(r[0]) && !IsSpace(r[|r| - 1])))
    && exists i :: 0 <= i <= |s| - |r| && s[i..i + |r|] == r && Blank(s, 0, i) && Blank(s, i + |r|, |s|)
  }

  function TrimLeft(s: string): string {
    if s != [] && IsSpace(s[0]) then TrimLeft(s[1..]) else s
  }

  function TrimRight(s: string): string {
    if s != [] && IsSpace(s[|s| - 1]) then TrimRight(s[..|s| - 1]) else s
  }

  /** strings.TrimSpace (its shape is lemma TrimSpaceTrims). */
  function TrimSpace(s: string): string {
    TrimRight(TrimLeft(s))
  }

  /** TrimLeft cuts a blank prefix and stops at the first non-space character. */
  lemma {:induction false} TrimLeftCuts(s: string)
    ensures var r := TrimLeft(s); |r| <= |s| && r == s[|s| - |r|..]
    ensures var r := TrimLeft(s); r == [] || !IsSpace(r[0])
    ensures Blank(s, 0, |s| - |TrimLeft(s)|)
  {
    if s != [] && IsSpace(s[0]) {
      TrimLeftCuts(s[1..]);
      var r := TrimLeft(s[1..]);
      assert s[1..][|s| - 1 - |r|..] == s[|s| - |r|..];
      forall k | 0 <= k < |s| - |r| ensures IsSpace(s[k]) {
        if k > 0 { assert s[k] == s[1..][k - 1]; }
      }
    }
  }

  /** TrimRight cuts a blank suffix and stops at the last non-space character. */
  lemma {:induction false} TrimRightCuts(s: string)
    ensures var r := TrimRight(s); |r| <= |s| && r == s[..|r|]
    ensures var r := TrimRight(s); r == [] || !IsSpace(r[|r| - 1])
    ensures Blank(s, |TrimRight(s)|, |s|)
  {
    if s != [] && IsSpace(s[|s| - 1]) {
      var p := s[..|s| - 1];
      TrimRightCuts(p);
      var r := TrimRight(p);
      assert p[..|r|] == s[..|r|];
      forall k | |r| <= k < |s| ensures IsSpace(s[k]) {
        if k < |s| - 1 { assert s[k] == p[k]; }
      }
    }
  }

  /** What TrimSpace returns neither starts nor ends with white space. */
  lemma {:induction false} TrimSpaceEnds(s: string)
    ensures var r := TrimSpace(s); r == [] || (!IsSpace(r[0]) && !IsSpace(r[|r| - 1]))
  {
    var left := TrimLeft(s);
    TrimLeftCuts(s);
    TrimRightCuts(left);
    var r := TrimRight(left);
    if r != [] {
      assert r[0] == left[0];
    }
  }

  /** TrimSpace(s) is s with the white space at both ends cut off. */
  lemma {:induction false} TrimSpaceTrims(s: string)
    ensures TrimmedFrom(s, TrimSpace(s))
  {
    var left := TrimLeft(s);
    var r := TrimRight(left);
    TrimLeftCuts(s);
    TrimRightCuts(left);
    TrimSpaceEnds(s);
    var i := |s| - |left|;
    assert s[i..] == left;
    assert s[i..i + |r|] == left[..|r|] == r;
    assert Blank(s, i + |r|, |s|) by {
      forall k | i + |r| <= k < |s| ensures IsSpace(s[k]) {
        assert s[k] == left[k - i];
      }
    }
    assert 0 <= i <= |s| - |r| && Blank(s, 0, i);
  }

  /** At most one string is s with its surrounding white space cut off. */
  lemma {:induction false} TrimmedFromUnique(s: string, r1: string, r2: string)
    requires TrimmedFrom(s, r1) && TrimmedFrom(s, r2)
    ensures r1 == r2
  {
    var i1 :| 0 <= i1 <= |s| - |r1| && s[i1..i1 + |r1|] == r1 && Blank(s, 0, i1) && Blank(s, i1 + |r1|, |s|);
    var i2 :| 0 <= i2 <= |s| - |r2| && s[i2..i2 + |r2|] == r2 && Blank(s, 0, i2) && Blank(s, i2 + |r2|, |s|);
    assert r1 != [] ==> s[i1] == r1[0];
    assert r2 != [] ==> s[i2] == r2[0];
    if r1 != [] && r2 != [] {
      assert i1 == i2;
      assert s[i1 + |r1| - 1] == r1[|r1| - 1] && s[i2 + |r2| - 1] == r2[|r2| - 1];
      assert |r1| == |r2|;
    }
  }

  /** TrimSpace cuts exactly the white space padding around a string with
      non-space ends. */
  lemma {:induction false} TrimSpacePadded(pre: string, t: string, post: string)
    requires forall k :: 0 <= k < |pre| ==> IsSpace(pre[k])
    requires forall k :: 0 <= k < |post| ==> IsSpace(post[k])
    requires t == [] || (!IsSpace(t[0]) && !IsSpace(t[|t| - 1]))
    requires t == [] ==> post == []
    ensures TrimSpace(pre + t + post) == t
  {
    var s := pre + t + post;
    assert s[|pre|..|pre| + |t|] == t;
    assert Blank(s, 0, |pre|);
    assert Blank(s, |pre| + |t|, |s|) by {
      forall k | |pre| + |t| <= k < |s| ensures IsSpace(s[k]) {
        assert s[k] == post[k - |pre| - |t|];
      }
    }
    assert TrimmedFrom(s, t);
    TrimSpaceTrims(s);
    TrimmedFromUnique(s, TrimSpace(s), t);
  }

  // ---------------------------------------------------------------------
  // strings.Repeat("  ", level)
  // ---------------------------------------------------------------------

  /** The indentation of a menu level: strings.Repeat("  ", level). */
  function Indent(level: nat): (r: string)
    ensures |r| == 2 * level
    ensures forall k :: 0 <= k < |r| ==> r[k] == ' '
  {
    if level == 0 then "" else "  " + Indent(level - 1)
  }

  // ---------------------------------------------------------------------
  // Decimal digits
  // ---------------------------------------------------------------------

  predicate IsDigit(c: char) {
    '0' <= c <= '9'
  }

  predicate AllDigits(s: string) {
    forall k :: 0 <= k < |s| ==> IsDigit(s[k])
  }

  function DigitChar(d: nat): (c: char)
    requires d < 10
    ensures IsDigit(c) && c as int - '0' as int == d
  {
    ('0' as int + d) as char
  }

  /** The number a string of decimal digits denotes, most significant first. */
  function DecimalValue(ds: string): nat
    requires AllDigits(ds)
  {
    if ds == [] then 0
    else DecimalValue(ds[..|ds| - 1]) * 10 + (ds[|ds| - 1] as int - '0' as int)
  }

  /** The decimal digits of n, without leading zeros ("0" for zero). */
  function FormatNat(n: nat): (r: string)
    ensures |r| > 0 && AllDigits(r)
    ensures r[0] == '0' ==> r == "0"
  {
    if n < 10 then [DigitChar(n)] else FormatNat(n / 10) + [DigitChar(n % 10)]
  }

  /** fmt's %d: a minus sign for negative numbers, then the digits of the magnitude. */
  function FormatInt(n: int64): (r: string)
    ensures |r| > 0 && IsDigit(r[|r| - 1])
    ensures r[0] == '-' <==> n < 0
    ensures n < 0 ==> AllDigits(r[1..])
    ensures n >= 0 ==> AllDigits(r)
  {
    if n < 0 then "-" + FormatNat(-(n as int)) else FormatNat(n as int)
  }

  /** The integer a line denotes as the navigator reads it: an optional sign,
      then one or more decimal digits, filling the whole (trimmed) line, and
      within the range of a Go int. */
  function ParseInt(s: string): (r: Option<int64>)
    ensures r.Some? ==> |s| > 0 && (IsDigit(s[0]) || s[0] == '+' || s[0] == '-')
    ensures r.Some? ==> AllDigits(s[1..]) && (|s| == 1 ==> IsDigit(s[0]))
    ensures r.Some? ==> (r.value < 0 ==> s[0] == '-')
  {
    var signed := |s| > 0 && (s[0] == '+' || s[0] == '-');
    var digits := if signed then s[1..] else s;
    if digits == [] || !AllDigits(digits) then None
    else
      var magnitude: int := DecimalValue(digits);
      var v: int := if signed && s[0] == '-' then -magnitude else magnitude;
      if IsInt64(v) then Some(v as int64) else None
  }

  // ---------------------------------------------------------------------
  // Formatting and parsing are inverse to each other
  // ---------------------------------------------------------------------

  lemma {:induction false} DecimalValueOfFormat(n: nat)
    ensures DecimalValue(FormatNat(n)) == n
  {
    var r := FormatNat(n);
    if n >= 10 {
      DecimalValueOfFormat(n / 10);
      assert r[..|r| - 1] == FormatNat(n / 10);
    }
  }

  /** A digit string without a leading zero has a positive value. */
  lemma {:induction false} DecimalValuePositive(ds: string)
    requires |ds| > 0 && AllDigits(ds) && ds[0] != '0'
    ensures DecimalValue(ds) > 0
  {
    if |ds| > 1 {
      var p := ds[..|ds| - 1];
      assert p[0] == ds[0];
      DecimalValuePositive(p);
    }
  }

  lemma {:induction false} FormatOfDecimalValue(ds: string)
    requires |ds| > 0 && AllDigits(ds)
    requires ds[0] == '0' ==> ds == "0"
    ensures FormatNat(DecimalValue(ds)) == ds
  {
    var v := DecimalValue(ds);
    if |ds| == 1 {
      assert ds[..0] == [] && DecimalValue(ds[..0]) == 0;
      assert [DigitChar(v)] == ds;
    } else {
      var p := ds[..|ds| - 1];
      assert p[0] == ds[0];
      DecimalValuePositive(p);
      FormatOfDecimalValue(p);
      assert v / 10 == DecimalValue(p) && v % 10 == ds[|ds| - 1] as int - '0' as int;
      assert ds == p + [ds[|ds| - 1]];
    }
  }

  /** Reading back what %d prints gives the number printed. */
  lemma {:induction false} ParseFormatInt(n: int64)
    ensures ParseInt(FormatInt(n)) == Some(n)
  {
    var m := if n < 0 then -(n as int) else n as int;
    var f := FormatNat(m);
    DecimalValueOfFormat(m);
    if n < 0 {
      assert ("-" + f)[1..] == f;
    } else {
      assert IsDigit(f[0]);
    }
  }

  /** The only line that parses to n, is written without a '+' sign and without
      leading zeros, and is not "-0", is the one %d prints for n. */
  lemma {:induction false} FormatParseInt(s: string, n: int64)
    requires ParseInt(s) == Some(n)
    requires s[0] != '+'
    requires s[0] == '-' ==> s[1] != '0'
    requires s[0] == '0' ==> s == "0"
    ensures FormatInt(n) == s
  {
    if s[0] == '-' {
      var ds := s[1..];
      assert ds[0] == s[1];
      FormatOfDecimalValue(ds);
      DecimalValuePositive(ds);
      assert s == "-" + ds;
    } else {
      FormatOfDecimalValue(s);
    }
  }
}
