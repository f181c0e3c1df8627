/** The small pieces of Java's text handling that the cluster file relies on:
    decimal printing of integers, `Integer.parseInt`, `String.split` on a one-character
    pattern, and joining with a separator. */
module Text {
  import opened Results

  const INT_MIN: int := -0x8000_0000
  const INT_MAX: int := 0x7FFF_FFFF

  predicate IsDigit(c: char) { '0' <= c <= '9' }

  predicate AllDigits(s: string) { forall i :: 0 <= i < |s| ==> IsDigit(s[i]) }

  function DigitChar(d: nat): (c: char)
    requires d < 10
    ensures IsDigit(c)
  {
    ('0' as int + d) as char
  }

  function DigitValue(c: char): (d: nat)
    requires IsDigit(c)
    ensures d < 10
  {
    c as int - '0' as int
  }

  /** Decimal digits of `n`, most significant first, without leading zeros. */
  function NatToString(n: nat): (s: string)
    ensures |s| > 0 && AllDigits(s)
  {
    if n < 10 then [DigitChar(n)] else NatToString(n / 10) + [DigitChar(n % 10)]
  }

  /** What `StringBuilder.append(int)` and `String.format("%d", …)` produce. */
  function IntToString(n: int): (s: string)
    ensures |s| > 0
  {
    if n < 0 then "-" + NatToString(-n) else NatToString(n)
  }

  /** Value of a string of decimal digits, read left to right. */
  function DigitsValue(s: string): nat
    requires AllDigits(s)
  {
    if s == [] then 0 else DigitsValue(s[..|s| - 1]) * 10 + DigitValue(s[|s| - 1])
  }

  /** An optional sign followed by at least one decimal digit, of unbounded magnitude. */
  function ParseDecimal(s: string): Option<int>
  {
    if |s| == 0 then None
    else if s[0] == '-' || s[0] == '+' then
      if |s| == 1 || !AllDigits(s[1..]) then None
      else if s[0] == '-' then Some(-(DigitsValue(s[1..]) as int))
      else Some(DigitsValue(s[1..]))
    else if AllDigits(s) then Some(DigitsValue(s))
    else None
  }

  /** `Integer.parseInt`: a decimal literal whose value fits in 32 bits. */
  function ParseInt32(s: string): (r: Option<int>)
    ensures r.Some? ==> INT_MIN <= r.value <= INT_MAX
  {
    match ParseDecimal(s)
    case Some(v) => if INT_MIN <= v <= INT_MAX then Some(v) else None
    case None => None
  }

  lemma {:induction false} DigitsRoundTrip(n: nat)
    ensures DigitsValue(NatToString(n)) == n
  {
    if n >= 10 {
      var s := NatToString(n);
      assert s[..|s| - 1] == NatToString(n / 10);
      DigitsRoundTrip(n / 10);
    }
  }

  /** Printing an integer and reading it back gives the integer. */
  lemma ParseIntToString(n: int)
    ensures ParseDecimal(IntToString(n)) == Some(n)
    ensures INT_MIN <= n <= INT_MAX ==> ParseInt32(IntToString(n)) == Some(n)
  {
    assert ParseDecimal(IntToString(n)) == Some(n) by {
      if n < 0 {
        ParseNegative(NatToString(-n));
        DigitsRoundTrip(-n);
      } else {
        ParseUnsigned(NatToString(n));
        DigitsRoundTrip(n);
      }
    }
  }

  lemma ParseNegative(d: string)
    requires |d| > 0 && AllDigits(d)
    ensures ParseDecimal("-" + d) == Some(-(DigitsValue(d) as int))
  {
    assert ("-" + d)[1..] == d;
  }

  lemma ParseUnsigned(d: string)
    requires |d| > 0 && AllDigits(d)
    ensures ParseDecimal(d) == Some(DigitsValue(d) as int)
  {
    assert IsDigit(d[0]);
  }

  /** `String.join` with a one-character separator. */
  function Join(parts: seq<string>, sep: char): string
  {
    if parts == [] then ""
    else if |parts| == 1 then parts[0]
    else Join(parts[..|parts| - 1], sep) + [sep] + parts[|parts| - 1]
  }

  /** Every piece between separators, empty pieces included. */
  function SplitAll(s: string, sep: char): (r: seq<string>)
    ensures |r| > 0
  {
    if s == [] then [""]
    else
      var r := SplitAll(s[..|s| - 1], sep);
      if s[|s| - 1] == sep then r + [""]
      else r[..|r| - 1] + [r[|r| - 1] + [s[|s| - 1]]]
  }

  function DropTrailingEmpty(r: seq<string>): seq<string>
  {
    if r != [] && r[|r| - 1] == "" then DropTrailingEmpty(r[..|r| - 1]) else r
  }

  /** `String.split` with a one-character pattern and no limit: the pieces without the
      empty ones at the end. When the separator does not occur the answer is the whole
      string, which for the empty string is one empty piece. */
  function Split(s: string, sep: char): seq<string>
  {
    if s == [] then [""] else DropTrailingEmpty(SplitAll(s, sep))
  }

  predicate StartsWith(s: string, prefix: string)
  {
    |prefix| <= |s| && s[..|prefix|] == prefix
  }

  lemma {:induction false} SplitAllNoSeparator(x: string, sep: char)
    requires sep !in x
    ensures SplitAll(x, sep) == [x]
  {
    if x != [] {
      assert sep !in x[..|x| - 1];
      SplitAllNoSeparator(x[..|x| - 1], sep);
      assert x[..|x| - 1] + [x[|x| - 1]] == x;
    }
  }

  lemma {:induction false} SplitAllAfterSeparator(t: string, x: string, sep: char)
    requires sep !in x
    ensures SplitAll(t + [sep] + x, sep) == SplitAll(t, sep) + [x]
  {
    var s := t + [sep] + x;
    if x == [] {
      assert s[..|s| - 1] == t;
    } else {
      var x' := x[..|x| - 1];
      assert sep !in x';
      assert s[..|s| - 1] == t + [sep] + x';
      SplitAllAfterSeparator(t, x', sep);
      assert x' + [x[|x| - 1]] == x;
    }
  }

  lemma {:induction false} SplitAllJoin(parts: seq<string>, sep: char)
    requires |parts| > 0
    requires forall i :: 0 <= i < |parts| ==> sep !in parts[i]
    ensures SplitAll(Join(parts, sep), sep) == parts
  {
    if |parts| == 1 {
      SplitAllNoSeparator(parts[0], sep);
    } else {
      var init := parts[..|parts| - 1];
      SplitAllJoin(init, sep);
      SplitAllAfterSeparator(Join(init, sep), parts[|parts| - 1], sep);
    }
  }

  /** Splitting a joined line gives back its pieces, provided no piece holds the
      separator and the last piece is not empty (`split` drops trailing empty pieces). */
  lemma SplitJoin(parts: seq<string>, sep: char)
    requires |parts| > 0
    requires forall i :: 0 <= i < |parts| ==> sep !in parts[i]
    requires |parts| == 1 || parts[|parts| - 1] != ""
    ensures Split(Join(parts, sep), sep) == parts
  {
    SplitAllJoin(parts, sep);
    if |parts| == 1 {
      assert Join(parts, sep) == parts[0];
    } else {
      var j := Join(parts, sep);
      assert j[|Join(parts[..|parts| - 1], sep)|] == sep;
    }
  }

  /** When the separator does not occur, `split` gives the whole string. */
  lemma SplitNoSeparator(s: string, sep: char)
    requires sep !in s
    ensures Split(s, sep) == [s]
  {
    SplitAllNoSeparator(s, sep);
  }

  /** Java appended `x,` for every element and then deleted the final comma: the same
      text as joining. This is the invariant of the builder loops. */
  lemma JoinSnoc(parts: seq<string>, x: string, sep: char)
    requires |parts| > 0
    ensures Join(parts + [x], sep) == Join(parts, sep) + [sep] + x
  {
    assert (parts + [x])[..|parts|] == parts;
  }
}
