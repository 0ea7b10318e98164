/** The fragments of the Java standard library that the alerting pass relies on:
    `String.split` with a one-character separator, `Long.parseLong` / `Integer.parseInt`,
    decimal rendering of `int` and `long`, and `List.toString`. Strings are `seq<char>`. */
module JavaText {

  datatype Option<T> = None | Some(value: T)

  const MinInt32: int := -0x8000_0000
  const MaxInt32: int := 0x7fff_ffff
  const MinInt64: int := -0x8000_0000_0000_0000
  const MaxInt64: int := 0x7fff_ffff_ffff_ffff

  /** Java `int`. */
  type Int32 = x: int | MinInt32 <= x <= MaxInt32
  /** Java `long`. */
  type Int64 = x: int | MinInt64 <= x <= MaxInt64

  // ---------------------------------------------------------------------------
  // Splitting on one separator character
  // ---------------------------------------------------------------------------

  /** Every field between separators, empty fields included (a string with k
      separators has k + 1 fields). */
  function SplitAll(s: string, sep: char): (fields: seq<string>)
    ensures |fields| >= 1
    ensures forall i :: 0 <= i < |fields| ==> sep !in fields[i]
  {
    if |s| == 0 then [""]
    else
      var rest := SplitAll(s[1..], sep);
      if s[0] == sep then [""] + rest
      else [[s[0]] + rest[0]] + rest[1..]
  }

  /** Fields glued back together with the separator between them. */
  function Join(fields: seq<string>, sep: char): string
    requires |fields| >= 1
  {
    if |fields| == 1 then fields[0]
    else fields[0] + [sep] + Join(fields[1..], sep)
  }

  /** Splitting and joining again gives back the string. */
  lemma {:induction false} JoinSplitAll(s: string, sep: char)
    ensures Join(SplitAll(s, sep), sep) == s
  {
    if |s| > 0 {
      var rest := SplitAll(s[1..], sep);
      JoinSplitAll(s[1..], sep);
      assert s == [s[0]] + s[1..];
      if s[0] != sep && |rest| > 1 {
        calc {
          Join(SplitAll(s, sep), sep);
          ([s[0]] + rest[0]) + [sep] + Join(rest[1..], sep);
          [s[0]] + (rest[0] + [sep] + Join(rest[1..], sep));
          [s[0]] + Join(rest, sep);
        }
      }
    }
  }

  /** Prepending a separator-free text glues it onto the first field. */
  lemma {:induction false} SplitAllPrepend(a: string, t: string, sep: char)
    requires sep !in a
    ensures SplitAll(a + t, sep) == [a + SplitAll(t, sep)[0]] + SplitAll(t, sep)[1..]
  {
    if |a| > 0 {
      SplitAllPrepend(a[1..], t, sep);
      assert (a + t)[1..] == a[1..] + t;
      assert [a[0]] + (a[1..] + SplitAll(t, sep)[0]) == a + SplitAll(t, sep)[0];
    } else {
      var f := SplitAll(t, sep);
      assert a + t == t && a + f[0] == f[0];
      assert f == [f[0]] + f[1..];
    }
  }

  /** Joining separator-free fields and splitting again gives back the fields. */
  lemma {:induction false} SplitAllJoin(fields: seq<string>, sep: char)
    requires |fields| >= 1
    requires forall i :: 0 <= i < |fields| ==> sep !in fields[i]
    ensures SplitAll(Join(fields, sep), sep) == fields
  {
    if |fields| == 1 {
      SplitAllPrepend(fields[0], "", sep);
      assert fields[0] + "" == fields[0];
    } else {
      var tail := Join(fields[1..], sep);
      SplitAllJoin(fields[1..], sep);
      assert Join(fields, sep) == fields[0] + ([sep] + tail);
      SplitAllPrepend(fields[0], [sep] + tail, sep);
      assert ([sep] + tail)[1..] == tail;
      assert fields[0] + "" == fields[0];
      assert fields == [fields[0]] + fields[1..];
    }
  }

  /** The fields without the empty ones at the end, which `String.split` drops. */
  function DropTrailingEmpty(fields: seq<string>): (r: seq<string>)
    ensures |r| <= |fields| && r == fields[..|r|]
    ensures forall i :: |r| <= i < |fields| ==> fields[i] == ""
    ensures |r| > 0 ==> r[|r| - 1] != ""
  {
    if |fields| == 0 then []
    else if fields[|fields| - 1] == "" then DropTrailingEmpty(fields[..|fields| - 1])
    else fields
  }

  /** Java's `s.split(sep)` for a separator that is not a regular-expression
      metacharacter: a string without the separator gives itself (even when
      empty); otherwise the fields, with trailing empty fields removed. */
  function JavaSplit(s: string, sep: char): (parts: seq<string>)
    ensures forall i :: 0 <= i < |parts| ==> sep !in parts[i]
    ensures sep !in s ==> parts == [s]
  {
    if sep !in s then [s] else DropTrailingEmpty(SplitAll(s, sep))
  }

  /** "a<sep>b" with separator-free a and non-empty b splits into exactly [a, b]. */
  lemma JavaSplitTwo(a: string, b: string, sep: char)
    requires sep !in a && sep !in b && b != ""
    ensures JavaSplit(a + [sep] + b, sep) == [a, b]
  {
    var fields := [a, b];
    assert Join(fields[1..], sep) == b;
    assert Join(fields, sep) == a + [sep] + b;
    SplitAllJoin(fields, sep);
    assert sep in a + [sep] + b by { assert (a + [sep] + b)[|a|] == sep; }
  }

  /** A string made only of separators splits into nothing at all. */
  lemma {:induction false} JavaSplitOnlySeparators(s: string, sep: char)
    requires |s| > 0
    requires forall i :: 0 <= i < |s| ==> s[i] == sep
    ensures JavaSplit(s, sep) == []
  {
    assert s[0] == sep;
    AllFieldsEmpty(s, sep);
  }

  /** Java's split gives no fields at all exactly when the text is non-empty and
      made only of the separator. */
  lemma JavaSplitEmpty(s: string, sep: char)
    ensures JavaSplit(s, sep) == [] <==> |s| > 0 && forall i :: 0 <= i < |s| ==> s[i] == sep
  {
    if |s| > 0 && forall i :: 0 <= i < |s| ==> s[i] == sep {
      JavaSplitOnlySeparators(s, sep);
    }
    if JavaSplit(s, sep) == [] {
      var fields := SplitAll(s, sep);
      assert sep in s;
      assert forall i :: 0 <= i < |fields| ==> fields[i] == "";
      JoinSplitAll(s, sep);
      JoinOfEmptyFields(fields, sep);
    }
  }

  /** Empty fields join into separators only. */
  lemma {:induction false} JoinOfEmptyFields(fields: seq<string>, sep: char)
    requires |fields| >= 1
    requires forall i :: 0 <= i < |fields| ==> fields[i] == ""
    ensures forall i :: 0 <= i < |Join(fields, sep)| ==> Join(fields, sep)[i] == sep
  {
    if |fields| > 1 {
      JoinOfEmptyFields(fields[1..], sep);
      assert Join(fields, sep) == [sep] + Join(fields[1..], sep);
    }
  }

  lemma {:induction false} AllFieldsEmpty(s: string, sep: char)
    requires forall i :: 0 <= i < |s| ==> s[i] == sep
    ensures forall i :: 0 <= i < |SplitAll(s, sep)| ==> SplitAll(s, sep)[i] == ""
    ensures DropTrailingEmpty(SplitAll(s, sep)) == []
  {
    if |s| > 0 {
      AllFieldsEmpty(s[1..], sep);
    }
  }

  // ---------------------------------------------------------------------------
  // Decimal numbers
  // ---------------------------------------------------------------------------

  predicate IsDigit(c: char) {
    '0' <= c <= '9'
  }

  predicate AllDigits(s: string) {
    forall i :: 0 <= i < |s| ==> IsDigit(s[i])
  }

  function DigitChar(d: nat): (c: char)
    requires d < 10
    ensures IsDigit(c)
  {
    ('0' as int + d) as char
  }

  /** The value of a string of decimal digits. */
  function DigitsValue(s: string): nat
    requires AllDigits(s)
  {
    if |s| == 0 then 0
    else 10 * DigitsValue(s[..|s| - 1]) + (s[|s| - 1] as int - '0' as int)
  }

  /** Decimal digits of a natural number, without leading zeros. */
  function NatToString(n: nat): (s: string)
    ensures |s| >= 1 && AllDigits(s)
  {
    if n < 10 then [DigitChar(n)] else NatToString(n / 10) + [DigitChar(n % 10)]
  }

  /** Java's `Integer.toString` / `Long.toString` (and string concatenation of a number). */
  function IntToString(n: int): (s: string)
    ensures |s| >= 1
    ensures forall i :: 0 <= i < |s| ==> IsDigit(s[i]) || s[i] == '-'
  {
    if n < 0 then "-" + NatToString(-n) else NatToString(n)
  }

  lemma {:induction false} NatToStringValue(n: nat)
    ensures DigitsValue(NatToString(n)) == n
  {
    if n >= 10 {
      NatToStringValue(n / 10);
      var s := NatToString(n);
      assert s[..|s| - 1] == NatToString(n / 10);
    }
  }

  /** Java's `Long.parseLong` (lo, hi = the `long` range) and `Integer.parseInt`
      (the `int` range): an optional sign followed by at least one decimal digit,
      and a value in range; anything else throws `NumberFormatException` (None). */
  function ParseDecimal(s: string, lo: int, hi: int): (r: Option<int>)
    ensures r.Some? ==> lo <= r.value <= hi
  {
    if |s| == 0 then None
    else
      var body := if s[0] == '-' || s[0] == '+' then s[1..] else s;
      if |body| == 0 || !AllDigits(body) then None
      else
        var v: int := if s[0] == '-' then -(DigitsValue(body) as int) else DigitsValue(body) as int;
        if lo <= v <= hi then Some(v) else None
  }

  function ParseLong(s: string): (r: Option<Int64>)
    ensures r.Some? ==> ParseDecimal(s, MinInt64, MaxInt64) == Some(r.value as int)
    ensures r.None? ==> ParseDecimal(s, MinInt64, MaxInt64).None?
  {
    match ParseDecimal(s, MinInt64, MaxInt64)
    case None => None
    case Some(v) => Some(v)
  }

  function ParseInt(s: string): (r: Option<Int32>)
    ensures r.Some? ==> ParseDecimal(s, MinInt32, MaxInt32) == Some(r.value as int)
    ensures r.None? ==> ParseDecimal(s, MinInt32, MaxInt32).None?
  {
    match ParseDecimal(s, MinInt32, MaxInt32)
    case None => None
    case Some(v) => Some(v)
  }

  /** Parsing the rendering of an in-range number gives the number back. */
  lemma ParseIntToString(n: int, lo: int, hi: int)
    requires lo <= n <= hi
    ensures ParseDecimal(IntToString(n), lo, hi) == Some(n)
  {
    var s := IntToString(n);
    if n < 0 {
      NatToStringValue(-n);
      assert s[1..] == NatToString(-n);
    } else {
      NatToStringValue(n);
    }
  }

  /** The empty string, a lone sign and any non-digit are rejected. */
  lemma ParseRejectsMalformed(s: string, lo: int, hi: int)
    requires s == "" || s == "-" || s == "+" || exists i :: 1 <= i < |s| && !IsDigit(s[i])
    ensures ParseDecimal(s, lo, hi).None?
  {
    if |s| > 0 && s != "-" && s != "+" {
      var i :| 1 <= i < |s| && !IsDigit(s[i]);
      var body := if s[0] == '-' || s[0] == '+' then s[1..] else s;
      if s[0] == '-' || s[0] == '+' {
        assert body[i - 1] == s[i];
      } else {
        assert body[i] == s[i];
      }
    }
  }

  // ---------------------------------------------------------------------------
  // List rendering
  // ---------------------------------------------------------------------------

  function JoinComma(xs: seq<string>): string {
    if |xs| == 0 then ""
    else if |xs| == 1 then xs[0]
    else xs[0] + ", " + JoinComma(xs[1..])
  }

  /** Java's `AbstractCollection.toString` of a list of strings: "[a, b, c]". */
  function ListToString(xs: seq<string>): (s: string)
    ensures |s| >= 2 && s[0] == '[' && s[|s| - 1] == ']'
    ensures xs == [] ==> s == "[]"
    ensures |xs| == 1 ==> s == "[" + xs[0] + "]"
  {
    "[" + JoinComma(xs) + "]"
  }

  /** Two or more elements: the first, ", ", then the rendering of the rest without
      its opening bracket. */
  lemma ListToStringCons(xs: seq<string>)
    requires |xs| >= 2
    ensures ListToString(xs) == "[" + xs[0] + ", " + ListToString(xs[1..])[1..]
  {
    var rest := ListToString(xs[1..]);
    assert rest[1..] == JoinComma(xs[1..]) + "]";
    assert ListToString(xs) == "[" + (xs[0] + ", " + JoinComma(xs[1..])) + "]";
  }

  /** The fields "a, b, c" splits into at its commas: the first element, then
      each later one behind its space. */
  function Spaced(xs: seq<string>): (fields: seq<string>)
    requires |xs| >= 1
    ensures |fields| == |xs|
  {
    [xs[0]] + seq(|xs| - 1, i requires 0 <= i < |xs| - 1 => " " + xs[i + 1])
  }

  lemma JoinPrepend(p: string, fields: seq<string>, sep: char)
    requires |fields| >= 1
    ensures Join([p + fields[0]] + fields[1..], sep) == p + Join(fields, sep)
  {
    var g := [p + fields[0]] + fields[1..];
    assert g[1..] == fields[1..];
  }

  lemma {:induction false} JoinCommaSpaced(xs: seq<string>)
    requires |xs| >= 1
    ensures JoinComma(xs) == Join(Spaced(xs), ',')
  {
    if |xs| >= 2 {
      JoinCommaSpaced(xs[1..]);
      var tail := Spaced(xs[1..]);
      assert Spaced(xs)[1..] == [" " + tail[0]] + tail[1..];
      JoinPrepend(" ", tail, ',');
      assert Join(Spaced(xs), ',') == xs[0] + [','] + (" " + Join(tail, ','));
    }
  }

  /** Reads "[a, b, c]" back into its elements; "[]" is the empty list. */
  function ParseList(s: string): Option<seq<string>> {
    if |s| < 2 || s[0] != '[' || s[|s| - 1] != ']' then None
    else if |s| == 2 then Some([])
    else
      var fields := SplitAll(s[1..|s| - 1], ',');
      if forall i :: 1 <= i < |fields| ==> |fields[i]| >= 1 && fields[i][0] == ' ' then
        Some([fields[0]] + seq(|fields| - 1, i requires 0 <= i < |fields| - 1 => fields[i + 1][1..]))
      else None
  }

  /** A list of non-empty, comma-free elements reads back from its rendering. */
  lemma ListRoundTrip(xs: seq<string>)
    requires forall i :: 0 <= i < |xs| ==> xs[i] != "" && ',' !in xs[i]
    ensures ParseList(ListToString(xs)) == Some(xs)
  {
    if |xs| > 0 {
      var s := ListToString(xs);
      var inner := JoinComma(xs);
      assert |inner| >= |xs[0]| > 0;
      assert s[1..|s| - 1] == inner;
      JoinCommaSpaced(xs);
      SpacedFields(xs);
      SplitAllJoin(Spaced(xs), ',');
    }
  }

  /** The spaced fields hold no ',', each after the first opens with the space
      ParseList strips, and stripping it gives the elements back. */
  lemma SpacedFields(xs: seq<string>)
    requires |xs| >= 1 && forall i :: 0 <= i < |xs| ==> ',' !in xs[i]
    ensures var sp := Spaced(xs);
      && (forall i :: 0 <= i < |sp| ==> ',' !in sp[i])
      && (forall i :: 1 <= i < |sp| ==> |sp[i]| >= 1 && sp[i][0] == ' ')
      && [sp[0]] + seq(|sp| - 1, i requires 0 <= i < |sp| - 1 => sp[i + 1][1..]) == xs
  {
    var sp := Spaced(xs);
    forall i | 1 <= i < |sp| ensures sp[i] == " " + xs[i] {
    }
    var parsed := [sp[0]] + seq(|sp| - 1, i requires 0 <= i < |sp| - 1 => sp[i + 1][1..]);
    assert parsed == xs by {
      forall i | 0 <= i < |xs| ensures parsed[i] == xs[i] {
        if i > 0 {
          assert sp[i] == " " + xs[i];
        }
      }
    }
  }

}
