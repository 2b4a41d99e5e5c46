/**
 * The string operations of Rust's standard library that the modelled code relies on:
 * `trim`, `find`/`rfind` of a char, `contains` of a substring, `starts_with`, `lines`,
 * `join`, formatting a `usize` in decimal and `parse::<usize>`.
 * Strings are sequences of Unicode scalar values, exactly Rust's `char`.
 */
module Text {
  import opened Wrappers

  /** Rust's `char::is_whitespace`: the Unicode White_Space property. */
  predicate IsWhitespace(c: char) {
    || ('\U{9}' <= c <= '\U{D}')
    || c == ' '
    || c == '\U{85}'
    || c == '\U{A0}'
    || c == '\U{1680}'
    || ('\U{2000}' <= c <= '\U{200A}')
    || c == '\U{2028}'
    || c == '\U{2029}'
    || c == '\U{202F}'
    || c == '\U{205F}'
    || c == '\U{3000}'
  }

  /** `str::trim_start`: drops the leading whitespace. */
  function TrimStart(s: string): (r: string)
    ensures |r| <= |s| && r == s[|s| - |r|..]
    ensures r == [] || !IsWhitespace(r[0])
    ensures forall i :: 0 <= i < |s| - |r| ==> IsWhitespace(s[i])
  {
    if s != [] && IsWhitespace(s[0]) then TrimStart(s[1..]) else s
  }

  /** `str::trim_end`: drops the trailing whitespace. */
  function TrimEnd(s: string): (r: string)
    ensures |r| <= |s| && r == s[..|r|]
    ensures r == [] || !IsWhitespace(r[|r| - 1])
    ensures forall i :: |r| <= i < |s| ==> IsWhitespace(s[i])
  {
    if s != [] && IsWhitespace(s[|s| - 1]) then TrimEnd(s[..|s| - 1]) else s
  }

  /** `str::trim`: the longest infix with no whitespace at either end. */
  function Trim(s: string): string {
    TrimEnd(TrimStart(s))
  }

  /** A string that `trim` leaves alone. */
  predicate IsTrimmed(s: string) {
    s == [] || (!IsWhitespace(s[0]) && !IsWhitespace(s[|s| - 1]))
  }

  lemma TrimIsTrimmed(s: string)
    ensures IsTrimmed(Trim(s))
    ensures |Trim(s)| <= |s|
    ensures forall c :: c in Trim(s) ==> c in s
  {
    var t := TrimStart(s);
    var r := TrimEnd(t);
    if r != [] {
      assert r[0] == t[0];
    }
    InfixChars(s, |s| - |t|, r);
  }

  /** Every character of an infix is a character of the string. */
  lemma InfixChars(s: string, k: nat, r: string)
    requires k + |r| <= |s| && r == s[k..k + |r|]
    ensures forall c :: c in r ==> c in s
  {
    forall c | c in r ensures c in s {
      var i :| 0 <= i < |r| && r[i] == c;
      assert s[k + i] == c;
    }
  }

  lemma TrimOfTrimmed(s: string)
    requires IsTrimmed(s)
    ensures Trim(s) == s
  {
  }

  /** Trailing whitespace never survives `trim`. */
  lemma TrimDropsTrailingSpace(s: string, w: string)
    requires s != [] && !IsWhitespace(s[0]) && !IsWhitespace(s[|s| - 1])
    requires forall i :: 0 <= i < |w| ==> IsWhitespace(w[i])
    ensures Trim(s + w) == s
  {
    assert TrimStart(s + w) == s + w;
    TrimEndWhitespace(s, w);
  }

  lemma {:induction false} TrimEndWhitespace(s: string, w: string)
    requires s != [] && !IsWhitespace(s[|s| - 1])
    requires forall i :: 0 <= i < |w| ==> IsWhitespace(w[i])
    ensures TrimEnd(s + w) == s
    decreases |w|
  {
    if w == [] {
      assert s + w == s;
    } else {
      var w' := w[..|w| - 1];
      assert (s + w)[..|s + w| - 1] == s + w';
      TrimEndWhitespace(s, w');
    }
  }

  /** Leading whitespace never survives `trim`. */
  lemma {:induction false} TrimSkipsLeadingSpace(w: string, s: string)
    requires forall i :: 0 <= i < |w| ==> IsWhitespace(w[i])
    ensures Trim(w + s) == Trim(s)
    decreases |w|
  {
    if w != [] {
      assert (w + s)[1..] == w[1..] + s;
      TrimSkipsLeadingSpace(w[1..], s);
    } else {
      assert w + s == s;
    }
  }

  /** `str::find(c)`: the index of the first occurrence. */
  function IndexOf(s: string, c: char): (r: Option<nat>)
    ensures r.Some? ==> r.value < |s| && s[r.value] == c && c !in s[..r.value]
    ensures r.None? <==> c !in s
  {
    if s == [] then None
    else if s[0] == c then Some(0)
    else match IndexOf(s[1..], c)
      case None => None
      case Some(i) => assert s[..i + 1] == [s[0]] + s[1..][..i]; Some(i + 1)
  }

  /** `str::rfind(c)`: the index of the last occurrence. */
  function LastIndexOf(s: string, c: char): (r: Option<nat>)
    ensures r.Some? ==> r.value < |s| && s[r.value] == c && c !in s[r.value + 1..]
    ensures r.None? <==> c !in s
  {
    if s == [] then None
    else if s[|s| - 1] == c then Some(|s| - 1)
    else match LastIndexOf(s[..|s| - 1], c)
      case None => None
      case Some(i) =>
        assert s[i + 1..] == s[..|s| - 1][i + 1..] + [s[|s| - 1]];
        Some(i)
  }

  /** The first occurrence is the one with no occurrence before it. */
  lemma FirstIndexOf(s: string, c: char, i: nat)
    requires i < |s| && s[i] == c && c !in s[..i]
    ensures IndexOf(s, c) == Some(i)
  {
  }

  /** The last occurrence is the one with no occurrence after it. */
  lemma LastIndexOfIs(s: string, c: char, i: nat)
    requires i < |s| && s[i] == c && c !in s[i + 1..]
    ensures LastIndexOf(s, c) == Some(i)
  {
  }

  /** `str::starts_with`. */
  predicate StartsWith(s: string, prefix: string) {
    |prefix| <= |s| && s[..|prefix|] == prefix
  }

  /** `sub` stands in `s` from index `i` on. */
  predicate OccursAt(s: string, sub: string, i: int) {
    0 <= i && i + |sub| <= |s| && s[i..i + |sub|] == sub
  }

  /** `str::contains` of a substring. */
  predicate Contains(s: string, sub: string) {
    exists i | 0 <= i <= |s| - |sub| :: OccursAt(s, sub, i)
  }

  /** A text holding `sub` holds its first character. */
  lemma ContainsHead(s: string, sub: string)
    requires sub != [] && Contains(s, sub)
    ensures sub[0] in s
  {
    var i :| 0 <= i <= |s| - |sub| && OccursAt(s, sub, i);
    assert s[i] == s[i..i + |sub|][0];
  }

  /** Whatever a prefix holds, the whole text holds. */
  lemma ContainsInPrefix(s: string, k: nat, sub: string)
    requires k <= |s| && Contains(s[..k], sub)
    ensures Contains(s, sub)
  {
    var i :| 0 <= i <= |s[..k]| - |sub| && OccursAt(s[..k], sub, i);
    assert s[i..i + |sub|] == s[..k][i..i + |sub|];
    assert OccursAt(s, sub, i);
  }

  /** Whatever a suffix holds, the whole text holds. */
  lemma ContainsInSuffix(s: string, k: nat, sub: string)
    requires k <= |s| && Contains(s[k..], sub)
    ensures Contains(s, sub)
  {
    var i :| 0 <= i <= |s[k..]| - |sub| && OccursAt(s[k..], sub, i);
    assert s[k + i..k + i + |sub|] == s[k..][i..i + |sub|];
    assert OccursAt(s, sub, k + i);
  }

  /** `n` copies of `c`. */
  function Repeat(c: char, n: nat): (r: string)
    ensures |r| == n && forall i :: 0 <= i < n ==> r[i] == c
  {
    if n == 0 then [] else Repeat(c, n - 1) + [c]
  }

  /** Removes the '\r' of a "\r\n" line ending (the '\n' is already gone). */
  function StripCR(line: string): string {
    if line != [] && line[|line| - 1] == '\r' then line[..|line| - 1] else line
  }

  /**
   * `str::lines`: split at '\n', drop a '\r' that stood right before the '\n',
   * and yield no empty line after a final '\n'.
   */
  function Lines(s: string): (r: seq<string>)
    ensures forall k :: 0 <= k < |r| ==> '\n' !in r[k]
    decreases |s|
  {
    if s == [] then []
    else match IndexOf(s, '\n')
      case None => [s]
      case Some(i) => [StripCR(s[..i])] + Lines(s[i + 1..])
  }

  /** A string cut after a line break splits into the lines of both parts. */
  lemma {:induction false} LinesAppend(x: string, y: string)
    requires x == [] || x[|x| - 1] == '\n'
    ensures Lines(x + y) == Lines(x) + Lines(y)
    decreases |x|
  {
    if x == [] {
      assert x + y == y;
    } else {
      var i := IndexOf(x, '\n').value;
      var xy := x + y;
      var rest := x[i + 1..];
      assert xy[..i] == x[..i];
      assert xy[i + 1..] == rest + y;
      FirstIndexOf(xy, '\n', i);
      LinesStep(xy, i);
      LinesStep(x, i);
      assert rest == [] || rest[|rest| - 1] == '\n';
      LinesAppend(rest, y);
      Regroup([StripCR(x[..i])], Lines(rest), Lines(y));
    }
  }

  /** One step of `lines()`: the text before the first line break, then the lines after it. */
  lemma LinesStep(s: string, i: nat)
    requires IndexOf(s, '\n') == Some(i)
    ensures Lines(s) == [StripCR(s[..i])] + Lines(s[i + 1..])
  {
  }

  lemma Regroup(a: seq<string>, b: seq<string>, c: seq<string>)
    ensures a + (b + c) == (a + b) + c
  {
  }

  /** Every line consists of characters of the text. */
  lemma {:induction false} LinesChars(s: string, k: nat, c: char)
    requires k < |Lines(s)| && c in Lines(s)[k]
    ensures c in s
    decreases |s|
  {
    match IndexOf(s, '\n')
    case None =>
    case Some(i) =>
      if k > 0 {
        LinesChars(s[i + 1..], k - 1, c);
      }
  }

  lemma LinesOfOneLine(p: string)
    requires p != [] && '\n' !in p
    ensures Lines(p) == [p]
  {
  }

  lemma LinesOfTerminatedLine(p: string)
    requires '\n' !in p && (p == [] || p[|p| - 1] != '\r')
    ensures Lines(p + "\n") == [p]
  {
    var s := p + "\n";
    assert s[..|p|] == p;
    FirstIndexOf(s, '\n', |p|);
    assert s[|p| + 1..] == [];
  }

  /** A "\r\n" ends a line like a '\n' does, and the '\r' is not part of the line. */
  lemma LinesOfCrlf(p: string, q: string)
    requires '\n' !in p
    ensures Lines(p + "\r\n" + q) == [p] + Lines(q)
  {
    var s := p + "\r\n" + q;
    var line := p + "\r";
    assert s[..|p| + 1] == line;
    FirstIndexOf(s, '\n', |p| + 1);
    assert s[|p| + 2..] == q;
    LinesStep(s, |p| + 1);
    assert line[..|line| - 1] == p;
  }

  /** A '\r' with no '\n' after it ends no line: a final one stays in the last line. */
  lemma LinesKeepLoneCr(p: string)
    requires '\n' !in p
    ensures Lines(p + "\r") == [p + "\r"]
  {
    LinesOfOneLine(p + "\r");
  }

  /** A finished line followed by an unfinished one. */
  lemma LinesOfTwo(first: string, second: string)
    requires '\n' !in first && (first == [] || first[|first| - 1] != '\r')
    requires second != [] && '\n' !in second
    ensures Lines(first + "\n" + second) == [first, second]
  {
    LinesAppend(first + "\n", second);
    LinesOfTerminatedLine(first);
    LinesOfOneLine(second);
  }

  /** `[String]::join(sep)`. */
  function Join(parts: seq<string>, sep: string): string {
    if |parts| == 0 then ""
    else if |parts| == 1 then parts[0]
    else parts[0] + sep + Join(parts[1..], sep)
  }

  /** The largest `usize` plus one, on the 64-bit targets the application ships for. */
  const UsizeLimit: nat := 0x1_0000_0000_0000_0000

  predicate IsDigit(c: char) {
    '0' <= c <= '9'
  }

  function DigitChar(d: nat): (c: char)
    requires d < 10
    ensures IsDigit(c)
  {
    (48 + d) as char
  }

  function DigitValue(c: char): (d: nat)
    requires IsDigit(c)
    ensures d < 10
  {
    c as int - 48
  }

  /** A decimal numeral has no whitespace to trim. */
  lemma DecimalIsTrimmed(n: nat)
    ensures Trim(Decimal(n)) == Decimal(n)
  {
    var d := Decimal(n);
    assert IsDigit(d[0]) && IsDigit(d[|d| - 1]);
    TrimOfTrimmed(d);
  }

  /** `n.to_string()` for an unsigned integer: decimal digits without leading zeros. */
  function Decimal(n: nat): (r: string)
    ensures r != [] && forall i :: 0 <= i < |r| ==> IsDigit(r[i])
    ensures r[0] == '0' ==> n == 0
  {
    if n < 10 then [DigitChar(n)] else Decimal(n / 10) + [DigitChar(n % 10)]
  }

  /** The value of a string of decimal digits. */
  function DigitsValue(ds: string): nat
    requires forall i :: 0 <= i < |ds| ==> IsDigit(ds[i])
  {
    if ds == [] then 0 else DigitsValue(ds[..|ds| - 1]) * 10 + DigitValue(ds[|ds| - 1])
  }

  /**
   * `str::parse::<usize>`: an optional '+', then one or more decimal digits whose value
   * fits in a `usize`.
   */
  function ParseUsize(s: string): (r: Option<nat>)
    ensures r.Some? ==> r.value < UsizeLimit
    ensures r.Some? ==> exists ds :: (s == ds || s == "+" + ds) && ds != []
                                   && (forall i :: 0 <= i < |ds| ==> IsDigit(ds[i]))
                                   && r.value == DigitsValue(ds)
  {
    var ds := if s != [] && s[0] == '+' then s[1..] else s;
    if ds == [] || exists i :: 0 <= i < |ds| && !IsDigit(ds[i]) then None
    else
      assert s == ds || s == "+" + ds;
      var v := DigitsValue(ds);
      if v < UsizeLimit then Some(v) else None
  }

  /** Every optional '+' and digit string whose value fits in a `usize` is accepted. */
  lemma ParseUsizeAccepts(s: string, ds: string)
    requires s == ds || s == "+" + ds
    requires ds != [] && forall i :: 0 <= i < |ds| ==> IsDigit(ds[i])
    requires DigitsValue(ds) < UsizeLimit
    ensures ParseUsize(s) == Some(DigitsValue(ds))
  {
    if s == "+" + ds {
      assert s[1..] == ds;
    } else {
      assert IsDigit(s[0]);
    }
  }

  lemma {:induction false} DecimalValue(n: nat)
    ensures DigitsValue(Decimal(n)) == n
  {
    if n >= 10 {
      var d := Decimal(n);
      assert d[..|d| - 1] == Decimal(n / 10);
      DecimalValue(n / 10);
    }
  }

  /** Formatting a `usize` and parsing it back gives the same number. */
  lemma DecimalRoundTrip(n: nat)
    requires n < UsizeLimit
    ensures ParseUsize(Decimal(n)) == Some(n)
  {
    DecimalValue(n);
    assert Decimal(n)[0] != '+';
  }
}
