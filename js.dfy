/**
 * The handful of JavaScript runtime behaviours the adapter relies on:
 * the `\s` character class (also what `String.prototype.trim` removes),
 * `trim`, `split` on one character, `parseInt(s, 10)`, the `x || d`
 * default on a number, and the decimal text of an integer.
 */
module Js {

  datatype Option<+T> = None | Some(value: T)

  /** Concatenation regroups freely. */
  lemma ConcatAssoc<T>(a: seq<T>, b: seq<T>, c: seq<T>)
    ensures a + (b + c) == a + b + c
  {
  }

  /** Characters matched by `\s` in a JavaScript regular expression: white space and line terminators. */
  predicate IsSpace(c: char) {
    || c == ' ' || c == '\t' || c == '\n' || c == '\r' || c == '\U{000B}' || c == '\U{000C}'
    || c == '\U{00A0}' || c == '\U{1680}' || ('\U{2000}' <= c <= '\U{200A}')
    || c == '\U{2028}' || c == '\U{2029}' || c == '\U{202F}' || c == '\U{205F}'
    || c == '\U{3000}' || c == '\U{FEFF}'
  }

  /** `\d` without the `u` flag: the ASCII digits. */
  predicate IsDigit(c: char) {
    '0' <= c <= '9'
  }

  predicate AllDigits(s: string) {
    forall i :: 0 <= i < |s| ==> IsDigit(s[i])
  }

  /** `/^\d+$/.test(s)` */
  predicate IsUnsigned(s: string) {
    |s| > 0 && AllDigits(s)
  }

  // ---------------------------------------------------------------- trim

  /** `s.trimStart()` */
  function TrimStart(s: string): (r: string)
    ensures |r| <= |s|
  {
    if |s| > 0 && IsSpace(s[0]) then TrimStart(s[1..]) else s
  }

  /** `s.trimEnd()` */
  function TrimEnd(s: string): (r: string)
    ensures |r| <= |s|
  {
    if |s| > 0 && IsSpace(s[|s| - 1]) then TrimEnd(s[..|s| - 1]) else s
  }

  /** `trimStart` keeps a suffix, cuts only white space, and what it keeps does not start with white space. */
  lemma {:induction false} TrimStartShape(s: string)
    ensures TrimStart(s) == s[|s| - |TrimStart(s)|..]
    ensures forall i :: 0 <= i < |s| - |TrimStart(s)| ==> IsSpace(s[i])
    ensures |TrimStart(s)| > 0 ==> !IsSpace(TrimStart(s)[0])
  {
    if |s| > 0 && IsSpace(s[0]) {
      TrimStartShape(s[1..]);
      assert forall i :: 1 <= i < |s| ==> s[i] == s[1..][i - 1];
    }
  }

  /** `trimEnd` keeps a prefix, cuts only white space, and what it keeps does not end with white space. */
  lemma {:induction false} TrimEndShape(s: string)
    ensures TrimEnd(s) == s[..|TrimEnd(s)|]
    ensures forall i :: |TrimEnd(s)| <= i < |s| ==> IsSpace(s[i])
    ensures |TrimEnd(s)| > 0 ==> !IsSpace(TrimEnd(s)[|TrimEnd(s)| - 1])
  {
    if |s| > 0 && IsSpace(s[|s| - 1]) {
      TrimEndShape(s[..|s| - 1]);
      assert forall i :: 0 <= i < |s| - 1 ==> s[i] == s[..|s| - 1][i];
    }
  }

  /** Number of white-space characters `s.trim()` cuts from the front of `s`. */
  function LeadingSpace(s: string): (n: nat)
    ensures n <= |s|
  {
    |s| - |TrimStart(s)|
  }

  /** `s.trim()` */
  function Trim(s: string): (r: string)
    ensures |r| <= |s|
  {
    TrimEnd(TrimStart(s))
  }

  /**
   * `trim` keeps a slice of `s` and cuts only white space, from both ends;
   * what it keeps neither starts nor ends with white space.
   */
  lemma TrimShape(s: string)
    ensures LeadingSpace(s) + |Trim(s)| <= |s| && Trim(s) == s[LeadingSpace(s)..LeadingSpace(s) + |Trim(s)|]
    ensures forall i :: 0 <= i < LeadingSpace(s) ==> IsSpace(s[i])
    ensures forall i :: LeadingSpace(s) + |Trim(s)| <= i < |s| ==> IsSpace(s[i])
    ensures |Trim(s)| > 0 ==> !IsSpace(Trim(s)[0]) && !IsSpace(Trim(s)[|Trim(s)| - 1])
  {
    var left := TrimStart(s);
    var r := Trim(s);
    TrimStartShape(s);
    TrimEndShape(left);
    assert forall i :: LeadingSpace(s) + |r| <= i < |s| ==> s[i] == left[i - LeadingSpace(s)];
  }

  /** A string that neither starts nor ends with white space is its own trim. */
  lemma TrimUntouched(s: string)
    requires |s| > 0 ==> !IsSpace(s[0]) && !IsSpace(s[|s| - 1])
    ensures Trim(s) == s
  {
  }

  // ---------------------------------------------------------------- split

  /** Index of the first `c` in `s`, or `|s|` when there is none. */
  function IndexOf(s: string, c: char): (k: nat)
    ensures k <= |s|
    ensures k < |s| ==> s[k] == c
    ensures forall i :: 0 <= i < k ==> s[i] != c
    ensures c !in s ==> k == |s|
  {
    if |s| == 0 then 0
    else if s[0] == c then 0
    else
      var k := 1 + IndexOf(s[1..], c);
      assert c !in s ==> c !in s[1..] by {
        if c in s[1..] { var j :| 0 <= j < |s| - 1 && s[1..][j] == c; assert s[j + 1] == c; }
      }
      k
  }

  /** `parts.join(sep)` */
  function Join(parts: seq<string>, sep: char): string {
    if |parts| == 0 then ""
    else if |parts| == 1 then parts[0]
    else parts[0] + [sep] + Join(parts[1..], sep)
  }

  /** `s.split(sep)` for a one-character separator: never empty, no part holds `sep`, and joining gives `s` back. */
  function Split(s: string, sep: char): (parts: seq<string>)
    ensures |parts| > 0
    ensures forall i :: 0 <= i < |parts| ==> sep !in parts[i]
    ensures Join(parts, sep) == s
    decreases |s|
  {
    var k := IndexOf(s, sep);
    if k == |s| then
      assert sep !in s;
      [s]
    else
      var rest := Split(s[k + 1..], sep);
      assert s == s[..k] + [sep] + s[k + 1..];
      assert sep !in s[..k];
      [s[..k]] + rest
  }

  lemma {:induction false} IndexOfJoined(a: string, sep: char, b: string)
    requires sep !in a
    ensures IndexOf(a + [sep] + b, sep) == |a|
  {
    if |a| > 0 {
      assert (a + [sep] + b)[1..] == a[1..] + [sep] + b;
      assert sep !in a[1..];
      IndexOfJoined(a[1..], sep, b);
    }
  }

  /** Splitting the join of separator-free parts gives the parts back. */
  lemma {:induction false} SplitJoin(parts: seq<string>, sep: char)
    requires |parts| > 0
    requires forall i :: 0 <= i < |parts| ==> sep !in parts[i]
    ensures Split(Join(parts, sep), sep) == parts
  {
    if |parts| > 1 {
      var tail := Join(parts[1..], sep);
      var s := parts[0] + [sep] + tail;
      IndexOfJoined(parts[0], sep, tail);
      assert s[|parts[0]| + 1..] == tail;
      assert s[..|parts[0]|] == parts[0];
      assert Split(s, sep) == [parts[0]] + Split(tail, sep);
      SplitJoin(parts[1..], sep);
    }
  }

  // ---------------------------------------------------------------- integers

  function DigitChar(d: nat): char
    requires d < 10
  {
    ['0', '1', '2', '3', '4', '5', '6', '7', '8', '9'][d]
  }

  function DigitValue(c: char): nat
    requires IsDigit(c)
  {
    (c as int - '0' as int) as nat
  }

  /** The value of a string of decimal digits, most significant first. */
  function DecimalValue(s: string): nat
    requires AllDigits(s)
  {
    if |s| == 0 then 0 else DecimalValue(s[..|s| - 1]) * 10 + DigitValue(s[|s| - 1])
  }

  /**
   * The integers a JavaScript number holds exactly (`Number.isSafeInteger`).
   * For them `String(n)` is the plain decimal text and `parseInt` reads it
   * back exactly; larger magnitudes lose digits, and from `1e21` on
   * `String` switches to exponent form.
   */
  type SafeInt = n: int | -0x20_0000_0000_0000 < n < 0x20_0000_0000_0000

  /** The shortest decimal text of a natural number. */
  function NatToString(n: nat): (s: string)
    ensures IsUnsigned(s)
    ensures DecimalValue(s) == n
    ensures |s| > 1 ==> s[0] != '0'
  {
    if n < 10 then
      assert DigitValue(DigitChar(n)) == n;
      [DigitChar(n)]
    else
      var s := NatToString(n / 10) + [DigitChar(n % 10)];
      assert s[..|s| - 1] == NatToString(n / 10);
      assert DigitValue(DigitChar(n % 10)) == n % 10;
      s
  }

  /** `String(n)` for a safe integer. */
  function IntToString(n: SafeInt): string {
    if n < 0 then "-" + NatToString(-n) else NatToString(n)
  }

  /** Number of leading digits of `s`. */
  function DigitRun(s: string): (k: nat)
    ensures k <= |s| && AllDigits(s[..k])
    ensures k < |s| ==> !IsDigit(s[k])
  {
    if |s| > 0 && IsDigit(s[0]) then
      var k := 1 + DigitRun(s[1..]);
      assert s[..k] == [s[0]] + s[1..][..k - 1];
      k
    else 0
  }

  /**
   * `parseInt(s, 10)`: leading white space is skipped, one optional sign
   * is read, then the longest run of digits; `None` stands for `NaN`
   * (no digit at all).
   */
  function ParseInt(s: string): Option<int> {
    var t := TrimStart(s);
    var negative := |t| > 0 && t[0] == '-';
    var u := if |t| > 0 && (t[0] == '-' || t[0] == '+') then t[1..] else t;
    var k := DigitRun(u);
    if k == 0 then None
    else
      var v: int := DecimalValue(u[..k]);
      Some(if negative then -v else v)
  }

  /** `x || d` on the result of `parseInt`: `NaN` and `0` (also `-0`) are falsy. */
  function OrDefault(x: Option<int>, d: int): (r: int)
    ensures r == d || (x.Some? && r == x.value && r != 0)
    ensures x.Some? && x.value != 0 ==> r == x.value
  {
    if x.Some? && x.value != 0 then x.value else d
  }

  lemma ParseIntUnsigned(d: string)
    requires IsUnsigned(d)
    ensures ParseInt(d) == Some(DecimalValue(d) as int)
  {
    assert TrimStart(d) == d by { assert !IsSpace(d[0]); }
    assert DigitRun(d) == |d|;
    assert d[..|d|] == d;
  }

  lemma ParseIntNegative(d: string)
    requires IsUnsigned(d)
    ensures ParseInt("-" + d) == Some(-(DecimalValue(d) as int))
  {
    var s := "-" + d;
    assert TrimStart(s) == s by { assert !IsSpace(s[0]); }
    assert s[1..] == d;
    assert DigitRun(d) == |d|;
    assert d[..|d|] == d;
  }

  /** Reading back the text of an integer gives the integer. */
  lemma ParseIntRoundTrip(n: SafeInt)
    ensures ParseInt(IntToString(n)) == Some(n)
  {
    if n < 0 {
      ParseIntNegative(NatToString(-n));
    } else {
      ParseIntUnsigned(NatToString(n));
    }
  }
}
