/**
 * The identifier normaliser `name2id` (main.js:155-157): three global
 * replaces in a row. Characters the host's naming rules forbid become
 * `_`, then `%` becomes `pct`, then `-` and white space become `_`.
 */
module Ident {
  import opened Js

  /**
   * The host's set of forbidden identifier characters (`FORBIDDEN_CHARS`
   * of the adapter framework). Its contents are not part of this model;
   * all that is assumed is that the characters `name2id` itself writes
   * (`_`, `p`, `c`, `t`) are allowed.
   */
  type Forbidden = f: set<char> | '_' !in f && 'p' !in f && 'c' !in f && 't' !in f witness {}

  /** `.replace(FORBIDDEN_CHARS, '_')`, one character at a time. */
  function ReplaceForbidden(s: string, f: Forbidden): string {
    seq(|s|, i requires 0 <= i < |s| => if s[i] in f then '_' else s[i])
  }

  /** `.replace(/[%]/g, 'pct')` */
  function ReplacePercent(s: string): string {
    if |s| == 0 then ""
    else (if s[0] == '%' then "pct" else [s[0]]) + ReplacePercent(s[1..])
  }

  /** `.replace(/[-\s]/g, '_')` */
  function ReplaceDashSpace(s: string): string {
    seq(|s|, i requires 0 <= i < |s| => if s[i] == '-' || IsSpace(s[i]) then '_' else s[i])
  }

  /** `name2id(pName)` on a string. */
  function Name2Id(name: string, f: Forbidden): string {
    ReplaceDashSpace(ReplacePercent(ReplaceForbidden(name, f)))
  }

  /** A character that may stand in an identifier `name2id` produces. */
  predicate IdChar(c: char, f: Forbidden) {
    c !in f && c != '%' && c != '-' && !IsSpace(c)
  }

  predicate IsId(s: string, f: Forbidden) {
    forall i :: 0 <= i < |s| ==> IdChar(s[i], f)
  }

  // ---------------------------------------------------------------- reference definition

  /** What one input character turns into. */
  function CharImage(c: char, f: Forbidden): (r: string)
    ensures IsId(r, f)
  {
    if c in f then "_"
    else if c == '%' then "pct"
    else if c == '-' || IsSpace(c) then "_"
    else [c]
  }

  /** The normaliser stated character by character: the images of the input characters, in order. */
  function Normalized(s: string, f: Forbidden): string {
    if |s| == 0 then "" else CharImage(s[0], f) + Normalized(s[1..], f)
  }

  lemma {:induction false} NormalizedAppend(a: string, b: string, f: Forbidden)
    ensures Normalized(a + b, f) == Normalized(a, f) + Normalized(b, f)
  {
    if |a| > 0 {
      assert (a + b)[1..] == a[1..] + b;
      NormalizedAppend(a[1..], b, f);
    } else {
      assert a + b == b;
    }
  }

  lemma {:induction false} ReplacePercentAppend(a: string, b: string)
    ensures ReplacePercent(a + b) == ReplacePercent(a) + ReplacePercent(b)
  {
    if |a| > 0 {
      assert (a + b)[1..] == a[1..] + b;
      ReplacePercentAppend(a[1..], b);
    } else {
      assert a + b == b;
    }
  }

  lemma ReplaceForbiddenAppend(a: string, b: string, f: Forbidden)
    ensures ReplaceForbidden(a + b, f) == ReplaceForbidden(a, f) + ReplaceForbidden(b, f)
  {
    assert forall i :: 0 <= i < |a + b| ==> ReplaceForbidden(a + b, f)[i] == (ReplaceForbidden(a, f) + ReplaceForbidden(b, f))[i];
  }

  lemma ReplaceDashSpaceAppend(a: string, b: string)
    ensures ReplaceDashSpace(a + b) == ReplaceDashSpace(a) + ReplaceDashSpace(b)
  {
    assert forall i :: 0 <= i < |a + b| ==> ReplaceDashSpace(a + b)[i] == (ReplaceDashSpace(a) + ReplaceDashSpace(b))[i];
  }

  /** The chained replaces on one character give its image. */
  lemma Name2IdChar(c: char, f: Forbidden)
    ensures Name2Id([c], f) == CharImage(c, f)
  {
    var r := ReplaceForbidden([c], f);
    assert r == [if c in f then '_' else c];
    assert ReplacePercent(r) == if r[0] == '%' then "pct" else r;
  }

  /** The three chained replaces equal the character-by-character definition. */
  lemma {:induction false} Name2IdCharwise(s: string, f: Forbidden)
    ensures Name2Id(s, f) == Normalized(s, f)
  {
    if |s| > 0 {
      assert s == [s[0]] + s[1..];
      Name2IdAppend([s[0]], s[1..], f);
      Name2IdChar(s[0], f);
      Name2IdCharwise(s[1..], f);
    }
  }

  lemma {:induction false} NormalizedIsId(s: string, f: Forbidden)
    ensures IsId(Normalized(s, f), f)
  {
    if |s| > 0 {
      NormalizedIsId(s[1..], f);
      var h, t := CharImage(s[0], f), Normalized(s[1..], f);
      assert forall i :: |h| <= i < |h| + |t| ==> (h + t)[i] == t[i - |h|];
    }
  }

  lemma {:induction false} NormalizedOfId(s: string, f: Forbidden)
    requires IsId(s, f)
    ensures Normalized(s, f) == s
  {
    if |s| > 0 {
      assert IsId(s[1..], f) by {
        forall i | 0 <= i < |s| - 1 ensures IdChar(s[1..][i], f) { assert s[1..][i] == s[i + 1]; }
      }
      NormalizedOfId(s[1..], f);
      assert IdChar(s[0], f);
    }
  }

  // ---------------------------------------------------------------- properties

  /** Total: the empty name gives the empty identifier. */
  lemma Name2IdEmpty(f: Forbidden)
    ensures Name2Id("", f) == ""
  {
  }

  /** The result holds no forbidden character, no `%`, no `-` and no white space. */
  lemma Name2IdClean(s: string, f: Forbidden)
    ensures IsId(Name2Id(s, f), f)
  {
    Name2IdCharwise(s, f);
    NormalizedIsId(s, f);
  }

  /** An identifier is left as it is. */
  lemma Name2IdFixesIds(s: string, f: Forbidden)
    requires IsId(s, f)
    ensures Name2Id(s, f) == s
  {
    Name2IdCharwise(s, f);
    NormalizedOfId(s, f);
  }

  /** Normalising twice is normalising once. */
  lemma Name2IdIdempotent(s: string, f: Forbidden)
    ensures Name2Id(Name2Id(s, f), f) == Name2Id(s, f)
  {
    Name2IdClean(s, f);
    Name2IdFixesIds(Name2Id(s, f), f);
  }

  /** Normalisation distributes over concatenation, so a path can be normalised segment by segment. */
  lemma Name2IdAppend(a: string, b: string, f: Forbidden)
    ensures Name2Id(a + b, f) == Name2Id(a, f) + Name2Id(b, f)
  {
    ReplaceForbiddenAppend(a, b, f);
    ReplacePercentAppend(ReplaceForbidden(a, f), ReplaceForbidden(b, f));
    ReplaceDashSpaceAppend(ReplacePercent(ReplaceForbidden(a, f)), ReplacePercent(ReplaceForbidden(b, f)));
  }

  /** Each character is replaced by at most three: only `%` grows, into `pct`. */
  lemma {:induction false} NormalizedLength(s: string, f: Forbidden)
    ensures |s| <= |Normalized(s, f)| <= 3 * |s|
    ensures (forall i :: 0 <= i < |s| ==> s[i] != '%') ==> |Normalized(s, f)| == |s|
  {
    if |s| > 0 {
      NormalizedLength(s[1..], f);
      assert forall i :: 0 <= i < |s| - 1 ==> s[1..][i] == s[i + 1];
    }
  }
}
