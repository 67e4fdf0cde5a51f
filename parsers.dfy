/**
 * The payload parsers `parseInfo` (main.js:351-372) and `parsePerf`
 * (main.js:384-427), stated as the list of publish requests they make, in
 * the order they make them.
 */
module Parsers {
  import opened Js
  import opened Ident
  import opened Store
  import opened Catalog

  // ---------------------------------------------------------------- numeric test

  /** `/^\d+(\.\d+)?$/.test(s)` */
  function IsNumeric(s: string): bool {
    var k := DigitRun(s);
    k > 0 && (k == |s| || (s[k] == '.' && IsUnsigned(s[k + 1..])))
  }

  /** The pattern `^\d+(\.\d+)?$` read as a language: digits, optionally followed by a dot and more digits. */
  ghost predicate MatchesDecimal(s: string) {
    || IsUnsigned(s)
    || exists i :: 0 < i < |s| && s[i] == '.' && IsUnsigned(s[..i]) && IsUnsigned(s[i + 1..])
  }

  lemma DigitRunStops(s: string, i: nat)
    requires i <= |s| && AllDigits(s[..i])
    requires i < |s| ==> !IsDigit(s[i])
    ensures DigitRun(s) == i
  {
    var k := DigitRun(s);
    assert forall j :: 0 <= j < k ==> s[..k][j] == s[j];
    assert forall j :: 0 <= j < i ==> s[..i][j] == s[j];
  }

  /** The scanner above accepts exactly the strings the pattern describes. */
  lemma IsNumericIff(s: string)
    ensures IsNumeric(s) <==> MatchesDecimal(s)
  {
    if IsNumeric(s) {
      var k := DigitRun(s);
      if k == |s| {
        assert s[..k] == s;
      } else {
        assert 0 < k < |s| && s[k] == '.' && IsUnsigned(s[..k]) && IsUnsigned(s[k + 1..]);
      }
    }
    if MatchesDecimal(s) {
      if IsUnsigned(s) {
        assert s[..|s|] == s;
        DigitRunStops(s, |s|);
      } else {
        var i :| 0 < i < |s| && s[i] == '.' && IsUnsigned(s[..i]) && IsUnsigned(s[i + 1..]);
        DigitRunStops(s, i);
      }
    }
  }

  function ValueTypeOf(v: string): ValueType {
    if IsNumeric(v) then NumberType else StringType
  }

  // ---------------------------------------------------------------- parseInfo

  const InfoNameCommon := Common("client name", StringType, "info.name", [])
  const InfoVersionCommon := Common("client version", StringType, "info.version", [])

  /** `parseInfo`: the client's name and version as two string states below `<id>.info`. */
  function InfoPublishes(id: string, b: Body): seq<Publish> {
    [ Leaf(id + ".info.name", StrVal(b.name), 0, InfoNameCommon),
      Leaf(id + ".info.version", StrVal(b.version), 0, InfoVersionCommon) ]
  }

  /** `parseInfo` makes exactly two requests, both string leaves, and writes name then version. */
  lemma InfoLeaves(id: string, b: Body)
    ensures var ps := InfoPublishes(id, b);
      && (forall p :: p in ps ==> p.Leaf? && p.common.vtype == StringType && p.q == 0)
      && LeafWrites(ps) == [(id + ".info.name", StrVal(b.name), true, 0), (id + ".info.version", StrVal(b.version), true, 0)]
  {
    var ps := InfoPublishes(id, b);
    assert ps == [ps[0]] + [ps[1]];
    LeafWritesAppend([ps[0]], [ps[1]]);
    assert [ps[0]][..0] == [] && [ps[1]][..0] == [];
  }

  // ---------------------------------------------------------------- parsePerf

  const SeverityLabels: seq<string> := ["ok", "warning", "error", "delayed"]
  const ResultCommon := Common("result", NumberType, "value.severity", SeverityLabels)
  const MessageCommon := Common("message", StringType, "text", [])

  function FieldCommon(fd: PerfField): Common {
    Common(fd.name, ValueTypeOf(fd.value), "value", [])
  }

  /** `baseId`: the folder of one check's results. */
  function PerfBase(id: string, b: Body, f: Forbidden): string {
    Name2Id(id + "." + b.command, f)
  }

  function GroupId(base: string, key: string, f: Forbidden): string {
    Name2Id(base + ".perf" + "." + key, f)
  }

  function FieldId(base: string, key: string, field: string, f: Forbidden): string {
    Name2Id(base + ".perf" + "." + key + "." + field, f)
  }

  function FieldLeaf(base: string, key: string, fd: PerfField, f: Forbidden): Publish {
    Leaf(FieldId(base, key, fd.name, f), StrVal(fd.value), 0, FieldCommon(fd))
  }

  /** The inner loop of `parsePerf`: one leaf per field of a counter. */
  function FieldsPublishes(base: string, key: string, fs: seq<PerfField>, f: Forbidden): seq<Publish>
    decreases |fs|
  {
    if |fs| == 0 then []
    else FieldsPublishes(base, key, fs[..|fs| - 1], f) + [FieldLeaf(base, key, fs[|fs| - 1], f)]
  }

  /** One pass of the outer loop of `parsePerf`: the counter's folder, then its fields. */
  function GroupPublishes(base: string, g: PerfGroup, f: Forbidden): seq<Publish> {
    [Folder(GroupId(base, g.key, f), "")] + FieldsPublishes(base, g.key, g.fields, f)
  }

  /** The outer loop of `parsePerf`. */
  function GroupsPublishes(base: string, gs: seq<PerfGroup>, f: Forbidden): seq<Publish>
    decreases |gs|
  {
    if |gs| == 0 then []
    else GroupsPublishes(base, gs[..|gs| - 1], f) + GroupPublishes(base, gs[|gs| - 1], f)
  }

  /** What `parsePerf` publishes before its loops, once `lines[0]` exists. */
  function PerfHead(id: string, b: Body, f: Forbidden): seq<Publish>
    requires |b.lines| > 0
  {
    var base := PerfBase(id, b, f);
    [ Folder(base, ""),
      Leaf(base + ".result", NumVal(b.result), 0, ResultCommon),
      Leaf(base + ".message", StrVal(b.lines[0].message), 0, MessageCommon),
      Folder(base + ".perf", "") ]
  }

  /**
   * `parsePerf`. Only the first result line is read. Without any line,
   * reading `lines[0].message` throws after the folder and the result have
   * been published, so the list stops there.
   */
  function PerfPublishes(id: string, b: Body, f: Forbidden): seq<Publish> {
    var base := PerfBase(id, b, f);
    if |b.lines| == 0 then
      [Folder(base, ""), Leaf(base + ".result", NumVal(b.result), 0, ResultCommon)]
    else
      PerfHead(id, b, f) + GroupsPublishes(base, b.lines[0].perf, f)
  }

  // ---------------------------------------------------------------- properties of parsePerf

  lemma {:induction false} FieldsContain(base: string, key: string, fs: seq<PerfField>, j: nat, f: Forbidden)
    requires j < |fs|
    ensures FieldLeaf(base, key, fs[j], f) in FieldsPublishes(base, key, fs, f)
    decreases |fs|
  {
    if j < |fs| - 1 {
      FieldsContain(base, key, fs[..|fs| - 1], j, f);
    }
  }

  lemma {:induction false} GroupsContain(base: string, gs: seq<PerfGroup>, i: nat, j: nat, f: Forbidden)
    requires i < |gs| && j < |gs[i].fields|
    ensures FieldLeaf(base, gs[i].key, gs[i].fields[j], f) in GroupsPublishes(base, gs, f)
    decreases |gs|
  {
    if i < |gs| - 1 {
      GroupsContain(base, gs[..|gs| - 1], i, j, f);
    } else {
      FieldsContain(base, gs[i].key, gs[i].fields, j, f);
    }
  }

  lemma {:induction false} FieldsOnly(base: string, key: string, fs: seq<PerfField>, p: Publish, f: Forbidden)
    requires p in FieldsPublishes(base, key, fs, f)
    ensures exists j :: 0 <= j < |fs| && p == FieldLeaf(base, key, fs[j], f)
    decreases |fs|
  {
    var n := |fs|;
    if p != FieldLeaf(base, key, fs[n - 1], f) {
      FieldsOnly(base, key, fs[..n - 1], p, f);
      var j :| 0 <= j < n - 1 && p == FieldLeaf(base, key, fs[..n - 1][j], f);
      assert fs[..n - 1][j] == fs[j];
    }
  }

  lemma {:induction false} GroupsOnly(base: string, gs: seq<PerfGroup>, p: Publish, f: Forbidden)
    requires p in GroupsPublishes(base, gs, f) && p.Leaf?
    ensures exists i, j :: 0 <= i < |gs| && 0 <= j < |gs[i].fields| && p == FieldLeaf(base, gs[i].key, gs[i].fields[j], f)
    decreases |gs|
  {
    var n := |gs|;
    if p in GroupsPublishes(base, gs[..n - 1], f) {
      GroupsOnly(base, gs[..n - 1], p, f);
      var i, j :| 0 <= i < n - 1 && 0 <= j < |gs[..n - 1][i].fields| && p == FieldLeaf(base, gs[..n - 1][i].key, gs[..n - 1][i].fields[j], f);
      assert gs[..n - 1][i] == gs[i];
    } else {
      var g := gs[n - 1];
      assert p in FieldsPublishes(base, g.key, g.fields, f);
      FieldsOnly(base, g.key, g.fields, p, f);
      var j :| 0 <= j < |g.fields| && p == FieldLeaf(base, g.key, g.fields[j], f);
      assert 0 <= n - 1 < |gs| && 0 <= j < |gs[n - 1].fields| && p == FieldLeaf(base, gs[n - 1].key, gs[n - 1].fields[j], f);
    }
  }

  /**
   * `parsePerf` publishes the severity `result` as a number, the message
   * of the first line as a string, and for each field of each counter of
   * that line one leaf at the normalised path `base.perf.key.field`, with
   * the field's text as its value; and no other leaf.
   */
  lemma PerfLeaves(id: string, b: Body, f: Forbidden)
    requires |b.lines| > 0
    ensures var ps := PerfPublishes(id, b, f);
      var base := PerfBase(id, b, f);
      var perf := b.lines[0].perf;
      && Leaf(base + ".result", NumVal(b.result), 0, ResultCommon) in ps
      && Leaf(base + ".message", StrVal(b.lines[0].message), 0, MessageCommon) in ps
      && (forall i, j :: 0 <= i < |perf| && 0 <= j < |perf[i].fields| ==>
            FieldLeaf(base, perf[i].key, perf[i].fields[j], f) in ps)
      && (forall p :: p in ps && p.Leaf? ==>
            || p == Leaf(base + ".result", NumVal(b.result), 0, ResultCommon)
            || p == Leaf(base + ".message", StrVal(b.lines[0].message), 0, MessageCommon)
            || exists i, j :: 0 <= i < |perf| && 0 <= j < |perf[i].fields| && p == FieldLeaf(base, perf[i].key, perf[i].fields[j], f))
  {
    var ps := PerfPublishes(id, b, f);
    var base := PerfBase(id, b, f);
    var perf := b.lines[0].perf;
    var head := PerfHead(id, b, f);
    forall i, j | 0 <= i < |perf| && 0 <= j < |perf[i].fields|
      ensures FieldLeaf(base, perf[i].key, perf[i].fields[j], f) in ps
    {
      GroupsContain(base, perf, i, j, f);
    }
    forall p | p in ps && p.Leaf?
      ensures || p == Leaf(base + ".result", NumVal(b.result), 0, ResultCommon)
              || p == Leaf(base + ".message", StrVal(b.lines[0].message), 0, MessageCommon)
              || exists i, j :: 0 <= i < |perf| && 0 <= j < |perf[i].fields| && p == FieldLeaf(base, perf[i].key, perf[i].fields[j], f)
    {
      if p !in head {
        GroupsOnly(base, perf, p, f);
      }
    }
  }

  /** A field is declared numeric exactly when its text matches `^\d+(\.\d+)?$`. */
  lemma FieldTyping(base: string, key: string, fd: PerfField, f: Forbidden)
    ensures FieldLeaf(base, key, fd, f).common.vtype == NumberType <==> MatchesDecimal(fd.value)
    ensures FieldLeaf(base, key, fd, f).common.vtype == StringType <==> !MatchesDecimal(fd.value)
  {
    IsNumericIff(fd.value);
  }

  /** Lines after the first are never read. */
  lemma PerfFirstLineOnly(id: string, b: Body, f: Forbidden)
    ensures PerfPublishes(id, b, f) == PerfPublishes(id, b.(lines := if |b.lines| == 0 then [] else [b.lines[0]]), f)
  {
  }

  /** Without a result line only the folder and the severity are published. */
  lemma PerfWithoutLines(id: string, b: Body, f: Forbidden)
    requires |b.lines| == 0
    ensures LeafWrites(PerfPublishes(id, b, f)) == [(PerfBase(id, b, f) + ".result", NumVal(b.result), true, 0)]
  {
    var ps := PerfPublishes(id, b, f);
    assert ps == [ps[0]] + [ps[1]];
    LeafWritesAppend([ps[0]], [ps[1]]);
    assert [ps[0]][..0] == [] && [ps[1]][..0] == [];
  }

  /**
   * When `.` and the letters of `perf` are allowed characters, a check's
   * folder sits directly below the device, and each field leaf below its
   * counter, with every segment normalised on its own.
   */
  lemma PerfPaths(id: string, b: Body, key: string, field: string, f: Forbidden)
    requires IsId(".perf", f) && IsId(id, f)
    ensures PerfBase(id, b, f) == id + "." + Name2Id(b.command, f)
    ensures FieldId(PerfBase(id, b, f), key, field, f)
         == PerfBase(id, b, f) + ".perf." + Name2Id(key, f) + "." + Name2Id(field, f)
  {
    var base := PerfBase(id, b, f);
    assert IsId(".", f) by { assert ".perf"[0] == '.'; }
    Name2IdFixesIds(".", f);
    Name2IdFixesIds(".perf", f);
    Name2IdAppend(id + ".", b.command, f);
    Name2IdAppend(id, ".", f);
    Name2IdFixesIds(id, f);
    Name2IdClean(id + "." + b.command, f);
    Name2IdFixesIds(base, f);
    var s := base + ".perf" + "." + key + "." + field;
    Name2IdAppend(base + ".perf" + "." + key + ".", field, f);
    Name2IdAppend(base + ".perf" + "." + key, ".", f);
    Name2IdAppend(base + ".perf" + ".", key, f);
    Name2IdAppend(base + ".perf", ".", f);
    Name2IdAppend(base, ".perf", f);
  }

  /** The writes of the part of `parsePerf` before its loops: `result`, then `message`. */
  lemma HeadWrites(id: string, b: Body, f: Forbidden)
    requires |b.lines| > 0
    ensures var base := PerfBase(id, b, f);
      LeafWrites(PerfHead(id, b, f)) ==
        [(base + ".result", NumVal(b.result), true, 0), (base + ".message", StrVal(b.lines[0].message), true, 0)]
  {
    var head := PerfHead(id, b, f);
    assert head == [head[0]] + [head[1]] + [head[2]] + [head[3]];
    LeafWritesAppend([head[0]] + [head[1]] + [head[2]], [head[3]]);
    LeafWritesAppend([head[0]] + [head[1]], [head[2]]);
    LeafWritesAppend([head[0]], [head[1]]);
  }

  /** The loops of `parsePerf` on one counter with one field: its folder, then its leaf. */
  lemma OneFieldLoops(base: string, g: PerfGroup, f: Forbidden)
    requires |g.fields| == 1
    ensures GroupsPublishes(base, [g], f) == [Folder(GroupId(base, g.key, f), ""), FieldLeaf(base, g.key, g.fields[0], f)]
  {
    assert FieldsPublishes(base, g.key, g.fields, f) == [FieldLeaf(base, g.key, g.fields[0], f)] by {
      assert g.fields[..0] == [];
    }
    assert GroupsPublishes(base, [g], f) == GroupPublishes(base, g, f) by {
      assert [g][..0] == [];
    }
  }

  /** The worked example of a CPU check with one counter. */
  lemma CpuExample(id: string, f: Forbidden)
    ensures var b := Body("", "", "check_cpu", 1, [Line("high load", [PerfGroup("cpu", [PerfField("load", "85")])])]);
      var base := PerfBase(id, b, f);
      LeafWrites(PerfPublishes(id, b, f)) ==
        [ (base + ".result", NumVal(1), true, 0),
          (base + ".message", StrVal("high load"), true, 0),
          (FieldId(base, "cpu", "load", f), StrVal("85"), true, 0) ]
      && FieldLeaf(base, "cpu", PerfField("load", "85"), f).common.vtype == NumberType
  {
    var g := PerfGroup("cpu", [PerfField("load", "85")]);
    var b := Body("", "", "check_cpu", 1, [Line("high load", [g])]);
    var base := PerfBase(id, b, f);
    assert DigitRun("85") == 2;
    var head, loops := PerfHead(id, b, f), GroupsPublishes(base, [g], f);
    assert PerfPublishes(id, b, f) == head + loops;
    HeadWrites(id, b, f);
    OneFieldLoops(base, g, f);
    assert loops == [loops[0]] + [loops[1]];
    LeafWritesAppend(head, loops);
    LeafWritesAppend([loops[0]], [loops[1]]);
  }

  // ---------------------------------------------------------------- order of the publications of parsePerf

  /** The folder `id` is published at `k`, before `p` at `m`. */
  predicate FolderBefore(ps: seq<Publish>, k: int, m: int, id: string, p: Publish) {
    0 <= k < m < |ps| && ps[k] == Folder(id, "") && ps[m] == p
  }

  /** The folder of counter `g` is published before the leaf of its field `fd`. */
  predicate LeafUnderFolder(ps: seq<Publish>, base: string, g: PerfGroup, fd: PerfField, f: Forbidden) {
    exists k, m :: 0 <= k < m < |ps| && FolderBefore(ps, k, m, GroupId(base, g.key, f), FieldLeaf(base, g.key, fd, f))
  }

  /** Every counter's folder is published before each leaf of that counter. */
  predicate CounterFoldersFirst(ps: seq<Publish>, base: string, perf: seq<PerfGroup>, f: Forbidden) {
    forall i, j :: 0 <= i < |perf| && 0 <= j < |perf[i].fields| ==> LeafUnderFolder(ps, base, perf[i], perf[i].fields[j], f)
  }

  lemma PrefixGrows<T>(a: seq<T>, b: seq<T>, c: seq<T>)
    requires a <= b
    ensures a <= b + c
  {
    assert forall n :: 0 <= n < |a| ==> (b + c)[n] == b[n];
  }

  /** Where `a + b` begins `xs`, `xs` holds `b` from index `|a|` on. */
  lemma SliceAt<T>(xs: seq<T>, a: seq<T>, b: seq<T>, n: nat)
    requires a + b <= xs && n < |b|
    ensures |a| + n < |xs| && xs[|a| + n] == b[n]
  {
    assert (a + b)[|a| + n] == b[n];
  }

  lemma {:induction false} FieldsAt(base: string, key: string, fs: seq<PerfField>, f: Forbidden)
    ensures |FieldsPublishes(base, key, fs, f)| == |fs|
    ensures forall j :: 0 <= j < |fs| ==> FieldsPublishes(base, key, fs, f)[j] == FieldLeaf(base, key, fs[j], f)
    decreases |fs|
  {
    if |fs| > 0 {
      var n := |fs| - 1;
      FieldsAt(base, key, fs[..n], f);
      assert forall j :: 0 <= j < n ==> fs[..n][j] == fs[j];
    }
  }

  /** One more counter appends that counter's folder and leaves. */
  lemma GroupsUpTo(base: string, gs: seq<PerfGroup>, i: nat, f: Forbidden)
    requires i < |gs|
    ensures GroupsPublishes(base, gs[..i + 1], f) == GroupsPublishes(base, gs[..i], f) + GroupPublishes(base, gs[i], f)
  {
    assert gs[..i + 1][..i] == gs[..i];
  }

  /** The publications for the first `n` counters come first. */
  lemma {:induction false} GroupsPrefix(base: string, gs: seq<PerfGroup>, n: nat, f: Forbidden)
    requires n <= |gs|
    ensures GroupsPublishes(base, gs[..n], f) <= GroupsPublishes(base, gs, f)
    decreases |gs|
  {
    if n < |gs| {
      var m := |gs| - 1;
      GroupsPrefix(base, gs[..m], n, f);
      assert gs[..m][..n] == gs[..n];
      assert gs[..m + 1] == gs;
      GroupsUpTo(base, gs, m, f);
      PrefixGrows(GroupsPublishes(base, gs[..n], f), GroupsPublishes(base, gs[..m], f), GroupPublishes(base, gs[m], f));
    } else {
      assert gs[..n] == gs;
    }
  }

  /** One pass of the outer loop: the counter's folder, then the leaf of each field at its own index. */
  lemma GroupAt(base: string, g: PerfGroup, j: nat, f: Forbidden)
    requires j < |g.fields|
    ensures |GroupPublishes(base, g, f)| == 1 + |g.fields|
    ensures GroupPublishes(base, g, f)[0] == Folder(GroupId(base, g.key, f), "")
    ensures GroupPublishes(base, g, f)[1 + j] == FieldLeaf(base, g.key, g.fields[j], f)
  {
    FieldsAt(base, g.key, g.fields, f);
  }

  /** Within the loops, each counter's folder precedes each of its leaves. */
  lemma GroupFolderFirst(base: string, gs: seq<PerfGroup>, i: nat, j: nat, f: Forbidden) returns (k: nat, m: nat)
    requires i < |gs| && j < |gs[i].fields|
    ensures FolderBefore(GroupsPublishes(base, gs, f), k, m, GroupId(base, gs[i].key, f), FieldLeaf(base, gs[i].key, gs[i].fields[j], f))
  {
    var before := GroupsPublishes(base, gs[..i], f);
    var mine := GroupPublishes(base, gs[i], f);
    var all := GroupsPublishes(base, gs, f);
    GroupsPrefix(base, gs, i + 1, f);
    GroupsUpTo(base, gs, i, f);
    GroupAt(base, gs[i], j, f);
    SliceAt(all, before, mine, 0);
    SliceAt(all, before, mine, 1 + j);
    k, m := |before|, |before| + 1 + j;
  }

  /**
   * `parsePerf` declares every folder before the states below it: the
   * check's folder first, its `perf` folder fourth, and each counter's
   * folder before every leaf of that counter.
   */
  lemma PerfFoldersFirst(id: string, b: Body, f: Forbidden)
    requires |b.lines| > 0
    ensures var ps := PerfPublishes(id, b, f);
      var base := PerfBase(id, b, f);
      var perf := b.lines[0].perf;
      && |ps| >= 4
      && ps[0] == Folder(base, "")
      && ps[3] == Folder(base + ".perf", "")
      && CounterFoldersFirst(ps, base, perf, f)
  {
    var ps := PerfPublishes(id, b, f);
    var base := PerfBase(id, b, f);
    var perf := b.lines[0].perf;
    var head, loops := PerfHead(id, b, f), GroupsPublishes(base, perf, f);
    assert ps == head + loops && |head| == 4;
    forall i, j | 0 <= i < |perf| && 0 <= j < |perf[i].fields|
      ensures LeafUnderFolder(ps, base, perf[i], perf[i].fields[j], f)
    {
      var k, m := GroupFolderFirst(base, perf, i, j, f);
      SliceAt(ps, head, loops, k);
      SliceAt(ps, head, loops, m);
      assert FolderBefore(ps, 4 + k, 4 + m, GroupId(base, perf[i].key, f), FieldLeaf(base, perf[i].key, perf[i].fields[j], f));
    }
  }
}
