/**
 * The device list of the adapter configuration and its check, `validateConfig`
 * (main.js:637-728): names and addresses are tested, timeout and poll
 * interval are clamped in place, and a single verdict is returned.
 */
module Config {
  import opened Js
  import opened Ident

  /**
   * A timing field of the configuration. The admin page may store it as
   * text or as a number; `validateConfig` replaces it by a number of
   * seconds. Both tests of `validateConfig` read the field through
   * `String`, so a stored number that is not a safe integer (a fraction,
   * or a magnitude of 2^53 or more) is written here as the `Text` of its
   * `String` form.
   */
  datatype Timing = Text(s: string) | Secs(n: SafeInt)

  /** `String(t)`, as seen by a regular-expression test. */
  function TimingText(t: Timing): string {
    match t
    case Text(s) => s
    case Secs(n) => IntToString(n)
  }

  /** One entry of `adapter.config.devs`; a missing member reads as `""` or `false`. */
  datatype DevConfig = DevConfig(
    devAct: bool,
    devName: string,
    devIpAddr: string,
    devUser: string,
    devPwd: string,
    devTimeout: Timing,
    devPollIntvl: Timing,
    devChkCpu: bool,
    devChkMem: bool,
    devChkDrives: bool)

  // ---------------------------------------------------------------- clamping

  const MinTimeout := 1
  const MaxTimeout := 600
  const DefaultTimeout := 5
  const MinPoll := 5
  const MaxPoll := 3600
  const DefaultPoll := 30

  /** `parseInt(devTimeout, 10) || 5`, then cut into `[1, 600]`. */
  function ClampTimeout(t: Timing): (n: int)
    ensures MinTimeout <= n <= MaxTimeout
    ensures var p := ParseInt(TimingText(t));
      p.Some? && MinTimeout <= p.value <= MaxTimeout ==> n == p.value
    ensures ParseInt(TimingText(t)).None? ==> n == DefaultTimeout
  {
    var v := OrDefault(ParseInt(TimingText(t)), DefaultTimeout);
    if v > MaxTimeout then MaxTimeout else if v < MinTimeout then MinTimeout else v
  }

  /**
   * `parseInt(devPollIntvl, 10) || 30`, cut into `[5, 3600]`, then raised
   * to one second above the timeout when it is not larger.
   */
  function ClampPoll(t: Timing, timeout: int): (n: int)
    ensures n > timeout && n >= MinPoll
    ensures n <= MaxPoll || n == timeout + 1
    ensures var p := ParseInt(TimingText(t));
      p.Some? && MinPoll <= p.value <= MaxPoll && p.value > timeout ==> n == p.value
  {
    var v := OrDefault(ParseInt(TimingText(t)), DefaultPoll);
    var w := if v > MaxPoll then MaxPoll else if v < MinPoll then MinPoll else v;
    if w <= timeout then timeout + 1 else w
  }

  /** What one pass of the loop leaves in the entry: an active device gets trimmed texts and clamped timings. */
  function NormalizeDev(d: DevConfig): DevConfig {
    if !d.devAct then d
    else
      var t := ClampTimeout(d.devTimeout);
      d.(devName := Trim(d.devName), devIpAddr := Trim(d.devIpAddr),
         devTimeout := Secs(t), devPollIntvl := Secs(ClampPoll(d.devPollIntvl, t)))
  }

  /** The timings an active entry carries after normalisation. */
  predicate TimingsInRange(d: DevConfig) {
    && d.devTimeout.Secs? && d.devPollIntvl.Secs?
    && MinTimeout <= d.devTimeout.n <= MaxTimeout
    && MinPoll <= d.devPollIntvl.n <= MaxPoll
    && d.devPollIntvl.n > d.devTimeout.n
  }

  /** Every active device leaves with `1 <= timeout <= 600`, `5 <= poll <= 3600` and `poll > timeout`, whatever the verdict. */
  lemma NormalizeBounds(d: DevConfig)
    requires d.devAct
    ensures TimingsInRange(NormalizeDev(d))
  {
    var t := ClampTimeout(d.devTimeout);
    assert ClampPoll(d.devPollIntvl, t) <= MaxPoll;
  }

  lemma ClampTimeoutFixed(n: int)
    requires MinTimeout <= n <= MaxTimeout
    ensures ClampTimeout(Secs(n)) == n
  {
    ParseIntRoundTrip(n);
  }

  /** Normalising an entry a second time changes nothing. */
  lemma NormalizeIdempotent(d: DevConfig)
    ensures NormalizeDev(NormalizeDev(d)) == NormalizeDev(d)
  {
    if d.devAct {
      var e := NormalizeDev(d);
      NormalizeBounds(d);
      ClampTimeoutFixed(e.devTimeout.n);
      ParseIntRoundTrip(e.devPollIntvl.n);
      TrimIdempotent(d.devName);
      TrimIdempotent(d.devIpAddr);
    }
  }

  lemma TrimIdempotent(s: string)
    ensures Trim(Trim(s)) == Trim(s)
  {
    TrimShape(s);
    TrimUntouched(Trim(s));
  }

  // ---------------------------------------------------------------- name and address tests

  /** `name.endsWith('.')` */
  predicate EndsWithDot(name: string) {
    |name| > 0 && name[|name| - 1] == '.'
  }

  /** `name.includes('..')` */
  predicate HasDoubleDot(name: string) {
    |name| >= 2 && ((name[0] == '.' && name[1] == '.') || HasDoubleDot(name[1..]))
  }

  predicate NameOk(name: string) {
    !EndsWithDot(name) && !HasDoubleDot(name)
  }

  /** `[a-zA-Z0-9.-]` */
  predicate HostChar(c: char) {
    ('a' <= c <= 'z') || ('A' <= c <= 'Z') || IsDigit(c) || c == '.' || c == '-'
  }

  /** `X(:\d+)?$` after a host part `X` free of `:`: the host is what precedes the first `:`. */
  predicate PortTail(s: string) {
    var k := IndexOf(s, ':');
    k == |s| || IsUnsigned(s[k + 1..])
  }

  /** `/^\d+\.\d+\.\d+\.\d+(:\d+)?$/.test(s)` */
  predicate IsIpv4(s: string) {
    var host := Split(s[..IndexOf(s, ':')], '.');
    && |host| == 4
    && (forall i :: 0 <= i < 4 ==> IsUnsigned(host[i]))
    && PortTail(s)
  }

  /** `/^[a-zA-Z0-9.-]+(:\d+)?$/.test(s)` */
  predicate IsDomain(s: string) {
    var k := IndexOf(s, ':');
    && k > 0
    && (forall i :: 0 <= i < k ==> HostChar(s[i]))
    && PortTail(s)
  }

  predicate AddressOk(s: string) {
    IsIpv4(s) || IsDomain(s)
  }

  lemma {:induction false} JoinHostChars(parts: seq<string>)
    requires |parts| > 0
    requires forall i :: 0 <= i < |parts| ==> AllDigits(parts[i])
    ensures forall j :: 0 <= j < |Join(parts, '.')| ==> HostChar(Join(parts, '.')[j])
  {
    if |parts| > 1 {
      JoinHostChars(parts[1..]);
      var a, b := parts[0] + ['.'], Join(parts[1..], '.');
      assert Join(parts, '.') == a + b;
      assert forall j :: |a| <= j < |a| + |b| ==> (a + b)[j] == b[j - |a|];
    }
  }

  /** Every IPv4 literal also passes the domain test, so an address is accepted exactly when it passes the domain test. */
  lemma AddressIsDomain(s: string)
    ensures AddressOk(s) <==> IsDomain(s)
  {
    if IsIpv4(s) {
      var k := IndexOf(s, ':');
      var host := Split(s[..k], '.');
      JoinHostChars(host);
      assert forall i :: 0 <= i < k ==> s[..k][i] == s[i];
      assert |host[0]| > 0;
      assert |Join(host, '.')| >= |host[0]|;
    }
  }

  // ---------------------------------------------------------------- the verdict

  /** The tests of one active entry that do not look at the other entries. */
  predicate DeviceOk(d: DevConfig) {
    && NameOk(Trim(d.devName))
    && AddressOk(Trim(d.devIpAddr))
    && IsUnsigned(TimingText(d.devTimeout))
    && IsUnsigned(TimingText(d.devPollIntvl))
  }

  /** The trimmed names of the active entries. */
  function ActiveNames(ds: seq<DevConfig>): set<string>
    decreases |ds|
  {
    if |ds| == 0 then {}
    else ActiveNames(ds[..|ds| - 1]) + (if ds[|ds| - 1].devAct then {Trim(ds[|ds| - 1].devName)} else {})
  }

  lemma ActiveNamesSnoc(ds: seq<DevConfig>, i: nat)
    requires i < |ds|
    ensures ActiveNames(ds[..i + 1]) == ActiveNames(ds[..i]) + (if ds[i].devAct then {Trim(ds[i].devName)} else {})
  {
    assert ds[..i + 1][..i] == ds[..i];
  }

  /** A name was seen exactly when some active entry carries it. */
  lemma {:induction false} ActiveNamesHas(ds: seq<DevConfig>, i: nat)
    requires i < |ds| && ds[i].devAct
    ensures Trim(ds[i].devName) in ActiveNames(ds)
    decreases |ds|
  {
    if i < |ds| - 1 {
      assert ds[..|ds| - 1][i] == ds[i];
      ActiveNamesHas(ds[..|ds| - 1], i);
    }
  }

  lemma {:induction false} ActiveNamesFrom(ds: seq<DevConfig>, name: string) returns (i: nat)
    requires name in ActiveNames(ds)
    ensures i < |ds| && ds[i].devAct && Trim(ds[i].devName) == name
    decreases |ds|
  {
    var n := |ds| - 1;
    if name in ActiveNames(ds[..n]) {
      i := ActiveNamesFrom(ds[..n], name);
      assert ds[..n][i] == ds[i];
    } else {
      i := n;
    }
  }

  /** The entry at `i` is active and its trimmed name was used by an earlier active entry. */
  predicate Duplicate(ds: seq<DevConfig>, i: nat)
    requires i < |ds|
  {
    ds[i].devAct && Trim(ds[i].devName) in ActiveNames(ds[..i])
  }

  /** The entry at `i` passes: it is inactive, or well formed and not a duplicate. */
  predicate EntryOk(ds: seq<DevConfig>, i: nat)
    requires i < |ds|
  {
    ds[i].devAct ==> DeviceOk(ds[i]) && !Duplicate(ds, i)
  }

  /** The verdict of `validateConfig`: the list is not empty and every entry passes. */
  predicate ConfigValid(ds: seq<DevConfig>) {
    && |ds| > 0
    && forall i :: 0 <= i < |ds| ==> EntryOk(ds, i)
  }

  /** An accepted list is not empty, and its active entries carry pairwise distinct trimmed names. */
  lemma ValidNamesDistinct(ds: seq<DevConfig>, i: nat, j: nat)
    requires ConfigValid(ds)
    requires i < j < |ds| && ds[i].devAct && ds[j].devAct
    ensures Trim(ds[i].devName) != Trim(ds[j].devName)
  {
    assert EntryOk(ds, j);
    ActiveNamesHas(ds[..j], i);
  }

  /** An active entry that repeats the trimmed name of an earlier active entry rejects the list. */
  lemma RejectedWhenDuplicate(ds: seq<DevConfig>, i: nat, j: nat)
    requires i < j < |ds| && ds[i].devAct && ds[j].devAct
    requires Trim(ds[i].devName) == Trim(ds[j].devName)
    ensures !ConfigValid(ds)
  {
    ActiveNamesHas(ds[..j], i);
    assert !EntryOk(ds, j);
  }

  /** An active entry that fails a test of its own rejects the list, wherever it stands. */
  lemma RejectedWhenBad(ds: seq<DevConfig>, j: nat)
    requires j < |ds| && ds[j].devAct && !DeviceOk(ds[j])
    ensures !ConfigValid(ds)
  {
    assert !EntryOk(ds, j);
  }

  /** Inactive entries are neither tested nor changed. */
  lemma InactiveIgnored(ds: seq<DevConfig>, d: DevConfig)
    requires |ds| > 0 && !d.devAct
    ensures ConfigValid(ds + [d]) == ConfigValid(ds)
    ensures NormalizeDev(d) == d
  {
    var e := ds + [d];
    forall i | 0 <= i < |ds|
      ensures EntryOk(e, i) == EntryOk(ds, i)
    {
      assert e[..i] == ds[..i];
    }
    assert EntryOk(e, |ds|);
  }

  /** Any single well-formed active device is accepted. */
  lemma SingleDeviceAccepted(d: DevConfig)
    requires d.devAct && DeviceOk(d)
    ensures ConfigValid([d])
  {
    assert [d][..0] == [];
    assert EntryOk([d], 0);
  }

  /** Two well-formed active devices are accepted together exactly when their trimmed names differ. */
  lemma PairAccepted(a: DevConfig, b: DevConfig)
    requires a.devAct && b.devAct && DeviceOk(a) && DeviceOk(b)
    ensures ConfigValid([a, b]) <==> Trim(a.devName) != Trim(b.devName)
  {
    var ds := [a, b];
    assert ds[..0] == [] && ds[..1] == [a];
    assert ActiveNames([a]) == {Trim(a.devName)} by { assert [a][..0] == []; }
    assert EntryOk(ds, 0);
    if Trim(a.devName) != Trim(b.devName) {
      assert EntryOk(ds, 1);
    } else {
      RejectedWhenDuplicate(ds, 0, 1);
    }
  }

  lemma {:induction false} NoDotNoDoubleDot(name: string)
    requires '.' !in name
    ensures !HasDoubleDot(name)
  {
    if |name| >= 2 {
      assert name[0] in name;
      assert '.' !in name[1..];
      NoDotNoDoubleDot(name[1..]);
    }
  }

  /** The tests a device passes when its texts need no trimming, hold no dot in the name and no colon in the address. */
  lemma PlainDevice(d: DevConfig)
    requires d.devAct && '.' !in d.devName && ':' !in d.devIpAddr
    requires |d.devName| > 0 ==> !IsSpace(d.devName[0]) && !IsSpace(d.devName[|d.devName| - 1])
    requires |d.devIpAddr| > 0 && forall i :: 0 <= i < |d.devIpAddr| ==> HostChar(d.devIpAddr[i])
    requires IsUnsigned(TimingText(d.devTimeout)) && IsUnsigned(TimingText(d.devPollIntvl))
    ensures Trim(d.devName) == d.devName && Trim(d.devIpAddr) == d.devIpAddr
    ensures DeviceOk(d)
  {
    TrimUntouched(d.devName);
    TrimUntouched(d.devIpAddr);
    NoDotNoDoubleDot(d.devName);
    assert !EndsWithDot(d.devName) by {
      if |d.devName| > 0 { assert d.devName[|d.devName| - 1] in d.devName; }
    }
    assert IsDomain(d.devIpAddr);
  }

  /**
   * Uniqueness is decided on the trimmed name, not on the identifier the
   * name becomes: `Srv-1` and `Srv 1` are accepted together and share one
   * identifier.
   */
  lemma NamesCollideAfterNormalising(f: Forbidden)
    ensures var a := DevConfig(true, "Srv-1", "host1", "", "", Text("5"), Text("30"), true, false, false);
      var b := a.(devName := "Srv 1");
      ConfigValid([a, b]) && Trim(a.devName) != Trim(b.devName)
      && Name2Id(Trim(a.devName), f) == Name2Id(Trim(b.devName), f)
  {
    var a := DevConfig(true, "Srv-1", "host1", "", "", Text("5"), Text("30"), true, false, false);
    var b := a.(devName := "Srv 1");
    PlainDevice(a);
    PlainDevice(b);
    PairAccepted(a, b);
    SrvIdsCollide(f);
  }

  lemma SrvIdsCollide(f: Forbidden)
    ensures Name2Id("Srv-1", f) == Name2Id("Srv 1", f)
  {
    assert "Srv-1" == "Srv" + "-" + "1" && "Srv 1" == "Srv" + " " + "1";
    DashAndSpaceCollide("Srv", "1", f);
  }

  /** A dash and a space at the same place in a name give the same identifier. */
  lemma DashAndSpaceCollide(x: string, y: string, f: Forbidden)
    ensures Name2Id(x + "-" + y, f) == Name2Id(x + " " + y, f)
  {
    Name2IdAppend(x + "-", y, f);
    Name2IdAppend(x, "-", f);
    Name2IdAppend(x + " ", y, f);
    Name2IdAppend(x, " ", f);
    Name2IdChar('-', f);
    Name2IdChar(' ', f);
  }

  // ---------------------------------------------------------------- the duplicate lookup as written

  /**
   * The keys a fresh JavaScript object `{}` answers with a truthy value
   * before anything was stored in it: the members it inherits from
   * `Object.prototype`.
   */
  const InheritedKeys: set<string> := {
    "constructor", "__proto__", "toString", "toLocaleString", "valueOf", "hasOwnProperty",
    "isPrototypeOf", "propertyIsEnumerable", "__defineGetter__", "__defineSetter__",
    "__lookupGetter__", "__lookupSetter__" }

  /** `chkDevNames[dev.devName]` is truthy: the name was stored before, or is inherited. */
  predicate DuplicateAsWritten(ds: seq<DevConfig>, i: nat)
    requires i < |ds|
  {
    ds[i].devAct && (Trim(ds[i].devName) in ActiveNames(ds[..i]) || Trim(ds[i].devName) in InheritedKeys)
  }

  /** The verdict as the loop computes it with a plain object as the set of seen names. */
  predicate ConfigValidAsWritten(ds: seq<DevConfig>) {
    && |ds| > 0
    && forall i :: 0 <= i < |ds| && ds[i].devAct ==> DeviceOk(ds[i]) && !DuplicateAsWritten(ds, i)
  }

  /** A single well-formed device called `constructor` is rejected as a duplicate by the lookup as written. */
  lemma ConstructorRejected()
    ensures var d := DevConfig(true, "constructor", "host1", "", "", Text("5"), Text("30"), true, false, false);
      DeviceOk(d) && !ConfigValidAsWritten([d]) && ConfigValid([d])
  {
    var d := DevConfig(true, "constructor", "host1", "", "", Text("5"), Text("30"), true, false, false);
    PlainDevice(d);
    SingleDeviceAccepted(d);
    assert DuplicateAsWritten([d], 0);
  }

  /**
   * The lookup as written rejects exactly the lists the corrected one
   * rejects, and in addition every list in which some active device is
   * named after an inherited key.
   */
  lemma AsWrittenIffNoInheritedName(ds: seq<DevConfig>)
    ensures ConfigValidAsWritten(ds)
      <==> ConfigValid(ds) && forall i :: 0 <= i < |ds| && ds[i].devAct ==> Trim(ds[i].devName) !in InheritedKeys
  {
    if ConfigValidAsWritten(ds) {
      forall i | 0 <= i < |ds| ensures EntryOk(ds, i) {
        if ds[i].devAct { assert !DuplicateAsWritten(ds, i); }
      }
    }
    if ConfigValid(ds) && forall i :: 0 <= i < |ds| && ds[i].devAct ==> Trim(ds[i].devName) !in InheritedKeys {
      forall i | 0 <= i < |ds| && ds[i].devAct ensures DeviceOk(ds[i]) && !DuplicateAsWritten(ds, i) {
        assert EntryOk(ds, i);
      }
    }
  }

  // ---------------------------------------------------------------- the loop

  /**
   * One pass of the loop on an active entry: `fine` is the outcome of its
   * tests against the names seen so far, `updated` the entry with trimmed
   * texts and clamped timings.
   */
  method CheckDevice(dev: DevConfig, seen: set<string>) returns (fine: bool, updated: DevConfig)
    requires dev.devAct
    ensures fine <==> DeviceOk(dev) && Trim(dev.devName) !in seen
    ensures updated == NormalizeDev(dev)
  {
    var name := Trim(dev.devName);
    var addr := Trim(dev.devIpAddr);
    fine := && !EndsWithDot(name) && !HasDoubleDot(name) && name !in seen
            && AddressOk(addr)
            && IsUnsigned(TimingText(dev.devTimeout)) && IsUnsigned(TimingText(dev.devPollIntvl));
    var timeout := ClampTimeout(dev.devTimeout);
    var poll := ClampPoll(dev.devPollIntvl, timeout);
    updated := dev.(devName := name, devIpAddr := addr, devTimeout := Secs(timeout), devPollIntvl := Secs(poll));
  }

  /** The verdict on the first `n + 1` entries, from the verdict on the first `n` and the entry at `n`. */
  lemma EntriesOkSnoc(ds: seq<DevConfig>, n: nat, seen: set<string>)
    requires n < |ds| && seen == ActiveNames(ds[..n])
    ensures (forall i :: 0 <= i < n + 1 ==> EntryOk(ds, i))
      <==> (forall i :: 0 <= i < n ==> EntryOk(ds, i)) && (ds[n].devAct ==> DeviceOk(ds[n]) && Trim(ds[n].devName) !in seen)
  {
    assert EntryOk(ds, n) <==> (ds[n].devAct ==> DeviceOk(ds[n]) && Trim(ds[n].devName) !in seen);
  }

  /** The list after the loop has normalised its first `n` entries. */
  function NormalizedUpTo(ds: seq<DevConfig>, n: nat): (r: seq<DevConfig>)
    requires n <= |ds|
    ensures |r| == |ds|
  {
    if n == 0 then ds else NormalizedUpTo(ds, n - 1)[n - 1 := NormalizeDev(ds[n - 1])]
  }

  lemma {:induction false} NormalizedUpToAt(ds: seq<DevConfig>, n: nat, i: nat)
    requires n <= |ds| && i < |ds|
    ensures NormalizedUpTo(ds, n)[i] == if i < n then NormalizeDev(ds[i]) else ds[i]
  {
    if n > 0 {
      NormalizedUpToAt(ds, n - 1, i);
    }
  }

  lemma NormalizedUpToStep(ds: seq<DevConfig>, n: nat)
    requires n < |ds|
    ensures NormalizedUpTo(ds, n + 1) == NormalizedUpTo(ds, n)[n := NormalizeDev(ds[n])]
  {
  }

  /**
   * `validateConfig` over the device list: each active entry is tested
   * and normalised in place; the verdict is that of `ConfigValid`.
   */
  method ValidateConfig(devs: array<DevConfig>) returns (ok: bool)
    modifies devs
    ensures ok == ConfigValid(old(devs[..]))
    ensures forall i :: 0 <= i < devs.Length ==> devs[i] == NormalizeDev(old(devs[i]))
  {
    ghost var ds := devs[..];
    ok := true;
    if devs.Length == 0 {
      ok := false;
    }
    var seen: set<string> := {};
    var ii := 0;
    while ii < devs.Length
      invariant 0 <= ii <= devs.Length
      invariant devs[..] == NormalizedUpTo(ds, ii)
      invariant seen == ActiveNames(ds[..ii])
      invariant ok <==> |ds| > 0 && forall i :: 0 <= i < ii ==> EntryOk(ds, i)
    {
      ActiveNamesSnoc(ds, ii);
      EntriesOkSnoc(ds, ii, seen);
      NormalizedUpToAt(ds, ii, ii);
      NormalizedUpToStep(ds, ii);
      var dev := devs[ii];
      assert dev == ds[ii];
      if dev.devAct {
        var fine, updated := CheckDevice(dev, seen);
        if !fine {
          ok := false;
        }
        seen := seen + {updated.devName};
        ghost var before := devs[..];
        devs[ii] := updated;
        assert devs[..] == before[ii := updated];
      } else {
        assert NormalizeDev(ds[ii]) == ds[ii];
      }
      ii := ii + 1;
    }
    forall i | 0 <= i < devs.Length
      ensures devs[i] == NormalizeDev(ds[i])
    {
      NormalizedUpToAt(ds, devs.Length, i);
    }
  }
}
