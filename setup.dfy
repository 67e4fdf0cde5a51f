/**
 * The device contexts `setupContices` (main.js:582-629) builds from the
 * validated device list: one context per active device, in list order, with
 * the address split into host and port, timings in milliseconds and the list
 * of enabled checks.
 */
module Setup {
  import opened Js
  import opened Ident
  import opened Catalog
  import opened Config

  /**
   * The part of a device context that `setupContices` fixes once; the three
   * flags `busy`, `initialized` and `offline` change while polling and live
   * with the device (see `NsClient.DeviceContext`).
   */
  datatype Ctx = Ctx(
    name: string,
    id: string,
    ipAddr: string,
    ipPort: string,
    user: string,
    pwd: string,
    timeout: int,      // ms
    pollIntvl: int,    // ms
    chkCpu: bool,
    chkMem: bool,
    chkDrives: bool,
    url: string,
    queries: seq<Query>)

  const DefaultPort := "8443"

  /** `tmp = addr.trim().split(':')`, then `tmp[0]` and `tmp[1] || 8443`. */
  function AddressParts(addr: string): (string, string) {
    var parts := Split(Trim(addr), ':');
    (parts[0], if |parts| > 1 && parts[1] != "" then parts[1] else DefaultPort)
  }

  /** `(t || 1) * 1000` on a number of seconds. */
  function Millis(t: Timing): int
    requires t.Secs?
  {
    (if t.n == 0 then 1 else t.n) * 1000
  }

  /** The queries pushed for the enabled checks, in the fixed order cpu, drive size, memory. */
  function EnabledChecks(cpu: bool, drives: bool, mem: bool): seq<Query> {
    (if cpu then [CheckCpu] else []) + (if drives then [CheckDrivesize] else []) + (if mem then [CheckMemory] else [])
  }

  /** What `validateConfig` leaves for `setupContices`: the timings of every active entry are numbers. */
  predicate SetupReady(ds: seq<DevConfig>) {
    forall i :: 0 <= i < |ds| && ds[i].devAct ==> ds[i].devTimeout.Secs? && ds[i].devPollIntvl.Secs?
  }

  /** One pass of the loop of `setupContices` over an active entry. */
  function ContextOf(d: DevConfig, f: Forbidden): Ctx
    requires d.devTimeout.Secs? && d.devPollIntvl.Secs?
  {
    var name := Trim(d.devName);
    var (host, port) := AddressParts(d.devIpAddr);
    var user := Trim(d.devUser);
    var pwd := Trim(d.devPwd);
    Ctx(name, Name2Id(name, f), host, port, user, pwd, Millis(d.devTimeout), Millis(d.devPollIntvl),
        d.devChkCpu, d.devChkMem, d.devChkDrives,
        "https://" + user + ":" + pwd + "@" + host + ":" + port,
        EnabledChecks(d.devChkCpu, d.devChkDrives, d.devChkMem))
  }

  /** The positions of the active entries, in order. */
  function ActiveIndices(ds: seq<DevConfig>): seq<nat>
    decreases |ds|
  {
    if |ds| == 0 then []
    else ActiveIndices(ds[..|ds| - 1]) + (if ds[|ds| - 1].devAct then [|ds| - 1] else [])
  }

  /** `CTXs` after `setupContices`. */
  function Contexts(ds: seq<DevConfig>, f: Forbidden): seq<Ctx>
    requires SetupReady(ds)
    decreases |ds|
  {
    if |ds| == 0 then []
    else
      var n := |ds| - 1;
      assert SetupReady(ds[..n]) by {
        forall i | 0 <= i < n && ds[..n][i].devAct ensures ds[..n][i].devTimeout.Secs? && ds[..n][i].devPollIntvl.Secs? {
          assert ds[..n][i] == ds[i];
        }
      }
      Contexts(ds[..n], f) + (if ds[n].devAct then [ContextOf(ds[n], f)] else [])
  }

  // ---------------------------------------------------------------- the checks of a context

  /** Position of a check in the fixed order. */
  function Rank(q: Query): nat {
    match q
    case Info => 0
    case CheckCpu => 1
    case CheckDrivesize => 2
    case CheckMemory => 3
  }

  /**
   * The enabled checks are exactly those whose flag is set, each once, in
   * the fixed order; the identity query is never among them.
   */
  lemma EnabledChecksSpec(cpu: bool, drives: bool, mem: bool)
    ensures var qs := EnabledChecks(cpu, drives, mem);
      && (CheckCpu in qs <==> cpu) && (CheckDrivesize in qs <==> drives) && (CheckMemory in qs <==> mem)
      && Info !in qs
      && (forall i, j :: 0 <= i < j < |qs| ==> Rank(qs[i]) < Rank(qs[j]))
      && |qs| == (if cpu then 1 else 0) + (if drives then 1 else 0) + (if mem then 1 else 0)
  {
  }

  // ---------------------------------------------------------------- address and port

  /** Without a `:` the whole trimmed address is the host and the port is 8443. */
  lemma DefaultPortUsed(addr: string)
    requires ':' !in Trim(addr)
    ensures AddressParts(addr) == (Trim(addr), DefaultPort)
  {
  }

  /** `host:port` is split back into its two parts. */
  lemma HostAndPort(addr: string, host: string, port: string)
    requires Trim(addr) == host + ":" + port
    requires ':' !in host && ':' !in port && port != ""
    ensures AddressParts(addr) == (host, port)
  {
    assert Join([host, port], ':') == host + ":" + port;
    SplitJoin([host, port], ':');
  }

  /** An empty port after the colon also falls back to 8443. */
  lemma EmptyPortDefaults(addr: string, host: string)
    requires Trim(addr) == host + ":" && ':' !in host
    ensures AddressParts(addr) == (host, DefaultPort)
  {
    assert Join([host, ""], ':') == host + ":";
    SplitJoin([host, ""], ':');
  }

  // ---------------------------------------------------------------- one context per active entry

  lemma {:induction false} ActiveIndicesSpec(ds: seq<DevConfig>)
    ensures forall j :: 0 <= j < |ActiveIndices(ds)| ==> ActiveIndices(ds)[j] < |ds| && ds[ActiveIndices(ds)[j]].devAct
    ensures forall j, k :: 0 <= j < k < |ActiveIndices(ds)| ==> ActiveIndices(ds)[j] < ActiveIndices(ds)[k]
    ensures forall i :: 0 <= i < |ds| && ds[i].devAct ==> i in ActiveIndices(ds)
    decreases |ds|
  {
    if |ds| > 0 {
      var n := |ds| - 1;
      ActiveIndicesSpec(ds[..n]);
      var a := ActiveIndices(ds[..n]);
      assert forall j :: 0 <= j < |a| ==> a[j] < n && ds[a[j]] == ds[..n][a[j]];
      assert forall i :: 0 <= i < n ==> ds[i] == ds[..n][i];
    }
  }

  /** Exactly one context per active entry, in the order of the entries, each built from its entry. */
  lemma {:induction false} ContextsIndexed(ds: seq<DevConfig>, f: Forbidden)
    requires SetupReady(ds)
    ensures |Contexts(ds, f)| == |ActiveIndices(ds)|
    ensures forall j :: 0 <= j < |ActiveIndices(ds)| ==>
      ActiveIndices(ds)[j] < |ds| && ds[ActiveIndices(ds)[j]].devAct
      && Contexts(ds, f)[j] == ContextOf(ds[ActiveIndices(ds)[j]], f)
    decreases |ds|
  {
    if |ds| > 0 {
      var n := |ds| - 1;
      var p := ds[..n];
      ContextsSnoc(ds, n, f);
      assert ds[..n + 1] == ds;
      ContextsIndexed(p, f);
      var a, cs := ActiveIndices(p), Contexts(p, f);
      assert ActiveIndices(ds) == a + (if ds[n].devAct then [n] else []);
      assert Contexts(ds, f) == cs + (if ds[n].devAct then [ContextOf(ds[n], f)] else []);
      forall j | 0 <= j < |ActiveIndices(ds)|
        ensures ActiveIndices(ds)[j] < |ds| && ds[ActiveIndices(ds)[j]].devAct
        ensures Contexts(ds, f)[j] == ContextOf(ds[ActiveIndices(ds)[j]], f)
      {
        if j < |a| {
          assert ActiveIndices(ds)[j] == a[j] && Contexts(ds, f)[j] == cs[j];
          assert ds[a[j]] == p[a[j]];
        }
      }
    }
  }

  lemma SetupReadyPrefix(ds: seq<DevConfig>, n: nat)
    requires SetupReady(ds) && n <= |ds|
    ensures SetupReady(ds[..n])
  {
    forall i | 0 <= i < n && ds[..n][i].devAct ensures ds[..n][i].devTimeout.Secs? && ds[..n][i].devPollIntvl.Secs? {
      assert ds[..n][i] == ds[i];
    }
  }

  /** The contexts of one more entry: those of the entries before it, then its own when it is active. */
  lemma ContextsSnoc(ds: seq<DevConfig>, n: nat, f: Forbidden)
    requires SetupReady(ds) && n < |ds|
    ensures SetupReady(ds[..n]) && SetupReady(ds[..n + 1])
    ensures Contexts(ds[..n + 1], f) == Contexts(ds[..n], f) + (if ds[n].devAct then [ContextOf(ds[n], f)] else [])
  {
    SetupReadyPrefix(ds, n);
    SetupReadyPrefix(ds, n + 1);
    assert ds[..n + 1][..n] == ds[..n];
  }

  /** No active entry, no context; a list of only inactive entries gives none. */
  lemma {:induction false} NoActiveNoContexts(ds: seq<DevConfig>, f: Forbidden)
    requires forall i :: 0 <= i < |ds| ==> !ds[i].devAct
    ensures SetupReady(ds) && Contexts(ds, f) == []
    decreases |ds|
  {
    if |ds| > 0 {
      var n := |ds| - 1;
      assert forall i :: 0 <= i < n ==> ds[..n][i] == ds[i];
      NoActiveNoContexts(ds[..n], f);
    }
  }

  /**
   * A non-empty list of inactive devices only passes `validateConfig`, which
   * counts all entries (main.js:645), yet leaves no device to poll.
   */
  lemma InactiveOnlyAccepted(ds: seq<DevConfig>, f: Forbidden)
    requires |ds| > 0 && forall i :: 0 <= i < |ds| ==> !ds[i].devAct
    ensures ConfigValid(ds) && SetupReady(ds) && Contexts(ds, f) == []
  {
    NoActiveNoContexts(ds, f);
  }

  // ---------------------------------------------------------------- after validateConfig

  /** The entries `validateConfig` passes on are ready for `setupContices`. */
  lemma NormalizedReady(ds: seq<DevConfig>, es: seq<DevConfig>)
    requires |es| == |ds| && forall i :: 0 <= i < |ds| ==> es[i] == NormalizeDev(ds[i])
    ensures SetupReady(es)
  {
    forall i | 0 <= i < |es| && es[i].devAct ensures es[i].devTimeout.Secs? && es[i].devPollIntvl.Secs? {
      NormalizeBounds(ds[i]);
    }
  }

  /**
   * A validated entry gives a timeout of 1 to 600 s and a poll interval of
   * 5 to 3600 s, in milliseconds, the interval longer than the timeout and
   * both below the timer limit `0x7fffffff`.
   */
  lemma ValidatedTimings(d: DevConfig, f: Forbidden)
    requires d.devAct
    ensures var e := NormalizeDev(d);
      && e.devTimeout.Secs? && e.devPollIntvl.Secs?
      && var c := ContextOf(e, f);
      && c.timeout == 1000 * e.devTimeout.n && c.pollIntvl == 1000 * e.devPollIntvl.n
      && 1000 <= c.timeout <= 600000 && 5000 <= c.pollIntvl <= 3600000
      && c.timeout < c.pollIntvl < 0x7fff_ffff
  {
    NormalizeBounds(d);
  }

  /** The contexts of an accepted, normalised list carry pairwise distinct names. */
  lemma ContextNamesDistinct(ds: seq<DevConfig>, es: seq<DevConfig>, f: Forbidden, j: nat, k: nat)
    requires ConfigValid(ds)
    requires |es| == |ds| && forall i :: 0 <= i < |ds| ==> es[i] == NormalizeDev(ds[i])
    requires SetupReady(es)
    requires j < k < |Contexts(es, f)|
    ensures Contexts(es, f)[j].name != Contexts(es, f)[k].name
  {
    ContextsIndexed(es, f);
    ActiveIndicesSpec(es);
    var a := ActiveIndices(es);
    var x, y := a[j], a[k];
    TrimIdempotent(ds[x].devName);
    TrimIdempotent(ds[y].devName);
    ValidNamesDistinct(ds, x, y);
  }
}
