/**
 * The adapter itself, as the objects `main.js` updates in place: a device
 * context per configured device, whose flags `busy`, `initialized` and
 * `offline` change while it is polled, and the adapter with the type cache
 * `STATEs`, the calls made to the host store, the adapter log, the requests
 * sent and the list `CTXs`. Each method is proved against the functions of
 * the modules `Store`, `Parsers`, `Reach`, `Poll` and `Setup`.
 */
module NsClient {
  import opened Js
  import opened Ident
  import opened Store
  import opened Catalog
  import opened Config
  import opened Parsers
  import opened Setup
  import opened Reach
  import opened Poll

  /** The requests for a list of queries against one base URL, in order. */
  function Requests(url: string, qs: seq<Query>): (r: seq<Request>)
    ensures |r| == |qs|
    decreases |qs|
  {
    if |qs| == 0 then [] else Requests(url, qs[..|qs| - 1]) + [Request(url, qs[|qs| - 1])]
  }

  lemma RequestsSnoc(url: string, qs: seq<Query>, q: Query)
    ensures Requests(url, qs + [q]) == Requests(url, qs) + [Request(url, q)]
  {
    assert (qs + [q])[..|qs|] == qs;
  }

  /** One entry of `CTXs`: the fixed part built by `setupContices` and the three flags. */
  class DeviceContext {
    const cfg: Ctx
    var busy: bool
    var initialized: bool
    var offline: bool

    /** A fresh context is idle, not initialised and counted as online. */
    constructor (c: Ctx)
      ensures cfg == c && !busy && !initialized && !offline
    {
      cfg := c;
      busy := false;
      initialized := false;
      offline := false;
    }

    function FlagsNow(): Flags
      reads this
    {
      Flags(busy, initialized, offline)
    }
  }

  class Adapter {
    /** The characters `name2id` replaces. */
    const forbidden: Forbidden
    /** `STATEs`: the type each state path was last declared with. */
    var states: map<string, ValueType>
    /** The calls made to the host store, in order. */
    var events: seq<StoreEvent>
    /** The log entries about devices, in order. */
    var log: seq<LogEvent>
    /** The HTTPS requests sent, in order. */
    var requests: seq<Request>
    /** `CTXs` */
    var ctxs: seq<DeviceContext>

    /** An adapter that has not yet started. */
    constructor (f: Forbidden)
      ensures forbidden == f && states == map[] && events == [] && log == [] && requests == [] && ctxs == []
    {
      forbidden := f;
      states := map[];
      events := [];
      log := [];
      requests := [];
      ctxs := [];
    }

    function StoreNow(): Store
      reads this
    {
      Store(states, events)
    }

    // ---------------------------------------------------------------- reachability

    /** `handleOffline(ctx, msg)` */
    method HandleOffline(ctx: DeviceContext, msg: string)
      modifies this`log, ctx`offline
      ensures ctx.offline
      ensures log == old(log) + OfflineLog(ctx.cfg.name, old(ctx.offline), msg)
    {
      if !ctx.offline {
        if msg != "" {
          log := log + [Warning(ctx.cfg.name, msg)];
        }
        log := log + [WentOffline(ctx.cfg.name)];
      }
      ctx.offline := true;
    }

    /** `handleOnline(ctx, msg)` */
    method HandleOnline(ctx: DeviceContext, msg: string)
      modifies this`log, ctx`offline
      ensures !ctx.offline
      ensures log == old(log) + OnlineLog(ctx.cfg.name, old(ctx.offline), msg)
    {
      if ctx.offline {
        if msg != "" {
          log := log + [Notice(ctx.cfg.name, msg)];
        }
        log := log + [WentOnline(ctx.cfg.name)];
      }
      ctx.offline := false;
    }

    // ---------------------------------------------------------------- the store

    /** `updateState(id, v, q, common)` */
    method UpdateState(id: string, v: Value, q: int, c: Common)
      modifies this`states, this`events
      ensures StoreNow() == Apply(old(StoreNow()), Leaf(id, v, q, c))
    {
      if id !in states || states[id] != c.vtype {
        events := events + [DeclareState(id, c)];
        states := states[id := c.vtype];
      }
      events := events + [WriteState(id, v, true, q)];
    }

    /** `initFolderObject(id, name)` */
    method InitFolderObject(id: string, name: string)
      modifies this`events
      ensures StoreNow() == Apply(old(StoreNow()), Folder(id, name))
    {
      events := events + [DeclareFolder(id, name)];
    }

    /** `parseInfo(ctx, jdata)` */
    method ParseInfo(ctx: DeviceContext, b: Body)
      modifies this`states, this`events
      ensures StoreNow() == Exec(old(StoreNow()), InfoPublishes(ctx.cfg.id, b))
    {
      ghost var st0 := StoreNow();
      var id := ctx.cfg.id;
      UpdateState(id + ".info.name", StrVal(b.name), 0, InfoNameCommon);
      ExecSnoc(st0, [], Leaf(id + ".info.name", StrVal(b.name), 0, InfoNameCommon));
      UpdateState(id + ".info.version", StrVal(b.version), 0, InfoVersionCommon);
      ExecSnoc(st0, [Leaf(id + ".info.name", StrVal(b.name), 0, InfoNameCommon)],
               Leaf(id + ".info.version", StrVal(b.version), 0, InfoVersionCommon));
    }

    /**
     * `parsePerf(ctx, jdata)`: the check's folder, its result and message,
     * then a folder per counter of the first line and a state per field.
     * Without a first line the method stops where reading its message
     * throws.
     */
    method ParsePerf(ctx: DeviceContext, b: Body)
      modifies this`states, this`events
      ensures StoreNow() == Exec(old(StoreNow()), PerfPublishes(ctx.cfg.id, b, forbidden))
    {
      ghost var st0 := StoreNow();
      var f := forbidden;
      var base := Name2Id(ctx.cfg.id + "." + b.command, f);
      InitFolderObject(base, "");
      ExecSnoc(st0, [], Folder(base, ""));
      ghost var done: seq<Publish> := [Folder(base, "")];
      UpdateState(base + ".result", NumVal(b.result), 0, ResultCommon);
      ExecSnoc(st0, done, Leaf(base + ".result", NumVal(b.result), 0, ResultCommon));
      done := done + [Leaf(base + ".result", NumVal(b.result), 0, ResultCommon)];
      if |b.lines| == 0 {
        return;
      }
      var line := b.lines[0];
      UpdateState(base + ".message", StrVal(line.message), 0, MessageCommon);
      ExecSnoc(st0, done, Leaf(base + ".message", StrVal(line.message), 0, MessageCommon));
      done := done + [Leaf(base + ".message", StrVal(line.message), 0, MessageCommon)];
      InitFolderObject(base + ".perf", "");
      ExecSnoc(st0, done, Folder(base + ".perf", ""));
      done := done + [Folder(base + ".perf", "")];
      assert done == PerfHead(ctx.cfg.id, b, f);
      var gs := line.perf;
      var i := 0;
      assert done + GroupsPublishes(base, gs[..0], f) == done by { assert gs[..0] == []; }
      while i < |gs|
        invariant 0 <= i <= |gs|
        invariant StoreNow() == Exec(st0, done + GroupsPublishes(base, gs[..i], f))
      {
        ghost var gp := GroupsPublishes(base, gs[..i], f);
        PublishGroup(base, gs[i], st0, done + gp);
        GroupsUpTo(base, gs, i, f);
        ConcatAssoc(done, gp, GroupPublishes(base, gs[i], f));
        i := i + 1;
      }
      assert gs[..i] == gs;
    }

    /** One pass of the outer loop of `parsePerf`: the counter's folder, then a state per field. */
    method PublishGroup(base: string, g: PerfGroup, ghost st0: Store, ghost before: seq<Publish>)
      requires StoreNow() == Exec(st0, before)
      modifies this`states, this`events
      ensures StoreNow() == Exec(st0, before + GroupPublishes(base, g, forbidden))
    {
      var perfId := Name2Id(base + ".perf" + "." + g.key, forbidden);
      InitFolderObject(perfId, "");
      ExecSnoc(st0, before, Folder(perfId, ""));
      PublishFields(base, g.key, g.fields, st0, before + [Folder(perfId, "")]);
      ConcatAssoc(before, [Folder(perfId, "")], FieldsPublishes(base, g.key, g.fields, forbidden));
    }

    /** The inner loop of `parsePerf`: a state per field of one counter. */
    method PublishFields(base: string, key: string, fields: seq<PerfField>, ghost st0: Store, ghost pre: seq<Publish>)
      requires StoreNow() == Exec(st0, pre)
      modifies this`states, this`events
      ensures StoreNow() == Exec(st0, pre + FieldsPublishes(base, key, fields, forbidden))
    {
      var f := forbidden;
      var j := 0;
      assert pre + FieldsPublishes(base, key, fields[..0], f) == pre by {
        assert fields[..0] == [];
      }
      while j < |fields|
        invariant 0 <= j <= |fields|
        invariant StoreNow() == Exec(st0, pre + FieldsPublishes(base, key, fields[..j], f))
      {
        var fd := fields[j];
        var stateId := Name2Id(base + ".perf" + "." + key + "." + fd.name, f);
        var isNum := IsNumeric(fd.value);
        ghost var mid := StoreNow();
        UpdateState(stateId, StrVal(fd.value), 0, Common(fd.name, if isNum then NumberType else StringType, "value", []));
        assert Leaf(stateId, StrVal(fd.value), 0, Common(fd.name, if isNum then NumberType else StringType, "value", [])) == FieldLeaf(base, key, fd, f);
        FieldsStepStore(st0, pre, base, key, fields, j, f, mid, StoreNow());
        j := j + 1;
      }
      assert fields[..j] == fields;
    }

    /** `QUERIES[p.query].parser(ctx, p.body)` */
    method RunParser(ctx: DeviceContext, p: Parsed)
      modifies this`states, this`events
      ensures StoreNow() == Exec(old(StoreNow()), ParserPublishes(ctx.cfg.id, forbidden, p))
    {
      match ParserOf(p.query)
      case InfoParser => ParseInfo(ctx, p.body);
      case PerfParser => ParsePerf(ctx, p.body);
    }

    // ---------------------------------------------------------------- polling

    /** `executeQuery(ctx, q)`: `jdata` is the answer, present exactly when the request succeeded. */
    method ExecuteQuery(ctx: DeviceContext, net: Net, q: Query) returns (jdata: Option<Body>)
      modifies this`log, this`requests, ctx`offline
      ensures jdata == Answer(ctx.cfg, net, q)
      ensures ctx.offline == !Succeeds(ctx.cfg, net, q)
      ensures log == old(log) + AskLog(ctx.cfg, net, old(ctx.offline), q)
      ensures requests == old(requests) + [Request(ctx.cfg.url, q)]
    {
      var req := Request(ctx.cfg.url, q);
      requests := requests + [req];
      var ret := net(req, ctx.cfg.timeout);
      if ret.errCode != "" {
        HandleOffline(ctx, ret.errCode + " - " + ret.errText);
        jdata := None;
      } else if ret.httpCode != 200 {
        HandleOffline(ctx, "HTTP error [" + IntToString(ret.httpCode) + "] " + HttpReason(ret.httpCode));
        jdata := None;
      } else {
        HandleOnline(ctx, "");
        jdata := Some(ret.data);
      }
    }

    /**
     * One query of `scanDevice`: the flags, log and requests go from the
     * scan `s` to `Ask` of it.
     */
    method QueryStep(ctx: DeviceContext, net: Net, q: Query, ghost s: Scan, ghost log0: seq<LogEvent>, ghost req0: seq<Request>)
      returns (jdata: Option<Body>)
      requires ctx.FlagsNow() == s.flags && log == log0 + s.log && requests == req0 + Requests(ctx.cfg.url, s.asked)
      modifies this`log, this`requests, ctx`offline
      ensures jdata == Answer(ctx.cfg, net, q)
      ensures var a := Ask(ctx.cfg, net, s, q);
        && ctx.FlagsNow() == a.flags && log == log0 + a.log && requests == req0 + Requests(ctx.cfg.url, a.asked)
    {
      var c := ctx.cfg;
      jdata := ExecuteQuery(ctx, net, q);
      RequestsSnoc(c.url, s.asked, q);
      ConcatAssoc(req0, Requests(c.url, s.asked), [Request(c.url, q)]);
      ConcatAssoc(log0, s.log, AskLog(c, net, s.flags.offline, q));
    }

    /** The parser of one more answer: the store goes from the outputs of `ps` to those of `ps + [p]`. */
    method ParseAnswer(ctx: DeviceContext, p: Parsed, ghost ps: seq<Parsed>, ghost st0: Store)
      requires StoreNow() == Exec(st0, Outputs(ctx.cfg.id, forbidden, ps))
      modifies this`states, this`events
      ensures StoreNow() == Exec(st0, Outputs(ctx.cfg.id, forbidden, ps + [p]))
    {
      RunParser(ctx, p);
      OutputsSnoc(ctx.cfg.id, forbidden, ps, p);
      ExecAppend(st0, Outputs(ctx.cfg.id, forbidden, ps), ParserPublishes(ctx.cfg.id, forbidden, p));
    }

    /**
     * The identity step of `scanDevice`, taken on a device that is not
     * initialised: the flags, log, requests and store go from the scan `s`
     * to `InfoStep` of it.
     */
    method IdentifyDevice(ctx: DeviceContext, net: Net, ghost s: Scan, ghost log0: seq<LogEvent>, ghost req0: seq<Request>, ghost st0: Store)
      requires !ctx.initialized
      requires ctx.FlagsNow() == s.flags && log == log0 + s.log && requests == req0 + Requests(ctx.cfg.url, s.asked)
      requires StoreNow() == Exec(st0, Outputs(ctx.cfg.id, forbidden, s.parsed))
      modifies this`log, this`requests, this`states, this`events, ctx`initialized, ctx`offline
      ensures var r := InfoStep(ctx.cfg, net, s);
        && ctx.FlagsNow() == r.flags && log == log0 + r.log && requests == req0 + Requests(ctx.cfg.url, r.asked)
        && StoreNow() == Exec(st0, Outputs(ctx.cfg.id, forbidden, r.parsed))
    {
      var c := ctx.cfg;
      var jdata := QueryStep(ctx, net, Info, s, log0, req0);
      ghost var a := Ask(c, net, s, Info);
      if jdata.Some? {
        ParseAnswer(ctx, Parsed(Info, jdata.value), s.parsed, st0);
        var notice := Notice(c.name, ConnectedText(jdata.value));
        ghost var a1 := a.(parsed := a.parsed + [Parsed(Info, jdata.value)]);
        ConcatAssoc(log0, a1.log, [notice]);
        log := log + [notice];
        ctx.initialized := true;
        assert InfoStep(c, net, s) == Scan(a1.flags.(initialized := true), a1.log + [notice], a1.asked, a1.parsed);
      } else {
        assert InfoStep(c, net, s) == a;
      }
    }

    /**
     * The check loop of `scanDevice`: the queries of the context in order,
     * while the device is initialised, up to and including the first that
     * fails. The flags, log, requests and store go from the scan `s` to
     * `Checks` of it, or stay when the device is not initialised.
     */
    method RunChecks(ctx: DeviceContext, net: Net, ghost s: Scan, ghost log0: seq<LogEvent>, ghost req0: seq<Request>, ghost st0: Store)
      requires ctx.FlagsNow() == s.flags && log == log0 + s.log && requests == req0 + Requests(ctx.cfg.url, s.asked)
      requires StoreNow() == Exec(st0, Outputs(ctx.cfg.id, forbidden, s.parsed))
      modifies this`log, this`requests, this`states, this`events, ctx`offline
      ensures var r := if s.flags.initialized then Checks(ctx.cfg, net, s, ctx.cfg.queries) else s;
        && ctx.FlagsNow() == r.flags && log == log0 + r.log && requests == req0 + Requests(ctx.cfg.url, r.asked)
        && StoreNow() == Exec(st0, Outputs(ctx.cfg.id, forbidden, r.parsed))
    {
      var c := ctx.cfg;
      ghost var cur := s;
      var ii := 0;
      while ctx.initialized && ii < |c.queries|
        invariant 0 <= ii <= |c.queries|
        invariant ctx.FlagsNow() == cur.flags && cur.flags.initialized == s.flags.initialized
        invariant log == log0 + cur.log
        invariant requests == req0 + Requests(c.url, cur.asked)
        invariant StoreNow() == Exec(st0, Outputs(c.id, forbidden, cur.parsed))
        invariant s.flags.initialized ==> Checks(c, net, s, c.queries) == Checks(c, net, cur, c.queries[ii..])
        invariant !s.flags.initialized ==> cur == s
      {
        var q := c.queries[ii];
        ghost var before := cur;
        var jdata := QueryStep(ctx, net, q, before, log0, req0);
        cur := Ask(c, net, before, q);
        if jdata.None? {
          ChecksStops(c, net, before, c.queries, ii);
          break;
        }
        ParseAnswer(ctx, Parsed(q, jdata.value), before.parsed, st0);
        ChecksGoesOn(c, net, before, c.queries, ii);
        cur := cur.(parsed := cur.parsed + [Parsed(q, jdata.value)]);
        ii := ii + 1;
      }
      assert s.flags.initialized && ii == |c.queries| ==> c.queries[ii..] == [];
    }

    /**
     * `scanDevice(ctx)`: the flags, the log, the requests and the store end
     * as `Tick` and the publish requests of the answers it parses say.
     */
    method ScanDevice(ctx: DeviceContext, net: Net)
      modifies this`log, this`requests, this`states, this`events, ctx`busy, ctx`initialized, ctx`offline
      ensures var r := Tick(ctx.cfg, net, old(ctx.FlagsNow()));
        && ctx.FlagsNow() == r.flags
        && log == old(log) + r.log
        && requests == old(requests) + Requests(ctx.cfg.url, r.asked)
        && StoreNow() == TickStore(ctx.cfg, forbidden, old(StoreNow()), r)
    {
      if ctx.busy {
        log := log + [Warning(ctx.cfg.name, BusyText)];
        assert old(log) + [Warning(ctx.cfg.name, BusyText)] == log;
        return;
      }
      ghost var log0, req0, st0, fl := log, requests, StoreNow(), ctx.FlagsNow();
      ctx.busy := true;
      ghost var s0 := Scan(ctx.FlagsNow(), [], [], []);
      assert log == log0 + [] && requests == req0 + [];
      ghost var s1 := s0;
      if !ctx.initialized {
        IdentifyDevice(ctx, net, s0, log0, req0, st0);
        s1 := InfoStep(ctx.cfg, net, s0);
      }
      RunChecks(ctx, net, s1, log0, req0, st0);
      ghost var s2 := if s1.flags.initialized then Checks(ctx.cfg, net, s1, ctx.cfg.queries) else s1;
      ctx.busy := false;
      TickSteps(ctx.cfg, net, fl, s1, s2);
    }

    // ---------------------------------------------------------------- start-up

    /**
     * `setupContices()`: `CTXs[jj]` is a new context for the `jj`-th active
     * entry, built from it and with all flags cleared; entries of `CTXs`
     * beyond the active ones are kept.
     */
    method SetupContexts(devs: array<DevConfig>)
      requires SetupReady(devs[..])
      modifies this`ctxs
      ensures var cs := Contexts(devs[..], forbidden);
        && |ctxs| == (if |cs| < |old(ctxs)| then |old(ctxs)| else |cs|)
        && (forall j :: 0 <= j < |cs| ==> fresh(ctxs[j]) && ctxs[j].cfg == cs[j] && ctxs[j].FlagsNow() == Flags(false, false, false))
        && (forall j :: |cs| <= j < |ctxs| ==> ctxs[j] == old(ctxs[j]))
    {
      ghost var ds := devs[..];
      ghost var n0 := |ctxs|;
      var ii, jj := 0, 0;
      assert ds[..0] == [];
      while ii < devs.Length
        invariant 0 <= ii <= devs.Length
        invariant SetupReady(ds[..ii])
        invariant jj == |Contexts(ds[..ii], forbidden)|
        invariant |ctxs| == (if jj < n0 then n0 else jj)
        invariant forall j :: 0 <= j < jj ==>
          fresh(ctxs[j]) && ctxs[j].cfg == Contexts(ds[..ii], forbidden)[j] && ctxs[j].FlagsNow() == Flags(false, false, false)
        invariant forall j :: jj <= j < |ctxs| ==> ctxs[j] == old(ctxs[j])
      {
        ContextsSnoc(ds, ii, forbidden);
        var dev := devs[ii];
        if !dev.devAct {
          ii := ii + 1;
          continue;
        }
        var entry := new DeviceContext(ContextOf(dev, forbidden));
        if jj < |ctxs| {
          ctxs := ctxs[jj := entry];
        } else {
          ctxs := ctxs + [entry];
        }
        jj := jj + 1;
        ii := ii + 1;
      }
      assert ds[..ii] == ds;
    }

    /**
     * `onReady` up to the start of polling: the configuration is validated
     * and normalised in place; only when it is accepted are the contexts
     * set up, one per active entry, with pairwise distinct names.
     */
    method OnReady(devs: array<DevConfig>) returns (ok: bool)
      modifies devs, this`ctxs
      ensures ok == ConfigValid(old(devs[..]))
      ensures forall i :: 0 <= i < devs.Length ==> devs[i] == NormalizeDev(old(devs[i]))
      ensures !ok ==> ctxs == old(ctxs)
      ensures ok ==> SetupReady(devs[..]) && var cs := Contexts(devs[..], forbidden);
        && |cs| <= |ctxs|
        && (forall j :: 0 <= j < |cs| ==> fresh(ctxs[j]) && ctxs[j].cfg == cs[j] && ctxs[j].FlagsNow() == Flags(false, false, false))
        && (forall j, k :: 0 <= j < k < |cs| ==> ctxs[j].cfg.name != ctxs[k].cfg.name)
    {
      ghost var ds := devs[..];
      ok := ValidateConfig(devs);
      if !ok {
        return;
      }
      NormalizedReady(ds, devs[..]);
      SetupContexts(devs);
      forall j, k | 0 <= j < k < |Contexts(devs[..], forbidden)|
        ensures Contexts(devs[..], forbidden)[j].name != Contexts(devs[..], forbidden)[k].name
      {
        ContextNamesDistinct(ds, devs[..], forbidden, j, k);
      }
    }
  }

  /** `Tick` assembled from its identity step and its check loop. */
  lemma TickSteps(c: Ctx, net: Net, fl: Flags, s1: Scan, s2: Scan)
    requires !fl.busy
    requires s1 == if fl.initialized then Scan(fl.(busy := true), [], [], []) else InfoStep(c, net, Scan(fl.(busy := true), [], [], []))
    requires s2 == if s1.flags.initialized then Checks(c, net, s1, c.queries) else s1
    ensures Tick(c, net, fl) == s2.(flags := s2.flags.(busy := false))
  {
  }

  // ---------------------------------------------------------------- loop steps of parsePerf

  lemma FieldsStep(base: string, key: string, fs: seq<PerfField>, j: nat, f: Forbidden)
    requires j < |fs|
    ensures FieldsPublishes(base, key, fs[..j + 1], f) == FieldsPublishes(base, key, fs[..j], f) + [FieldLeaf(base, key, fs[j], f)]
  {
    assert fs[..j + 1][..j] == fs[..j];
  }

  /** One pass of the inner loop of `parsePerf`, on the store. */
  lemma FieldsStepStore(st0: Store, pre: seq<Publish>, base: string, key: string, fs: seq<PerfField>, j: nat, f: Forbidden,
                        before: Store, after: Store)
    requires j < |fs|
    requires before == Exec(st0, pre + FieldsPublishes(base, key, fs[..j], f))
    requires after == Apply(before, FieldLeaf(base, key, fs[j], f))
    ensures after == Exec(st0, pre + FieldsPublishes(base, key, fs[..j + 1], f))
  {
    var fp := FieldsPublishes(base, key, fs[..j], f);
    FieldsStep(base, key, fs, j, f);
    ExecSnoc(st0, pre + fp, FieldLeaf(base, key, fs[j], f));
    ConcatAssoc(pre, fp, [FieldLeaf(base, key, fs[j], f)]);
  }
}
