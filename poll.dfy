/**
 * One poll of one device: `executeQuery` (main.js:492-510) and
 * `scanDevice` (main.js:522-556) stated as functions of the device's
 * flags and the network, seen as an oracle. A poll records the answers it
 * hands to the parsers, in order; the store after the poll is what the
 * publish requests of those parsers make of it. No parser result feeds
 * back into the control flow of the poll, so the two can be separated.
 */
module Poll {
  import opened Js
  import opened Ident
  import opened Store
  import opened Catalog
  import opened Parsers
  import opened Setup
  import opened Reach

  /** The three flags of a device context. */
  datatype Flags = Flags(busy: bool, initialized: bool, offline: bool)

  /** An answer handed to `QUERIES[query].parser`. */
  datatype Parsed = Parsed(query: Query, body: Body)

  /** What one poll has done so far: the flags, the log entries, the queries sent and the answers parsed, in order. */
  datatype Scan = Scan(flags: Flags, log: seq<LogEvent>, asked: seq<Query>, parsed: seq<Parsed>)

  const BusyText := "device is still busy - scan interval should be increased"

  /** The outcome of the GET of a query, under the device's timeout. */
  function Respond(c: Ctx, net: Net, q: Query): Outcome {
    net(Request(c.url, q), c.timeout)
  }

  /** `ret.jdata` of `executeQuery(ctx, q)`. */
  function Answer(c: Ctx, net: Net, q: Query): Option<Body> {
    Classify(Respond(c, net, q))
  }

  predicate Succeeds(c: Ctx, net: Net, q: Query) {
    Answer(c, net, q).Some?
  }

  /** The log entries of `executeQuery(ctx, q)` on a device whose flag was `wasOffline`. */
  function AskLog(c: Ctx, net: Net, wasOffline: bool, q: Query): seq<LogEvent> {
    var o := Respond(c, net, q);
    if Classify(o).None? then OfflineLog(c.name, wasOffline, FailureText(o)) else OnlineLog(c.name, wasOffline, "")
  }

  /** `executeQuery(ctx, q)`: a failure goes through `handleOffline` with its text, a success through `handleOnline` with none. */
  function Ask(c: Ctx, net: Net, s: Scan, q: Query): Scan {
    Scan(s.flags.(offline := !Succeeds(c, net, q)), s.log + AskLog(c, net, s.flags.offline, q), s.asked + [q], s.parsed)
  }

  /** The log entry of a first successful identity query. */
  function ConnectedText(b: Body): string {
    "device connected, client " + b.name + " / " + b.version
  }

  /** The identity step of `scanDevice`, taken when the device is not initialised. */
  function InfoStep(c: Ctx, net: Net, s: Scan): Scan {
    var a := Ask(c, net, s, Info);
    match Answer(c, net, Info)
    case None => a
    case Some(b) =>
      Scan(a.flags.(initialized := true), a.log + [Notice(c.name, ConnectedText(b))], a.asked, a.parsed + [Parsed(Info, b)])
  }

  /** The check loop of `scanDevice`: the queries in order, up to and including the first that fails. */
  function Checks(c: Ctx, net: Net, s: Scan, qs: seq<Query>): Scan
    decreases |qs|
  {
    if |qs| == 0 then s
    else
      var a := Ask(c, net, s, qs[0]);
      match Answer(c, net, qs[0])
      case None => a
      case Some(b) => Checks(c, net, a.(parsed := a.parsed + [Parsed(qs[0], b)]), qs[1..])
  }

  /** `scanDevice(ctx)` from the flags `fl`. */
  function Tick(c: Ctx, net: Net, fl: Flags): Scan {
    if fl.busy then Scan(fl, [Warning(c.name, BusyText)], [], [])
    else
      var s0 := Scan(fl.(busy := true), [], [], []);
      var s1 := if fl.initialized then s0 else InfoStep(c, net, s0);
      var s2 := if s1.flags.initialized then Checks(c, net, s1, c.queries) else s1;
      s2.(flags := s2.flags.(busy := false))
  }

  // ---------------------------------------------------------------- what the parsers publish

  /** `QUERIES[p.query].parser(ctx, p.body)`: the publish requests of the query's parser. */
  function ParserPublishes(id: string, f: Forbidden, p: Parsed): seq<Publish> {
    match ParserOf(p.query)
    case InfoParser => InfoPublishes(id, p.body)
    case PerfParser => PerfPublishes(id, p.body, f)
  }

  /** The publish requests of a list of parsed answers, one parser after the other. */
  function Outputs(id: string, f: Forbidden, ps: seq<Parsed>): seq<Publish>
    decreases |ps|
  {
    if |ps| == 0 then [] else Outputs(id, f, ps[..|ps| - 1]) + ParserPublishes(id, f, ps[|ps| - 1])
  }

  lemma OutputsSnoc(id: string, f: Forbidden, ps: seq<Parsed>, p: Parsed)
    ensures Outputs(id, f, ps + [p]) == Outputs(id, f, ps) + ParserPublishes(id, f, p)
  {
    assert (ps + [p])[..|ps|] == ps;
  }

  /** The store after a poll `r` of the device `c` from the store `st`. */
  function TickStore(c: Ctx, f: Forbidden, st: Store, r: Scan): Store {
    Exec(st, Outputs(c.id, f, r.parsed))
  }

  // ---------------------------------------------------------------- one query

  /**
   * A query succeeds exactly when it neither errs nor gets a status other
   * than 200; afterwards the device is offline exactly when it failed, and
   * `busy`, `initialized` and the answers parsed do not change.
   */
  lemma AskSpec(c: Ctx, net: Net, s: Scan, q: Query)
    ensures var a := Ask(c, net, s, q);
      && (Succeeds(c, net, q) <==> Respond(c, net, q).errCode == "" && Respond(c, net, q).httpCode == 200)
      && a.flags == Flags(s.flags.busy, s.flags.initialized, !Succeeds(c, net, q))
      && a.asked == s.asked + [q] && a.parsed == s.parsed
  {
  }

  /**
   * A query reports `offline` exactly when it fails on a device that was
   * online, `online` exactly when it succeeds on one that was offline, and
   * nothing when the device stays in its state.
   */
  lemma AskLogSpec(c: Ctx, net: Net, wasOffline: bool, q: Query)
    ensures var log := AskLog(c, net, wasOffline, q);
      && (WentOffline(c.name) in log <==> !wasOffline && !Succeeds(c, net, q))
      && (WentOnline(c.name) in log <==> wasOffline && Succeeds(c, net, q))
      && (wasOffline == !Succeeds(c, net, q) ==> log == [])
  {
    var o := Respond(c, net, q);
    OfflineLogSpec(c.name, wasOffline, FailureText(o));
    OnlineLogSpec(c.name, wasOffline, "");
  }

  // ---------------------------------------------------------------- the check loop

  /** Number of leading checks that get an answer. */
  function Answered(c: Ctx, net: Net, qs: seq<Query>): (k: nat)
    ensures k <= |qs|
    decreases |qs|
  {
    if |qs| == 0 || !Succeeds(c, net, qs[0]) then 0 else 1 + Answered(c, net, qs[1..])
  }

  /** Number of checks the loop sends: the answered ones and the first failure, if any. */
  function Attempted(c: Ctx, net: Net, qs: seq<Query>): (k: nat)
    ensures k <= |qs|
  {
    if Answered(c, net, qs) < |qs| then Answered(c, net, qs) + 1 else |qs|
  }

  /** The checks that get an answer are exactly those before the first failure. */
  lemma {:induction false} AnsweredSpec(c: Ctx, net: Net, qs: seq<Query>)
    ensures forall i :: 0 <= i < Answered(c, net, qs) ==> Succeeds(c, net, qs[i])
    ensures Answered(c, net, qs) < |qs| ==> !Succeeds(c, net, qs[Answered(c, net, qs)])
    decreases |qs|
  {
    if |qs| > 0 && Succeeds(c, net, qs[0]) {
      AnsweredSpec(c, net, qs[1..]);
      assert forall i :: 1 <= i < |qs| ==> qs[i] == qs[1..][i - 1];
    }
  }

  /** The answers the check loop parses, in order. */
  function Replies(c: Ctx, net: Net, qs: seq<Query>): (r: seq<Parsed>)
    ensures |r| == Answered(c, net, qs)
    decreases |qs|
  {
    if |qs| == 0 || !Succeeds(c, net, qs[0]) then []
    else [Parsed(qs[0], Answer(c, net, qs[0]).value)] + Replies(c, net, qs[1..])
  }

  /** The `i`-th answer parsed is the answer to the `i`-th check. */
  lemma {:induction false} RepliesSpec(c: Ctx, net: Net, qs: seq<Query>)
    ensures forall i :: 0 <= i < |Replies(c, net, qs)| ==>
      i < |qs| && Replies(c, net, qs)[i].query == qs[i] && Answer(c, net, qs[i]) == Some(Replies(c, net, qs)[i].body)
    decreases |qs|
  {
    if |qs| > 0 && Succeeds(c, net, qs[0]) {
      RepliesSpec(c, net, qs[1..]);
      var r, rest := Replies(c, net, qs), Replies(c, net, qs[1..]);
      assert r == [Parsed(qs[0], Answer(c, net, qs[0]).value)] + rest;
      forall i | 0 <= i < |r|
        ensures i < |qs| && r[i].query == qs[i] && Answer(c, net, qs[i]) == Some(r[i].body)
      {
        if i > 0 {
          assert r[i] == rest[i - 1] && qs[i] == qs[1..][i - 1];
        }
      }
    } else {
      assert Replies(c, net, qs) == [];
    }
  }

  /** The check loop stops at a check that fails. */
  lemma ChecksStops(c: Ctx, net: Net, s: Scan, qs: seq<Query>, i: nat)
    requires i < |qs| && !Succeeds(c, net, qs[i])
    ensures Checks(c, net, s, qs[i..]) == Ask(c, net, s, qs[i])
  {
    assert qs[i..][0] == qs[i];
  }

  /** The check loop goes on after a check that gets an answer, with that answer parsed. */
  lemma ChecksGoesOn(c: Ctx, net: Net, s: Scan, qs: seq<Query>, i: nat)
    requires i < |qs| && Succeeds(c, net, qs[i])
    ensures var a := Ask(c, net, s, qs[i]);
      Checks(c, net, s, qs[i..]) == Checks(c, net, a.(parsed := a.parsed + [Parsed(qs[i], Answer(c, net, qs[i]).value)]), qs[i + 1..])
  {
    assert qs[i..][0] == qs[i];
    assert qs[i..][1..] == qs[i + 1..];
  }

  /** The check loop sends exactly the first `Attempted` checks, in order. */
  lemma {:induction false} ChecksAsked(c: Ctx, net: Net, s: Scan, qs: seq<Query>)
    ensures Checks(c, net, s, qs).asked == s.asked + qs[..Attempted(c, net, qs)]
    decreases |qs|
  {
    if |qs| > 0 {
      var a := Ask(c, net, s, qs[0]);
      if Succeeds(c, net, qs[0]) {
        var a' := a.(parsed := a.parsed + [Parsed(qs[0], Answer(c, net, qs[0]).value)]);
        assert Checks(c, net, s, qs) == Checks(c, net, a', qs[1..]);
        ChecksAsked(c, net, a', qs[1..]);
        var k := Attempted(c, net, qs[1..]);
        assert Attempted(c, net, qs) == k + 1;
        assert qs[..k + 1] == [qs[0]] + qs[1..][..k];
      } else {
        assert Checks(c, net, s, qs) == a;
        assert qs[..1] == [qs[0]];
      }
    }
  }

  /** The check loop parses exactly the answers of the first `Answered` checks. */
  lemma {:induction false} ChecksParsed(c: Ctx, net: Net, s: Scan, qs: seq<Query>)
    ensures Checks(c, net, s, qs).parsed == s.parsed + Replies(c, net, qs)
    decreases |qs|
  {
    if |qs| > 0 {
      var a := Ask(c, net, s, qs[0]);
      if Succeeds(c, net, qs[0]) {
        var p := Parsed(qs[0], Answer(c, net, qs[0]).value);
        var a' := a.(parsed := a.parsed + [p]);
        assert Checks(c, net, s, qs) == Checks(c, net, a', qs[1..]);
        ChecksParsed(c, net, a', qs[1..]);
        assert Replies(c, net, qs) == [p] + Replies(c, net, qs[1..]);
        ConcatAssoc(s.parsed, [p], Replies(c, net, qs[1..]));
      } else {
        assert Checks(c, net, s, qs) == a;
      }
    }
  }

  /**
   * The device ends offline exactly when the last check sent failed, and as
   * before when none was sent; `busy` and `initialized` are untouched.
   */
  lemma {:induction false} ChecksFlags(c: Ctx, net: Net, s: Scan, qs: seq<Query>)
    ensures var r := Checks(c, net, s, qs);
      var k := Attempted(c, net, qs);
      && r.flags.busy == s.flags.busy && r.flags.initialized == s.flags.initialized
      && r.flags.offline == (if k == 0 then s.flags.offline else !Succeeds(c, net, qs[k - 1]))
    decreases |qs|
  {
    if |qs| > 0 {
      var a := Ask(c, net, s, qs[0]);
      if Succeeds(c, net, qs[0]) {
        var a' := a.(parsed := a.parsed + [Parsed(qs[0], Answer(c, net, qs[0]).value)]);
        assert Checks(c, net, s, qs) == Checks(c, net, a', qs[1..]);
        ChecksFlags(c, net, a', qs[1..]);
        var k := Attempted(c, net, qs[1..]);
        assert Attempted(c, net, qs) == k + 1;
        if k > 0 {
          assert qs[1..][k - 1] == qs[k];
        }
      } else {
        assert Checks(c, net, s, qs) == a;
      }
    }
  }

  /**
   * The check loop sends exactly the first `Attempted` checks, in order,
   * and parses exactly the answers of the first `Answered`; the device ends
   * offline exactly when the last check sent failed, and as before when
   * none was sent; `busy` and `initialized` are untouched.
   */
  lemma ChecksSpec(c: Ctx, net: Net, s: Scan, qs: seq<Query>)
    ensures var r := Checks(c, net, s, qs);
      var k := Attempted(c, net, qs);
      && r.asked == s.asked + qs[..k]
      && r.parsed == s.parsed + Replies(c, net, qs)
      && r.flags.busy == s.flags.busy && r.flags.initialized == s.flags.initialized
      && r.flags.offline == (if k == 0 then s.flags.offline else !Succeeds(c, net, qs[k - 1]))
  {
    ChecksAsked(c, net, s, qs);
    ChecksParsed(c, net, s, qs);
    ChecksFlags(c, net, s, qs);
  }

  // ---------------------------------------------------------------- scanDevice

  /** A poll that finds the device busy only logs the warning: the flags are unchanged and nothing is sent or parsed. */
  lemma TickWhenBusy(c: Ctx, net: Net, fl: Flags)
    requires fl.busy
    ensures Tick(c, net, fl) == Scan(fl, [Warning(c.name, BusyText)], [], [])
  {
  }

  /**
   * When the device is not initialised and the identity query fails, no
   * check is sent, nothing is parsed, and the device stays uninitialised,
   * idle and offline.
   */
  lemma TickInfoFails(c: Ctx, net: Net, fl: Flags)
    requires !fl.busy && !fl.initialized && !Succeeds(c, net, Info)
    ensures var r := Tick(c, net, fl);
      && r.asked == [Info] && r.parsed == [] && r.flags == Flags(false, false, true)
  {
  }

  /**
   * When the device is, or becomes, initialised, the checks of the context
   * are sent in order up to and including the first failure, the answers
   * parsed are the identity answer (when it was asked) and then those of
   * the answered checks, and the device ends offline exactly when the last
   * query sent failed. A failing check never resets `initialized`, and the
   * device is idle again afterwards.
   */
  lemma TickRunsChecks(c: Ctx, net: Net, fl: Flags)
    requires !fl.busy && (fl.initialized || Succeeds(c, net, Info))
    ensures var r := Tick(c, net, fl);
      var k := Attempted(c, net, c.queries);
      && r.asked == (if fl.initialized then [] else [Info]) + c.queries[..k]
      && r.parsed == (if fl.initialized then [] else [Parsed(Info, Answer(c, net, Info).value)]) + Replies(c, net, c.queries)
      && r.flags.initialized && !r.flags.busy
      && r.flags.offline == (if k > 0 then !Succeeds(c, net, c.queries[k - 1]) else if fl.initialized then fl.offline else false)
  {
    var s0 := Scan(fl.(busy := true), [], [], []);
    var s1 := if fl.initialized then s0 else InfoStep(c, net, s0);
    ChecksSpec(c, net, s1, c.queries);
  }

  /** A poll keeps the cache coherent with the store and never takes back a store event. */
  lemma TickCoherent(c: Ctx, net: Net, f: Forbidden, fl: Flags, st: Store)
    requires Coherent(st)
    ensures Coherent(TickStore(c, f, st, Tick(c, net, fl)))
    ensures st.events <= TickStore(c, f, st, Tick(c, net, fl)).events
  {
    var ps := Outputs(c.id, f, Tick(c, net, fl).parsed);
    ExecCoherent(st, ps);
    ExecWrites(st, ps);
  }
}
