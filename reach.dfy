/**
 * The reachability flag of a device, `handleOffline` and `handleOnline`
 * (main.js:167-193), and the adapter log entries they and `scanDevice`
 * write. Only the events are modelled, not the wording of debug output.
 */
module Reach {

  /** One entry of the adapter log that concerns a device. */
  datatype LogEvent =
    | Warning(device: string, text: string)   // log.warn('[name] text')
    | Notice(device: string, text: string)    // log.info('[name] text')
    | WentOffline(device: string)             // log.info('[name] offline')
    | WentOnline(device: string)              // log.info('[name] online')

  /** The log entries of `handleOffline(ctx, msg)` on a device whose flag was `wasOffline`. */
  function OfflineLog(name: string, wasOffline: bool, msg: string): seq<LogEvent> {
    if wasOffline then []
    else (if msg != "" then [Warning(name, msg)] else []) + [WentOffline(name)]
  }

  /** The log entries of `handleOnline(ctx, msg)` on a device whose flag was `wasOffline`. */
  function OnlineLog(name: string, wasOffline: bool, msg: string): seq<LogEvent> {
    if !wasOffline then []
    else (if msg != "" then [Notice(name, msg)] else []) + [WentOnline(name)]
  }

  /** Whether an entry reports a change of reachability. */
  predicate IsFlip(e: LogEvent) {
    e.WentOffline? || e.WentOnline?
  }

  /** The reachability changes reported by a list of log entries, in order: `true` for offline. */
  function Flips(log: seq<LogEvent>): seq<bool>
    decreases |log|
  {
    if |log| == 0 then []
    else Flips(log[..|log| - 1]) + (if IsFlip(log[|log| - 1]) then [log[|log| - 1].WentOffline?] else [])
  }

  lemma {:induction false} FlipsAppend(a: seq<LogEvent>, b: seq<LogEvent>)
    ensures Flips(a + b) == Flips(a) + Flips(b)
    decreases |b|
  {
    if |b| == 0 {
      assert a + b == a;
    } else {
      assert (a + b)[..|a + b| - 1] == a + b[..|b| - 1];
      FlipsAppend(a, b[..|b| - 1]);
    }
  }

  /**
   * `handleOffline` reports `offline` exactly when the device was online,
   * the message only then and only when it is not empty, and nothing when
   * the device was already offline.
   */
  lemma OfflineLogSpec(name: string, wasOffline: bool, msg: string)
    ensures var log := OfflineLog(name, wasOffline, msg);
      && (WentOffline(name) in log <==> !wasOffline)
      && (Warning(name, msg) in log <==> !wasOffline && msg != "")
      && (wasOffline ==> log == [])
      && (forall e :: e in log ==> e.device == name && !e.WentOnline? && !e.Notice?)
      && Flips(log) == (if wasOffline then [] else [true])
  {
    var m: seq<LogEvent> := if msg != "" then [Warning(name, msg)] else [];
    FlipsAppend(m, [WentOffline(name)]);
    assert [WentOffline(name)][..0] == [];
    if msg != "" { assert m[..0] == []; }
  }

  /** The mirror image for `handleOnline`. */
  lemma OnlineLogSpec(name: string, wasOffline: bool, msg: string)
    ensures var log := OnlineLog(name, wasOffline, msg);
      && (WentOnline(name) in log <==> wasOffline)
      && (Notice(name, msg) in log <==> wasOffline && msg != "")
      && (!wasOffline ==> log == [])
      && (forall e :: e in log ==> e.device == name && !e.WentOffline? && !e.Warning?)
      && Flips(log) == (if wasOffline then [false] else [])
  {
    var m: seq<LogEvent> := if msg != "" then [Notice(name, msg)] else [];
    FlipsAppend(m, [WentOnline(name)]);
    assert [WentOnline(name)][..0] == [];
    if msg != "" { assert m[..0] == []; }
  }

  // ---------------------------------------------------------------- runs of calls

  /** One call: `handleOffline(ctx, msg)` when `down`, else `handleOnline(ctx, msg)`. */
  datatype Call = Call(down: bool, msg: string)

  /** The flag and the log entries after a run of calls, starting from the flag `offline`. */
  function Run(name: string, offline: bool, calls: seq<Call>): (bool, seq<LogEvent>)
    decreases |calls|
  {
    if |calls| == 0 then (offline, [])
    else
      var (o, log) := Run(name, offline, calls[..|calls| - 1]);
      var c := calls[|calls| - 1];
      (c.down, log + (if c.down then OfflineLog(name, o, c.msg) else OnlineLog(name, o, c.msg)))
  }

  /** The changes reported strictly alternate, the first one leaving the initial state `start`. */
  predicate Alternates(flips: seq<bool>, start: bool) {
    && (|flips| > 0 ==> flips[0] != start)
    && (forall i :: 0 <= i < |flips| - 1 ==> flips[i + 1] != flips[i])
  }

  /** The state the reported changes lead to from `start`. */
  function Reached(flips: seq<bool>, start: bool): bool {
    if |flips| == 0 then start else flips[|flips| - 1]
  }

  lemma AlternatesSnoc(flips: seq<bool>, start: bool, b: bool)
    requires Alternates(flips, start) && b != Reached(flips, start)
    ensures Alternates(flips + [b], start) && Reached(flips + [b], start) == b
  {
    assert forall i :: 0 <= i < |flips| ==> (flips + [b])[i] == flips[i];
  }

  /**
   * Over any run of calls, a change is reported only on a real transition:
   * the reported changes alternate, the first one leaves the initial state,
   * and the flag afterwards is the state they lead to, which is also the
   * direction of the last call.
   */
  lemma {:induction false} RunAlternates(name: string, offline: bool, calls: seq<Call>)
    ensures var (o, log) := Run(name, offline, calls);
      && Alternates(Flips(log), offline)
      && o == Reached(Flips(log), offline)
      && (|calls| > 0 ==> o == calls[|calls| - 1].down)
    decreases |calls|
  {
    if |calls| > 0 {
      var p := calls[..|calls| - 1];
      RunAlternates(name, offline, p);
      var o, log := Run(name, offline, p).0, Run(name, offline, p).1;
      var c := calls[|calls| - 1];
      var more := if c.down then OfflineLog(name, o, c.msg) else OnlineLog(name, o, c.msg);
      assert Run(name, offline, calls).0 == c.down;
      assert Run(name, offline, calls).1 == log + more;
      FlipsAppend(log, more);
      var fs := Flips(log);
      if c.down {
        OfflineLogSpec(name, o, c.msg);
      } else {
        OnlineLogSpec(name, o, c.msg);
      }
      if c.down == o {
        assert Flips(more) == [];
        assert Flips(log + more) == fs;
      } else {
        assert Flips(more) == [c.down];
        assert Flips(log + more) == fs + [c.down];
        AlternatesSnoc(fs, offline, c.down);
      }
    } else {
      assert Run(name, offline, calls).1 == [];
      assert Flips([]) == [];
    }
  }

  /** Calls in the state the device is already in report nothing. */
  lemma {:induction false} RunSteady(name: string, offline: bool, calls: seq<Call>)
    requires forall i :: 0 <= i < |calls| ==> calls[i].down == offline
    ensures Run(name, offline, calls) == (offline, [])
    decreases |calls|
  {
    if |calls| > 0 {
      var p := calls[..|calls| - 1];
      assert forall i :: 0 <= i < |p| ==> p[i] == calls[i];
      RunSteady(name, offline, p);
      var c := calls[|calls| - 1];
      assert Run(name, offline, p) == (offline, []);
      var more := if c.down then OfflineLog(name, offline, c.msg) else OnlineLog(name, offline, c.msg);
      assert more == [];
      assert Run(name, offline, calls) == (c.down, [] + more);
      assert [] + more == [];
      assert (c.down, [] + more) == (offline, []);
    }
  }
}
