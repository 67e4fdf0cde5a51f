/**
 * The state publisher: `updateState` (main.js:229-245) over the type cache
 * `STATEs` (main.js:140), and `initFolderObject` (main.js:283-295), both
 * stated on values. The host's object/state store is seen only through the
 * calls made to it, an ordered list of events; a declaration that fails is
 * logged and swallowed by `initObject` (main.js:206-213), so it changes
 * nothing here.
 */
module Store {
  import opened Js

  /** `common.type` of a state object. */
  datatype ValueType = BooleanType | NumberType | StringType

  datatype Value = BoolVal(b: bool) | NumVal(n: int) | StrVal(s: string)

  /**
   * The `common` part of a state object. `read: true` and `write: false`
   * are the same for every state the adapter declares and are left out;
   * `states` is the value-to-label table of the severity code (empty when
   * there is none).
   */
  datatype Common = Common(name: string, vtype: ValueType, role: string, states: seq<string>)

  /** One call into the host store. */
  datatype StoreEvent =
    | DeclareState(id: string, common: Common)          // extendObjectAsync of a state object
    | DeclareFolder(id: string, name: string)           // extendObjectAsync of a folder object
    | WriteState(id: string, value: Value, ack: bool, q: int)  // setStateAsync

  /** One request a parser makes: `initFolderObject(id, name)` or `updateState(id, value, q, common)`. */
  datatype Publish =
    | Folder(id: string, name: string)
    | Leaf(id: string, value: Value, q: int, common: Common)

  /** The adapter's type cache and what it has asked of the store so far. */
  datatype Store = Store(cache: map<string, ValueType>, events: seq<StoreEvent>)

  /** `!STATEs[pId] || STATEs[pId].type !== pCommon.type` */
  predicate NeedsDeclare(cache: map<string, ValueType>, id: string, t: ValueType) {
    id !in cache || cache[id] != t
  }

  /** One publish request against the store. */
  function Apply(s: Store, p: Publish): Store {
    match p
    case Folder(id, name) =>
      Store(s.cache, s.events + [DeclareFolder(id, name)])
    case Leaf(id, v, q, c) =>
      var declare := if NeedsDeclare(s.cache, id, c.vtype) then [DeclareState(id, c)] else [];
      Store(s.cache[id := c.vtype], s.events + declare + [WriteState(id, v, true, q)])
  }

  /** A sequence of publish requests, one after the other. */
  function Exec(s: Store, ps: seq<Publish>): Store
    decreases |ps|
  {
    if |ps| == 0 then s else Apply(Exec(s, ps[..|ps| - 1]), ps[|ps| - 1])
  }

  // ---------------------------------------------------------------- one updateState

  /**
   * `updateState(id, v, q, common)`: the cache records `common.type` for
   * `id` and for no other path; a declaration precedes the write exactly
   * when the path was unknown or cached with another type; one write with
   * `ack` set always follows.
   */
  lemma UpdateStateEffect(s: Store, id: string, v: Value, q: int, c: Common)
    ensures var r := Apply(s, Leaf(id, v, q, c));
      && id in r.cache && r.cache[id] == c.vtype
      && (forall k :: k != id ==> (k in r.cache <==> k in s.cache))
      && (forall k :: k != id && k in s.cache ==> r.cache[k] == s.cache[k])
      && r.events[..|s.events|] == s.events
      && r.events[|r.events| - 1] == WriteState(id, v, true, q)
      && (|r.events| == |s.events| + 2 <==> NeedsDeclare(s.cache, id, c.vtype))
      && (|r.events| == |s.events| + 2 ==> r.events[|s.events|] == DeclareState(id, c))
      && |r.events| - |s.events| in {1, 2}
  {
  }

  /** Publishing the same leaf again with the same type declares nothing a second time. */
  lemma UpdateStateTwice(s: Store, id: string, v: Value, w: Value, q: int, c: Common)
    ensures var r := Apply(s, Leaf(id, v, q, c));
      Apply(r, Leaf(id, w, q, c)) == Store(r.cache, r.events + [WriteState(id, w, true, q)])
  {
  }

  // ---------------------------------------------------------------- sequences of publishes

  lemma {:induction false} ExecAppend(s: Store, a: seq<Publish>, b: seq<Publish>)
    ensures Exec(s, a + b) == Exec(Exec(s, a), b)
    decreases |b|
  {
    if |b| == 0 {
      assert a + b == a;
    } else {
      assert (a + b)[..|a + b| - 1] == a + b[..|b| - 1];
      ExecAppend(s, a, b[..|b| - 1]);
    }
  }

  lemma ExecSnoc(s: Store, ps: seq<Publish>, p: Publish)
    ensures Exec(s, ps + [p]) == Apply(Exec(s, ps), p)
  {
    assert (ps + [p])[..|ps|] == ps;
  }

  /** The state values written by a list of store events, in order. */
  function Writes(es: seq<StoreEvent>): seq<(string, Value, bool, int)>
    decreases |es|
  {
    if |es| == 0 then []
    else
      var e := es[|es| - 1];
      Writes(es[..|es| - 1]) + (if e.WriteState? then [(e.id, e.value, e.ack, e.q)] else [])
  }

  /** The state values a list of publish requests asks for, in order. */
  function LeafWrites(ps: seq<Publish>): seq<(string, Value, bool, int)>
    decreases |ps|
  {
    if |ps| == 0 then []
    else
      var p := ps[|ps| - 1];
      LeafWrites(ps[..|ps| - 1]) + (if p.Leaf? then [(p.id, p.value, true, p.q)] else [])
  }

  lemma {:induction false} LeafWritesAppend(a: seq<Publish>, b: seq<Publish>)
    ensures LeafWrites(a + b) == LeafWrites(a) + LeafWrites(b)
    decreases |b|
  {
    if |b| == 0 {
      assert a + b == a;
    } else {
      assert (a + b)[..|a + b| - 1] == a + b[..|b| - 1];
      LeafWritesAppend(a, b[..|b| - 1]);
    }
  }

  lemma {:induction false} WritesAppend(a: seq<StoreEvent>, b: seq<StoreEvent>)
    ensures Writes(a + b) == Writes(a) + Writes(b)
    decreases |b|
  {
    if |b| == 0 {
      assert a + b == a;
    } else {
      assert (a + b)[..|a + b| - 1] == a + b[..|b| - 1];
      WritesAppend(a, b[..|b| - 1]);
    }
  }

  lemma ApplyWrites(s: Store, p: Publish)
    ensures s.events <= Apply(s, p).events
    ensures Writes(Apply(s, p).events) == Writes(s.events) + (if p.Leaf? then [(p.id, p.value, true, p.q)] else [])
  {
    match p {
      case Folder(id, name) =>
        WritesAppend(s.events, [DeclareFolder(id, name)]);
        assert Writes([DeclareFolder(id, name)]) == [];
      case Leaf(id, v, q, c) =>
        var w := WriteState(id, v, true, q);
        var declare := if NeedsDeclare(s.cache, id, c.vtype) then [DeclareState(id, c)] else [];
        assert s.events + declare + [w] == s.events + (declare + [w]);
        WritesAppend(s.events, declare + [w]);
        WritesAppend(declare, [w]);
        assert Writes(declare) == [] by {
          if |declare| == 1 { assert declare[..0] == []; }
        }
        assert [w][..0] == [];
    }
  }

  /**
   * The store only grows, and it receives exactly one acknowledged write
   * per leaf requested, in the order requested, and no other writes.
   */
  lemma {:induction false} ExecWrites(s: Store, ps: seq<Publish>)
    ensures s.events <= Exec(s, ps).events
    ensures Writes(Exec(s, ps).events) == Writes(s.events) + LeafWrites(ps)
    decreases |ps|
  {
    if |ps| > 0 {
      ExecWrites(s, ps[..|ps| - 1]);
      ApplyWrites(Exec(s, ps[..|ps| - 1]), ps[|ps| - 1]);
    }
  }

  /** The type of the last leaf requested for `id`, if any. */
  function LastType(ps: seq<Publish>, id: string): Option<ValueType>
    decreases |ps|
  {
    if |ps| == 0 then None
    else
      var p := ps[|ps| - 1];
      if p.Leaf? && p.id == id then Some(p.common.vtype) else LastType(ps[..|ps| - 1], id)
  }

  /** After a list of requests the cache holds, for each path, the type of the last leaf published there. */
  lemma {:induction false} ExecCache(s: Store, ps: seq<Publish>, id: string)
    ensures var c := Exec(s, ps).cache;
      match LastType(ps, id)
      case Some(t) => id in c && c[id] == t
      case None => (id in c <==> id in s.cache) && (id in c ==> c[id] == s.cache[id])
    decreases |ps|
  {
    if |ps| > 0 {
      ExecCache(s, ps[..|ps| - 1], id);
    }
  }

  // ---------------------------------------------------------------- the cache invariant

  /** The type of the last state declaration of `id` in a list of store events, if any. */
  function DeclaredType(es: seq<StoreEvent>, id: string): Option<ValueType>
    decreases |es|
  {
    if |es| == 0 then None
    else
      var e := es[|es| - 1];
      if e.DeclareState? && e.id == id then Some(e.common.vtype) else DeclaredType(es[..|es| - 1], id)
  }

  function CachedType(cache: map<string, ValueType>, id: string): Option<ValueType> {
    if id in cache then Some(cache[id]) else None
  }

  /** Every state write is preceded by a declaration of the same path. */
  ghost predicate WritesDeclared(es: seq<StoreEvent>) {
    forall k :: 0 <= k < |es| && es[k].WriteState? ==> DeclaredType(es[..k], es[k].id).Some?
  }

  /**
   * The cache tells the truth: it knows exactly the paths that have been
   * declared as states, with the type of their last declaration, and no
   * state was written before it was declared.
   */
  ghost predicate Coherent(s: Store) {
    && (forall id :: DeclaredType(s.events, id) == CachedType(s.cache, id))
    && WritesDeclared(s.events)
  }

  lemma EmptyCoherent()
    ensures Coherent(Store(map[], []))
  {
  }

  lemma DeclaredTypeSnoc(es: seq<StoreEvent>, e: StoreEvent, id: string)
    ensures DeclaredType(es + [e], id) == if e.DeclareState? && e.id == id then Some(e.common.vtype) else DeclaredType(es, id)
  {
    assert (es + [e])[..|es|] == es;
  }

  lemma {:induction false} ApplyCoherent(s: Store, p: Publish)
    requires Coherent(s)
    ensures Coherent(Apply(s, p))
  {
    var r := Apply(s, p);
    var n := |s.events|;
    assert r.events[..n] == s.events;
    forall k | 0 <= k < n ensures r.events[..k] == s.events[..k] {
    }
    match p {
    case Folder(id, name) =>
      forall x ensures DeclaredType(r.events, x) == CachedType(r.cache, x) {
        DeclaredTypeSnoc(s.events, DeclareFolder(id, name), x);
      }
    case Leaf(id, v, q, c) =>
      var w := WriteState(id, v, true, q);
      if NeedsDeclare(s.cache, id, c.vtype) {
        var d := DeclareState(id, c);
        assert r.events == s.events + [d] + [w];
        forall x ensures DeclaredType(r.events, x) == CachedType(r.cache, x) {
          DeclaredTypeSnoc(s.events, d, x);
          DeclaredTypeSnoc(s.events + [d], w, x);
        }
        assert r.events[..n + 1] == s.events + [d];
        DeclaredTypeSnoc(s.events, d, id);
      } else {
        assert r.events == s.events + [w];
        forall x ensures DeclaredType(r.events, x) == CachedType(r.cache, x) {
          DeclaredTypeSnoc(s.events, w, x);
        }
        assert DeclaredType(r.events[..n], id) == Some(c.vtype);
      }
    }
  }

  /** Every run of publish requests keeps the cache coherent with the store. */
  lemma {:induction false} ExecCoherent(s: Store, ps: seq<Publish>)
    requires Coherent(s)
    ensures Coherent(Exec(s, ps))
    decreases |ps|
  {
    if |ps| > 0 {
      ExecCoherent(s, ps[..|ps| - 1]);
      ApplyCoherent(Exec(s, ps[..|ps| - 1]), ps[|ps| - 1]);
    }
  }
}
