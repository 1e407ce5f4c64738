/**
 * The reactive kernel of fino:signals: writes, batches, nested flushes over subscriber snapshots, and
 * derivations whose dependencies are tracked afresh on every run.
 */
module Signals {
  import opened Basics

  type Id = nat

  /** Signal values are only compared for identity, so any integer stands for one. */
  type Value = int

  const UNDEFINED: Value := 0

  type Env = map<Id, Value>

  function Lookup(env: Env, x: Id): Value { if x in env then env[x] else UNDEFINED }

  /** A function passed to `computed` or `effect`: the signals it reads, in order, and its result. */
  datatype Derivation = Derivation(trace: Env -> seq<Id>, value: Env -> Value)

  /** What a derivation reads and returns depends on nothing but the values it reads. */
  ghost predicate Pure(d: Derivation) {
    forall e, e' ::
      (forall x :: x in d.trace(e) ==> Lookup(e, x) == Lookup(e', x))
      ==> d.trace(e') == d.trace(e) && d.value(e') == d.value(e)
  }

  /** Every signal it may ever read ranks below `r`. */
  ghost predicate ReadsBelow(d: Derivation, rank: Id -> nat, r: nat) {
    forall e, x :: x in d.trace(e) ==> rank(x) < r
  }

  /** `observeReads` reports each signal once, in first-read order. */
  function Unique(s: seq<Id>): (u: seq<Id>)
    ensures forall x :: x in u <==> x in s
    ensures NoDup(u)
  {
    if s == [] then []
    else
      var front, last := Unique(s[..|s| - 1]), s[|s| - 1];
      assert s == s[..|s| - 1] + [last];
      if last in front then front else front + [last]
  }

  /** What is first read earlier is reported earlier. */
  lemma {:induction false} UniqueInOrder(s: seq<Id>, i: nat, j: nat)
    requires i < j < |Unique(s)|
    ensures IndexOf(s, Unique(s)[i]) < IndexOf(s, Unique(s)[j])
  {
    hide IndexOf;
    var front, last := s[..|s| - 1], s[|s| - 1];
    assert s == front + [last];
    var x, y := Unique(s)[i], Unique(s)[j];
    if j < |Unique(front)| {
      UniqueInOrder(front, i, j);
      IndexIn(front, [last], x);
      IndexIn(front, [last], y);
    } else {
      IndexIn(front, [last], x);
      assert y !in front;
    }
  }

  lemma IndexIn(a: seq<Id>, b: seq<Id>, x: Id)
    requires x in a
    ensures IndexOf(a + b, x) == IndexOf(a, x)
  {
    hide IndexOf;
    var k := IndexOf(a, x);
    assert (a + b)[..k] == a[..k];
    IndexOfIs(a + b, x, k);
  }

  method ObserveReads(d: Derivation, env: Env) returns (value: Value, signals: seq<Id>)
    ensures value == d.value(env) && signals == Unique(d.trace(env))
  {
    var trace := d.trace(env);
    signals := [];
    for i := 0 to |trace|
      invariant signals == Unique(trace[..i])
    {
      assert trace[..i + 1][..i] == trace[..i];
      if trace[i] !in signals {
        signals := signals + [trace[i]];
      }
    }
    assert trace[..|trace|] == trace;
    value := d.value(env);
  }

  // ----- who subscribes to whom -----

  type Links = map<Id, seq<Id>>

  function Of(m: Links, x: Id): seq<Id> { if x in m then m[x] else [] }

  /** Subscriber sets and dependency lists are each other's inverse, and point upwards in rank. */
  ghost predicate Linked(subs: Links, deps: Links, rank: Id -> nat) {
    && (forall x, c :: c in Of(subs, x) <==> x in Of(deps, c))
    && (forall x :: NoDup(Of(subs, x)))
    && (forall c, x :: x in Of(deps, c) ==> rank(x) < rank(c))
  }

  lemma Unlinked(subs: Links, deps: Links, rank: Id -> nat, c: Id)
    requires Linked(subs, deps, rank) && Of(deps, c) == []
    ensures forall x :: c !in Of(subs, x)
  {
    assert forall x :: c in Of(subs, x) <==> x in Of(deps, c);
  }

  /** Dispose `c`'s subscriptions. */
  method Unsubscribe(subs: Links, signals: seq<Id>, c: Id) returns (r: Links)
    requires NoDup(signals)
    ensures forall x :: Of(r, x) == if x in signals then Without(Of(subs, x), c) else Of(subs, x)
  {
    r := subs;
    for i := 0 to |signals|
      invariant forall x :: Of(r, x) == if x in signals[..i] then Without(Of(subs, x), c) else Of(subs, x)
    {
      r := r[signals[i] := Without(Of(r, signals[i]), c)];
    }
    assert signals[..|signals|] == signals;
  }

  /** `subscribeAll`. */
  method SubscribeAll(subs: Links, signals: seq<Id>, c: Id) returns (r: Links)
    requires NoDup(signals) && forall x :: x in signals ==> c !in Of(subs, x)
    ensures forall x :: Of(r, x) == if x in signals then Of(subs, x) + [c] else Of(subs, x)
  {
    r := subs;
    for i := 0 to |signals|
      invariant forall x :: Of(r, x) == if x in signals[..i] then Of(subs, x) + [c] else Of(subs, x)
    {
      r := r[signals[i] := Of(r, signals[i]) + [c]];
    }
    assert signals[..|signals|] == signals;
  }

  lemma UnlinkStep(subs: Links, subs': Links, deps: Links, rank: Id -> nat, c: Id)
    requires Linked(subs, deps, rank)
    requires forall x :: Of(subs', x) == if x in Of(deps, c) then Without(Of(subs, x), c) else Of(subs, x)
    ensures Linked(subs', deps[c := []], rank)
  {
    var deps' := deps[c := []];
    forall x, b ensures b in Of(subs', x) <==> x in Of(deps', b) {
      WithoutProperties(Of(subs, x), c);
      assert b in Of(subs, x) <==> x in Of(deps, b);
    }
    forall x ensures NoDup(Of(subs', x)) {
      WithoutProperties(Of(subs, x), c);
    }
    forall b, x | x in Of(deps', b) ensures rank(x) < rank(b) {
      assert x in Of(deps, b);
    }
  }

  lemma LinkStep(subs: Links, subs': Links, deps: Links, rank: Id -> nat, c: Id, signals: seq<Id>)
    requires Linked(subs, deps, rank) && Of(deps, c) == []
    requires forall x :: x in signals ==> rank(x) < rank(c)
    requires forall x :: Of(subs', x) == if x in signals then Of(subs, x) + [c] else Of(subs, x)
    ensures Linked(subs', deps[c := signals], rank)
  {
    var deps' := deps[c := signals];
    forall x, b ensures b in Of(subs', x) <==> x in Of(deps', b) {
      assert b in Of(subs, x) <==> x in Of(deps, b);
    }
    forall x ensures NoDup(Of(subs', x)) {
      assert c in Of(subs, x) <==> x in Of(deps, c);
    }
    forall b, x | x in Of(deps', b) ensures rank(x) < rank(b) {
      assert b != c ==> x in Of(deps, b);
    }
  }

  // ----- which derivations are up to date -----

  ghost predicate WellDefined(defs: map<Id, Derivation>, rank: Id -> nat, top: nat) {
    forall c :: c in defs ==> Pure(defs[c]) && ReadsBelow(defs[c], rank, rank(c)) && rank(c) <= top
  }

  /** Only live derivations subscribe, and to each signal once. */
  ghost predicate Shaped(defs: map<Id, Derivation>, deps: Links, disposed: set<Id>) {
    && (forall c :: Of(deps, c) != [] ==> c in defs && c !in disposed)
    && (forall c :: NoDup(Of(deps, c)))
  }

  /** A computed's signal holds what its last run returned. */
  ghost predicate Published(defs: map<Id, Derivation>, exempt: set<Id>, value: Env, seen: Env) {
    forall c :: c in defs && c !in exempt ==> Lookup(value, c) == Lookup(seen, c)
  }

  lemma PublishedRun(defs: map<Id, Derivation>, exempt: set<Id>, exempt': set<Id>, value: Env, seen: Env, c: Id,
                     v: Value)
    requires Published(defs, exempt, value, seen) && exempt <= exempt' + {c}
    requires c !in exempt' ==> Lookup(value, c) == v
    ensures Published(defs, exempt', value, seen[c := v])
  {
  }

  lemma ShapedDispose(defs: map<Id, Derivation>, deps: Links, disposed: set<Id>, c: Id)
    requires Shaped(defs, deps, disposed) && Of(deps, c) == []
    ensures Shaped(defs, deps, disposed + {c})
  {
    forall b | Of(deps, b) != [] ensures b in defs && b !in disposed + {c} {
    }
  }

  lemma DefinedStep(defs: map<Id, Derivation>, deps: Links, disposed: set<Id>, rank: Id -> nat, top: nat, top': nat,
      c: Id, d: Derivation)
    requires WellDefined(defs, rank, top) && Shaped(defs, deps, disposed)
    requires Pure(d) && ReadsBelow(d, rank, rank(c)) && rank(c) <= top' && top <= top'
    ensures WellDefined(defs[c := d], rank, top') && Shaped(defs[c := d], deps, disposed)
  {
    forall b | Of(deps, b) != [] ensures b in defs[c := d] && b !in disposed {
    }
  }

  /** Subscribers of `x` are defined and rank above it. */
  lemma Callable(defs: map<Id, Derivation>, subs: Links, deps: Links, disposed: set<Id>, rank: Id -> nat, top: nat,
      x: Id)
    requires Linked(subs, deps, rank) && WellDefined(defs, rank, top) && Shaped(defs, deps, disposed)
    ensures forall c :: c in Of(subs, x) ==> c in defs && rank(x) < rank(c) <= top
  {
    forall c | c in Of(subs, x) ensures c in defs && rank(x) < rank(c) <= top {
      assert x in Of(deps, c);
    }
  }

  lemma ShapedAt(defs: map<Id, Derivation>, deps: Links, disposed: set<Id>, c: Id)
    requires Shaped(defs, deps, disposed)
    ensures NoDup(Of(deps, c)) && (Of(deps, c) != [] ==> c in defs && c !in disposed)
  {
  }

  lemma ShapedStep(defs: map<Id, Derivation>, deps: Links, disposed: set<Id>, c: Id, signals: seq<Id>)
    requires Shaped(defs, deps, disposed) && NoDup(signals) && (signals != [] ==> c in defs && c !in disposed)
    ensures Shaped(defs, deps[c := signals], disposed)
  {
    var deps' := deps[c := signals];
    forall b | Of(deps', b) != [] ensures b in defs && b !in disposed {
      assert b != c ==> Of(deps', b) == Of(deps, b);
    }
    forall b ensures NoDup(Of(deps', b)) {
      assert b != c ==> Of(deps', b) == Of(deps, b);
    }
  }

  /** The last run of `c` is what running it now would give. */
  ghost predicate Current(d: Derivation, env: Env, deps: seq<Id>, out: Value) {
    deps == Unique(d.trace(env)) && out == d.value(env)
  }

  /** Up to date, or due to run: waiting in a snapshot, or subscribed to a signal yet to be flushed. */
  ghost predicate Settled(defs: map<Id, Derivation>, env: Env, deps: Links, seen: Env, dirty: set<Id>, due: set<Id>) {
    forall c :: c in defs && c !in due ==>
                  || Current(defs[c], env, Of(deps, c), Lookup(seen, c))
                  || exists x :: x in Of(deps, c) && x in dirty
  }

  lemma CurrentFrame(d: Derivation, env: Env, env': Env, deps: seq<Id>, out: Value)
    requires Pure(d) && Current(d, env, deps, out)
    requires forall x :: x in deps ==> Lookup(env, x) == Lookup(env', x)
    ensures Current(d, env', deps, out)
  {
    assert forall x :: x in d.trace(env) ==> x in Unique(d.trace(env));
  }

  /** Writing `x` makes its subscribers due, through `x` being dirty; nobody else notices. */
  lemma WriteStep(defs: map<Id, Derivation>, rank: Id -> nat, top: nat, env: Env, deps: Links, seen: Env,
      dirty: set<Id>, due: set<Id>, x: Id, v: Value)
    requires WellDefined(defs, rank, top)
    requires Settled(defs, env, deps, seen, dirty, due)
    ensures Settled(defs, env[x := v], deps, seen, dirty + {x}, due)
  {
    forall c | c in defs && c !in due
      ensures Current(defs[c], env[x := v], Of(deps, c), Lookup(seen, c))
           || exists y :: y in Of(deps, c) && y in dirty + {x}
    {
      if y :| y in Of(deps, c) && y in dirty {
        assert y in dirty + {x};
      } else if x in Of(deps, c) {
        assert x in dirty + {x};
      } else {
        CurrentFrame(defs[c], env, env[x := v], Of(deps, c), Lookup(seen, c));
      }
    }
  }

  /** Taking the snapshot of `x`'s subscribers makes exactly those due that `x` excused. */
  lemma SnapshotStep(defs: map<Id, Derivation>, env: Env, subs: Links, deps: Links, rank: Id -> nat, seen: Env,
                     dirty: set<Id>, due: set<Id>, due': set<Id>, x: Id)
    requires Linked(subs, deps, rank) && Settled(defs, env, deps, seen, dirty, due)
    requires due <= due' && forall c :: c in Of(subs, x) ==> c in due'
    ensures Settled(defs, env, deps, seen, dirty - {x}, due')
  {
    forall c | c in defs && c !in due'
      ensures Current(defs[c], env, Of(deps, c), Lookup(seen, c))
           || exists y :: y in Of(deps, c) && y in dirty - {x}
    {
      assert c in Of(subs, x) <==> x in Of(deps, c);
      if y :| y in Of(deps, c) && y in dirty {
        assert y in dirty - {x};
      }
    }
  }

  lemma SettledMonotone(defs: map<Id, Derivation>, env: Env, deps: Links, seen: Env, dirty: set<Id>, due: set<Id>,
      due': set<Id>)
    requires Settled(defs, env, deps, seen, dirty, due) && due <= due'
    ensures Settled(defs, env, deps, seen, dirty, due')
  {
  }

  /** A signal nobody reads may appear with any value. */
  lemma CreateStep(defs: map<Id, Derivation>, rank: Id -> nat, top: nat, env: Env, deps: Links, seen: Env,
      dirty: set<Id>, due: set<Id>, x: Id, v: Value)
    requires WellDefined(defs, rank, top)
    requires Settled(defs, env, deps, seen, dirty, due) && forall c :: x !in Of(deps, c)
    ensures Settled(defs, env[x := v], deps, seen, dirty, due)
  {
    forall c | c in defs && c !in due && Current(defs[c], env, Of(deps, c), Lookup(seen, c))
      ensures Current(defs[c], env[x := v], Of(deps, c), Lookup(seen, c))
    {
      CurrentFrame(defs[c], env, env[x := v], Of(deps, c), Lookup(seen, c));
    }
  }

  lemma DefineStep(defs: map<Id, Derivation>, env: Env, deps: Links, seen: Env, dirty: set<Id>, due: set<Id>, c: Id,
      d: Derivation)
    requires Settled(defs, env, deps, seen, dirty, due)
    ensures Settled(defs[c := d], env, deps, seen, dirty, due + {c})
  {
  }

  /** A derivation that is due may be cut off from its signals. */
  lemma UnsettledStep(defs: map<Id, Derivation>, env: Env, deps: Links, seen: Env, dirty: set<Id>, due: set<Id>, c: Id)
    requires Settled(defs, env, deps, seen, dirty, due) && c in due
    ensures Settled(defs, env, deps[c := []], seen, dirty, due)
  {
    forall b | b in defs && b !in due
      ensures Current(defs[b], env, Of(deps[c := []], b), Lookup(seen, b)) || exists y ::
            y in Of(deps[c := []], b) && y in dirty
    {
      assert Of(deps[c := []], b) == Of(deps, b);
    }
  }

  /** A run of `c` that read the present values brings it up to date. */
  lemma RunStep(defs: map<Id, Derivation>, rank: Id -> nat, top: nat, env0: Env, env: Env, deps: Links, seen: Env,
      dirty: set<Id>, due: set<Id>, c: Id)
    requires c in defs && WellDefined(defs, rank, top)
    requires forall x :: x in defs[c].trace(env0) ==> Lookup(env0, x) == Lookup(env, x)
    requires Settled(defs, env, deps, seen, dirty, due + {c})
    ensures Settled(defs, env, deps[c := Unique(defs[c].trace(env0))], seen[c := defs[c].value(env0)], dirty, due)
  {
    var deps', seen' := deps[c := Unique(defs[c].trace(env0))], seen[c := defs[c].value(env0)];
    forall b | b in defs && b !in due
      ensures Current(defs[b], env, Of(deps', b), Lookup(seen', b)) || exists y :: y in Of(deps', b) && y in dirty
    {
      if b != c {
        assert Of(deps', b) == Of(deps, b) && Lookup(seen', b) == Lookup(seen, b);
      }
    }
  }

  // ----- what subscribers are told -----

  /** One notification: subscribers are called with the value and the previous value. */
  datatype Notice = Notice(id: Id, value: Value, previous: Value)

  /** The value subscribers of `x` were last told of; at first, the value it was created with. */
  ghost function Told(log: seq<Notice>, initial: Env, x: Id): Value {
    if log == [] then Lookup(initial, x)
    else if log[|log| - 1].id == x then log[|log| - 1].value
    else Told(log[..|log| - 1], initial, x)
  }

  /** Each notification starts from the value the one before it ended with: no change goes untold. */
  ghost predicate Gapless(log: seq<Notice>, initial: Env) {
    forall i :: 0 <= i < |log| ==> log[i].previous == Told(log[..i], initial, log[i].id)
  }

  ghost predicate Telling(log: seq<Notice>, initial: Env, value: Env, previous: Env, dirty: set<Id>) {
    && Gapless(log, initial)
    && forall x :: Told(log, initial, x) == if x in dirty then Lookup(previous, x) else Lookup(value, x)
  }

  /** Nothing was told since the signals had the values of `atOpen`. */
  ghost predicate Remembered(log: seq<Notice>, initial: Env, atOpen: Env, value: Env) {
    forall x :: x in atOpen ==> x in value && Told(log, initial, x) == atOpen[x]
  }

  lemma RememberedMore(log: seq<Notice>, initial: Env, atOpen: Env, value: Env, x: Id, v: Value)
    requires Remembered(log, initial, atOpen, value) && x !in value
    ensures Remembered(log, initial[x := v], atOpen, value[x := v])
  {
    hide Told;
    forall y | y in atOpen ensures Told(log, initial[x := v], y) == atOpen[y] {
      ToldElsewhere(log, initial, initial[x := v], y);
    }
  }

  lemma RememberedGrows(log: seq<Notice>, initial: Env, atOpen: Env, value: Env, value': Env)
    requires Remembered(log, initial, atOpen, value) && forall x :: x in value ==> x in value'
    ensures Remembered(log, initial, atOpen, value')
  {
    hide Told;
  }

  lemma TellStep(log: seq<Notice>, initial: Env, value: Env, previous: Env, dirty: set<Id>, x: Id)
    requires Telling(log, initial, value, previous, dirty) && x in dirty
    ensures Telling(log + [Notice(x, Lookup(value, x), Lookup(previous, x))], initial, value, previous, dirty - {x})
  {
    var log' := log + [Notice(x, Lookup(value, x), Lookup(previous, x))];
    assert log'[..|log|] == log;
    forall i | 0 <= i < |log'| ensures log'[i].previous == Told(log'[..i], initial, log'[i].id) {
      if i < |log| { assert log'[..i] == log[..i]; }
    }
  }

  /** A write keeps the value last told, in `previous`, until the flush. */
  lemma TellWriteStep(log: seq<Notice>, initial: Env, value: Env, previous: Env, dirty: set<Id>, x: Id, v: Value)
    requires Telling(log, initial, value, previous, dirty)
    ensures var previous' := if x in dirty then previous else previous[x := Lookup(value, x)];
            Telling(log, initial, value[x := v], previous', dirty + {x})
  {
  }

  lemma {:induction false} ToldElsewhere(log: seq<Notice>, initial: Env, initial': Env, x: Id)
    requires Lookup(initial', x) == Lookup(initial, x)
    ensures Told(log, initial', x) == Told(log, initial, x)
  {
    if log != [] { ToldElsewhere(log[..|log| - 1], initial, initial', x); }
  }

  lemma {:induction false} ToldNothing(log: seq<Notice>, initial: Env, x: Id)
    requires forall i :: 0 <= i < |log| ==> log[i].id != x
    ensures Told(log, initial, x) == Lookup(initial, x)
  {
    if log != [] { ToldNothing(log[..|log| - 1], initial, x); }
  }

  lemma TellCreateStep(log: seq<Notice>, initial: Env, value: Env, previous: Env, dirty: set<Id>, x: Id, v: Value)
    requires Telling(log, initial, value, previous, dirty) && x !in dirty
    requires forall i :: 0 <= i < |log| ==> log[i].id != x
    ensures Telling(log, initial[x := v], value[x := v], previous, dirty)
  {
    forall y ensures Told(log, initial[x := v], y) == if y in dirty then Lookup(previous, y)
        else Lookup(value[x := v], y) {
      if y == x { ToldNothing(log, initial[x := v], x); } else { ToldElsewhere(log, initial, initial[x := v], y); }
    }
    forall i | 0 <= i < |log| ensures log[i].previous == Told(log[..i], initial[x := v], log[i].id) {
      ToldElsewhere(log[..i], initial, initial[x := v], log[i].id);
    }
  }

  // ----- what is known under which identity -----

  /** Only created signals have values, are dirty or have told; only derivations run, have results or are disposed. */
  ghost predicate Named(initial: Env, value: Env, dirty: set<Id>, log: seq<Notice>, defs: map<Id, Derivation>,
                        effects: set<Id>, seen: Env, busy: set<Id>) {
    && value.Keys == initial.Keys && dirty <= initial.Keys && (forall i :: 0 <= i < |log| ==> log[i].id in initial)
    && seen.Keys <= defs.Keys && busy <= defs.Keys && (forall c :: c in defs && c !in effects ==> c in initial)
  }

  lemma NamedWrite(initial: Env, value: Env, dirty: set<Id>, log: seq<Notice>, defs: map<Id, Derivation>,
                   effects: set<Id>, seen: Env, busy: set<Id>, x: Id, v: Value)
    requires Named(initial, value, dirty, log, defs, effects, seen, busy)
    ensures x in value ==> Named(initial, value[x := v], dirty + {x}, log, defs, effects, seen, busy)
    ensures Named(initial[x := v], value[x := v], dirty, log, defs, effects, seen, busy)
  {
  }

  lemma NamedRun(initial: Env, value: Env, dirty: set<Id>, log: seq<Notice>, defs: map<Id, Derivation>,
                 effects: set<Id>, seen: Env, busy: set<Id>, busy': set<Id>, c: Id, v: Value)
    requires Named(initial, value, dirty, log, defs, effects, seen, busy) && c in defs && busy' <= busy + {c}
    ensures Named(initial, value, dirty, log, defs, effects, seen[c := v], busy')
    ensures Named(initial, value, dirty, log, defs, effects, seen, busy')
  {
  }

  // ----- what an operation on one signal leaves alone -----

  /** Nothing ranked at or below `r` changes, and no source signal, apart from `x`. */
  ghost predicate Unmoved(defs: map<Id, Derivation>, rank: Id -> nat, r: nat, x: Id, value: Env, deps: Links,
                          dirty: set<Id>, value': Env, deps': Links, dirty': set<Id>) {
    && (forall y :: rank(y) <= r && y != x ==> Lookup(value', y) == Lookup(value, y) && Of(deps', y) == Of(deps, y))
    && (forall y :: y !in defs && y != x ==> Lookup(value', y) == Lookup(value, y) && (y in dirty' <==> y in dirty))
    && (forall y :: y in value ==> y in value')
  }

  lemma UnmovedSame(defs: map<Id, Derivation>, rank: Id -> nat, r: nat, x: Id, value: Env, deps: Links,
                    dirty: set<Id>)
    ensures Unmoved(defs, rank, r, x, value, deps, dirty, value, deps, dirty)
  {
  }

  lemma UnmovedWrite(defs: map<Id, Derivation>, rank: Id -> nat, r: nat, x: Id, value: Env, deps: Links,
                     dirty: set<Id>, v: Value)
    ensures Unmoved(defs, rank, r, x, value, deps, dirty, value[x := v], deps, dirty + {x})
    ensures Unmoved(defs, rank, r, x, value, deps, dirty, value, deps, dirty - {x})
  {
  }

  lemma UnmovedLink(defs: map<Id, Derivation>, rank: Id -> nat, r: nat, x: Id, value: Env, deps: Links, deps': Links,
                    dirty: set<Id>)
    requires forall b :: b != x ==> Of(deps', b) == Of(deps, b)
    ensures Unmoved(defs, rank, r, x, value, deps, dirty, value, deps', dirty)
  {
  }

  lemma UnmovedOn(defs: map<Id, Derivation>, rank: Id -> nat, r: nat, x: Id, v: Env, d: Links, s: set<Id>, v': Env,
                  d': Links, s': set<Id>, v'': Env, d'': Links, s'': set<Id>)
    requires Unmoved(defs, rank, r, x, v, d, s, v', d', s') && Unmoved(defs, rank, r, x, v', d', s', v'', d'', s'')
    ensures Unmoved(defs, rank, r, x, v, d, s, v'', d'', s'')
  {
    hide Lookup, Of;
  }

  /** A run of a derivation above `x` moves nothing that a write of `x` does not, nor `x` itself. */
  lemma UnmovedAbove(defs: map<Id, Derivation>, rank: Id -> nat, x: Id, c: Id, v: Env, d: Links, s: set<Id>, v': Env,
                     d': Links, s': set<Id>)
    requires Unmoved(defs, rank, rank(c), c, v, d, s, v', d', s') && c in defs && rank(x) < rank(c)
    ensures Unmoved(defs, rank, rank(x), x, v, d, s, v', d', s')
    ensures Lookup(v', x) == Lookup(v, x) && Of(d', x) == Of(d, x)
  {
  }

  /** What a run has read is below it, and did not move. */
  lemma ReadsUnmoved(defs: map<Id, Derivation>, rank: Id -> nat, c: Id, a: Moment, b: Moment)
    requires Moved(defs, rank, rank(c), c, a, b)
    ensures forall x :: rank(x) < rank(c) ==> Lookup(a.value, x) == Lookup(b.value, x)
  {
  }

  lemma UnmovedSources(defs: map<Id, Derivation>, rank: Id -> nat, r: nat, x: Id, v: Env, d: Links, s: set<Id>,
                       v': Env, d': Links, s': set<Id>)
    requires Unmoved(defs, rank, r, x, v, d, s, v', d', s') && (x in defs || Lookup(v', x) == Lookup(v, x))
    ensures SameSources(defs, v, v')
  {
    hide Lookup;
  }

  /** How many notifications `x` has sent. */
  ghost function Count(log: seq<Notice>, x: Id): nat {
    if log == [] then 0 else Count(log[..|log| - 1], x) + if log[|log| - 1].id == x then 1 else 0
  }

  lemma CountMore(log: seq<Notice>, n: Notice, x: Id)
    ensures Count(log + [n], x) == Count(log, x) + if n.id == x then 1 else 0
    ensures forall initial :: Told(log + [n], initial, x) == if n.id == x then n.value else Told(log, initial, x)
  {
    assert (log + [n])[..|log|] == log;
  }

  /** Everything told since came from derivations of rank `r` or more. */
  ghost predicate Above(defs: map<Id, Derivation>, rank: Id -> nat, r: nat, log: seq<Notice>, log': seq<Notice>) {
    log <= log' && forall i :: |log| <= i < |log'| ==> log'[i].id in defs && rank(log'[i].id) >= r
  }

  lemma AboveSame(defs: map<Id, Derivation>, rank: Id -> nat, r: nat, log: seq<Notice>)
    ensures Above(defs, rank, r, log, log)
  {
  }

  lemma AboveOn(defs: map<Id, Derivation>, rank: Id -> nat, r: nat, r': nat, a: seq<Notice>, b: seq<Notice>,
                c: seq<Notice>)
    requires Above(defs, rank, r, a, b) && Above(defs, rank, r', b, c) && r <= r'
    ensures Above(defs, rank, r, a, c)
  {
  }

  /** One notification of a derivation, and what followed from it. */
  lemma AboveTold(defs: map<Id, Derivation>, rank: Id -> nat, a: seq<Notice>, n: Notice, b: seq<Notice>)
    requires Above(defs, rank, rank(n.id) + 1, a + [n], b) && n.id in defs
    ensures Above(defs, rank, rank(n.id), a, b)
  {
    assert b[|a|] == (a + [n])[|a|];
  }

  /** Whatever is not a derivation of that rank was told nothing. */
  lemma {:induction false} AboveCount(defs: map<Id, Derivation>, rank: Id -> nat, r: nat, log: seq<Notice>,
                                      log': seq<Notice>, x: Id)
    requires Above(defs, rank, r, log, log') && (x !in defs || rank(x) < r)
    ensures Count(log', x) == Count(log, x) && forall initial :: Told(log', initial, x) == Told(log, initial, x)
    decreases |log'|
  {
    if |log| < |log'| {
      AboveCount(defs, rank, r, log, log'[..|log'| - 1], x);
    } else {
      assert log == log';
    }
  }

  // ----- derivations that read only source signals -----

  ghost predicate Direct(defs: map<Id, Derivation>, c: Id) {
    c in defs && forall e, x :: x in defs[c].trace(e) ==> x !in defs
  }

  /** Its value stayed and it told nothing, or it went to what the sources give and told so once. */
  ghost predicate Once(target: Value, v: Value, n: nat, v': Value, n': nat) {
    (v' == v && n' == n) || (v != target && v' == target && n' == n + 1)
  }

  /** This holds of all direct derivations outside `except`. */
  ghost predicate Steady(defs: map<Id, Derivation>, except: set<Id>, env: Env, log: seq<Notice>, env': Env,
                         log': seq<Notice>) {
    forall c :: c in defs && Direct(defs, c) && c !in except ==>
      Once(defs[c].value(env), Lookup(env, c), Count(log, c), Lookup(env', c), Count(log', c))
  }

  /** The source signals have the same values. */
  ghost predicate SameSources(defs: map<Id, Derivation>, env: Env, env': Env) {
    forall y :: y !in defs ==> Lookup(env, y) == Lookup(env', y)
  }

  lemma SteadySame(defs: map<Id, Derivation>, except: set<Id>, env: Env, log: seq<Notice>)
    ensures Steady(defs, except, env, log, env, log)
  {
    hide Direct, Count;
  }

  lemma DirectValue(defs: map<Id, Derivation>, rank: Id -> nat, top: nat, env: Env, env': Env, c: Id)
    requires WellDefined(defs, rank, top) && SameSources(defs, env, env') && Direct(defs, c)
    ensures defs[c].value(env') == defs[c].value(env)
  {
    assert Pure(defs[c]);
  }

  lemma SteadyOn(defs: map<Id, Derivation>, rank: Id -> nat, top: nat, except: set<Id>, except': set<Id>, a: Env,
                 la: seq<Notice>, b: Env, lb: seq<Notice>, c: Env, lc: seq<Notice>)
    requires WellDefined(defs, rank, top) && SameSources(defs, a, b) && except' <= except
    requires Steady(defs, except, a, la, b, lb) && Steady(defs, except', b, lb, c, lc)
    ensures Steady(defs, except, a, la, c, lc)
  {
    hide Direct, Count, WellDefined;
    forall x | x in defs && Direct(defs, x) && x !in except
      ensures Once(defs[x].value(a), Lookup(a, x), Count(la, x), Lookup(c, x), Count(lc, x))
    {
      DirectValue(defs, rank, top, a, b, x);
    }
  }

  /** The write that starts a flush changes no source signal. */
  lemma SteadyAfterStore(defs: map<Id, Derivation>, rank: Id -> nat, top: nat, except: set<Id>, env: Env, x: Id,
                         v: Value, log: seq<Notice>, env': Env, log': seq<Notice>)
    requires WellDefined(defs, rank, top) && x in defs && x in except
    requires Steady(defs, except, env[x := v], log, env', log')
    ensures Steady(defs, except, env, log, env', log')
  {
    hide Direct, Count, WellDefined;
    forall c | c in defs && Direct(defs, c) && c !in except
      ensures Once(defs[c].value(env), Lookup(env, c), Count(log, c), Lookup(env', c), Count(log', c))
    {
      DirectValue(defs, rank, top, env, env[x := v], c);
    }
  }

  /** A run that changed the value of `c` told so once. */
  lemma SteadyAfterRun(defs: map<Id, Derivation>, rank: Id -> nat, except: set<Id>, env: Env, log: seq<Notice>,
                       env': Env, log': seq<Notice>, c: Id, n: Notice)
    requires c in defs && n.id == c && n.value == defs[c].value(env) == Lookup(env', c) != Lookup(env, c)
    requires Above(defs, rank, rank(c) + 1, log + [n], log')
    requires Steady(defs, except + {c}, env, log, env', log')
    ensures Steady(defs, except, env, log, env', log')
  {
    hide Direct, Count, Above;
    CountMore(log, n, c);
    AboveCount(defs, rank, rank(c) + 1, log + [n], log', c);
  }

  lemma SteadyNotice(defs: map<Id, Derivation>, except: set<Id>, env: Env, log: seq<Notice>, n: Notice)
    requires n.id !in defs || n.id in except
    ensures Steady(defs, except, env, log, env, log + [n])
  {
    hide Direct, Count;
    forall x | x in defs && Direct(defs, x) && x !in except
      ensures Once(defs[x].value(env), Lookup(env, x), Count(log, x), Lookup(env, x), Count(log + [n], x))
    {
      CountMore(log, n, x);
    }
  }

  /** What is disposed stays so and does not run. */
  ghost predicate Rested(disposed: set<Id>, runs: multiset<Id>, disposed': set<Id>, runs': multiset<Id>) {
    disposed <= disposed' && runs <= runs' && forall c :: c in disposed ==> runs'[c] == runs[c]
  }

  lemma RestedOn(d: set<Id>, r: multiset<Id>, d': set<Id>, r': multiset<Id>, d'': set<Id>, r'': multiset<Id>)
    requires Rested(d, r, d', r') && Rested(d', r', d'', r'')
    ensures Rested(d, r, d'', r'')
  {
  }

  lemma RestedSame(d: set<Id>, r: multiset<Id>)
    ensures Rested(d, r, d, r)
  {
  }

  lemma RestedRun(d: set<Id>, r: multiset<Id>, c: Id, r': multiset<Id>)
    requires c !in d && Rested(d, r + multiset{c}, d, r')
    ensures Rested(d, r, d, r') && r[c] < r'[c]
  {
  }

  // ----- what one operation did, between two moments -----

  datatype Moment = Moment(value: Env, deps: Links, dirty: set<Id>, disposed: set<Id>, runs: multiset<Id>,
                           log: seq<Notice>)

  /** It moved nothing at or below rank `r` but `x`, and ran nothing that is disposed. */
  ghost predicate Moved(defs: map<Id, Derivation>, rank: Id -> nat, r: nat, x: Id, a: Moment, b: Moment) {
    && Unmoved(defs, rank, r, x, a.value, a.deps, a.dirty, b.value, b.deps, b.dirty)
    && Rested(a.disposed, a.runs, b.disposed, b.runs)
  }

  /** A flush of `x`: it told `n`, and all else followed from that. */
  ghost predicate Flushed(defs: map<Id, Derivation>, rank: Id -> nat, x: Id, n: Notice, a: Moment, b: Moment) {
    && Moved(defs, rank, rank(x), x, a, b) && Lookup(b.value, x) == Lookup(a.value, x) && Of(b.deps, x) == Of(a.deps, x)
    && Above(defs, rank, rank(x) + 1, a.log + [n], b.log) && Steady(defs, a.dirty, a.value, a.log, b.value, b.log)
    && b.dirty <= a.dirty - {x}
  }

  /** A run of `c` outside a batch. */
  ghost predicate Ran(defs: map<Id, Derivation>, rank: Id -> nat, c: Id, a: Moment, b: Moment) {
    && Moved(defs, rank, rank(c), c, a, b) && Above(defs, rank, rank(c), a.log, b.log)
    && Steady(defs, a.dirty, a.value, a.log, b.value, b.log)
  }

  lemma MovedSame(defs: map<Id, Derivation>, rank: Id -> nat, r: nat, x: Id, a: Moment)
    ensures Moved(defs, rank, r, x, a, a)
  {
    UnmovedSame(defs, rank, r, x, a.value, a.deps, a.dirty);
    RestedSame(a.disposed, a.runs);
  }

  lemma MovedOn(defs: map<Id, Derivation>, rank: Id -> nat, r: nat, x: Id, a: Moment, b: Moment, c: Moment)
    requires Moved(defs, rank, r, x, a, b) && Moved(defs, rank, r, x, b, c)
    ensures Moved(defs, rank, r, x, a, c)
  {
    hide Unmoved, Rested;
    UnmovedOn(defs, rank, r, x, a.value, a.deps, a.dirty, b.value, b.deps, b.dirty, c.value, c.deps, c.dirty);
    RestedOn(a.disposed, a.runs, b.disposed, b.runs, c.disposed, c.runs);
  }

  lemma MovedWrite(defs: map<Id, Derivation>, rank: Id -> nat, x: Id, a: Moment, v: Value)
    ensures Moved(defs, rank, rank(x), x, a, a.(value := a.value[x := v], dirty := a.dirty + {x}))
  {
    hide Unmoved, Rested;
    UnmovedWrite(defs, rank, rank(x), x, a.value, a.deps, a.dirty, v);
    RestedSame(a.disposed, a.runs);
  }

  lemma MovedSources(defs: map<Id, Derivation>, rank: Id -> nat, r: nat, x: Id, a: Moment, b: Moment)
    requires Moved(defs, rank, r, x, a, b) && (x in defs || Lookup(b.value, x) == Lookup(a.value, x))
    ensures SameSources(defs, a.value, b.value)
  {
    hide Unmoved, Rested, SameSources;
    UnmovedSources(defs, rank, r, x, a.value, a.deps, a.dirty, b.value, b.deps, b.dirty);
  }

  /** A flush starts by telling. */
  lemma FlushStarts(defs: map<Id, Derivation>, rank: Id -> nat, x: Id, n: Notice, a: Moment)
    requires x in a.dirty && n.id == x
    ensures Flushed(defs, rank, x, n, a, a.(dirty := a.dirty - {x}, log := a.log + [n]))
  {
    hide Unmoved, Rested, Above, Steady, Lookup, Of;
    UnmovedWrite(defs, rank, rank(x), x, a.value, a.deps, a.dirty, 0);
    RestedSame(a.disposed, a.runs);
    AboveSame(defs, rank, rank(x) + 1, a.log + [n]);
    SteadyNotice(defs, a.dirty, a.value, a.log, n);
  }

  /** And goes on with runs above. */
  lemma FlushGoesOn(defs: map<Id, Derivation>, rank: Id -> nat, top: nat, x: Id, n: Notice, c: Id, a: Moment,
                    b: Moment, b': Moment)
    requires WellDefined(defs, rank, top) && Flushed(defs, rank, x, n, a, b) && Ran(defs, rank, c, b, b')
    requires c in defs && rank(x) < rank(c) && b'.dirty <= b.dirty
    ensures Flushed(defs, rank, x, n, a, b')
  {
    hide Unmoved, Rested, Above, Steady, Lookup, Of, WellDefined, SameSources;
    UnmovedAbove(defs, rank, x, c, b.value, b.deps, b.dirty, b'.value, b'.deps, b'.dirty);
    MovedOn(defs, rank, rank(x), x, a, b, b');
    MovedSources(defs, rank, rank(x), x, a, b);
    AboveOn(defs, rank, rank(x) + 1, rank(c), a.log + [n], b.log, b'.log);
    SteadyOn(defs, rank, top, a.dirty, b.dirty, a.value, a.log, b.value, b.log, b'.value, b'.log);
  }

  /** A write that is flushed at once. */
  lemma WriteFlushed(defs: map<Id, Derivation>, rank: Id -> nat, top: nat, x: Id, v: Value, n: Notice, a: Moment,
                     b: Moment)
    requires WellDefined(defs, rank, top)
    requires Flushed(defs, rank, x, n, a.(value := a.value[x := v], dirty := a.dirty + {x}), b)
    ensures Moved(defs, rank, rank(x), x, a, b) && Lookup(b.value, x) == v && Of(b.deps, x) == Of(a.deps, x)
    ensures Above(defs, rank, rank(x) + 1, a.log + [n], b.log)
    ensures Steady(defs, a.dirty + {x}, a.value[x := v], a.log, b.value, b.log)
    ensures x in defs ==> Steady(defs, a.dirty + {x}, a.value, a.log, b.value, b.log)
    ensures b.dirty <= a.dirty
  {
    hide Unmoved, Rested, Above, Steady, WellDefined;
    MovedWrite(defs, rank, x, a, v);
    MovedOn(defs, rank, rank(x), x, a, a.(value := a.value[x := v], dirty := a.dirty + {x}), b);
    if x in defs {
      SteadyAfterStore(defs, rank, top, a.dirty + {x}, a.value, x, v, a.log, b.value, b.log);
    }
  }

  /** A run is a detachment, a publication and an attachment. */
  lemma RunMoved(defs: map<Id, Derivation>, rank: Id -> nat, c: Id, a: Moment, b: Moment, b': Moment, a': Moment)
    requires c !in a.disposed && a.disposed == b.disposed == b'.disposed == a'.disposed
    requires b == a.(deps := b.deps, runs := a.runs + multiset{c}) && a' == b'.(deps := a'.deps)
    requires forall x :: x != c ==> Of(b.deps, x) == Of(a.deps, x) && Of(a'.deps, x) == Of(b'.deps, x)
    requires Moved(defs, rank, rank(c), c, b, b')
    ensures Moved(defs, rank, rank(c), c, a, a') && a.runs[c] < a'.runs[c]
  {
    hide Of, Lookup;
    RestedRun(a.disposed, a.runs, c, a'.runs);
    hide Unmoved, Rested;
    UnmovedLink(defs, rank, rank(c), c, a.value, a.deps, b.deps, a.dirty);
    UnmovedLink(defs, rank, rank(c), c, b'.value, b'.deps, a'.deps, b'.dirty);
    UnmovedOn(defs, rank, rank(c), c, a.value, a.deps, a.dirty, b.value, b.deps, b.dirty, b'.value, b'.deps, b'.dirty);
    UnmovedOn(defs, rank, rank(c), c, a.value, a.deps, a.dirty, b'.value, b'.deps, b'.dirty, a'.value, a'.deps,
              a'.dirty);
  }

  // ----- what can be seen while a flush is going on -----

  /**
   * A moment `m` of a flush of `x`, right after the first subscriber `f` has run: nothing else at or below its rank has
   * moved since `a`, and every derivation that is not yet to run has told what it derives from the values of `m`.
   */
  ghost predicate Glimpse(defs: map<Id, Derivation>, rank: Id -> nat, initial: Env, except: set<Id>, x: Id, f: Id,
                          a: Moment, m: Moment, b: Moment) {
    && a.log <= m.log && m.log <= b.log
    && (forall y :: rank(y) <= rank(f) && y != f ==> Lookup(m.value, y) == Lookup(a.value, y))
    && (m.dirty == {} ==> Shown(defs, initial, except, m)) && m.dirty <= a.dirty - {x}
  }

  ghost predicate Shown(defs: map<Id, Derivation>, initial: Env, except: set<Id>, m: Moment) {
    forall c :: c in defs && c !in except ==>
                  Lookup(m.value, c) == Told(m.log, initial, c) == defs[c].value(m.value)
  }

  lemma GlimpseStarts(defs: map<Id, Derivation>, rank: Id -> nat, initial: Env, except: set<Id>, x: Id, f: Id,
                      n: Notice, a: Moment, m: Moment)
    requires Ran(defs, rank, f, a.(dirty := a.dirty - {x}, log := a.log + [n]), m)
    requires m.dirty == {} ==> Shown(defs, initial, except, m)
    requires m.dirty <= a.dirty - {x}
    ensures Glimpse(defs, rank, initial, except, x, f, a, m, m)
  {
    hide Steady, Rested, Shown, Lookup, Of;
    assert a.log + [n] <= m.log;
    assert a.log <= a.log + [n];
  }

  lemma GlimpseGoesOn(defs: map<Id, Derivation>, rank: Id -> nat, initial: Env, except: set<Id>, x: Id, f: Id,
                      c: Id, a: Moment, m: Moment, b: Moment, b': Moment)
    requires Glimpse(defs, rank, initial, except, x, f, a, m, b) && Ran(defs, rank, c, b, b')
    ensures Glimpse(defs, rank, initial, except, x, f, a, m, b')
  {
    hide Steady, Rested, Shown, Lookup, Of, Unmoved;
  }

  /** The same when `x` was the only dirty signal, and no derivation was running. */
  ghost predicate Glimpsed(defs: map<Id, Derivation>, rank: Id -> nat, initial: Env, subs: Links, except: set<Id>,
                           a: Moment, b: Moment) {
    forall x :: a.dirty == {x} && Of(subs, x) != [] ==>
      exists m :: Glimpse(defs, rank, initial, Elems(Of(subs, x)[1..]) + except, x, Of(subs, x)[0], a, m, b)
  }

  lemma GlimpsedNow(defs: map<Id, Derivation>, rank: Id -> nat, initial: Env, subs: Links, except: set<Id>, x: Id,
                    a: Moment, b: Moment)
    requires x in a.dirty && (Of(subs, x) != [] ==>
               exists m :: Glimpse(defs, rank, initial, Elems(Of(subs, x)[1..]) + except, x, Of(subs, x)[0], a, m, b))
    ensures Glimpsed(defs, rank, initial, subs, except, a, b)
  {
    hide Glimpse, Of, Elems;
  }

  lemma NotGlimpsed(defs: map<Id, Derivation>, rank: Id -> nat, initial: Env, subs: Links, except: set<Id>,
                    a: Moment, b: Moment)
    requires |a.dirty| != 1
    ensures Glimpsed(defs, rank, initial, subs, except, a, b)
  {
    hide Glimpse, Of;
  }

  lemma OnlyOne(s: set<Id>, t: set<Id>, x: Id)
    requires t <= s && x in t && |s| <= 1
    ensures s == {x} == t
  {
    assert s == s - {x} + {x};
    assert |s| == |s - {x}| + 1;
  }

  /** Whoever was last told of different values has been told in between. */
  lemma {:induction false} ToldBetween(log: seq<Notice>, log': seq<Notice>, initial: Env, x: Id)
    requires log <= log'
    ensures Count(log, x) <= Count(log', x)
    ensures Told(log, initial, x) != Told(log', initial, x) ==> Count(log, x) < Count(log', x)
    decreases |log'|
  {
    if |log| < |log'| {
      ToldBetween(log, log'[..|log'| - 1], initial, x);
    } else {
      assert log == log';
    }
  }

  // ----- what a whole batch tells -----

  /** Source `x` told exactly one change if its turn has come, and none before. */
  ghost predicate SourceDrained(initial: Env, a: Moment, b: Moment, x: Id) {
    && (x in b.dirty ==> x in a.dirty && Told(b.log, initial, x) == Told(a.log, initial, x))
    && Count(b.log, x) == Count(a.log, x) + if x in a.dirty && x !in b.dirty then 1 else 0
  }

  /** What a notice of a batch says: the value at the end, and the one told before the batch. */
  ghost predicate Summary(n: Notice, initial: Env, a: Moment) {
    n.value == Lookup(a.value, n.id) && n.previous == Told(a.log, initial, n.id)
  }

  /** Some of the signals that were dirty have been flushed. */
  ghost predicate Drained(defs: map<Id, Derivation>, initial: Env, a: Moment, b: Moment) {
    && (forall x :: x !in defs ==> SourceDrained(initial, a, b, x))
    && a.log <= b.log && (forall i :: |a.log| <= i < |b.log| && b.log[i].id !in defs ==> Summary(b.log[i], initial, a))
    && Steady(defs, a.dirty, a.value, a.log, b.value, b.log)
    && SameSources(defs, a.value, b.value) && b.dirty <= a.dirty && Rested(a.disposed, a.runs, b.disposed, b.runs)
  }

  lemma DrainStarts(defs: map<Id, Derivation>, initial: Env, a: Moment)
    ensures Drained(defs, initial, a, a)
  {
    hide Steady, Rested;
    SteadySame(defs, a.dirty, a.value, a.log);
    RestedSame(a.disposed, a.runs);
  }

  lemma DrainGoesOn(defs: map<Id, Derivation>, rank: Id -> nat, top: nat, initial: Env, x: Id, a: Moment, b: Moment,
                    b': Moment)
    requires WellDefined(defs, rank, top) && Drained(defs, initial, a, b) && x in b.dirty
    requires Flushed(defs, rank, x, Notice(x, Lookup(b.value, x), Told(b.log, initial, x)), b, b')
    ensures Drained(defs, initial, a, b')
  {
    hide Steady, Rested, WellDefined, Unmoved, Above, SameSources, SourceDrained, Summary, Lookup, Of, Told;
    var n := Notice(x, Lookup(b.value, x), Told(b.log, initial, x));
    MovedSources(defs, rank, rank(x), x, b, b');
    SourcesOn(defs, a.value, b.value, b'.value);
    SteadyOn(defs, rank, top, a.dirty, b.dirty, a.value, a.log, b.value, b.log, b'.value, b'.log);
    RestedOn(a.disposed, a.runs, b.disposed, b.runs, b'.disposed, b'.runs);
    forall y | y !in defs ensures SourceDrained(initial, a, b', y) {
      DrainOne(defs, rank, initial, x, n, a, b, b', y);
    }
    DrainTells(defs, rank, initial, x, n, a, b, b');
  }

  lemma FlushedClean(defs: map<Id, Derivation>, rank: Id -> nat, x: Id, b: Moment, b': Moment)
    requires exists n :: Flushed(defs, rank, x, n, b, b')
    ensures b'.dirty <= b.dirty - {x}
  {
  }

  lemma MovedRests(defs: map<Id, Derivation>, rank: Id -> nat, x: Id, a: Moment, b: Moment)
    requires Moved(defs, rank, rank(x), x, a, b)
    ensures Rested(a.disposed, a.runs, b.disposed, b.runs)
    ensures forall y :: y !in defs && y != x ==> Lookup(b.value, y) == Lookup(a.value, y)
    ensures forall y :: y in a.value ==> y in b.value
  {
  }

  /** A steady derivation tells exactly its change. */
  lemma SteadyMeans(defs: map<Id, Derivation>, except: set<Id>, env: Env, x: Id, v: Value, log: seq<Notice>, env': Env,
                    log': seq<Notice>)
    requires Steady(defs, except, env[x := v], log, env', log') && x !in defs
    ensures forall c :: c in defs && Direct(defs, c) && c !in except ==>
              Count(log', c) == Count(log, c) + if Lookup(env', c) == Lookup(env, c) then 0 else 1
  {
    hide Direct, Count;
  }

  lemma DrainedMeans(defs: map<Id, Derivation>, initial: Env, atOpen: Env, a: Moment, b: Moment)
    requires Drained(defs, initial, a, b) && b.dirty == {} && Remembered(a.log, initial, atOpen, a.value)
    ensures Rested(a.disposed, a.runs, b.disposed, b.runs)
    ensures forall y :: y !in defs ==> Lookup(b.value, y) == Lookup(a.value, y)
    ensures forall x :: x !in defs ==> Count(b.log, x) == Count(a.log, x) + if x in a.dirty then 1 else 0
    ensures a.log <= b.log
    ensures forall i :: |a.log| <= i < |b.log| && b.log[i].id !in defs && b.log[i].id in atOpen ==>
              b.log[i] == Notice(b.log[i].id, Lookup(b.value, b.log[i].id), atOpen[b.log[i].id])
    ensures forall c :: c in defs && Direct(defs, c) && c !in a.dirty ==>
              Count(b.log, c) == Count(a.log, c) + if Lookup(b.value, c) == Lookup(a.value, c) then 0 else 1
  {
    hide Direct, Count, Rested, Told;
    forall x | x !in defs ensures Count(b.log, x) == Count(a.log, x) + if x in a.dirty then 1 else 0 {
      assert SourceDrained(initial, a, b, x);
    }
    forall i | |a.log| <= i < |b.log| && b.log[i].id !in defs && b.log[i].id in atOpen
      ensures b.log[i] == Notice(b.log[i].id, Lookup(b.value, b.log[i].id), atOpen[b.log[i].id])
    {
      assert Summary(b.log[i], initial, a);
    }
  }

  lemma SourcesOn(defs: map<Id, Derivation>, a: Env, b: Env, c: Env)
    requires SameSources(defs, a, b) && SameSources(defs, b, c)
    ensures SameSources(defs, a, c)
  {
  }

  lemma DrainOne(defs: map<Id, Derivation>, rank: Id -> nat, initial: Env, x: Id, n: Notice, a: Moment, b: Moment,
                 b': Moment, y: Id)
    requires SourceDrained(initial, a, b, y) && y !in defs && x in b.dirty && n.id == x
    requires Flushed(defs, rank, x, n, b, b')
    ensures SourceDrained(initial, a, b', y)
  {
    hide Steady, Rested, Above, Count, Told;
    CountMore(b.log, n, y);
    AboveCount(defs, rank, rank(x) + 1, b.log + [n], b'.log, y);
  }

  lemma DrainTells(defs: map<Id, Derivation>, rank: Id -> nat, initial: Env, x: Id, n: Notice, a: Moment, b: Moment,
                   b': Moment)
    requires a.log <= b.log && Above(defs, rank, rank(x) + 1, b.log + [n], b'.log)
    requires forall i :: |a.log| <= i < |b.log| && b.log[i].id !in defs ==> Summary(b.log[i], initial, a)
    requires n == Notice(x, Lookup(b.value, x), Told(b.log, initial, x)) && x in b.dirty
    requires x !in defs ==> SourceDrained(initial, a, b, x) && SameSources(defs, a.value, b.value)
    ensures a.log <= b'.log
    ensures forall i :: |a.log| <= i < |b'.log| && b'.log[i].id !in defs ==> Summary(b'.log[i], initial, a)
  {
    hide Lookup, Told, Count;
    forall i | |a.log| <= i < |b'.log| && b'.log[i].id !in defs ensures Summary(b'.log[i], initial, a) {
      if i <= |b.log| {
        assert b'.log[i] == (b.log + [n])[i];
        assert i < |b.log| ==> b'.log[i] == b.log[i];
      }
    }
  }

  ghost function Elems(s: seq<Id>): set<Id> { set x | x in s }

  /** The module state of fino:signals with all its signals, computeds and effects. */
  class Kernel {
    /** An upper bound on dependency depth: derivations read only signals of smaller rank. */
    ghost const rank: Id -> nat
    ghost var top: nat
    ghost var initial: Env
    /** How often each derivation has run. */
    ghost var runs: multiset<Id>
    /** The values when the outermost open batch began. */
    ghost var atOpen: Env

    var value: Env
    var previous: Env
    var dirty: set<Id>
    var subs: Links
    var log: seq<Notice>
    var batchDepth: nat
    var pending: seq<Id>

    var defs: map<Id, Derivation>
    var effects: set<Id>
    var deps: Links
    var seen: Env
    var running: set<Id>
    var disposed: set<Id>

    ghost predicate Core()
      reads this
    {
      && Linked(subs, deps, rank)
      && WellDefined(defs, rank, top)
      && Shaped(defs, deps, disposed)
      && Published(defs, effects + running, value, seen)
      && Telling(log, initial, value, previous, dirty)
      && Named(initial, value, dirty, log, defs, effects, seen, running + disposed)
    }

    /** Every derivation outside `todo` that is neither running nor disposed is up to date or due. */
    ghost predicate UpTo(todo: set<Id>)
      reads this
    {
      Settled(defs, value, deps, seen, dirty, todo + running + disposed)
    }

    /** Distance to the top rank: strictly smaller for every subscriber. */
    ghost function Depth(x: Id): nat
      reads this
    {
      if rank(x) <= top then top + 1 - rank(x) else 0
    }

    /** Between public operations. */
    ghost predicate Valid()
      reads this
    {
      && Core() && UpTo({}) && running == {}
      && (forall y :: y in dirty ==> y in pending)
      && (batchDepth == 0 ==> pending == [])
      && (batchDepth > 0 ==> Remembered(log, initial, atOpen, value))
    }

    ghost function Now(): Moment
      reads this
    {
      Moment(value, deps, dirty, disposed, runs, log)
    }

    twostate predicate Same()
      reads this
    {
      && disposed == old(disposed) && batchDepth == old(batchDepth) && running == old(running)
      && defs == old(defs) && effects == old(effects) && top == old(top) && initial == old(initial)
      && atOpen == old(atOpen)
    }

    /** What was disposed has not run since. */
    twostate predicate Idle()
      reads this
    {
      Rested(old(disposed), old(runs), disposed, runs)
    }

    /** Nothing was told and nothing ran. */
    twostate predicate Silent()
      reads this
    {
      log == old(log) && runs == old(runs)
    }

    /** The value subscribers of `x` were last told of. */
    ghost function LastTold(x: Id): Value
      reads this
    {
      if x in dirty then Lookup(previous, x) else Lookup(value, x)
    }

    /** Dirty signals are all waiting in `pending`, except those that already were not. */
    twostate predicate Queued()
      reads this
    {
      if batchDepth == 0 then dirty <= old(dirty) && pending == old(pending)
      else forall y :: y in dirty && y !in pending ==> y in old(dirty) && y !in old(pending)
    }

    /** `Signal.set`. */
    method Set(x: Id, v: Value, ghost todo: set<Id>)
      requires Core() && UpTo(todo) && x in value
      requires x in defs ==> x in running
      requires Of(deps, x) == []
      modifies this
      ensures Core() && UpTo(todo) && Moved(defs, rank, rank(x), x, old(Now()), Now()) && Same() && Queued()
      ensures Lookup(value, x) == v && Of(deps, x) == []
      ensures v == old(Lookup(value, x)) ==> Now() == old(Now())
      ensures v != old(Lookup(value, x)) && batchDepth > 0 ==>
            Silent() && dirty == old(dirty) + {x} && value == old(value)[x := v] && subs == old(subs)
      ensures v != old(Lookup(value, x)) && batchDepth == 0 ==>
            Above(defs, rank, rank(x) + 1, old(log) + [Notice(x, v, old(LastTold(x)))], log)
      ensures v != old(Lookup(value, x)) && batchDepth == 0 ==>
            Steady(defs, old(dirty) + {x}, old(value)[x := v], old(log), value, log)
      ensures batchDepth == 0 && x in defs ==> Steady(defs, old(dirty) + {x}, old(value), old(log), value, log)
      decreases Depth(x), 2
    {
      hide Core, UpTo, Moved, Above, Steady, Flushed, WellDefined;
      ghost var a := Now();
      MovedSame(defs, rank, rank(x), x, a);
      SteadySame(defs, dirty + {x}, value, log);
      if Lookup(value, x) == v { return; }
      ghost var d := Depth(x);
      MovedWrite(defs, rank, x, a, v);
      Store(x, v, todo);
      assert Depth(x) == d;
      if batchDepth > 0 {
        if x !in pending { Enqueue(x, todo); }
      } else {
        Flush(x, todo);
        Defined();
        WriteFlushed(defs, rank, top, x, v, Notice(x, v, old(LastTold(x))), a, Now());
      }
    }

    method Enqueue(x: Id, ghost todo: set<Id>)
      requires Core() && UpTo(todo)
      modifies this`pending
      ensures Core() && UpTo(todo) && pending == old(pending) + [x]
    {
      pending := pending + [x];
    }

    /** The part of `set` that changes the signal itself. */
    method Store(x: Id, v: Value, ghost todo: set<Id>)
      requires Core() && UpTo(todo) && x in value && Lookup(value, x) != v
      requires x in defs ==> x in running
      modifies this`previous, this`value, this`dirty
      ensures Core() && UpTo(todo)
      ensures value == old(value)[x := v] && dirty == old(dirty) + {x}
      ensures Lookup(previous, x) == old(LastTold(x))
    {
      hide Linked, Settled, Telling, WellDefined, Shaped, Named;
      NamedWrite(initial, value, dirty, log, defs, effects, seen, running + disposed, x, v);
      TellWriteStep(log, initial, value, previous, dirty, x, v);
      WriteStep(defs, rank, top, value, deps, seen, dirty, todo + running + disposed, x, v);
      if x !in dirty {
        previous := previous[x := Lookup(value, x)];
      }
      value := value[x := v];
      dirty := dirty + {x};
    }

    /** `Signal.flush`. */
    method Flush(x: Id, ghost todo: set<Id>)
      requires Core() && UpTo(todo) && batchDepth == 0
      modifies this
      ensures Core() && UpTo(todo) && Same() && pending == old(pending)
      ensures x !in old(dirty) ==> Now() == old(Now()) && subs == old(subs)
      ensures x in old(dirty) ==>
            Flushed(defs, rank, x, Notice(x, old(Lookup(value, x)), old(Lookup(previous, x))), old(Now()), Now())
      ensures x in old(dirty) && old(Of(subs, x)) != [] ==>
            exists m :: Glimpse(defs, rank, initial,
                                Elems(old(Of(subs, x))[1..]) + (todo + running + disposed + effects), x,
                                old(Of(subs, x))[0], old(Now()), m, Now())
      decreases Depth(x), 1
    {
      hide Core, UpTo, Flushed, WellDefined, Glimpse, Of;
      if x !in dirty { return; }
      ghost var n, a := Notice(x, Lookup(value, x), Lookup(previous, x)), Now();
      FlushStarts(defs, rank, x, n, a);
      var snapshot := Announce(x, todo);
      CallAll(snapshot, x, n, a, todo);
    }

    /** The loop of `flush` over the subscribers it has found. */
    method CallAll(snapshot: seq<Id>, ghost x: Id, ghost n: Notice, ghost a: Moment, ghost todo: set<Id>)
      requires Core() && UpTo(todo + Elems(snapshot)) && batchDepth == 0 && Flushed(defs, rank, x, n, a, Now())
      requires Now() == a.(dirty := a.dirty - {x}, log := a.log + [n])
      requires forall c :: c in snapshot ==> c in defs && rank(x) < rank(c) <= top
      modifies this
      ensures Core() && UpTo(todo) && Same() && pending == old(pending) && Flushed(defs, rank, x, n, a, Now())
      ensures snapshot != [] ==>
            exists m :: Glimpse(defs, rank, initial, Elems(snapshot[1..]) + (todo + running + disposed + effects), x,
                                snapshot[0], a, m, Now())
      decreases Depth(x), 0
    {
      hide Core, UpTo, Flushed, Ran, WellDefined, Glimpse, Shown, Of, Moved;
      assert todo + Elems(snapshot) == todo + Elems(snapshot[0..]);
      ghost var m := a;
      ghost var except := (if snapshot == [] then {} else Elems(snapshot[1..])) + (todo + running + disposed + effects);
      for i := 0 to |snapshot|
        invariant Core() && UpTo(todo + Elems(snapshot[i..])) && Same() && pending == old(pending)
        invariant Flushed(defs, rank, x, n, a, Now())
        invariant if i == 0 then Now() == a.(dirty := a.dirty - {x}, log := a.log + [n])
            else Glimpse(defs, rank, initial, except, x, snapshot[0], a, m, Now())
      {
        assert todo + Elems(snapshot[i..]) == todo + Elems(snapshot[i + 1..]) + {snapshot[i]};
        ghost var b := Now();
        Rerun(snapshot[i], todo + Elems(snapshot[i + 1..]));
        Defined();
        FlushGoesOn(defs, rank, top, x, n, snapshot[i], a, b, Now());
        if i == 0 {
          m := Now();
          NowShown(todo + Elems(snapshot[1..]));
          assert todo + Elems(snapshot[1..]) + running + disposed + effects == except;
          GlimpseStarts(defs, rank, initial, except, x, snapshot[0], n, a, m);
        } else {
          GlimpseGoesOn(defs, rank, initial, except, x, snapshot[0], snapshot[i], a, m, b, Now());
        }
      }
      assert todo + Elems(snapshot[|snapshot|..]) == todo;
    }

    /** Every derivation that need not run has told its value, when nothing is dirty. */
    lemma NowShown(todo: set<Id>)
      requires Core() && UpTo(todo)
      ensures dirty == {} ==> Shown(defs, initial, todo + running + disposed + effects, Now())
    {
      hide Told, Lookup, Of, Linked, WellDefined, Shaped, Named, Unique;
    }

    /** The start of `flush`: the signal is clean again, and its subscribers are to be called. */
    method Announce(x: Id, ghost todo: set<Id>) returns (snapshot: seq<Id>)
      requires Core() && UpTo(todo) && x in dirty
      modifies this`dirty, this`log
      ensures Core() && UpTo(todo + Elems(snapshot)) && dirty == old(dirty) - {x}
      ensures log == old(log) + [Notice(x, Lookup(value, x), Lookup(previous, x))] && snapshot == Of(subs, x)
      ensures forall c :: c in snapshot ==> c in defs && rank(x) < rank(c) <= top
    {
      hide Linked, Settled, Telling, WellDefined, Shaped;
      Callable(defs, subs, deps, disposed, rank, top, x);
      TellStep(log, initial, value, previous, dirty, x);
      snapshot := Of(subs, x);
      SnapshotStep(defs, value, subs, deps, rank, seen, dirty, todo + running + disposed,
                   todo + Elems(snapshot) + running + disposed, x);
      dirty := dirty - {x};
      log := log + [Notice(x, Lookup(value, x), Lookup(previous, x))];
    }

    /** The `rerun` closure of `computed` and of `effect`. */
    method Rerun(c: Id, ghost todo: set<Id>)
      requires Core() && c in defs && UpTo(todo + {c})
      modifies this
      ensures Core() && UpTo(todo) && Moved(defs, rank, rank(c), c, old(Now()), Now()) && Same() && Queued()
      ensures c !in old(disposed) + old(running) ==> old(runs)[c] < runs[c]
      ensures batchDepth > 0 ==>
            && log == old(log)
            && runs == if c in old(disposed) + old(running) then old(runs) else old(runs) + multiset{c}
      ensures batchDepth == 0 ==> Ran(defs, rank, c, old(Now()), Now())
      decreases Depth(c), 4
    {
      hide Core, UpTo, Of, Lookup, Unique, Moved, Above, Steady;
      ghost var a := Now();
      MovedSame(defs, rank, rank(c), c, a);
      AboveSame(defs, rank, rank(c), log);
      SteadySame(defs, dirty, value, log);
      if c in disposed || c in running {
        Exempt(c, todo);
        return;
      }
      ghost var d := Depth(c);
      Detach(c, todo);
      assert Depth(c) == d;
      ghost var b := Now();
      var v, signals := ObserveReads(defs[c], value);
      ReadsRankBelow(c, value);
      Publish(c, v, todo);
      ghost var b' := Now();
      ReadsUnmoved(defs, rank, c, b, b');
      Attach(c, b.value, v, signals, todo);
      RunMoved(defs, rank, c, a, b, b', Now());
    }

    /** The middle of a run: a computed sets its own signal. */
    method Publish(c: Id, v: Value, ghost todo: set<Id>)
      requires Core() && c in defs && UpTo(todo) && c in running && Of(deps, c) == [] && v == defs[c].value(value)
      modifies this
      ensures Core() && UpTo(todo) && Moved(defs, rank, rank(c), c, old(Now()), Now()) && Same() && Queued()
      ensures Of(deps, c) == [] && (c !in effects ==> Lookup(value, c) == v)
      ensures batchDepth > 0 ==> Silent()
      ensures batchDepth == 0 ==> Ran(defs, rank, c, old(Now()), Now())
      decreases Depth(c), 3
    {
      hide Core, UpTo, Of, Lookup, Moved, Above, Steady;
      ghost var a := Now();
      MovedSame(defs, rank, rank(c), c, a);
      AboveSame(defs, rank, rank(c), log);
      SteadySame(defs, dirty, value, log);
      if c in effects { return; }
      Created(c);
      Set(c, v, todo);
      if batchDepth == 0 && v != old(Lookup(value, c)) {
        ghost var n := Notice(c, v, old(LastTold(c)));
        AboveTold(defs, rank, old(log), n, log);
        SteadyAfterRun(defs, rank, old(dirty), old(value), old(log), value, log, c, n);
      }
    }

    lemma Defined()
      requires Core()
      ensures WellDefined(defs, rank, top)
    {
    }

    lemma Created(c: Id)
      requires Core() && c in defs && c !in effects
      ensures c in value
    {
    }

    lemma Exempt(c: Id, todo: set<Id>)
      requires UpTo(todo + {c}) && (c in disposed || c in running)
      ensures UpTo(todo)
    {
      assert todo + {c} + running + disposed == todo + running + disposed;
    }

    lemma ReadsRankBelow(c: Id, env: Env)
      requires Core() && c in defs
      ensures forall x :: x in defs[c].trace(env) ==> rank(x) < rank(c)
    {
    }

    /** Replace the subscriptions of `c`: the old ones are disposed, then `signals` are subscribed to. */
    method Relink(c: Id, signals: seq<Id>)
      requires Linked(subs, deps, rank) && NoDup(Of(deps, c))
      requires NoDup(signals) && forall x :: x in signals ==> rank(x) < rank(c)
      modifies this`subs, this`deps
      ensures Linked(subs, deps, rank) && deps == old(deps)[c := signals]
    {
      hide Linked;
      var subs' := Unsubscribe(subs, Of(deps, c), c);
      UnlinkStep(subs, subs', deps, rank, c);
      subs, deps := subs', deps[c := []];
      Unlinked(subs, deps, rank, c);
      subs' := SubscribeAll(subs, signals, c);
      LinkStep(subs, subs', deps, rank, c, signals);
      subs, deps := subs', deps[c := signals];
    }

    /** `disposeDeps` at the start of a run. */
    method Detach(c: Id, ghost todo: set<Id>)
      requires Core() && c in defs && UpTo(todo + {c}) && c !in running && c !in disposed
      modifies this`running, this`subs, this`deps, this`runs
      ensures Core() && UpTo(todo) && running == old(running) + {c} && runs == old(runs) + multiset{c}
      ensures Of(deps, c) == [] && forall b :: b != c ==> Of(deps, b) == old(Of(deps, b))
    {
      hide Linked, Settled, Telling, WellDefined, Shaped, Named;
      NamedRun(initial, value, dirty, log, defs, effects, seen, running + disposed, running + {c} + disposed, c, 0);
      ghost var due := todo + {c} + running + disposed;
      UnsettledStep(defs, value, deps, seen, dirty, due, c);
      ShapedStep(defs, deps, disposed, c, []);
      ShapedAt(defs, deps, disposed, c);
      running, runs := running + {c}, runs + multiset{c};
      Relink(c, []);
      assert todo + running + disposed == due;
    }

    /** `subscribeAll` at the end of a run, over the signals it read. */
    method Attach(c: Id, ghost env: Env, v: Value, signals: seq<Id>, ghost todo: set<Id>)
      requires Core() && c in defs && UpTo(todo) && c in running && c !in disposed && Of(deps, c) == []
      requires v == defs[c].value(env) && signals == Unique(defs[c].trace(env))
      requires forall x :: x in defs[c].trace(env) ==> rank(x) < rank(c) && Lookup(env, x) == Lookup(value, x)
      requires c !in effects ==> Lookup(value, c) == v
      modifies this`running, this`subs, this`deps, this`seen
      ensures Core() && UpTo(todo) && running == old(running) - {c}
      ensures forall b :: b != c ==> Of(deps, b) == old(Of(deps, b))
    {
      hide Linked, Settled, Telling, WellDefined, Shaped, Unique, Named, Published, NoDup;
      PublishedRun(defs, effects + running, effects + (running - {c}), value, seen, c, v);
      NamedRun(initial, value, dirty, log, defs, effects, seen, running + disposed, running - {c} + disposed, c, v);
      ghost var due := todo + (running - {c}) + disposed;
      assert due + {c} == todo + running + disposed;
      RunStep(defs, rank, top, env, value, deps, seen, dirty, due, c);
      ShapedStep(defs, deps, disposed, c, signals);
      ShapedAt(defs, deps, disposed, c);
      seen, running := seen[c := v], running - {c};
      Relink(c, signals);
    }

    // ----- public operations -----

    constructor (ghost r: Id -> nat)
      ensures Valid() && rank == r && batchDepth == 0 && value == map[] && defs == map[]
      ensures initial == map[] && effects == {} && disposed == {}
    {
      rank, top, initial, runs, atOpen := r, 0, map[], multiset{}, map[];
      value, previous, dirty, subs, log, batchDepth, pending := map[], map[], {}, map[], [], 0, [];
      defs, effects, deps, seen, running, disposed := map[], {}, map[], map[], {}, {};
    }

    /** Nobody has touched this identity yet. */
    ghost predicate Unused(x: Id)
      reads this
    {
      x !in initial && x !in defs && forall c :: x !in Of(deps, c)
    }

    lemma Uncreated(x: Id)
      requires Core() && x !in initial
      ensures x !in value && x !in dirty && forall i :: 0 <= i < |log| ==> log[i].id != x
    {
      hide Linked, Settled, Telling, WellDefined, Shaped;
    }

    /** `createSignal`. */
    method CreateSignal(x: Id, v: Value)
      requires Valid() && Unused(x)
      modifies this`value, this`initial
      ensures Valid() && value == old(value)[x := v] && initial == old(initial)[x := v]
    {
      hide Linked, Settled, Telling, WellDefined, Shaped, Named;
      Uncreated(x);
      NamedWrite(initial, value, dirty, log, defs, effects, seen, running + disposed, x, v);
      assert {} + running + disposed == disposed;
      CreateStep(defs, rank, top, value, deps, seen, dirty, disposed, x, v);
      TellCreateStep(log, initial, value, previous, dirty, x, v);
      if batchDepth > 0 { RememberedMore(log, initial, atOpen, value, x, v); }
      value, initial := value[x := v], initial[x := v];
    }

    /** `c` told of a change of its value, if it changed, and of nothing else. */
    twostate predicate TellsOnce(c: Id)
      reads this
    {
      Count(log, c) == old(Count(log, c)) + if Lookup(value, c) == old(Lookup(value, c)) then 0 else 1
    }

    /**
     * A write by a producer. In a batch nobody is told and nothing runs. Otherwise subscribers are told of the change
     * at once, if there is one, and everything else told comes from derivations. Of these, the ones that read only
     * source signals tell one change each, at most.
     */
    method Write(x: Id, v: Value)
      requires Valid() && x in value && x !in defs
      modifies this
      ensures Valid() && Lookup(value, x) == v && atOpen == old(atOpen)
      ensures batchDepth == old(batchDepth) && defs == old(defs) && disposed == old(disposed) && Idle()
      ensures forall y :: y !in defs && y != x ==> Lookup(value, y) == old(Lookup(value, y))
      ensures effects == old(effects) && initial == old(initial)
      ensures batchDepth > 0 ==>
            && Silent() && dirty == old(dirty) + (if v == old(Lookup(value, x)) then {} else {x})
            && value == old(value)[x := v] && (v != old(Lookup(value, x)) ==> subs == old(subs))
      ensures v == old(Lookup(value, x)) ==> Silent() && value == old(value)
      ensures batchDepth == 0 && v != old(Lookup(value, x)) ==>
            Above(defs, rank, rank(x) + 1, old(log) + [Notice(x, v, old(Lookup(value, x)))], log)
      ensures batchDepth == 0 ==> forall c :: c in defs && Direct(defs, c) ==> TellsOnce(c)
    {
      hide Core, UpTo, Rested, Unmoved, Above, Steady, Count, Direct, Remembered;
      SourceReadsNothing(x);
      Set(x, v, {});
      MovedRests(defs, rank, x, old(Now()), Now());
      if batchDepth > 0 { RememberedGrows(log, initial, atOpen, old(value), value); }
      if batchDepth == 0 && v != old(Lookup(value, x)) {
        assert old(dirty) + {x} == {x};
        SteadyMeans(defs, {x}, old(value), x, v, old(log), value, log);
      }
    }

    /** `batch` opens. */
    method BatchBegin()
      requires Valid()
      modifies this`batchDepth, this`atOpen
      ensures Valid() && batchDepth == old(batchDepth) + 1
      ensures atOpen == if old(batchDepth) == 0 then value else old(atOpen)
    {
      if batchDepth == 0 { atOpen := value; }
      batchDepth := batchDepth + 1;
    }

    /**
     * `batch` closes. The outermost one runs `flushSignals`: every source signal that was changed in the batch tells
     * exactly once, of the value it has now and of the one it had when the batch opened. A derivation that reads only
     * source signals tells once if its value changed.
     */
    method BatchEnd()
      requires Valid() && batchDepth > 0
      modifies this
      ensures Valid() && batchDepth == old(batchDepth) - 1 && defs == old(defs) && disposed == old(disposed)
      ensures Idle() && (batchDepth == 0 ==> dirty == {})
      ensures forall y :: y !in defs ==> Lookup(value, y) == old(Lookup(value, y))
      ensures batchDepth > 0 ==> Silent() && value == old(value) && dirty == old(dirty) && atOpen == old(atOpen)
      ensures batchDepth == 0 ==>
            forall x :: x !in defs ==> Count(log, x) == old(Count(log, x)) + if x in old(dirty) then 1 else 0
      ensures batchDepth == 0 ==> old(log) <= log && forall i ::
            |old(log)| <= i < |log| && log[i].id !in defs && log[i].id in old(atOpen) ==>
              log[i] == Notice(log[i].id, Lookup(value, log[i].id), old(atOpen)[log[i].id])
      ensures batchDepth == 0 ==> forall c :: c in defs && Direct(defs, c) && c !in old(dirty) ==> TellsOnce(c)
      ensures initial == old(initial) && effects == old(effects)
      ensures batchDepth == 0 ==> Glimpsed(defs, rank, initial, old(subs), disposed + effects, old(Now()), Now())
    {
      hide Linked, Settled, Telling, WellDefined, Shaped, Rested, Remembered, Drained, Count, Direct, Told, Glimpsed;
      RestedSame(disposed, runs);
      batchDepth := batchDepth - 1;
      if batchDepth == 0 {
        ghost var a := Now();
        var todo := pending;
        pending := [];
        FlushAll(todo);
        DrainedMeans(defs, initial, atOpen, a, Now());
      }
    }

    /** `flushSignals`. */
    method FlushAll(todo: seq<Id>)
      requires Core() && UpTo({}) && running == {} && batchDepth == 0 && pending == [] && dirty <= Elems(todo)
      modifies this
      ensures Core() && UpTo({}) && running == {} && batchDepth == 0 && pending == [] && dirty == {}
      ensures Same() && Drained(defs, initial, old(Now()), Now())
      ensures Glimpsed(defs, rank, initial, old(subs), disposed + effects, old(Now()), Now())
    {
      hide Core, UpTo, Drained, Flushed, WellDefined, Told, Lookup, Glimpse, Glimpsed, Of;
      ghost var a := Now();
      DrainStarts(defs, initial, a);
      for i := 0 to |todo|
        invariant Core() && UpTo({}) && pending == [] && Same() && dirty <= a.dirty
        invariant dirty <= Elems(todo[i..]) && Drained(defs, initial, a, Now())
        invariant if dirty == a.dirty then Now() == a && subs == old(subs)
            else |a.dirty| > 1 || Glimpsed(defs, rank, initial, old(subs), disposed + effects, a, Now())
      {
        ghost var b := Now();
        ghost var stale := todo[i] in dirty;
        LastIsTold(todo[i]);
        Flush(todo[i], {});
        if stale {
          Defined();
          DrainGoesOn(defs, rank, top, initial, todo[i], a, b, Now());
          FlushedClean(defs, rank, todo[i], b, Now());
          if |a.dirty| <= 1 {
            OnlyOne(a.dirty, b.dirty, todo[i]);
            assert {} + running + disposed + effects == disposed + effects;
            GlimpsedNow(defs, rank, initial, old(subs), disposed + effects, todo[i], a, Now());
          }
        }
      }
      if |a.dirty| != 1 { NotGlimpsed(defs, rank, initial, old(subs), disposed + effects, a, Now()); }
    }

    lemma SourceReadsNothing(x: Id)
      requires Core() && x !in defs
      ensures Of(deps, x) == [] && x !in seen && x !in disposed && (x !in initial ==> x !in value)
    {
    }

    lemma LastIsTold(x: Id)
      requires Core()
      ensures x in dirty ==> Lookup(previous, x) == Told(log, initial, x)
    {
      hide Told, Lookup;
    }

    /** `computed`. */
    method Computed(c: Id, d: Derivation)
      requires Valid() && Unused(c) && Pure(d) && ReadsBelow(d, rank, rank(c))
      modifies this
      ensures Valid() && defs == old(defs)[c := d] && effects == old(effects)
      ensures initial == old(initial)[c := UNDEFINED]
      ensures batchDepth == old(batchDepth) && disposed == old(disposed) && Idle() && old(runs)[c] < runs[c]
      ensures batchDepth > 0 ==> log == old(log) && runs == old(runs) + multiset{c} && atOpen == old(atOpen)
      ensures forall y :: y !in defs ==> Lookup(value, y) == old(Lookup(value, y))
    {
      hide Linked, Settled, Telling, WellDefined, Shaped, Named, Published;
      SourceReadsNothing(c);
      CreateSignal(c, UNDEFINED);
      Define(c, d);
      FirstRun(c);
    }

    /** The run that creating a derivation starts with. */
    method FirstRun(c: Id)
      requires Core() && UpTo({c}) && running == {} && c in defs && c !in disposed
      requires (forall y :: y in dirty ==> y in pending) && (batchDepth == 0 ==> pending == [])
      requires batchDepth > 0 ==> Remembered(log, initial, atOpen, value)
      modifies this
      ensures Valid() && Same() && Idle() && old(runs)[c] < runs[c]
      ensures batchDepth > 0 ==> log == old(log) && runs == old(runs) + multiset{c}
      ensures forall y :: y !in defs ==> Lookup(value, y) == old(Lookup(value, y))
    {
      hide Core, UpTo, Remembered, Rested, Unmoved, Ran, Lookup;
      assert {} + {c} == {c};
      Rerun(c, {});
      MovedRests(defs, rank, c, old(Now()), Now());
      if batchDepth > 0 { RememberedGrows(log, initial, atOpen, old(value), value); }
    }

    /** `effect`. */
    method Effect(c: Id, d: Derivation)
      requires Valid() && Unused(c) && Pure(d) && ReadsBelow(d, rank, rank(c))
      modifies this
      ensures Valid() && defs == old(defs)[c := d] && effects == old(effects) + {c}
      ensures batchDepth == old(batchDepth) && disposed == old(disposed) && Idle() && old(runs)[c] < runs[c]
      ensures batchDepth > 0 ==> log == old(log) && runs == old(runs) + multiset{c} && atOpen == old(atOpen)
      ensures forall y :: y !in defs ==> Lookup(value, y) == old(Lookup(value, y))
    {
      hide Linked, Settled, Telling, WellDefined, Shaped;
      SourceReadsNothing(c);
      effects := effects + {c};
      Define(c, d);
      FirstRun(c);
    }

    /** The disposer that `effect` returns. */
    method DisposeEffect(c: Id)
      requires Valid() && c in effects && c in defs
      modifies this
      ensures Valid() && disposed == old(disposed) + {c} && defs == old(defs) && runs == old(runs)
      ensures batchDepth == old(batchDepth) && value == old(value) && forall x :: c !in Of(subs, x)
    {
      hide Core, UpTo, Linked, Remembered;
      if c !in disposed { Retire(c); }
      NotSubscribed(c);
    }

    lemma NotSubscribed(c: Id)
      requires Core() && c in disposed
      ensures forall x :: c !in Of(subs, x)
    {
      hide Settled, Telling, WellDefined, Named, Published, Linked;
      ShapedAt(defs, deps, disposed, c);
      Unlinked(subs, deps, rank, c);
    }

    /** The subscriptions end, and no run is due any more. */
    method Retire(c: Id)
      requires Core() && UpTo({}) && c in defs && c !in disposed
      modifies this`subs, this`deps, this`disposed
      ensures Core() && UpTo({}) && disposed == old(disposed) + {c}
    {
      hide Linked, Settled, Telling, WellDefined, Shaped, Named, Published;
      NamedRun(initial, value, dirty, log, defs, effects, seen, running + disposed, running + (disposed + {c}), c, 0);
      ShapedAt(defs, deps, disposed, c);
      ghost var due := {} + running + disposed;
      assert due + {c} == {} + running + (disposed + {c});
      SettledMonotone(defs, value, deps, seen, dirty, due, due + {c});
      UnsettledStep(defs, value, deps, seen, dirty, due + {c}, c);
      ShapedStep(defs, deps, disposed, c, []);
      Relink(c, []);
      ShapedDispose(defs, deps, disposed, c);
      disposed := disposed + {c};
    }

    /** A new derivation that has not run yet. */
    method Define(c: Id, d: Derivation)
      requires Core() && UpTo({}) && c !in defs && Pure(d) && ReadsBelow(d, rank, rank(c))
      requires Of(deps, c) == [] && Lookup(value, c) == Lookup(seen, c) && (c in initial || c in effects)
      modifies this`defs, this`top
      ensures Core() && UpTo({c}) && defs == old(defs)[c := d]
    {
      hide Linked, Settled, Telling, WellDefined, Shaped;
      DefineStep(defs, value, deps, seen, dirty, {} + running + disposed, c, d);
      assert {} + running + disposed + {c} == {c} + running + disposed;
      ghost var top' := if rank(c) > top then rank(c) else top;
      DefinedStep(defs, deps, disposed, rank, top, top', c, d);
      defs, top := defs[c := d], top';
    }

    /**
     * Outside a batch every computed and every live effect is up to date with the present values and
     * subscribed to exactly the signals its derivation reads.
     */
    lemma Quiescent(c: Id)
      requires Valid() && batchDepth == 0 && c in defs && c !in disposed
      ensures c !in effects ==> Lookup(value, c) == defs[c].value(value)
      ensures Lookup(seen, c) == defs[c].value(value)
      ensures forall x :: c in Of(subs, x) <==> x in defs[c].trace(value)
    {
      assert Current(defs[c], value, Of(deps, c), Lookup(seen, c));
    }

    /** Nobody subscribes to what no derivation reads. */
    lemma Unread(x: Id)
      requires Valid() && batchDepth == 0 && forall c, e :: c in defs ==> x !in defs[c].trace(e)
      ensures forall c :: x !in Of(deps, c)
    {
      forall c ensures x !in Of(deps, c) {
        if c in defs && c !in disposed { Quiescent(c); }
      }
    }

    /** Outside a batch nothing is dirty, and every created signal has a value. */
    lemma Resting()
      requires Valid() && batchDepth == 0
      ensures dirty == {} && value.Keys == initial.Keys
    {
    }

    lemma Subscribers(x: Id)
      requires Valid()
      ensures NoDup(Of(subs, x)) && forall c :: c in Of(subs, x) ==> c in defs && c !in disposed
    {
      forall c | c in Of(subs, x) ensures c in defs && c !in disposed {
        assert x in Of(deps, c);
      }
    }

    lemma DiamondRests()
      requires Valid() && batchDepth == 0 && defs == Diamond() && effects == {} && disposed == {}
      ensures Lookup(value, 1) == Lookup(value, 2) == Lookup(value, 0)
      ensures Told(log, initial, 3) == 0
      ensures Of(subs, 0) != [] && 3 !in Of(subs, 0)
      ensures Of(subs, 0)[0] in {1, 2} && Of(subs, 0)[0] !in Of(subs, 0)[1..]
    {
      hide Valid, Of, Told;
      Quiescent(1);
      Quiescent(2);
      Quiescent(3);
      NothingUntold(3);
      Subscribers(0);
      assert Of(subs, 0)[0] in Of(subs, 0);
    }

    /** And what its subscribers were last told is the present value of every signal. */
    lemma NothingUntold(x: Id)
      requires Valid() && batchDepth == 0
      ensures Gapless(log, initial) && Told(log, initial, x) == Lookup(value, x)
    {
    }
  }

  // ----- a derivation of derivations can tell twice -----

  /** `() => x.get()`. */
  function Copy(x: Id): Derivation { Derivation(e => [x], e => Lookup(e, x)) }

  /** `() => x.get() - y.get()`. */
  function Difference(x: Id, y: Id): Derivation { Derivation(e => [x, y], e => Lookup(e, x) - Lookup(e, y)) }

  /** Two copies of one signal and their difference. */
  function Diamond(): map<Id, Derivation> { map[1 := Copy(0), 2 := Copy(0), 3 := Difference(1, 2)] }

  function DiamondRank(x: Id): nat { if x == 0 then 0 else if x == 1 || x == 2 then 1 else 2 }

  lemma DiamondIsPure()
    ensures Pure(Copy(0)) && ReadsBelow(Copy(0), DiamondRank, 1)
    ensures Pure(Difference(1, 2)) && ReadsBelow(Difference(1, 2), DiamondRank, 2)
  {
  }

  method MakeDiamond(v: Value) returns (k: Kernel)
    ensures fresh(k) && k.Valid() && k.batchDepth == 0 && k.rank == DiamondRank && k.defs == Diamond()
    ensures 0 in k.initial && Lookup(k.value, 0) == v && k.effects == {} && k.disposed == {}
  {
    hide Kernel.Valid, Pure, ReadsBelow, Rested;
    DiamondIsPure();
    k := new Kernel(DiamondRank);
    k.Unread(0);
    k.CreateSignal(0, v);
    k.Unread(1);
    k.Computed(1, Copy(0));
    k.Unread(2);
    k.Computed(2, Copy(0));
    k.Unread(3);
    k.Computed(3, Difference(1, 2));
    assert k.defs == Diamond();
  }

  /** After the first of the two copies has run, the difference is not 0, and that was told. */
  lemma DiamondSeen(initial: Env, except: set<Id>, f: Id, a: Moment, m: Moment, b: Moment)
    requires Glimpse(Diamond(), DiamondRank, initial, except, 0, f, a, m, b) && a.dirty == {0}
    requires f in {1, 2} && f !in except && 3 !in except
    requires Lookup(a.value, 1) == Lookup(a.value, 2) != Lookup(a.value, 0)
    ensures a.log <= m.log <= b.log && Told(m.log, initial, 3) != 0
  {
    hide Told;
    var other := if f == 1 then 2 else 1;
    assert Lookup(m.value, other) == Lookup(a.value, other) && Lookup(m.value, 0) == Lookup(a.value, 0);
    assert m.dirty == {};
    assert f in Diamond() && 3 in Diamond();
  }

  /**
   * One batch that writes one signal from `v` to another value `w`. The difference of its two copies is 0 before and
   * after, and it has told two changes at least.
   */
  method DiamondTellsTwice(v: Value, w: Value) returns (k: Kernel, before: seq<Notice>)
    requires v != w
    ensures k.Valid() && k.batchDepth == 0 && k.defs == Diamond() && before <= k.log
    ensures Told(before, k.initial, 3) == Told(k.log, k.initial, 3) == 0
    ensures Count(k.log, 3) >= Count(before, 3) + 2
  {
    hide Kernel.Valid, Glimpse, Count, Told, Direct, Above, Of;
    k := MakeDiamond(v);
    k.Resting();
    k.DiamondRests();
    before := k.log;
    ghost var subscribers := Of(k.subs, 0);
    k.BatchBegin();
    k.Write(0, w);
    ghost var a := k.Now();
    k.BatchEnd();
    k.DiamondRests();
    ghost var except := Elems(subscribers[1..]) + (k.disposed + k.effects);
    ghost var m :| Glimpse(Diamond(), DiamondRank, k.initial, except, 0, subscribers[0], a, m, k.Now());
    DiamondSeen(k.initial, except, subscribers[0], a, m, k.Now());
    ToldBetween(before, m.log, k.initial, 3);
    ToldBetween(m.log, k.log, k.initial, 3);
  }
}
