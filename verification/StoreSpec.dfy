/** The checked multi-key commit of fino:store, as any provider must perform it. */
module StoreSpec {
  import opened Basics

  type Key = string
  type Version = nat

  /** Stored values and times; both are only compared and copied. */
  type Value = int
  type Time = int

  datatype Record = Record(value: Value, version: Version, expiresAt: Option<Time>)

  datatype Check = Check(key: Key, ifVersion: Option<Version>)

  /** `ttlMs`: absent, a finite number of milliseconds, or not finite. */
  datatype Ttl = NoTtl | Finite(ms: int) | NotFinite

  datatype Write = Write(key: Key, value: Value, ttl: Ttl)

  datatype Mutation = Mutation(checks: seq<Check>, writes: seq<Write>, deletes: seq<Key>)

  /** What a store shows: the live record of a key of a namespace at a time. */
  type View = (string, Key, Time) -> Option<Record>

  predicate Live(r: Record, t: Time) { r.expiresAt.Some? ==> r.expiresAt.value > t }

  function Alive(o: Option<Record>, t: Time): Option<Record> {
    if o.Some? && Live(o.value, t) then o else None
  }

  function VersionOf(o: Option<Record>): Option<Version> {
    if o.Some? then Some(o.value.version) else None
  }

  // ----- validateMutation -----

  ghost predicate DistinctWrites(ws: seq<Write>) { forall i, j :: 0 <= i < j < |ws| ==> ws[i].key != ws[j].key }

  ghost predicate DistinctChecks(cs: seq<Check>) { forall i, j :: 0 <= i < j < |cs| ==> cs[i].key != cs[j].key }

  ghost predicate WellFormed(m: Mutation) {
    && DistinctWrites(m.writes) && NoDup(m.deletes) && DistinctChecks(m.checks)
    && (forall i :: 0 <= i < |m.writes| ==> !m.writes[i].ttl.NotFinite?)
    && (forall i :: 0 <= i < |m.writes| ==> m.writes[i].key !in m.deletes)
  }

  /** `validateMutation`: false stands for the `TypeError` it throws. */
  method ValidateMutation(m: Mutation) returns (ok: bool)
    ensures ok <==> WellFormed(m)
  {
    var writeKeys: set<Key> := {};
    for i := 0 to |m.writes|
      invariant DistinctWrites(m.writes[..i])
      invariant forall k :: k in writeKeys <==> exists h :: 0 <= h < i && m.writes[h].key == k
      invariant forall h :: 0 <= h < i ==> !m.writes[h].ttl.NotFinite?
    {
      if m.writes[i].key in writeKeys || m.writes[i].ttl.NotFinite? { return false; }
      writeKeys := writeKeys + {m.writes[i].key};
    }
    var deleteKeys: set<Key> := {};
    for i := 0 to |m.deletes|
      invariant NoDup(m.deletes[..i])
      invariant forall k :: k in deleteKeys <==> k in m.deletes[..i]
      invariant forall h :: 0 <= h < |m.writes| ==> m.writes[h].key !in m.deletes[..i]
    {
      if m.deletes[i] in deleteKeys || m.deletes[i] in writeKeys { return false; }
      deleteKeys := deleteKeys + {m.deletes[i]};
    }
    var checkKeys: set<Key> := {};
    for i := 0 to |m.checks|
      invariant DistinctChecks(m.checks[..i])
      invariant forall k :: k in checkKeys <==> exists h :: 0 <= h < i && m.checks[h].key == k
    {
      if m.checks[i].key in checkKeys { return false; }
      checkKeys := checkKeys + {m.checks[i].key};
    }
    assert m.writes[..|m.writes|] == m.writes && m.deletes[..|m.deletes|] == m.deletes
        && m.checks[..|m.checks|] == m.checks;
    return true;
  }

  // ----- what a commit does -----

  ghost predicate Passes(v: View, ns: string, checks: seq<Check>, now: Time) {
    forall i :: 0 <= i < |checks| ==> VersionOf(v(ns, checks[i].key, now)) == checks[i].ifVersion
  }

  function Expiry(ttl: Ttl, now: Time): Option<Time> {
    match ttl
    case Finite(ms) => Some(now + if ms > 0 then ms else 0)
    case _ => None
  }

  function Written(w: Write, token: Version, now: Time): Record {
    Record(w.value, token, Expiry(w.ttl, now))
  }

  /** Index of the write to `key`, or -1. */
  function WriteOf(ws: seq<Write>, key: Key): (i: int)
    ensures -1 <= i < |ws|
    ensures i == -1 <==> forall j :: 0 <= j < |ws| ==> ws[j].key != key
    ensures i != -1 ==> ws[i].key == key
  {
    if ws == [] then -1
    else if ws[|ws| - 1].key == key then |ws| - 1
    else WriteOf(ws[..|ws| - 1], key)
  }

  /** The record of `key` after a passing commit, given the one before. */
  function After(m: Mutation, tokens: seq<Version>, now: Time, key: Key, before: Option<Record>): Option<Record>
    requires |tokens| == |m.writes|
  {
    var i := WriteOf(m.writes, key);
    if i != -1 then Some(Written(m.writes[i], tokens[i], now))
    else if key in m.deletes then None
    else before
  }

  /**
   * A commit at `now` turns what a store shows from `v` into `v'`: it succeeds exactly when all checks
   * hold, and from then on shows the writes and not the deleted keys; otherwise nothing changes.
   */
  ghost predicate Committed(v: View, v': View, ns: string, m: Mutation, tokens: seq<Version>, now: Time, ok: bool)
    requires |tokens| == |m.writes|
  {
    && (ok <==> Passes(v, ns, m.checks, now))
    && forall n, k, t :: now <= t ==>
         v'(n, k, t) == if ok && n == ns then Alive(After(m, tokens, now, k, v(n, k, t)), t) else v(n, k, t)
  }

  /** Two stores show the same from `now` on. */
  ghost predicate SameFrom(v: View, w: View, now: Time) {
    forall n, k, t :: now <= t ==> v(n, k, t) == w(n, k, t)
  }

  /** The outcome of a commit is determined by what the store shows. */
  lemma CommitsAgree(v: View, v': View, w: View, w': View, ns: string, m: Mutation, tokens: seq<Version>,
                     now: Time, ok: bool, ok': bool)
    requires |tokens| == |m.writes| && SameFrom(v, w, now)
    requires Committed(v, v', ns, m, tokens, now, ok) && Committed(w, w', ns, m, tokens, now, ok')
    ensures ok == ok' && SameFrom(v', w', now)
  {
    assert Passes(v, ns, m.checks, now) <==> Passes(w, ns, m.checks, now) by {
      forall i | 0 <= i < |m.checks| ensures v(ns, m.checks[i].key, now) == w(ns, m.checks[i].key, now) {
      }
    }
  }

  // ----- what a caller of commit sees -----

  /** From `now` on the store shows this write: for its lifetime if it has one, for good otherwise. */
  ghost predicate Lasts(v: View, ns: string, w: Write, token: Version, now: Time) {
    forall t :: now <= t ==>
      var shown := v(ns, w.key, t);
      if w.ttl.Finite? && now + (if w.ttl.ms < 0 then 0 else w.ttl.ms) <= t then shown == None
      else shown.Some? && shown.value.value == w.value && shown.value.version == token
  }

  /** A check for a version holds if the store shows it, a check for absence if it shows nothing. */
  ghost predicate CheckHolds(v: View, ns: string, c: Check, now: Time) {
    var shown := v(ns, c.key, now);
    if c.ifVersion.None? then shown == None else shown.Some? && shown.value.version == c.ifVersion.value
  }

  /** The commit writes or deletes this key. */
  ghost predicate Names(m: Mutation, key: Key) {
    key in m.deletes || exists i :: 0 <= i < |m.writes| && m.writes[i].key == key
  }

  /** What is shown from `now` on, in terms of the arguments alone. */
  ghost predicate Observed(v: View, v': View, ns: string, m: Mutation, tokens: seq<Version>, now: Time, ok: bool)
    requires |tokens| == |m.writes|
  {
    && (ok <==> forall i :: 0 <= i < |m.checks| ==> CheckHolds(v, ns, m.checks[i], now))
    && (ok ==> forall i :: 0 <= i < |m.writes| ==> Lasts(v', ns, m.writes[i], tokens[i], now))
    && (ok ==> forall k, t :: k in m.deletes && now <= t ==> v'(ns, k, t) == None)
    && forall n, k, t :: now <= t && !(ok && n == ns && Names(m, k)) ==> v'(n, k, t) == v(n, k, t)
  }

  /** A view shows only what is live. */
  ghost predicate OnlyLive(v: View) { forall n, k, t :: Alive(v(n, k, t), t) == v(n, k, t) }

  lemma CommitMeans(v: View, v': View, ns: string, m: Mutation, tokens: seq<Version>, now: Time, ok: bool)
    requires |tokens| == |m.writes| && WellFormed(m) && OnlyLive(v) && Committed(v, v', ns, m, tokens, now, ok)
    ensures Observed(v, v', ns, m, tokens, now, ok)
  {
    hide WriteOf;
    if ok {
      forall i | 0 <= i < |m.writes| ensures Lasts(v', ns, m.writes[i], tokens[i], now) {
        assert WriteOf(m.writes, m.writes[i].key) == i;
      }
      forall k, t | k in m.deletes && now <= t ensures v'(ns, k, t) == None {
        NotWritten(m, k);
      }
    }
    forall n, k, t | now <= t && !(ok && n == ns && Names(m, k)) ensures v'(n, k, t) == v(n, k, t) {
      assert Alive(v(n, k, t), t) == v(n, k, t);
    }
    forall i | 0 <= i < |m.checks|
      ensures VersionOf(v(ns, m.checks[i].key, now)) == m.checks[i].ifVersion <==> CheckHolds(v, ns, m.checks[i], now)
    {
    }
  }

  lemma NotWritten(m: Mutation, k: Key)
    requires WellFormed(m) && k in m.deletes
    ensures WriteOf(m.writes, k) == -1
  {
  }

  /** `delete` of one key: it reports whether the key was live, and the key is gone. */
  ghost predicate Deleted(v: View, v': View, ns: string, key: Key, now: Time, existed: bool) {
    && existed == v(ns, key, now).Some?
    && forall n, k, t :: now <= t ==> v'(n, k, t) == if n == ns && k == key then None else v(n, k, t)
  }

  lemma DeletesAgree(v: View, v': View, w: View, w': View, ns: string, key: Key, now: Time, existed: bool,
      existed': bool)
    requires SameFrom(v, w, now) && Deleted(v, v', ns, key, now, existed) && Deleted(w, w', ns, key, now, existed')
    ensures existed == existed' && SameFrom(v', w', now)
  {
  }

  /** `Refused` is the error of a codec on a value it has no form for. */
  datatype CommitResult = Invalid | Refused | Conflict | Done(written: seq<(Key, Value, Version)>)

  /** The versioned entries a successful commit reports, in input order. */
  function Report(ws: seq<Write>, tokens: seq<Version>): seq<(Key, Value, Version)>
    requires |tokens| == |ws|
  {
    seq(|ws|, i requires 0 <= i < |ws| => (ws[i].key, ws[i].value, tokens[i]))
  }
}
