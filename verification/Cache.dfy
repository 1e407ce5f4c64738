/** The cache of fino:cache: one recency index shared by namespace views over one store. */
module Cache {
  import opened Basics
  import opened CacheLog

  // ----- recency keys -----

  const NUL := 0 as char

  /** The scope string of a namespace view. */
  function ScopeText(scope: seq<string>): string {
    if scope == [] then "root" else ScopeText(scope[..|scope| - 1]) + [NUL] + scope[|scope| - 1]
  }

  function RecencyKey(id: Id): string { ScopeText(id.scope) + [NUL] + id.key }

  ghost predicate NoNul(id: Id) {
    NUL !in id.key && forall i :: 0 <= i < |id.scope| ==> NUL !in id.scope[i]
  }

  /** The stretches of a text between NULs. */
  function Split(s: string): (parts: seq<string>)
    ensures parts != []
  {
    if s == "" then [""]
    else
      Longer(s[0], Split(s[1..]))
  }

  /** The parts after one more character in front. */
  function Longer(c: char, rest: seq<string>): (parts: seq<string>)
    requires rest != []
    ensures parts != []
  {
    if c == NUL then [""] + rest else [[c] + rest[0]] + rest[1..]
  }

  function Join(parts: seq<string>): string
    requires parts != []
  {
    if |parts| == 1 then parts[0] else parts[0] + [NUL] + Join(parts[1..])
  }

  lemma {:induction false} JoinSplit(s: string)
    ensures Join(Split(s)) == s
  {
    if s != "" {
      JoinSplit(s[1..]);
      JoinLonger(s[0], Split(s[1..]));
      assert s == [s[0]] + s[1..];
    }
  }

  lemma JoinLonger(c: char, rest: seq<string>)
    requires rest != []
    ensures Join(Longer(c, rest)) == [c] + Join(rest)
  {
    var parts := Longer(c, rest);
    if c == NUL {
      assert parts[1..] == rest;
    } else {
      assert parts[1..] == rest[1..] && parts[0] == [c] + rest[0];
    }
  }

  lemma {:induction false} SplitConcat(a: string, b: string)
    ensures Split(a + [NUL] + b) == Split(a) + Split(b)
  {
    hide Longer;
    var s := a + [NUL] + b;
    if a == "" {
      assert s[0] == NUL && s[1..] == b;
      LongerByNul(Split(b));
    } else {
      assert s[0] == a[0] && s[1..] == a[1..] + [NUL] + b;
      SplitConcat(a[1..], b);
      LongerAppend(a[0], Split(a[1..]), Split(b));
    }
  }

  lemma LongerByNul(rest: seq<string>)
    requires rest != []
    ensures Longer(NUL, rest) == [""] + rest
  {
  }

  lemma LongerAppend(c: char, a: seq<string>, b: seq<string>)
    requires a != []
    ensures Longer(c, a + b) == Longer(c, a) + b
  {
    assert (a + b)[0] == a[0] && (a + b)[1..] == a[1..] + b;
  }

  lemma {:induction false} SplitPlain(s: string)
    requires NUL !in s
    ensures Split(s) == [s]
  {
    if s != "" {
      assert s == [s[0]] + s[1..];
      SplitPlain(s[1..]);
    }
  }

  function ScopeParts(scope: seq<string>): seq<string> {
    if scope == [] then [] else ScopeParts(scope[..|scope| - 1]) + Split(scope[|scope| - 1])
  }

  /** The NUL-separated parts of the names and the key. */
  function Parts(id: Id): seq<string> { ScopeParts(id.scope) + Split(id.key) }

  lemma {:induction false} SplitScope(scope: seq<string>)
    ensures Split(ScopeText(scope)) == ["root"] + ScopeParts(scope)
  {
    hide Split;
    if scope == [] {
      SplitPlain("root");
    } else {
      var front, last := scope[..|scope| - 1], scope[|scope| - 1];
      SplitScope(front);
      SplitConcat(ScopeText(front), last);
      assert ["root"] + (ScopeParts(front) + Split(last)) == ["root"] + ScopeParts(front) + Split(last);
    }
  }

  /** Two ids share a recency key exactly when their names and keys have the same NUL-separated parts. */
  lemma SameRecencyKey(a: Id, b: Id)
    ensures RecencyKey(a) == RecencyKey(b) <==> Parts(a) == Parts(b)
  {
    hide Split, Parts, RecencyKey, Join;
    SplitKey(a);
    SplitKey(b);
    JoinSplit(RecencyKey(a));
    JoinSplit(RecencyKey(b));
    assert (["root"] + Parts(a))[1..] == Parts(a) && (["root"] + Parts(b))[1..] == Parts(b);
  }

  lemma SplitKey(id: Id)
    ensures Split(RecencyKey(id)) == ["root"] + Parts(id)
  {
    hide Split;
    SplitScope(id.scope);
    SplitConcat(ScopeText(id.scope), id.key);
  }

  lemma {:induction false} PlainScope(scope: seq<string>)
    requires forall i :: 0 <= i < |scope| ==> NUL !in scope[i]
    ensures ScopeParts(scope) == scope
  {
    hide Split;
    if scope != [] {
      PlainScope(scope[..|scope| - 1]);
      SplitPlain(scope[|scope| - 1]);
    }
  }

  /** Distinct keys get distinct recency keys, as long as no name contains a NUL. */
  lemma RecencyKeysDiffer(a: Id, b: Id)
    requires NoNul(a) && NoNul(b)
    ensures RecencyKey(a) == RecencyKey(b) <==> a == b
  {
    SameRecencyKey(a, b);
    PlainScope(a.scope);
    PlainScope(b.scope);
    SplitPlain(a.key);
    SplitPlain(b.key);
    var p, q := a.scope + [a.key], b.scope + [b.key];
    assert p == q ==> p[|p| - 1] == q[|q| - 1] && p[..|p| - 1] == q[..|q| - 1];
    assert p[..|p| - 1] == a.scope && q[..|q| - 1] == b.scope;
  }

  /** With a NUL in a key, two namespaces share a recency key. */
  lemma RecencyKeysClash()
    ensures var a, b := Id(["n"], "k"), Id([], ['n', NUL, 'k']); a != b && RecencyKey(a) == RecencyKey(b)
  {
    assert ["n"][..0] == [];
    assert ScopeText(["n"]) == "root" + [NUL] + "n";
  }

  // ----- the cache -----

  /**
   * The store holds what the log says, except that a provider with expiry of its own may have dropped stale records.
   */
  ghost predicate Backed(store: map<Id, Record>, log: seq<Event>, native: bool, seen: int) {
    && (forall id :: id in store ==> id in Kept(log) && store[id] == Kept(log)[id])
    && (forall id :: id in Kept(log) && id !in store ==> native && Stale(Kept(log)[id], seen))
  }

  /**
   * What `get` must answer: the latest value written, if nothing has removed it and it has not expired. `latest` is
   * `now`, unless the clock of a provider with expiry of its own was ahead before; a record stale by then may be gone.
   */
  ghost predicate Answers(log: seq<Event>, id: Id, now: int, latest: int, r: Option<Value>) {
    && (r.Some? ==> exists i: nat :: Latest(log, id, i) && !Stale(log[i].record, now))
    && ((exists i: nat :: Latest(log, id, i) && !Stale(log[i].record, latest)) ==> r.Some?)
    && forall i: nat :: Latest(log, id, i) && r.Some? ==> r.value == log[i].record.value
  }

  function Max(a: int, b: int): int { if a < b then b else a }

  // ----- the index -----

  function Texts(ids: seq<Id>): (ts: seq<string>)
    ensures |ts| == |ids| && forall i :: 0 <= i < |ids| ==> ts[i] == RecencyKey(ids[i])
  {
    seq(|ids|, i requires 0 <= i < |ids| => RecencyKey(ids[i]))
  }

  /** The recency map: its keys in insertion order, each with the id it was set for. */
  ghost predicate Indexed(recency: seq<string>, entries: map<string, Id>) {
    && NoDup(recency) && (forall t :: t in entries <==> t in recency)
    && forall t :: t in entries ==> RecencyKey(entries[t]) == t
  }

  /** It tracks exactly `ids`, in this order. */
  ghost predicate Tracks(recency: seq<string>, entries: map<string, Id>, ids: seq<Id>) {
    recency == Texts(ids) && forall t :: t in entries ==> entries[t] in ids
  }

  /** No other id has the recency key of `id`. */
  predicate Owns(entries: map<string, Id>, id: Id) {
    RecencyKey(id) in entries ==> entries[RecencyKey(id)] == id
  }

  /** Without NULs no two ids clash. */
  lemma PlainOwns(recency: seq<string>, entries: map<string, Id>, id: Id)
    requires Indexed(recency, entries) && NoNul(id) && forall t :: t in entries ==> NoNul(entries[t])
    ensures Owns(entries, id)
  {
    hide NoNul, RecencyKey;
    if RecencyKey(id) in entries { RecencyKeysDiffer(entries[RecencyKey(id)], id); }
  }

  /** A tracked id owns its key. */
  lemma TrackedOwns(recency: seq<string>, entries: map<string, Id>, ids: seq<Id>, i: nat)
    requires Indexed(recency, entries) && Tracks(recency, entries, ids) && i < |ids|
    ensures recency[i] in entries && entries[recency[i]] == ids[i]
  {
    hide RecencyKey;
    assert recency[i] in recency;
    var j :| 0 <= j < |ids| && ids[j] == entries[recency[i]];
    assert recency[j] == recency[i];
  }

  /** An id that owns its key is tracked exactly where its key is. */
  lemma {:induction false} IndexOfText(ids: seq<Id>, id: Id)
    requires forall i :: 0 <= i < |ids| && ids[i] != id ==> RecencyKey(ids[i]) != RecencyKey(id)
    ensures IndexOf(Texts(ids), RecencyKey(id)) == IndexOf(ids, id)
  {
    hide RecencyKey;
    if ids != [] {
      assert Texts(ids)[1..] == Texts(ids[1..]);
      IndexOfText(ids[1..], id);
    }
  }

  lemma WithoutText(ids: seq<Id>, id: Id)
    requires forall i :: 0 <= i < |ids| && ids[i] != id ==> RecencyKey(ids[i]) != RecencyKey(id)
    ensures Without(Texts(ids), RecencyKey(id)) == Texts(Without(ids, id))
  {
    hide RecencyKey, IndexOf, Texts;
    IndexOfText(ids, id);
    var k := IndexOf(ids, id);
    if k != -1 { TextsAround(ids, k); }
  }

  lemma TextsAround(ids: seq<Id>, k: nat)
    requires k < |ids|
    ensures Texts(ids[..k] + ids[k + 1..]) == Texts(ids)[..k] + Texts(ids)[k + 1..]
  {
    hide RecencyKey;
    var rest, a, b := ids[..k] + ids[k + 1..], Texts(ids)[..k], Texts(ids)[k + 1..];
    forall i | 0 <= i < |rest| ensures Texts(rest)[i] == (a + b)[i] {
      assert rest[i] == if i < k then ids[i] else ids[i + 1];
    }
  }

  lemma IndexedForget(recency: seq<string>, entries: map<string, Id>, t: string)
    requires Indexed(recency, entries)
    ensures Indexed(Without(recency, t), entries - {t})
    ensures |Without(recency, t)| <= |recency| && t !in Without(recency, t)
    ensures t in recency ==> |Without(recency, t)| == |recency| - 1
  {
    hide RecencyKey;
    WithoutProperties(recency, t);
  }

  lemma IndexedAppend(recency: seq<string>, entries: map<string, Id>, id: Id)
    requires Indexed(recency, entries) && RecencyKey(id) !in recency
    ensures Indexed(recency + [RecencyKey(id)], entries[RecencyKey(id) := id])
  {
    hide RecencyKey;
  }

  lemma TracksForget(recency: seq<string>, entries: map<string, Id>, ids: seq<Id>, id: Id)
    requires Indexed(recency, entries) && Tracks(recency, entries, ids) && Owns(entries, id)
    ensures Tracks(Without(recency, RecencyKey(id)), entries - {RecencyKey(id)}, Without(ids, id))
  {
    hide RecencyKey, Texts, NoDup;
    forall i | 0 <= i < |ids| && ids[i] != id ensures RecencyKey(ids[i]) != RecencyKey(id) {
      TrackedOwns(recency, entries, ids, i);
    }
    WithoutText(ids, id);
    forall t | t in entries - {RecencyKey(id)} ensures entries[t] in Without(ids, id) {
    }
  }

  lemma TracksAppend(recency: seq<string>, entries: map<string, Id>, ids: seq<Id>, id: Id)
    requires Tracks(recency, entries, ids)
    ensures Tracks(recency + [RecencyKey(id)], entries[RecencyKey(id) := id], ids + [id])
  {
    hide RecencyKey;
  }

  // ----- what the store holds, in terms of the arguments -----

  /** A record can be read at `t`: it has no expiry, or one that is still to come. */
  ghost predicate Lives(r: Record, t: int) { r.expiresAt.None? || t < r.expiresAt.value }

  lemma StaleMeans(r: Record, t: int)
    ensures Stale(r, t) <==> !Lives(r, t)
  {
  }

  /** The value and tags as given, and the end of the lifetime if there is one. */
  ghost predicate AsGiven(r: Record, value: Value, tags: seq<string>, ttl: Option<int>, now: int) {
    && r.value == value && r.tags == tags && (r.expiresAt.None? <==> ttl.None?)
    && (ttl.Some? ==> r.expiresAt == Some(if ttl.value < 0 then now else now + ttl.value))
  }

  lemma FreshMeans(value: Value, tags: seq<string>, ttl: Option<int>, now: int)
    ensures AsGiven(Fresh(value, tags, ttl, now), value, tags, ttl, now)
  {
  }

  /** Nothing in `after` is new. */
  ghost predicate Within(after: map<Id, Record>, before: map<Id, Record>) {
    forall id :: id in after ==> id in before && after[id] == before[id]
  }

  /** Some tag is wanted. */
  ghost predicate Hits(tags: seq<string>, wanted: seq<string>) { exists x :: x in tags && x in wanted }

  lemma SharesMeans(tags: seq<string>, wanted: seq<string>)
    ensures SharesTag(tags, wanted) <==> Hits(tags, wanted)
  {
    if Hits(tags, wanted) {
      var x :| x in tags && x in wanted;
      var i :| 0 <= i < |tags| && tags[i] == x;
    }
  }

  /** Everything since was evicted. */
  ghost predicate Evictions(before: seq<Event>, after: seq<Event>) {
    before <= after && forall i :: |before| <= i < |after| ==> after[i].Gone? && after[i].why == Evicted
  }

  lemma EvictMore(before: seq<Event>, log: seq<Event>, id: Id)
    requires Evictions(before, log)
    ensures Evictions(before, log + [Gone(id, Evicted)])
  {
  }

  class Cache {
    const native: bool
    const max: Option<nat>
    var store: map<Id, Record>
    /** The recency map: its keys in insertion order, and the entries they lead to. */
    var recency: seq<string>
    var entries: map<string, Id>
    ghost var log: seq<Event>
    ghost var seen: int

    ghost predicate Valid()
      reads this
    {
      Indexed(recency, entries) && !Over(|recency|, max) && Backed(store, log, native, seen)
    }

    /** The index holds exactly the ids in use, the least recently used first. */
    ghost predicate Tracked()
      reads this
    {
      Tracks(recency, entries, Order(log))
    }

    /** `cache`, with `native` when the store exposes its own expiry; no `maxEntries` means no limit. */
    constructor (native: bool, max: Option<nat>)
      ensures Valid() && Tracked() && log == [] && this.native == native && this.max == max
      ensures store == map[] && recency == [] && entries == map[]
    {
      this.native, this.max := native, max;
      store, recency, entries, log, seen := map[], [], map[], [], 0;
    }

    /** The store's `get`: a provider with expiry drops a stale record when it meets one. */
    method Fetch(id: Id, now: int) returns (r: Option<Record>)
      modifies this`store
      ensures r == if id in old(store) && !(native && Stale(old(store)[id], now)) then Some(old(store)[id]) else None
      ensures store == if r.None? then old(store) - {id} else old(store)
    {
      if id !in store { return None; }
      if native && Stale(store[id], now) {
        store := store - {id};
        return None;
      }
      return Some(store[id]);
    }

    method Forget(id: Id)
      modifies this`recency, this`entries
      ensures recency == Without(old(recency), RecencyKey(id)) && entries == old(entries) - {RecencyKey(id)}
    {
      recency, entries := Without(recency, RecencyKey(id)), entries - {RecencyKey(id)};
    }

    /** Move to the end of the index, then evict from its front. `ids` is what the index tracked before. */
    method Touch(id: Id, ghost ids: seq<Id>)
      requires Indexed(recency, entries) && Backed(store, log, native, seen)
      modifies this`recency, this`entries, this`store, this`log
      ensures Valid() && Evictions(old(log), log)
      ensures var moved := Without(old(recency), RecencyKey(id)) + [RecencyKey(id)];
              !Over(|moved|, max) ==>
                && log == old(log) && store == old(store) && recency == moved
                && entries == old(entries)[RecencyKey(id) := id]
      ensures old(Touchable(id, ids)) ==> Tracked() && log == Trimmed(old(log), max)
      ensures Within(store, old(store)) && (max.Some? ==> |recency| <= max.value)
      ensures id in store <==> id in old(store) && max != Some(0)
    {
      hide Order, Backed, Trimmed, Tracks, RecencyKey, Indexed, Evictions, Owns, Within;
      Moved(recency, entries, ids, id);
      ghost var sound := Touchable(id, ids);
      Forget(id);
      recency, entries := recency + [RecencyKey(id)], entries[RecencyKey(id) := id];
      ForgottenFirst(old(entries), id);
      Evict(id, sound);
    }

    /** The loop of `#touch`. The entry just moved goes last. */
    method Evict(id: Id, ghost sound: bool)
      requires Indexed(recency, entries) && Backed(store, log, native, seen) && (sound ==> Tracked())
      requires recency != [] && recency[|recency| - 1] == RecencyKey(id)
      requires RecencyKey(id) in entries && entries[RecencyKey(id)] == id
      modifies this`recency, this`entries, this`store, this`log
      ensures Valid() && Evictions(old(log), log) && (sound ==> Tracked() && log == Trimmed(old(log), max))
      ensures !old(Over(|recency|, max)) ==>
            log == old(log) && store == old(store) && recency == old(recency) && entries == old(entries)
      ensures Within(store, old(store)) && (max.Some? ==> |recency| <= max.value)
      ensures id in store <==> id in old(store) && max != Some(0)
    {
      hide Order, Backed, Trimmed, Tracks, RecencyKey, Indexed, Evictions;
      NoEvictions(log);
      while Over(|recency|, max)
        invariant Indexed(recency, entries) && Backed(store, log, native, seen) && Evictions(old(log), log)
        invariant sound ==> Tracked() && Trimmed(log, max) == Trimmed(old(log), max)
        invariant !old(Over(|recency|, max)) ==>
            log == old(log) && store == old(store) && recency == old(recency) && entries == old(entries)
        invariant Within(store, old(store)) && (recency == [] ==> id !in store && max == Some(0))
        invariant recency != [] ==>
            && recency[|recency| - 1] == RecencyKey(id) && RecencyKey(id) in entries && entries[RecencyKey(id)] == id
            && (id in old(store) ==> id in store)
        decreases |recency|
      {
        FrontDropped(recency, entries);
        FrontIsOther(recency, entries, id);
        var oldest := entries[recency[0]];
        if sound {
          TracksOldest(recency, entries, log);
          OldestGoes(log);
          TrimmedStep(log, max);
        }
        BackedGone(store, log, Gone(oldest, Evicted), native, seen);
        EvictMore(old(log), log, oldest);
        entries := entries - {recency[0]};
        recency := recency[1..];
        store := store - {oldest};
        log := log + [Gone(oldest, Evicted)];
      }
      if sound { TrimmedTracked(recency, entries, log, max); }
    }

    /** The index tracks `ids`, `id` owns its key, and the log has just seen it used. */
    ghost predicate Touchable(id: Id, ids: seq<Id>)
      reads this
    {
      Tracks(recency, entries, ids) && Owns(entries, id) && Order(log) == Without(ids, id) + [id]
    }

    method Get(scope: seq<string>, key: string, now: int) returns (r: Option<Value>)
      requires Valid()
      modifies this
      ensures Valid() && seen == Max(old(seen), now)
      ensures Answers(old(log), Id(scope, key), now, if native then seen else now, r)
      ensures var e := if r.Some? then Hit(Id(scope, key)) else Gone(Id(scope, key), Missed);
              && Evictions(old(log) + [e], log)
              && (old(Tracked()) && old(Owns(entries, Id(scope, key))) ==> log == old(log) + [e])
      ensures old(Tracked()) ==> (Tracked() <==> old(Owns(entries, Id(scope, key))))
      ensures r.Some? <==> Id(scope, key) in old(store) && Lives(old(store)[Id(scope, key)], now)
      ensures r.Some? ==> r.value == old(store)[Id(scope, key)].value && Within(store, old(store))
      ensures r.None? ==> store == old(store) - {Id(scope, key)}
    {
      hide Order, Kept, Trimmed, Answers, Backed, Without, Tracks, RecencyKey, NoDup, Indexed, Evictions, Owns;
      var id := Id(scope, key);
      if id in store { StaleMeans(store[id], now); }
      ghost var latest := if native then Max(seen, now) else now;
      GetAnswers(store, log, native, seen, id, now, latest);
      Later(store, log, native, seen, Max(seen, now));
      seen := Max(seen, now);
      var record := Fetch(id, now);
      if record.None? || Stale(record.value, now) {
        DropStep(old(store), log, id, Missed, native, seen);
        IndexedForget(recency, entries, RecencyKey(id));
        if Tracked() { TrackedDrop(recency, entries, log, id, Missed); }
        NoEvictions(log + [Gone(id, Missed)]);
        assert store - {id} == old(store) - {id};
        store := store - {id};
        Forget(id);
        log := log + [Gone(id, Missed)];
        return None;
      }
      HeldOwns(recency, entries, log, id);
      HitStep(store, log, id, native, seen);
      log := log + [Hit(id)];
      Touch(id, Order(old(log)));
      if old(Tracked()) { HitEvictsNothing(old(recency), old(entries), old(log), id, max); }
      return Some(record.value.value);
    }

    method Set(scope: seq<string>, key: string, value: Value, tags: seq<string>, ttl: Option<int>, now: int)
      requires Valid()
      modifies this
      ensures Valid() && seen == Max(old(seen), now)
      ensures var e := Wrote(Id(scope, key), Fresh(value, tags, ttl, now));
              && Evictions(old(log) + [e], log)
              && (old(Tracked()) && old(Owns(entries, Id(scope, key))) ==> log == Trimmed(old(log) + [e], max))
      ensures old(Tracked()) ==> (Tracked() <==> old(Owns(entries, Id(scope, key))))
      ensures var t := RecencyKey(Id(scope, key)); var moved := Without(old(recency), t) + [t];
              !Over(|moved|, max) ==>
                && recency == moved && entries == old(entries)[t := Id(scope, key)]
                && store == old(store)[Id(scope, key) := Fresh(value, tags, ttl, now)]
      ensures Id(scope, key) in store <==> max != Some(0)
      ensures Id(scope, key) in store ==> AsGiven(store[Id(scope, key)], value, tags, ttl, now)
      ensures Within(store - {Id(scope, key)}, old(store)) && (max.Some? ==> |recency| <= max.value)
    {
      hide Order, Trimmed, Backed, Without, Tracks, RecencyKey, NoDup, Indexed, Evictions, Owns, Fresh, AsGiven;
      var id := Id(scope, key);
      var record := Fresh(value, tags, ttl, now);
      FreshMeans(value, tags, ttl, now);
      Later(store, log, native, seen, Max(seen, now));
      WriteStep(store, log, id, record, native, Max(seen, now));
      seen := Max(seen, now);
      store := store[id := record];
      log := log + [Wrote(id, record)];
      Touch(id, Order(old(log)));
      if old(Tracked()) && !old(Owns(entries, id)) {
        ClashUntracks(old(recency), old(entries), old(log), id, record, max);
      }
    }

    method Delete(scope: seq<string>, key: string)
      requires Valid()
      modifies this
      ensures Valid() && seen == old(seen) && log == old(log) + [Gone(Id(scope, key), Deleted)]
      ensures store == old(store) - {Id(scope, key)}
      ensures old(Tracked()) ==> (Tracked() <==> old(Owns(entries, Id(scope, key))))
    {
      Drop(Id(scope, key), Deleted);
    }

    /** Take a record out of the store and its key out of the index. */
    method Drop(id: Id, ghost why: Why)
      requires Valid()
      modifies this`store, this`recency, this`entries, this`log
      ensures Valid() && log == old(log) + [Gone(id, why)] && store == old(store) - {id}
      ensures old(Tracked()) ==> (Tracked() <==> old(Owns(entries, id)))
    {
      hide Order, Backed, Without, Tracks, RecencyKey, NoDup, Indexed, Owns;
      DropStep(store, log, id, why, native, seen);
      IndexedForget(recency, entries, RecencyKey(id));
      if Tracked() { TrackedDrop(recency, entries, log, id, why); }
      Forget(id);
      store := store - {id};
      log := log + [Gone(id, why)];
    }

    /** What the store shows at `now`. */
    ghost function Shown(now: int): set<Id>
      reads this
    {
      set id | id in store && !(native && Stale(store[id], now))
    }

    /** `invalidateTags`; the listing may come in any order. */
    method InvalidateTags(scope: seq<string>, tags: seq<string>, now: int)
      requires Valid()
      modifies this
      ensures Valid() && (old(Tracked()) ==> Tracked())
      ensures Purged(old(log), log, {}, Cut(scope, tags, old(Shown(now))))
      ensures Within(store, old(store)) && forall id :: id in old(store) ==>
            var r := old(store)[id];
            && (id.scope != scope || (!Hits(r.tags, tags) && Lives(r, now)) ==> id in store)
            && (id.scope == scope && Hits(r.tags, tags) ==> id !in store)
    {
      hide Order, Backed, Purged, Kept, Stale, SharesTag, Doomed, Listed, Tracks, RecencyKey, Indexed, Owns, Swept,
          Lives, Covers, Within;
      if tags == [] { NothingHit(store); }
      ghost var c := Cut(scope, tags, Shown(now));
      if |tags| == 0 {
        NoTags(log, c);
        return;
      }
      Later(store, log, native, seen, Max(seen, now));
      seen := Max(seen, now);
      var listing := map id | id in store && !(native && id.scope == scope && Stale(store[id], now)) :: store[id];
      SweepStep(store, listing, log, scope, native, now, seen);
      store := listing;
      var todo := set id | id in listing && id.scope == scope;
      ListedStart(log, listing, todo, c);
      SweepBegins(old(store), listing, todo, scope, tags, native, now);
      while todo != {}
        invariant Valid() && (old(Tracked()) ==> Tracked())
        invariant Swept(store, listing, todo, scope, tags)
        invariant Purged(old(log), log, todo, c) && Listed(todo, listing, old(log), c)
        decreases |todo|
      {
        var id :| id in todo;
        ListedOne(todo, listing, old(log), c, id);
        if SharesTag(listing[id].tags, tags) {
          StillHeld(old(log), log, todo, c, id);
          HeldOwns(recency, entries, log, id);
          PurgedDrop(old(log), log, todo, id, c);
          SweptDrop(store, listing, todo, scope, tags, id);
          Drop(id, Invalidated);
        } else {
          PurgedSkip(old(log), log, todo, id, c);
          SweptSkip(store, listing, todo, scope, tags, id);
        }
        todo := todo - {id};
      }
      SweepEnds(old(store), listing, store, scope, tags, now);
    }
  }

  /** Of the listing, the records looked at that carry a wanted tag are gone. */
  ghost predicate Swept(store: map<Id, Record>, listing: map<Id, Record>, todo: set<Id>, scope: seq<string>,
                        tags: seq<string>) {
    && (forall id :: id in todo ==> id.scope == scope) && Within(store, listing)
    && forall id :: id in listing ==>
         (id in store <==> !(id.scope == scope && id !in todo && SharesTag(listing[id].tags, tags)))
  }

  lemma SweepBegins(store: map<Id, Record>, listing: map<Id, Record>, todo: set<Id>, scope: seq<string>,
                    tags: seq<string>, native: bool, now: int)
    requires forall id :: id in listing <==> id in store && !(native && id.scope == scope && Stale(store[id], now))
    requires forall id :: id in listing ==> listing[id] == store[id]
    requires forall id :: id in todo <==> id in listing && id.scope == scope
    ensures Swept(listing, listing, todo, scope, tags) && Covers(store, listing, scope, now)
  {
    hide SharesTag, Stale, Lives;
    SweptMeans(store, listing, scope, native, now);
  }

  lemma SweptDrop(store: map<Id, Record>, listing: map<Id, Record>, todo: set<Id>, scope: seq<string>,
                  tags: seq<string>, id: Id)
    requires Swept(store, listing, todo, scope, tags) && id in todo && id in listing
    requires SharesTag(listing[id].tags, tags)
    ensures Swept(store - {id}, listing, todo - {id}, scope, tags)
  {
    hide SharesTag;
  }

  lemma SweptSkip(store: map<Id, Record>, listing: map<Id, Record>, todo: set<Id>, scope: seq<string>,
                  tags: seq<string>, id: Id)
    requires Swept(store, listing, todo, scope, tags) && id in todo && id in listing
    requires !SharesTag(listing[id].tags, tags)
    ensures Swept(store, listing, todo - {id}, scope, tags)
  {
    hide SharesTag;
  }

  lemma SweepEnds(before: map<Id, Record>, listing: map<Id, Record>, store: map<Id, Record>, scope: seq<string>,
                  tags: seq<string>, now: int)
    requires Covers(before, listing, scope, now) && Swept(store, listing, {}, scope, tags)
    ensures Within(store, before) && forall id :: id in before ==>
              && (id.scope != scope || (!Hits(before[id].tags, tags) && Lives(before[id], now)) ==> id in store)
              && (id.scope == scope && Hits(before[id].tags, tags) ==> id !in store)
  {
    hide SharesTag, Hits, Lives;
    ShareMeans(listing, tags);
  }

  /** A listing has every record that can be read. */
  ghost predicate Covers(store: map<Id, Record>, listing: map<Id, Record>, scope: seq<string>, now: int) {
    && Within(listing, store)
    && forall id :: id in store && (id.scope != scope || Lives(store[id], now)) ==> id in listing
  }

  lemma NothingHit(store: map<Id, Record>)
    ensures Within(store, store) && forall id :: id in store ==> !Hits(store[id].tags, [])
  {
  }

  lemma ShareMeans(records: map<Id, Record>, wanted: seq<string>)
    ensures forall id :: id in records ==> (SharesTag(records[id].tags, wanted) <==> Hits(records[id].tags, wanted))
  {
    hide SharesTag, Hits;
    forall id | id in records ensures SharesTag(records[id].tags, wanted) <==> Hits(records[id].tags, wanted) {
      SharesMeans(records[id].tags, wanted);
    }
  }

  /** A listing drops only records that cannot be read. */
  lemma SweptMeans(store: map<Id, Record>, listing: map<Id, Record>, scope: seq<string>, native: bool, now: int)
    requires forall id :: id in listing <==> id in store && !(native && id.scope == scope && Stale(store[id], now))
    requires forall id :: id in listing ==> listing[id] == store[id]
    ensures Covers(store, listing, scope, now)
  {
    hide Stale, Lives;
    forall id | id in store ensures Stale(store[id], now) <==> !Lives(store[id], now) {
      StaleMeans(store[id], now);
    }
  }

  /** The record `set` writes. */
  function Fresh(value: Value, tags: seq<string>, ttl: Option<int>, now: int): Record {
    Record(value, tags, if ttl.None? then None else Some(now + if ttl.value < 0 then 0 else ttl.value))
  }

  /** One call of `invalidateTags`, with what the store shows at the time. */
  datatype Cut = Cut(scope: seq<string>, tags: seq<string>, shown: set<Id>)

  lemma NoEvictions(log: seq<Event>)
    ensures Evictions(log, log)
  {
  }

  /** The index with `id` moved to its end. */
  lemma Moved(recency: seq<string>, entries: map<string, Id>, ids: seq<Id>, id: Id)
    requires Indexed(recency, entries)
    ensures var t := RecencyKey(id); Indexed(Without(recency, t) + [t], (entries - {t})[t := id])
    ensures Tracks(recency, entries, ids) && Owns(entries, id) ==>
              var t := RecencyKey(id);
              Tracks(Without(recency, t) + [t], (entries - {t})[t := id], Without(ids, id) + [id])
  {
    hide RecencyKey, Indexed, Tracks, Owns, NoDup;
    var t := RecencyKey(id);
    IndexedForget(recency, entries, t);
    IndexedAppend(Without(recency, t), entries - {t}, id);
    if Tracks(recency, entries, ids) && Owns(entries, id) {
      TracksForget(recency, entries, ids, id);
      TracksAppend(Without(recency, t), entries - {t}, Without(ids, id), id);
    }
  }

  lemma ForgottenFirst(entries: map<string, Id>, id: Id)
    ensures (entries - {RecencyKey(id)})[RecencyKey(id) := id] == entries[RecencyKey(id) := id]
  {
    hide RecencyKey;
  }

  lemma FrontDropped(recency: seq<string>, entries: map<string, Id>)
    requires Indexed(recency, entries) && recency != []
    ensures recency[0] in entries && Indexed(recency[1..], entries - {recency[0]})
  {
    hide RecencyKey, Indexed;
    FrontIn(recency, entries);
    IndexedForget(recency, entries, recency[0]);
    WithoutFirst(recency);
  }

  /** The front entry belongs to another id, unless it is the last. */
  lemma FrontIsOther(recency: seq<string>, entries: map<string, Id>, id: Id)
    requires Indexed(recency, entries) && recency != [] && recency[|recency| - 1] == RecencyKey(id)
    ensures recency[0] in entries && (|recency| > 1 ==> entries[recency[0]] != id && recency[0] != RecencyKey(id))
  {
    hide RecencyKey;
    assert recency[0] in recency;
    assert |recency| > 1 ==> recency[0] != recency[|recency| - 1];
  }

  lemma FrontIn(recency: seq<string>, entries: map<string, Id>)
    requires Indexed(recency, entries) && recency != []
    ensures recency[0] in entries && recency[0] == RecencyKey(entries[recency[0]])
  {
    hide RecencyKey;
    assert recency[0] in recency;
  }

  lemma TracksLength(recency: seq<string>, entries: map<string, Id>, ids: seq<Id>)
    requires Tracks(recency, entries, ids)
    ensures |recency| == |ids|
  {
  }

  /** The front of the index is the least recently used id, and dropping it leaves the rest tracked. */
  lemma TracksOldest(recency: seq<string>, entries: map<string, Id>, log: seq<Event>)
    requires Indexed(recency, entries) && Tracks(recency, entries, Order(log)) && recency != []
    ensures |recency| == |Order(log)| && recency[0] in entries && entries[recency[0]] == Order(log)[0]
    ensures Tracks(recency[1..], entries - {recency[0]}, Order(log)[1..])
  {
    hide Order, Tracks, RecencyKey, Indexed, NoDup;
    var ids := Order(log);
    TracksLength(recency, entries, ids);
    TrackedOwns(recency, entries, ids, 0);
    FrontIn(recency, entries);
    TracksForget(recency, entries, ids, ids[0]);
    WithoutFirst(ids);
    WithoutFirst(recency);
  }

  lemma TrimmedTracked(recency: seq<string>, entries: map<string, Id>, log: seq<Event>, max: Option<nat>)
    requires Tracks(recency, entries, Order(log)) && !Over(|recency|, max)
    ensures Trimmed(log, max) == log
  {
    hide Order, Trimmed;
    TrimmedDone(log, max);
  }

  /** Forgetting the key of an id leaves the others tracked exactly when the key was its own. */
  lemma TrackedDrop(recency: seq<string>, entries: map<string, Id>, log: seq<Event>, id: Id, why: Why)
    requires Indexed(recency, entries) && Tracks(recency, entries, Order(log))
    ensures var t := RecencyKey(id);
            Tracks(Without(recency, t), entries - {t}, Order(log + [Gone(id, why)])) <==> Owns(entries, id)
  {
    hide Order, Tracks, RecencyKey, Indexed, NoDup, Owns;
    Appended(log, Gone(id, why));
    if Owns(entries, id) {
      TracksForget(recency, entries, Order(log), id);
    } else {
      ClashIsForeign(recency, entries, Order(log), id);
      IndexedForget(recency, entries, RecencyKey(id));
      TracksLength(recency, entries, Order(log));
      if Tracks(Without(recency, RecencyKey(id)), entries - {RecencyKey(id)}, Order(log)) {
        TracksLength(Without(recency, RecencyKey(id)), entries - {RecencyKey(id)}, Order(log));
      }
    }
  }

  /** An id whose key belongs to another is not tracked. */
  lemma ClashIsForeign(recency: seq<string>, entries: map<string, Id>, ids: seq<Id>, id: Id)
    requires Indexed(recency, entries) && Tracks(recency, entries, ids) && !Owns(entries, id)
    ensures id !in ids && Without(ids, id) == ids && RecencyKey(id) in recency
  {
    hide RecencyKey, NoDup;
    if i :| 0 <= i < |ids| && ids[i] == id {
      TrackedOwns(recency, entries, ids, i);
    }
  }

  /** A held id is tracked. */
  lemma HeldOwns(recency: seq<string>, entries: map<string, Id>, log: seq<Event>, id: Id)
    requires Indexed(recency, entries) && id in Kept(log)
    ensures Tracks(recency, entries, Order(log)) ==> Owns(entries, id)
  {
    hide Order, RecencyKey, Kept, LastUse, ByUse, NoDup, Indexed;
    OrderIsByUse(log);
    if Tracks(recency, entries, Order(log)) {
      var i :| 0 <= i < |Order(log)| && Order(log)[i] == id;
      TrackedOwns(recency, entries, Order(log), i);
    }
  }

  /** A hit only reorders: nothing is evicted. */
  lemma HitEvictsNothing(recency: seq<string>, entries: map<string, Id>, log: seq<Event>, id: Id, max: Option<nat>)
    requires Tracks(recency, entries, Order(log)) && !Over(|recency|, max) && id in Kept(log)
    ensures Trimmed(log + [Hit(id)], max) == log + [Hit(id)]
  {
    hide Order, Kept, LastUse, RecencyKey, Tracks, Trimmed;
    Appended(log, Hit(id));
    OrderIsByUse(log);
    TracksLength(recency, entries, Order(log));
    TrimmedDone(log + [Hit(id)], max);
  }

  /** Writing under a key that belongs to another id takes the other one's place in the index. */
  lemma ClashUntracks(recency: seq<string>, entries: map<string, Id>, log: seq<Event>, id: Id, r: Record,
                      max: Option<nat>)
    requires Indexed(recency, entries) && Tracks(recency, entries, Order(log)) && !Owns(entries, id)
    requires !Over(|recency|, max)
    ensures var t := RecencyKey(id); var moved := Without(recency, t) + [t];
            && !Over(|moved|, max)
            && !Tracks(moved, entries[t := id], Order(log + [Wrote(id, r)]))
  {
    hide Order, Tracks, RecencyKey, Indexed, NoDup, Owns;
    var t := RecencyKey(id);
    var moved, next := Without(recency, t) + [t], log + [Wrote(id, r)];
    Appended(log, Wrote(id, r));
    ClashIsForeign(recency, entries, Order(log), id);
    IndexedForget(recency, entries, t);
    TracksLength(recency, entries, Order(log));
    if Tracks(moved, entries[t := id], Order(next)) {
      TracksLength(moved, entries[t := id], Order(next));
    }
  }

  predicate SharesTag(tags: seq<string>, wanted: seq<string>) {
    exists i :: 0 <= i < |tags| && tags[i] in wanted
  }

  /** What `invalidateTags` removes: in its namespace, any record the store still shows that carries a wanted tag. */
  predicate Doomed(c: Cut, id: Id, r: Record) {
    id.scope == c.scope && SharesTag(r.tags, c.tags) && id in c.shown
  }

  /** The records of `before` without the doomed ones, apart from those still to be looked at. */
  ghost predicate Purged(before: seq<Event>, log: seq<Event>, todo: set<Id>, c: Cut) {
    && before <= log
    && (forall j :: |before| <= j < |log| ==> log[j].Gone? && log[j].why == Invalidated)
    && (forall id :: id in Kept(log) <==> id in Kept(before) && !(Doomed(c, id, Kept(before)[id]) && id !in todo))
    && (forall id :: id in Kept(log) ==> Kept(log)[id] == Kept(before)[id])
  }

  lemma NoTags(log: seq<Event>, c: Cut)
    requires c.tags == []
    ensures Purged(log, log, {}, c)
  {
    hide Kept;
  }

  /** The records still to be looked at are the ones held, and none of them is hidden by the provider. */
  ghost predicate Listed(todo: set<Id>, listing: map<Id, Record>, before: seq<Event>, c: Cut) {
    forall id :: id in todo ==>
      && id in listing && id in Kept(before) && listing[id] == Kept(before)[id]
      && (Doomed(c, id, listing[id]) <==> SharesTag(listing[id].tags, c.tags))
  }

  lemma ListedStart(log: seq<Event>, listing: map<Id, Record>, todo: set<Id>, c: Cut)
    requires forall id :: id in listing ==> id in Kept(log) && listing[id] == Kept(log)[id]
    requires forall id: Id :: id.scope == c.scope ==> (id in listing <==> id in c.shown)
    requires forall id :: id in todo <==> id in listing && id.scope == c.scope
    ensures Listed(todo, listing, log, c) && Purged(log, log, todo, c)
  {
    hide Kept, SharesTag;
  }

  lemma ListedOne(todo: set<Id>, listing: map<Id, Record>, before: seq<Event>, c: Cut, id: Id)
    requires Listed(todo, listing, before, c) && id in todo
    ensures id in listing && id in Kept(before) && (Doomed(c, id, Kept(before)[id]) <==>
          SharesTag(listing[id].tags, c.tags))
    ensures Listed(todo - {id}, listing, before, c)
  {
    hide Kept, Doomed, SharesTag;
  }

  lemma PurgedSkip(before: seq<Event>, log: seq<Event>, todo: set<Id>, id: Id, c: Cut)
    requires Purged(before, log, todo, c) && id in Kept(before) && !Doomed(c, id, Kept(before)[id])
    ensures Purged(before, log, todo - {id}, c)
  {
    hide Kept;
  }

  lemma PurgedDrop(before: seq<Event>, log: seq<Event>, todo: set<Id>, id: Id, c: Cut)
    requires Purged(before, log, todo, c) && id in Kept(before) && Doomed(c, id, Kept(before)[id])
    ensures Purged(before, log + [Gone(id, Invalidated)], todo - {id}, c)
  {
    hide Kept, Order, LastUse;
    Appended(log, Gone(id, Invalidated));
  }

  /** A record still to be looked at is still held. */
  lemma StillHeld(before: seq<Event>, log: seq<Event>, todo: set<Id>, c: Cut, id: Id)
    requires Purged(before, log, todo, c) && id in todo && id in Kept(before)
    ensures id in Kept(log)
  {
    hide Kept, Doomed;
  }

  /** The provider's listing first drops its own stale records of the namespace. */
  lemma SweepStep(store: map<Id, Record>, kept: map<Id, Record>, log: seq<Event>, scope: seq<string>, native: bool,
      now: int, seen: int)
    requires Backed(store, log, native, seen) && now <= seen
    requires forall id :: id in kept <==> id in store && !(native && id.scope == scope && Stale(store[id], now))
    requires forall id :: id in kept ==> kept[id] == store[id]
    ensures Backed(kept, log, native, seen)
    ensures forall id :: id in kept ==> id in Kept(log) && kept[id] == Kept(log)[id]
  {
    hide Kept;
  }

  lemma BackedGone(store: map<Id, Record>, log: seq<Event>, e: Event, native: bool, seen: int)
    requires e.Gone? && Backed(store, log, native, seen)
    ensures Backed(store - {e.id}, log + [e], native, seen)
  {
    hide Kept, Order, LastUse;
    Appended(log, e);
  }

  lemma Later(store: map<Id, Record>, log: seq<Event>, native: bool, seen: int, now: int)
    requires Backed(store, log, native, seen) && seen <= now
    ensures Backed(store, log, native, now)
  {
    hide Kept;
  }

  lemma TrimmedStep(log: seq<Event>, max: Option<nat>)
    requires Over(|Order(log)|, max)
    ensures Trimmed(log, max) == Trimmed(log + [Gone(Order(log)[0], Evicted)], max)
  {
  }

  lemma TrimmedDone(log: seq<Event>, max: Option<nat>)
    ensures !Over(|Order(log)|, max) ==> Trimmed(log, max) == log
  {
  }

  lemma WriteStep(store: map<Id, Record>, log: seq<Event>, id: Id, r: Record, native: bool, now: int)
    requires Backed(store, log, native, now)
    ensures var next := log + [Wrote(id, r)];
            Order(next) == Without(Order(log), id) + [id] && Backed(store[id := r], next, native, now)
  {
    hide Order, Kept, LastUse, Without;
    Appended(log, Wrote(id, r));
  }

  lemma DropStep(store: map<Id, Record>, log: seq<Event>, id: Id, why: Why, native: bool, now: int)
    requires Backed(store, log, native, now)
    ensures var next := log + [Gone(id, why)];
            Order(next) == Without(Order(log), id) && |Order(next)| <= |Order(log)|
                && Backed(store - {id}, next, native, now)
  {
    hide Order, Kept, Backed, LastUse;
    BackedGone(store, log, Gone(id, why), native, now);
    Appended(log, Gone(id, why));
  }

  lemma HitStep(store: map<Id, Record>, log: seq<Event>, id: Id, native: bool, now: int)
    requires Backed(store, log, native, now) && id in store
    ensures var next := log + [Hit(id)];
            Order(next) == Without(Order(log), id) + [id] && Backed(store, next, native, now)
  {
    hide Order, Kept, LastUse;
    Appended(log, Hit(id));
    OrderIsByUse(log);
  }

  /** The record the store shows is the one `get` must answer with. */
  lemma GetAnswers(store: map<Id, Record>, log: seq<Event>, native: bool, seen: int, id: Id, now: int, latest: int)
    requires Backed(store, log, native, seen) && now <= latest && (native ==> seen <= latest)
    ensures Answers(log, id, now, latest,
                    if id in store && !Stale(store[id], now) then Some(store[id].value) else None)
    ensures id in store ==> id in Kept(log)
  {
    hide Kept, Latest;
    KeptIsLatest(log, id);
  }

  // ----- what a clash does -----

  /** Two live records share one place in the index: the first is held beyond the limit, and nothing tracks it. */
  method ClashLeavesUntracked(v: Value, w: Value) returns (c: Cache)
    ensures c.Valid() && c.max == Some(1) && |c.recency| == 1 && !c.Tracked()
    ensures var a, b := Id(["n"], "k"), Id([], ['n', NUL, 'k']);
            a != b && a in c.store && b in c.store && forall t :: t in c.entries ==> c.entries[t] != a
  {
    hide Indexed, Backed, Order, Tracks, Trimmed, Evictions, RecencyKey, NoDup;
    var a, b := Id(["n"], "k"), Id([], ['n', NUL, 'k']);
    RecencyKeysClash();
    c := new Cache(false, Some(1));
    c.Set(["n"], "k", v, [], None, 0);
    c.Set([], ['n', NUL, 'k'], w, [], None, 0);
  }

  // ----- a write and what becomes of it -----

  /**
   * `set`, then `invalidateTags` in the same namespace, then `get`, on any cache. The value comes back exactly when the
   * cache holds anything at all, the lifetime is not over, and no tag given was invalidated.
   */
  method WriteInvalidateRead(c: Cache, scope: seq<string>, key: string, value: Value, tags: seq<string>,
                             ttl: Option<int>, now: int, wanted: seq<string>, later: int, t: int)
    returns (r: Option<Value>)
    requires c.Valid() && now <= later <= t
    modifies c
    ensures c.Valid()
    ensures var lasts := ttl.None? || t < now + (if ttl.value < 0 then 0 else ttl.value);
            var unwanted := forall x :: x in tags ==> x !in wanted;
            r == if c.max != Some(0) && lasts && unwanted then Some(value) else None
  {
    hide Cache.Valid, Cache.Tracked, Evictions, Purged, Answers, RecencyKey, Trimmed, Owns, Fresh;
    c.Set(scope, key, value, tags, ttl, now);
    c.InvalidateTags(scope, wanted, later);
    r := c.Get(scope, key, t);
  }
}
