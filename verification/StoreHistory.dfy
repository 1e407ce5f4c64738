/**
 * Optimistic concurrency over whole histories: reads, commits and deletes by any number of clients, in
 * any order, against one store with fresh version tokens.
 */
module StoreHistory {
  import opened Basics
  import opened StoreSpec

  type Slot = (string, Key)
  type State = map<Slot, Record>

  /** `encodable` tells whether the store has a form for the values a commit writes. */
  datatype Event =
    | Read(ns: string, key: Key, now: Time)
    | Commit(ns: string, m: Mutation, tokens: seq<Version>, now: Time, encodable: bool)
    | Delete(ns: string, key: Key, now: Time)

  function Find(s: State, slot: Slot): Option<Record> { if slot in s then Some(s[slot]) else None }

  function Shows(s: State): View { (n, k, t) => Alive(Find(s, (n, k)), t) }

  ghost predicate Succeeds(s: State, e: Event) {
    && e.Commit? && |e.tokens| == |e.m.writes| && WellFormed(e.m) && e.encodable
    && Passes(Shows(s), e.ns, e.m.checks, e.now)
  }

  /** The event writes or removes the slot. */
  ghost predicate Touches(s: State, e: Event, slot: Slot) {
    match e
    case Read(_, _, _) => false
    case Delete(ns, key, _) => slot == (ns, key)
    case Commit(ns, m, _, _, _) =>
      Succeeds(s, e) && slot.0 == ns && (slot.1 in m.deletes || WriteOf(m.writes, slot.1) != -1)
  }

  /** The event stores this record in the slot. */
  ghost predicate Writes(s: State, e: Event, slot: Slot, r: Record) {
    && Succeeds(s, e) && slot.0 == e.ns
    && var h := WriteOf(e.m.writes, slot.1);
       h != -1 && r == Written(e.m.writes[h], e.tokens[h], e.now)
  }

  ghost function Step(s: State, e: Event): State {
    match e
    case Read(_, _, _) => s
    case Delete(ns, key, _) => s - {(ns, key)}
    case Commit(ns, m, tokens, now, _) =>
      if !Succeeds(s, e) then s
      else
        (map slot | slot in s && !(slot.0 == ns && slot.1 in m.deletes) :: s[slot]) +
        (map slot | slot in (set w | w in m.writes :: (ns, w.key)) && WriteOf(m.writes, slot.1) != -1 ::
           var h := WriteOf(m.writes, slot.1); Written(m.writes[h], tokens[h], now))
  }

  /** A successful step is a commit in the sense every provider implements. */
  lemma StepCommits(s: State, e: Event)
    requires e.Commit? && |e.tokens| == |e.m.writes| && WellFormed(e.m) && e.encodable
    ensures Committed(Shows(s), Shows(Step(s, e)), e.ns, e.m, e.tokens, e.now, Succeeds(s, e))
  {
    if Succeeds(s, e) {
      forall n, k, t | e.now <= t
        ensures Shows(Step(s, e))(n, k, t) ==
                if n == e.ns then Alive(After(e.m, e.tokens, e.now, k, Shows(s)(n, k, t)), t) else Shows(s)(n, k, t)
      {
        StepAt(s, e, (n, k));
      }
    }
  }

  /** And a delete is one too. */
  lemma StepDeletes(s: State, e: Event)
    requires e.Delete?
    ensures Deleted(Shows(s), Shows(Step(s, e)), e.ns, e.key, e.now, Shows(s)(e.ns, e.key, e.now).Some?)
  {
  }

  /** A slot holds what the event wrote, nothing if it was removed, and what it held otherwise. */
  lemma StepAt(s: State, e: Event, slot: Slot)
    ensures !Touches(s, e, slot) ==> Find(Step(s, e), slot) == Find(s, slot)
    ensures Touches(s, e, slot) && Find(Step(s, e), slot).Some? ==> Writes(s, e, slot, Step(s, e)[slot])
    ensures Succeeds(s, e) && slot.0 == e.ns ==>
          Find(Step(s, e), slot) == After(e.m, e.tokens, e.now, slot.1, Find(s, slot))
  {
    if Succeeds(s, e) {
      var slots := set w | w in e.m.writes :: (e.ns, w.key);
      if slot.0 == e.ns && WriteOf(e.m.writes, slot.1) != -1 {
        assert e.m.writes[WriteOf(e.m.writes, slot.1)] in e.m.writes;
        assert slot in slots;
      }
    }
  }

  // ----- histories -----

  ghost function At(run: seq<Event>, n: nat): State
    requires n <= |run|
  {
    if n == 0 then map[] else Step(At(run, n - 1), run[n - 1])
  }

  function Tokens(e: Event): seq<Version> { if e.Commit? then e.tokens else [] }

  /** Version tokens are never drawn twice. */
  ghost predicate FreshTokens(run: seq<Event>) {
    && (forall i :: 0 <= i < |run| ==> NoDup(Tokens(run[i])))
    && (forall i, j, v :: 0 <= i < j < |run| && v in Tokens(run[i]) ==> v !in Tokens(run[j]))
  }

  ghost predicate Untouched(run: seq<Event>, from: nat, to: nat, slot: Slot)
    requires to <= |run|
  {
    forall h :: from <= h < to ==> !Touches(At(run, h), run[h], slot)
  }

  /** Every stored record was put there by some event, and nothing has touched its slot since. */
  lemma {:induction false} Provenance(run: seq<Event>, n: nat, slot: Slot) returns (i: nat)
    requires n <= |run| && slot in At(run, n)
    ensures i < n && Writes(At(run, i), run[i], slot, At(run, n)[slot]) && Untouched(run, i + 1, n, slot)
  {
    var s, e := At(run, n - 1), run[n - 1];
    StepAt(s, e, slot);
    if Touches(s, e, slot) {
      i := n - 1;
    } else {
      i := Provenance(run, n - 1, slot);
    }
  }

  /** A token identifies the one event that wrote it. */
  lemma OneWriter(run: seq<Event>, i: nat, j: nat, slot: Slot, r: Record, q: Record)
    requires FreshTokens(run) && i < |run| && j < |run|
    requires Writes(At(run, i), run[i], slot, r) && Writes(At(run, j), run[j], slot, q) && r.version == q.version
    ensures i == j && r == q
  {
    assert r.version in Tokens(run[i]) && q.version in Tokens(run[j]);
  }

  /** Event `j` is a successful commit that checked the slot for `v`, or for absence. */
  ghost predicate SucceedsOn(run: seq<Event>, j: nat, slot: Slot, v: Option<Version>) {
    && j < |run| && Succeeds(At(run, j), run[j]) && run[j].ns == slot.0
    && Check(slot.1, v) in run[j].m.checks
  }

  lemma CheckedRecord(run: seq<Event>, j: nat, slot: Slot, v: Option<Version>)
    requires SucceedsOn(run, j, slot, v)
    ensures VersionOf(Alive(Find(At(run, j), slot), run[j].now)) == v
  {
    var h :| 0 <= h < |run[j].m.checks| && run[j].m.checks[h] == Check(slot.1, v);
    assert VersionOf(Shows(At(run, j))(run[j].ns, run[j].m.checks[h].key, run[j].now)) == v;
  }

  /**
   * A commit that checks the version it read succeeds only if the slot still holds that very record, which
   * has not expired, and nothing wrote, removed or re-created it in between.
   */
  lemma NoStaleCommit(run: seq<Event>, i: nat, j: nat, slot: Slot, v: Version)
    requires FreshTokens(run) && i <= j && SucceedsOn(run, j, slot, Some(v))
    requires slot in At(run, i) && At(run, i)[slot].version == v
    ensures Untouched(run, i, j, slot) && slot in At(run, j) && At(run, j)[slot] == At(run, i)[slot]
    ensures Live(At(run, i)[slot], run[j].now)
  {
    CheckedRecord(run, j, slot, Some(v));
    var p := Provenance(run, i, slot);
    var q := Provenance(run, j, slot);
    OneWriter(run, p, q, slot, At(run, i)[slot], At(run, j)[slot]);
  }

  /**
   * Successful commits form one chain. One that checked a version saw what the latest writer left, still live;
   * one that checked for absence saw nothing live: no write since the slot was last removed, or an expired one.
   */
  lemma SawItsPredecessor(run: seq<Event>, i: nat, j: nat, slot: Slot, r: Record, v: Option<Version>)
    requires SucceedsOn(run, j, slot, v)
    requires i < j && Writes(At(run, i), run[i], slot, r) && Untouched(run, i + 1, j, slot)
    ensures Find(At(run, j), slot) == Some(r)
    ensures v.Some? <==> Live(r, run[j].now)
    ensures v.Some? ==> r.version == v.value
  {
    CheckedRecord(run, j, slot, v);
    Stays(run, i, j, slot, r);
  }

  /** And what a commit saw was left by such a writer. */
  lemma HasPredecessor(run: seq<Event>, j: nat, slot: Slot, v: Version) returns (i: nat, r: Record)
    requires SucceedsOn(run, j, slot, Some(v))
    ensures i < j && Writes(At(run, i), run[i], slot, r) && Untouched(run, i + 1, j, slot)
    ensures r.version == v && Live(r, run[j].now)
  {
    CheckedRecord(run, j, slot, Some(v));
    i := Provenance(run, j, slot);
    r := At(run, j)[slot];
  }

  /** What an event wrote stays until the slot is touched again. */
  lemma {:induction false} Stays(run: seq<Event>, i: nat, j: nat, slot: Slot, r: Record)
    requires i < j <= |run| && Writes(At(run, i), run[i], slot, r) && Untouched(run, i + 1, j, slot)
    ensures Find(At(run, j), slot) == Some(r)
  {
    StepAt(At(run, j - 1), run[j - 1], slot);
    if i + 1 < j {
      Stays(run, i, j - 1, slot, r);
    }
  }

  /**
   * Of two commits that checked the same, the later one did not build on a slot the earlier one changed: with a
   * version the earlier one left the slot alone, and with absence what it wrote is removed or expired by then.
   */
  lemma NoLostUpdate(run: seq<Event>, i: nat, j: nat, slot: Slot, v: Option<Version>)
    requires FreshTokens(run) && i < j && SucceedsOn(run, i, slot, v) && SucceedsOn(run, j, slot, v)
    ensures v.Some? ==> !Touches(At(run, i), run[i], slot)
    ensures forall r :: v.None? && Writes(At(run, i), run[i], slot, r) && Untouched(run, i + 1, j, slot) ==>
          !Live(r, run[j].now)
  {
    CheckedRecord(run, i, slot, v);
    if v.Some? {
      NoStaleCommit(run, i, j, slot, v.value);
    } else {
      forall r | Writes(At(run, i), run[i], slot, r) && Untouched(run, i + 1, j, slot) ensures !Live(r, run[j].now) {
        SawItsPredecessor(run, i, j, slot, r, v);
      }
    }
  }
}
