/**
 * What the operations of a fino:cache did, and what follows from it: which values are held, and in which order of
 * use.
 */
module CacheLog {
  import opened Basics

  /** Cached values are only copied. */
  type Value = int

  /** A key of a namespace. */
  datatype Id = Id(scope: seq<string>, key: string)

  datatype Record = Record(value: Value, tags: seq<string>, expiresAt: Option<int>)

  datatype Why = Missed | Deleted | Invalidated | Evicted

  datatype Event = Wrote(id: Id, record: Record) | Hit(id: Id) | Gone(id: Id, why: Why)

  predicate Stale(r: Record, now: int) { r.expiresAt.Some? && r.expiresAt.value <= now }

  // ----- the state a log leads to -----

  /** The ids held, the one used last at the end. */
  function Order(log: seq<Event>): seq<Id> {
    if log == [] then [] else Reordered(Order(log[..|log| - 1]), log[|log| - 1])
  }

  function Reordered(before: seq<Id>, e: Event): seq<Id> {
    if e.Gone? then Without(before, e.id)
    else if e.Wrote? || e.id in before then Without(before, e.id) + [e.id]
    else before
  }

  /** The records held. */
  function Kept(log: seq<Event>): map<Id, Record> {
    if log == [] then map[] else Updated(Kept(log[..|log| - 1]), log[|log| - 1])
  }

  function Updated(before: map<Id, Record>, e: Event): map<Id, Record> {
    match e
    case Wrote(id, record) => before[id := record]
    case Hit(_) => before
    case Gone(id, _) => before - {id}
  }

  lemma Appended(log: seq<Event>, e: Event)
    ensures Order(log + [e]) == Reordered(Order(log), e) && Kept(log + [e]) == Updated(Kept(log), e)
    ensures forall id :: LastUse(log + [e], id) == if !e.Gone? && e.id == id then |log| else LastUse(log, id)
  {
    assert (log + [e])[..|log|] == log && (log + [e])[|log|] == e;
  }

  // ----- what it means -----

  /** Event `i` wrote `id`, and nothing has replaced or removed it since. */
  ghost predicate Latest(log: seq<Event>, id: Id, i: nat) {
    && i < |log| && log[i].Wrote? && log[i].id == id
    && forall j :: i < j < |log| ==> log[j].Hit? || log[j].id != id
  }

  /** A record is held exactly when its last write has not been undone, and it is the one then written. */
  lemma {:induction false} KeptIsLatest(log: seq<Event>, id: Id)
    ensures id in Kept(log) <==> exists i :: Latest(log, id, i)
    ensures forall i: nat :: Latest(log, id, i) ==> id in Kept(log) && Kept(log)[id] == log[i].record
  {
    if log != [] {
      var front, n := log[..|log| - 1], |log| - 1;
      KeptIsLatest(front, id);
      var e := log[n];
      if e.id == id && !e.Hit? {
        if e.Wrote? { assert Latest(log, id, n); }
      } else {
        forall i: nat ensures Latest(log, id, i) <==> Latest(front, id, i) {
          assert i < n ==> log[i] == front[i];
        }
      }
    }
  }

  /** When `id` was last written or found, or -1. */
  function LastUse(log: seq<Event>, id: Id): (n: int)
    ensures -1 <= n < |log|
  {
    if log == [] then -1
    else if !log[|log| - 1].Gone? && log[|log| - 1].id == id then |log| - 1
    else LastUse(log[..|log| - 1], id)
  }

  ghost predicate ByUse(log: seq<Event>, ids: seq<Id>) {
    forall i, j :: 0 <= i < j < |ids| ==> LastUse(log, ids[i]) < LastUse(log, ids[j])
  }

  /** The ids held are listed once each, in the order of their last use. */
  lemma {:induction false} OrderIsByUse(log: seq<Event>)
    ensures NoDup(Order(log)) && ByUse(log, Order(log))
    ensures forall id :: id in Order(log) <==> id in Kept(log)
  {
    hide Reordered, Updated, ByUse, NoDup, LastUse;
    if log == [] {
      NothingUsed();
    } else {
      var front, e := log[..|log| - 1], log[|log| - 1];
      OrderIsByUse(front);
      SameMembers(Order(front), Kept(front), e);
      ReorderedIsByUse(front, Order(front), e);
      assert front + [e] == log;
    }
  }

  lemma NothingUsed()
    ensures NoDup(Order([])) && ByUse([], Order([]))
  {
  }

  lemma SameMembers(ids: seq<Id>, records: map<Id, Record>, e: Event)
    requires NoDup(ids) && forall id :: id in ids <==> id in records
    ensures forall id :: id in Reordered(ids, e) <==> id in Updated(records, e)
  {
    hide NoDup, Without;
    WithoutProperties(ids, e.id);
  }

  lemma ReorderedIsByUse(log: seq<Event>, ids: seq<Id>, e: Event)
    requires NoDup(ids) && ByUse(log, ids)
    ensures NoDup(Reordered(ids, e)) && ByUse(log + [e], Reordered(ids, e))
  {
    hide Without, LastUse, Order, Kept;
    WithoutProperties(ids, e.id);
    WithoutKeepsOrder(log, ids, e.id);
    Appended(log, e);
  }

  lemma WithoutKeepsOrder(log: seq<Event>, ids: seq<Id>, id: Id)
    requires ByUse(log, ids)
    ensures ByUse(log, Without(ids, id))
  {
    hide LastUse;
    var k, r := IndexOf(ids, id), Without(ids, id);
    forall i, j | 0 <= i < j < |r| ensures LastUse(log, r[i]) < LastUse(log, r[j]) {
      var i', j' := if k == -1 || i < k then i else i + 1, if k == -1 || j < k then j else j + 1;
      assert r[i] == ids[i'] && r[j] == ids[j'];
    }
  }

  // ----- eviction -----

  predicate Over(n: nat, max: Option<nat>) { max.Some? && n > max.value }

  /** The log with evictions from the front of the order until it is no longer over `max`. */
  function Trimmed(log: seq<Event>, max: Option<nat>): seq<Event>
    decreases |Order(log)|
  {
    if !Over(|Order(log)|, max) then log
    else
      OldestGoes(log);
      Trimmed(log + [Gone(Order(log)[0], Evicted)], max)
  }

  lemma OldestGoes(log: seq<Event>)
    requires Order(log) != []
    ensures var next := log + [Gone(Order(log)[0], Evicted)];
            Order(next) == Order(log)[1..] && Kept(next) == Kept(log) - {Order(log)[0]}
  {
    hide Order, Kept, LastUse;
    Appended(log, Gone(Order(log)[0], Evicted));
    IndexOfIs(Order(log), Order(log)[0], 0);
  }

  /** Eviction keeps the `max` ids used last, with their records. */
  lemma {:induction false} TrimmedKeepsRecent(log: seq<Event>, max: Option<nat>)
    ensures var order := Order(log);
            && Order(Trimmed(log, max)) == (if Over(|order|, max) then order[|order| - max.value..] else order)
            && (forall id :: id in Kept(Trimmed(log, max)) ==>
                  id in Kept(log) && Kept(Trimmed(log, max))[id] == Kept(log)[id])
    decreases |Order(log)|
  {
    hide Order, Kept;
    if Over(|Order(log)|, max) {
      OldestGoes(log);
      TrimmedKeepsRecent(log + [Gone(Order(log)[0], Evicted)], max);
    }
  }

  /** Everything evicted was used before everything kept. */
  lemma EvictsLeastRecentlyUsed(log: seq<Event>, max: Option<nat>, gone: Id, kept: Id)
    requires gone in Kept(log) && gone !in Kept(Trimmed(log, max)) && kept in Kept(Trimmed(log, max))
    ensures LastUse(log, gone) < LastUse(log, kept)
  {
    hide Order, Kept, LastUse, Trimmed, NoDup, ByUse;
    var order := Order(log);
    OrderIsByUse(log);
    OrderIsByUse(Trimmed(log, max));
    TrimmedKeepsRecent(log, max);
    BeforeSuffix(log, order, if Over(|order|, max) then |order| - max.value else 0, gone, kept);
  }

  lemma BeforeSuffix(log: seq<Event>, order: seq<Id>, cut: nat, gone: Id, kept: Id)
    requires cut <= |order| && ByUse(log, order) && gone in order && gone !in order[cut..] && kept in order[cut..]
    ensures LastUse(log, gone) < LastUse(log, kept)
  {
    hide LastUse;
    var i :| 0 <= i < |order| && order[i] == gone;
    var j :| 0 <= j < |order| - cut && order[cut..][j] == kept;
    assert forall m :: cut <= m < |order| ==> order[m] == order[cut..][m - cut];
  }
}
