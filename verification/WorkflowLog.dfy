/** The step log of a durable workflow: sparse completions, the cursor, and their confluence. */
module WorkflowLog {

  type Value = int
  type Time = int

  /** A completed step. A step that returned nothing records 0. */
  datatype StepRecord = StepRecord(id: string, result: Value)

  /** `steps`: a sparse array. */
  type Steps = map<nat, StepRecord>

  datatype Completion = Completion(index: nat, id: string, result: Value)

  /** Everything below `n` is complete. */
  ghost predicate DoneBelow(steps: Steps, n: nat) {
    forall i :: 0 <= i < n ==> i in steps
  }

  /** `cursor` is the length of the longest completed prefix. */
  ghost predicate CursorOk(steps: Steps, cursor: nat) {
    DoneBelow(steps, cursor) && cursor !in steps
  }

  lemma CursorUnique(steps: Steps, c: nat, d: nat)
    requires CursorOk(steps, c) && CursorOk(steps, d)
    ensures c == d
  {
  }

  /** The `while` loop of `#complete`: move the cursor past completed steps. */
  method AdvanceCursor(steps: Steps, start: nat) returns (cursor: nat)
    requires DoneBelow(steps, start)
    ensures CursorOk(steps, cursor) && start <= cursor
  {
    cursor := start;
    var rest := set i | i in steps && i >= start;
    while cursor in steps
      invariant start <= cursor && DoneBelow(steps, cursor)
      invariant rest == set i | i in steps && i >= cursor
      decreases rest
    {
      rest := rest - {cursor};
      cursor := cursor + 1;
    }
  }

  function Put(steps: Steps, c: Completion): Steps { steps[c.index := StepRecord(c.id, c.result)] }

  function PutAll(steps: Steps, cs: seq<Completion>): Steps {
    if cs == [] then steps else Put(PutAll(steps, cs[..|cs| - 1]), cs[|cs| - 1])
  }

  ghost predicate DistinctIndexes(cs: seq<Completion>) {
    forall i, j :: 0 <= i < j < |cs| ==> cs[i].index != cs[j].index
  }

  /** Each completion is in the log afterwards, and nothing else is new. */
  lemma {:induction false} PutAllAt(steps: Steps, cs: seq<Completion>, k: nat)
    requires DistinctIndexes(cs)
    ensures var out := PutAll(steps, cs);
            && (forall h :: 0 <= h < |cs| && cs[h].index == k ==>
                  k in out && out[k] == StepRecord(cs[h].id, cs[h].result))
            && ((forall h :: 0 <= h < |cs| ==> cs[h].index != k) ==>
                  (k in out <==> k in steps) && (k in steps ==> out[k] == steps[k]))
  {
    if cs != [] {
      PutAllAt(steps, cs[..|cs| - 1], k);
    }
  }

  lemma SameMembers(cs: seq<Completion>, ds: seq<Completion>, k: nat)
    requires multiset(cs) == multiset(ds)
    ensures forall h :: 0 <= h < |cs| && cs[h].index == k ==>
          exists g :: 0 <= g < |ds| && ds[g].index == k && ds[g] == cs[h]
  {
    forall h | 0 <= h < |cs| && cs[h].index == k ensures exists g ::
          0 <= g < |ds| && ds[g].index == k && ds[g] == cs[h] {
      assert cs[h] in multiset(ds);
    }
  }

  /** The same completions in another order leave the same log. */
  lemma OrderIrrelevant(steps: Steps, cs: seq<Completion>, ds: seq<Completion>)
    requires DistinctIndexes(cs) && DistinctIndexes(ds) && multiset(cs) == multiset(ds)
    ensures PutAll(steps, cs) == PutAll(steps, ds)
  {
    var a, b := PutAll(steps, cs), PutAll(steps, ds);
    forall k ensures (k in a <==> k in b) && (k in a ==> a[k] == b[k]) {
      PutAllAt(steps, cs, k);
      PutAllAt(steps, ds, k);
      SameMembers(cs, ds, k);
      SameMembers(ds, cs, k);
    }
  }

  /** The persisted part that parallel steps share, and the serial queue that completes them. */
  class StepLog {
    var steps: Steps
    var cursor: nat
    /** Completions so far, in the order the queue ran them, and the log they started from. */
    ghost var order: seq<Completion>
    ghost var start: Steps

    ghost predicate Valid()
      reads this
    {
      CursorOk(steps, cursor) && steps == PutAll(start, order)
    }

    constructor ()
      ensures Valid() && steps == map[] && order == [] && start == map[]
    {
      steps, cursor, order, start := map[], 0, [], map[];
    }

    /** One turn of `#completionQueue`: read, record, advance, write back. */
    method Complete(index: nat, id: string, result: Value)
      requires Valid()
      modifies this
      ensures Valid() && order == old(order) + [Completion(index, id, result)] && start == old(start)
      ensures steps == old(steps)[index := StepRecord(id, result)]
      ensures old(cursor) <= cursor
    {
      steps := steps[index := StepRecord(id, result)];
      cursor := AdvanceCursor(steps, cursor);
      order := order + [Completion(index, id, result)];
      assert order[..|order| - 1] == old(order);
    }
  }

  /** Two logs that went through the same completions in different orders end up equal. */
  lemma Confluence(a: StepLog, b: StepLog)
    requires a.Valid() && b.Valid() && a.start == b.start
    requires DistinctIndexes(a.order) && DistinctIndexes(b.order) && multiset(a.order) == multiset(b.order)
    ensures a.steps == b.steps && a.cursor == b.cursor
  {
    OrderIrrelevant(a.start, a.order, b.order);
    CursorUnique(a.steps, a.cursor, b.cursor);
  }
}
