/** Whole histories on the providers: every answer, of either store, is the one the history gives. */
module StoreRuns {
  import opened Basics
  import opened StoreSpec
  import opened StoreHistory
  import StoreMemory
  import StoreSqlite

  datatype Answer = Got(record: Option<Record>) | Ended(result: CommitResult) | Existed(existed: bool)

  /** What an event is answered with in state `s`. */
  ghost function AnswerOf(s: State, e: Event): Answer {
    match e
    case Read(ns, key, now) => Got(Shows(s)(ns, key, now))
    case Delete(ns, key, now) => Existed(Shows(s)(ns, key, now).Some?)
    case Commit(_, m, tokens, _, encodable) =>
      Ended(if !WellFormed(m) then Invalid else if !encodable then Refused
            else if Succeeds(s, e) then Done(Report(m.writes, tokens)) else Conflict)
  }

  /** The clock does not go back, and every write has its token. */
  ghost predicate Timely(run: seq<Event>) {
    && (forall i, j :: 0 <= i < j < |run| ==> run[i].now <= run[j].now)
    && (forall i :: 0 <= i < |run| && run[i].Commit? ==> |run[i].tokens| == |run[i].m.writes|)
  }

  /** A store that shows `v` has come as far as event `n`. */
  ghost predicate InStep(run: seq<Event>, n: nat, v: View)
    requires n <= |run|
  {
    forall t :: (forall i :: 0 <= i < n ==> run[i].now <= t) ==> ShowsAt(v, At(run, n), t)
  }

  ghost predicate ShowsAt(v: View, s: State, t: Time) {
    SameFrom(v, Shows(s), t)
  }

  lemma Begins(run: seq<Event>, v: View)
    requires forall n, k, t :: v(n, k, t) == None
    ensures InStep(run, 0, v)
  {
  }

  /** A read changes nothing that shows. */
  lemma ReadStep(run: seq<Event>, n: nat, v: View, v': View)
    requires n < |run| && Timely(run) && run[n].Read? && InStep(run, n, v) && SameFrom(v, v', run[n].now)
    ensures v(run[n].ns, run[n].key, run[n].now) == Shows(At(run, n))(run[n].ns, run[n].key, run[n].now)
    ensures InStep(run, n + 1, v')
  {
    assert ShowsAt(v, At(run, n), run[n].now);
  }

  lemma DeleteStep(run: seq<Event>, n: nat, v: View, v': View, existed: bool)
    requires n < |run| && Timely(run) && run[n].Delete? && InStep(run, n, v)
    requires Deleted(v, v', run[n].ns, run[n].key, run[n].now, existed)
    ensures Existed(existed) == AnswerOf(At(run, n), run[n]) && InStep(run, n + 1, v')
  {
    var s, e := At(run, n), run[n];
    assert ShowsAt(v, s, e.now);
    StepDeletes(s, e);
    DeletesAgree(v, v', Shows(s), Shows(Step(s, e)), e.ns, e.key, e.now, existed, Shows(s)(e.ns, e.key, e.now).Some?);
  }

  lemma CommitStep(run: seq<Event>, n: nat, v: View, v': View, ok: bool)
    requires n < |run| && Timely(run) && run[n].Commit? && WellFormed(run[n].m) && run[n].encodable
    requires InStep(run, n, v)
    requires Committed(v, v', run[n].ns, run[n].m, run[n].tokens, run[n].now, ok)
    ensures ok <==> Succeeds(At(run, n), run[n])
    ensures InStep(run, n + 1, v')
  {
    var s, e := At(run, n), run[n];
    assert ShowsAt(v, s, e.now);
    StepCommits(s, e);
    CommitsAgree(v, v', Shows(s), Shows(Step(s, e)), e.ns, e.m, e.tokens, e.now, ok, Succeeds(s, e));
  }

  /** A commit that is turned down before it starts changes nothing. */
  lemma RejectedStep(run: seq<Event>, n: nat, v: View)
    requires n < |run| && Timely(run) && run[n].Commit? && !(WellFormed(run[n].m) && run[n].encodable)
    requires InStep(run, n, v)
    ensures InStep(run, n + 1, v)
  {
    assert ShowsAt(v, At(run, n), run[n].now);
  }

  /** The memory store, driven along any history. It keeps values as they are. */
  method DriveMemory(run: seq<Event>) returns (mem: StoreMemory.MemoryStore, answers: seq<Answer>)
    requires Timely(run) && forall i :: 0 <= i < |run| && run[i].Commit? ==> run[i].encodable
    ensures |answers| == |run| && forall i :: 0 <= i < |run| ==> answers[i] == AnswerOf(At(run, i), run[i])
    ensures InStep(run, |run|, StoreMemory.Shows(mem.namespaces))
  {
    hide At, InStep, Committed, Deleted, SameFrom, Succeeds, Shows, StoreMemory.Shows, WellFormed, Timely;
    mem := new StoreMemory.MemoryStore();
    answers := [];
    EmptyMemory(run);
    for n := 0 to |run|
      invariant fresh(mem)
      invariant |answers| == n && forall i :: 0 <= i < n ==> answers[i] == AnswerOf(At(run, i), run[i])
      invariant InStep(run, n, StoreMemory.Shows(mem.namespaces))
    {
      var answer := StepMemory(mem, run, n);
      answers := answers + [answer];
    }
  }

  lemma EmptyMemory(run: seq<Event>)
    ensures InStep(run, 0, StoreMemory.Shows(map[]))
  {
    var v := StoreMemory.Shows(map[]);
    forall n, k, t ensures v(n, k, t) == None {
      assert v(n, k, t) == Alive(StoreMemory.Find(StoreMemory.EntriesOf(map[], n), k), t);
    }
    Begins(run, v);
  }

  method StepMemory(mem: StoreMemory.MemoryStore, run: seq<Event>, n: nat) returns (answer: Answer)
    requires n < |run| && Timely(run) && (run[n].Commit? ==> run[n].encodable)
    requires InStep(run, n, StoreMemory.Shows(mem.namespaces))
    modifies mem
    ensures answer == AnswerOf(At(run, n), run[n]) && InStep(run, n + 1, StoreMemory.Shows(mem.namespaces))
  {
    hide At, InStep, Committed, Deleted, SameFrom, Succeeds, Shows, StoreMemory.Shows, WellFormed;
    ghost var v := StoreMemory.Shows(mem.namespaces);
    match run[n]
    case Read(ns, key, now) =>
      var r := mem.Record(ns, key, now);
      ReadStep(run, n, v, StoreMemory.Shows(mem.namespaces));
      return Got(r);
    case Delete(ns, key, now) =>
      var existed := mem.Delete(ns, key, now);
      DeleteStep(run, n, v, StoreMemory.Shows(mem.namespaces), existed);
      return Existed(existed);
    case Commit(ns, m, tokens, now, _) =>
      var result := mem.Commit(ns, m, tokens, now);
      if result.Invalid? {
        RejectedStep(run, n, v);
      } else {
        CommitStep(run, n, v, StoreMemory.Shows(mem.namespaces), result.Done?);
      }
      return Ended(result);
  }

  /** What the SQLite store needs beside an event: its checks as sorted, and versions for placeholders. */
  datatype Aid = Aid(order: seq<Check>, marks: seq<Version>)

  ghost predicate Aided(sql: StoreSqlite.SqliteStore, e: Event, aid: Aid) {
    e.Commit? ==>
      && |aid.marks| == |aid.order| && multiset(aid.order) == multiset(e.m.checks)
      && e.encodable == sql.Storable(e.m)
  }

  /** The SQLite store, driven along any history. */
  method DriveSqlite(sql: StoreSqlite.SqliteStore, run: seq<Event>, aids: seq<Aid>) returns (answers: seq<Answer>)
    requires sql.Valid() && sql.rows == map[] && Timely(run)
    requires |aids| == |run| && forall i :: 0 <= i < |run| ==> Aided(sql, run[i], aids[i])
    modifies sql`rows
    ensures |answers| == |run| && forall i :: 0 <= i < |run| ==> answers[i] == AnswerOf(At(run, i), run[i])
    ensures InStep(run, |run|, StoreSqlite.Shows(sql.rows, sql.decode))
  {
    hide At, InStep, Committed, Deleted, SameFrom, Succeeds, Shows, StoreSqlite.Shows, WellFormed, Timely;
    answers := [];
    EmptyRows(run, sql.decode);
    for n := 0 to |run|
      invariant sql.Valid() && |answers| == n && forall i :: 0 <= i < n ==> answers[i] == AnswerOf(At(run, i), run[i])
      invariant InStep(run, n, StoreSqlite.Shows(sql.rows, sql.decode))
    {
      var answer := StepSqlite(sql, run, n, aids[n]);
      answers := answers + [answer];
    }
  }

  lemma EmptyRows(run: seq<Event>, decode: StoreSqlite.Decoder)
    ensures InStep(run, 0, StoreSqlite.Shows(map[], decode))
  {
    var v := StoreSqlite.Shows(map[], decode);
    forall n, k, t ensures v(n, k, t) == None {
      assert v(n, k, t) == StoreSqlite.RowShown(map[], decode, n, k, t);
    }
    Begins(run, v);
  }

  method StepSqlite(sql: StoreSqlite.SqliteStore, run: seq<Event>, n: nat, aid: Aid) returns (answer: Answer)
    requires n < |run| && Timely(run) && sql.Valid() && Aided(sql, run[n], aid)
    requires InStep(run, n, StoreSqlite.Shows(sql.rows, sql.decode))
    modifies sql`rows
    ensures sql.Valid() && answer == AnswerOf(At(run, n), run[n])
    ensures InStep(run, n + 1, StoreSqlite.Shows(sql.rows, sql.decode))
  {
    hide At, InStep, Committed, Deleted, SameFrom, Succeeds, Shows, StoreSqlite.Shows, WellFormed;
    ghost var v := StoreSqlite.Shows(sql.rows, sql.decode);
    match run[n]
    case Read(ns, key, now) =>
      var r := sql.GetEntry(ns, key, now);
      ReadStep(run, n, v, StoreSqlite.Shows(sql.rows, sql.decode));
      return Got(r);
    case Delete(ns, key, now) =>
      var existed := sql.Delete(ns, key, now);
      DeleteStep(run, n, v, StoreSqlite.Shows(sql.rows, sql.decode), existed);
      return Existed(existed);
    case Commit(ns, m, tokens, now, _) =>
      var result := sql.Commit(ns, m, aid.order, tokens, aid.marks, now);
      if result.Invalid? || result.Refused? {
        RejectedStep(run, n, v);
      } else {
        CommitStep(run, n, v, StoreSqlite.Shows(sql.rows, sql.decode), result.Done?);
      }
      return Ended(result);
  }

  // ----- a clock that goes back -----

  /** A record is written to live until time 10, read at 10, and read again at 5. */
  function BackwardRun(ns: string, key: Key, value: Value, token: Version): seq<Event> {
    [Commit(ns, Mutation([], [Write(key, value, Finite(10))], []), [token], 0, true), Read(ns, key, 10),
     Read(ns, key, 5)]
  }

  lemma BackwardState(ns: string, key: Key, value: Value, token: Version)
    ensures var run := BackwardRun(ns, key, value, token);
            AnswerOf(At(run, 2), run[2]) == Got(Some(Record(value, token, Some(10))))
  {
    var run := BackwardRun(ns, key, value, token);
    var m := run[0].m;
    assert WriteOf(m.writes, key) == 0;
    assert Succeeds(map[], run[0]);
    StepAt(map[], run[0], (ns, key));
    assert At(run, 1) == Step(map[], run[0]) && At(run, 2) == At(run, 1);
  }

  /** What a new store holds after the first event. */
  lemma BackwardStored(v: View, v': View, ns: string, key: Key, value: Value, token: Version, ok: bool)
    requires Committed(v, v', ns, Mutation([], [Write(key, value, Finite(10))], []), [token], 0, ok)
    ensures v'(ns, key, 0) == Some(Record(value, token, Some(10)))
  {
    assert WriteOf([Write(key, value, Finite(10))], key) == 0;
  }

  lemma Forgotten(namespaces: StoreMemory.Namespaces, ns: string, key: Key, r: Record)
    requires StoreMemory.Shows(namespaces)(ns, key, 0) == Some(r) && r.expiresAt == Some(10)
    ensures StoreMemory.Shows(StoreMemory.Purged(namespaces, ns, key, 10))(ns, key, 5) == None
  {
  }

  /** The history still shows it then, and the store that met it expired does not. */
  method ClockBackForgets(ns: string, key: Key, value: Value, token: Version)
    returns (mem: StoreMemory.MemoryStore, late: Option<Record>)
    ensures var run := BackwardRun(ns, key, value, token);
            Got(late) != AnswerOf(At(run, 2), run[2]) == Got(Some(Record(value, token, Some(10))))
  {
    hide Committed, SameFrom, StoreMemory.Shows, StoreMemory.Purged, AnswerOf, At;
    BackwardState(ns, key, value, token);
    mem := new StoreMemory.MemoryStore();
    ghost var v := StoreMemory.Shows(mem.namespaces);
    var result := mem.Commit(ns, Mutation([], [Write(key, value, Finite(10))], []), [token], 0);
    BackwardStored(v, StoreMemory.Shows(mem.namespaces), ns, key, value, token, result.Done?);
    Forgotten(mem.namespaces, ns, key, Record(value, token, Some(10)));
    var first := mem.Record(ns, key, 10);
    late := mem.Record(ns, key, 5);
  }
}
