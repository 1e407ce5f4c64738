/** The SQLite store behaves as the memory store does. */
module StoreRefinement {
  import opened StoreSpec
  import opened StoreMemory
  import opened StoreSqlite

  /**
   * The same commit on two stores that show the same. Unless the codec refuses a value, both give the same result
   * and go on showing the same; if it does, the SQLite store is as it was.
   */
  method CommitBoth(mem: MemoryStore, sql: SqliteStore, ns: string, m: Mutation, order: seq<Check>,
                    tokens: seq<Version>, marks: seq<Version>, now: Time)
    returns (a: CommitResult, b: CommitResult)
    requires sql.Valid() && |tokens| == |m.writes| && |marks| == |order| && multiset(order) == multiset(m.checks)
    requires SameFrom(StoreMemory.Shows(mem.namespaces), StoreSqlite.Shows(sql.rows, sql.decode), now)
    modifies mem, sql`rows
    ensures b.Refused? <==> WellFormed(m) && !sql.Storable(m)
    ensures b.Refused? ==> sql.rows == old(sql.rows)
    ensures !b.Refused? ==> a == b
    ensures !b.Refused? ==> SameFrom(StoreMemory.Shows(mem.namespaces), StoreSqlite.Shows(sql.rows, sql.decode), now)
  {
    ghost var v, w := StoreMemory.Shows(mem.namespaces), StoreSqlite.Shows(sql.rows, sql.decode);
    a := mem.Commit(ns, m, tokens, now);
    b := sql.Commit(ns, m, order, tokens, marks, now);
    ghost var v', w' := StoreMemory.Shows(mem.namespaces), StoreSqlite.Shows(sql.rows, sql.decode);
    if !a.Invalid? && !b.Refused? {
      CommitsAgree(v, v', w, w', ns, m, tokens, now, a.Done?, b.Done?);
    }
  }

  method DeleteBoth(mem: MemoryStore, sql: SqliteStore, ns: string, key: Key, now: Time) returns (a: bool, b: bool)
    requires SameFrom(StoreMemory.Shows(mem.namespaces), StoreSqlite.Shows(sql.rows, sql.decode), now)
    modifies mem, sql`rows
    ensures a == b
    ensures SameFrom(StoreMemory.Shows(mem.namespaces), StoreSqlite.Shows(sql.rows, sql.decode), now)
  {
    a := mem.Delete(ns, key, now);
    b := sql.Delete(ns, key, now);
  }
}
