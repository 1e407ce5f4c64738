/** `MemoryStore`: check, then apply. */
module StoreMemory {
  import opened Basics
  import opened StoreSpec

  type Entries = map<Key, Record>
  type Namespaces = map<string, Entries>

  function Find(entries: Entries, k: Key): Option<Record> {
    if k in entries then Some(entries[k]) else None
  }

  function EntriesOf(namespaces: Namespaces, ns: string): Entries {
    if ns in namespaces then namespaces[ns] else map[]
  }

  function Shows(namespaces: Namespaces): View {
    (n, k, t) => Alive(Find(EntriesOf(namespaces, n), k), t)
  }

  /** What is left once a record has been looked at: an expired one is gone. */
  function Purged(namespaces: Namespaces, ns: string, key: Key, now: Time): Namespaces {
    var entries := EntriesOf(namespaces, ns);
    if key in entries && !Live(entries[key], now) then namespaces[ns := entries - {key}] else namespaces
  }

  method ApplyDeletes(entries: Entries, deletes: seq<Key>) returns (r: Entries)
    ensures forall k :: Find(r, k) == if k in deletes then None else Find(entries, k)
  {
    r := entries;
    for i := 0 to |deletes|
      invariant forall k :: Find(r, k) == if k in deletes[..i] then None else Find(entries, k)
    {
      assert deletes[..i + 1] == deletes[..i] + [deletes[i]];
      r := r - {deletes[i]};
    }
    assert deletes[..|deletes|] == deletes;
  }

  method ApplyWrites(entries: Entries, ws: seq<Write>, tokens: seq<Version>, now: Time)
    returns (r: Entries, written: seq<(Key, Value, Version)>)
    requires |tokens| == |ws|
    ensures written == Report(ws, tokens)
    ensures forall k :: Find(r, k) == (var h := WriteOf(ws, k); if h != -1 then Some(Written(ws[h], tokens[h], now))
        else Find(entries, k))
  {
    r, written := entries, [];
    for i := 0 to |ws|
      invariant written == Report(ws, tokens)[..i]
      invariant forall k :: Find(r, k) ==
                            (var h := WriteOf(ws[..i], k); if h != -1 then Some(Written(ws[h], tokens[h], now))
                                else Find(entries, k))
    {
      assert ws[..i + 1][..i] == ws[..i];
      r := r[ws[i].key := Written(ws[i], tokens[i], now)];
      written := written + [(ws[i].key, ws[i].value, tokens[i])];
    }
    assert ws[..|ws|] == ws;
  }

  lemma AppliedIsCommitted(before: Namespaces, mid: Namespaces, after: Namespaces, ns: string, m: Mutation,
                           tokens: seq<Version>, now: Time)
    requires |tokens| == |m.writes| && WellFormed(m)
    requires Passes(Shows(before), ns, m.checks, now) && SameFrom(Shows(before), Shows(mid), now)
    requires forall n :: n != ns ==> EntriesOf(after, n) == EntriesOf(mid, n)
    requires forall k :: Find(EntriesOf(after, ns), k) == After(m, tokens, now, k, Find(EntriesOf(mid, ns), k))
    ensures Committed(Shows(before), Shows(after), ns, m, tokens, now, true)
  {
    forall n, k, t | now <= t
      ensures Shows(after)(n, k, t) ==
              if n == ns then Alive(After(m, tokens, now, k, Shows(before)(n, k, t)), t) else Shows(before)(n, k, t)
    {
      assert Shows(before)(n, k, t) == Shows(mid)(n, k, t);
    }
  }

  lemma ShowsLive(namespaces: Namespaces)
    ensures OnlyLive(Shows(namespaces))
  {
  }

  lemma Dropped(before: Namespaces, after: Namespaces, ns: string, key: Key, now: Time)
    requires ns in before && key in before[ns] && !Live(before[ns][key], now)
    requires after == before[ns := before[ns] - {key}]
    ensures SameFrom(Shows(before), Shows(after), now)
  {
    forall n, k, t | now <= t ensures Shows(before)(n, k, t) == Shows(after)(n, k, t) {
      assert n != ns || k != key ==> Find(EntriesOf(before, n), k) == Find(EntriesOf(after, n), k);
    }
  }

  lemma Gone(before: Namespaces, mid: Namespaces, after: Namespaces, ns: string, key: Key, now: Time, existed: bool)
    requires SameFrom(Shows(before), Shows(mid), now) && existed == Shows(before)(ns, key, now).Some?
    requires after == if existed then mid[ns := EntriesOf(mid, ns) - {key}] else mid
    ensures Deleted(Shows(before), Shows(after), ns, key, now, existed)
  {
    assert Shows(before)(ns, key, now) == Shows(mid)(ns, key, now);
    forall n, k, t | now <= t
      ensures Shows(after)(n, k, t) == if n == ns && k == key then None else Shows(before)(n, k, t)
    {
      assert Shows(before)(n, k, t) == Shows(mid)(n, k, t);
      assert n != ns || k != key ==> Find(EntriesOf(mid, n), k) == Find(EntriesOf(after, n), k);
    }
  }

  class MemoryStore {
    var namespaces: Namespaces

    constructor ()
      ensures namespaces == map[]
    {
      namespaces := map[];
    }

    /** `#record`: an expired record is dropped on the way. */
    method Record(ns: string, key: Key, now: Time) returns (r: Option<Record>)
      modifies this
      ensures r == old(Shows(namespaces)(ns, key, now))
      ensures SameFrom(old(Shows(namespaces)), Shows(namespaces), now)
      ensures namespaces == Purged(old(namespaces), ns, key, now)
    {
      var entries := EntriesOf(namespaces, ns);
      assert Shows(namespaces)(ns, key, now) == Alive(Find(entries, key), now);
      if key !in entries { return None; }
      if !Live(entries[key], now) {
        namespaces := namespaces[ns := entries - {key}];
        Dropped(old(namespaces), namespaces, ns, key, now);
        return None;
      }
      return Some(entries[key]);
    }

    method Delete(ns: string, key: Key, now: Time) returns (existed: bool)
      modifies this
      ensures Deleted(old(Shows(namespaces)), Shows(namespaces), ns, key, now, existed)
    {
      var r := Record(ns, key, now);
      existed := r.Some?;
      ghost var mid := namespaces;
      if existed {
        namespaces := namespaces[ns := EntriesOf(namespaces, ns) - {key}];
      }
      Gone(old(namespaces), mid, namespaces, ns, key, now, existed);
    }

    /** `#commit`; `tokens` are the fresh versions drawn for the writes. */
    method Commit(ns: string, m: Mutation, tokens: seq<Version>, now: Time) returns (result: CommitResult)
      requires |tokens| == |m.writes|
      modifies this
      ensures result.Invalid? <==> !WellFormed(m)
      ensures result.Invalid? ==> namespaces == old(namespaces)
      ensures !result.Refused?
      ensures WellFormed(m) ==> Committed(old(Shows(namespaces)), Shows(namespaces), ns, m, tokens, now, result.Done?)
      ensures WellFormed(m) ==> Observed(old(Shows(namespaces)), Shows(namespaces), ns, m, tokens, now, result.Done?)
      ensures result.Done? ==> result.written == Report(m.writes, tokens)
    {
      result := Apply(ns, m, tokens, now);
      ShowsLive(old(namespaces));
      if WellFormed(m) {
        CommitMeans(old(Shows(namespaces)), Shows(namespaces), ns, m, tokens, now, result.Done?);
      }
    }

    method Apply(ns: string, m: Mutation, tokens: seq<Version>, now: Time) returns (result: CommitResult)
      requires |tokens| == |m.writes|
      modifies this
      ensures result.Invalid? <==> !WellFormed(m)
      ensures result.Invalid? ==> namespaces == old(namespaces)
      ensures !result.Refused?
      ensures WellFormed(m) ==> Committed(old(Shows(namespaces)), Shows(namespaces), ns, m, tokens, now, result.Done?)
      ensures result.Done? ==> result.written == Report(m.writes, tokens)
    {
      var ok := ValidateMutation(m);
      if !ok { return Invalid; }
      ghost var before := namespaces;
      for i := 0 to |m.checks|
        invariant SameFrom(Shows(before), Shows(namespaces), now)
        invariant Passes(Shows(before), ns, m.checks[..i], now)
      {
        var record := Record(ns, m.checks[i].key, now);
        if VersionOf(record) != m.checks[i].ifVersion {
          return Conflict;
        }
      }
      assert m.checks[..|m.checks|] == m.checks;
      ghost var mid := namespaces;
      var entries := ApplyDeletes(EntriesOf(namespaces, ns), m.deletes);
      var written;
      entries, written := ApplyWrites(entries, m.writes, tokens, now);
      namespaces := namespaces[ns := entries];
      AppliedIsCommitted(before, mid, namespaces, ns, m, tokens, now);
      return Done(written);
    }
  }
}
