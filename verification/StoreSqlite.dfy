/** `SqliteStoreImpl`: claim rows inside a transaction, apply, clean up; roll back on conflict. */
module StoreSqlite {
  import opened Basics
  import opened StoreSpec

  type Blob = seq<bv8>

  datatype Row = Row(blob: Blob, version: Version, expiresAt: Option<Time>)

  /** `fino_store_entries`, keyed by namespace and key. */
  type Rows = map<(string, Key), Row>

  type Decoder = Blob -> Value

  function RowAt(rows: Rows, n: string, k: Key): Option<Row> {
    if (n, k) in rows then Some(rows[(n, k)]) else None
  }

  predicate Expired(row: Row, now: Time) { row.expiresAt.Some? && row.expiresAt.value <= now }

  function Decoded(o: Option<Row>, decode: Decoder): Option<Record> {
    if o.Some? then Some(Record(decode(o.value.blob), o.value.version, o.value.expiresAt)) else None
  }

  function RowShown(rows: Rows, decode: Decoder, n: string, k: Key, t: Time): Option<Record> {
    Alive(Decoded(RowAt(rows, n, k), decode), t)
  }

  function Shows(rows: Rows, decode: Decoder): View {
    (n, k, t) => RowShown(rows, decode, n, k, t)
  }

  /** The SQL that purges one key if it is expired. */
  function Purge(rows: Rows, ns: string, key: Key, now: Time): Rows {
    if (ns, key) in rows && Expired(rows[(ns, key)], now) then rows - {(ns, key)} else rows
  }

  function DropRow(rows: Rows, ns: string, key: Key): (r: Rows)
    ensures forall n, k :: RowAt(r, n, k) == if n == ns && k == key then None else RowAt(rows, n, k)
  {
    rows - {(ns, key)}
  }

  function PutRow(rows: Rows, ns: string, key: Key, row: Row): (r: Rows)
    ensures forall n, k :: RowAt(r, n, k) == if n == ns && k == key then Some(row) else RowAt(rows, n, k)
  {
    rows[(ns, key) := row]
  }

  /** Check `c` holds on the rows at `now`. */
  ghost predicate Holds(rows: Rows, ns: string, c: Check, now: Time) {
    var row := RowAt(rows, ns, c.key);
    if c.ifVersion.None? then row.Some? ==> Expired(row.value, now)
    else row.Some? && !Expired(row.value, now) && row.value.version == c.ifVersion.value
  }

  /** A claimed key has a row: the checked one, or a placeholder if it was missing. */
  ghost predicate Claimed(rows0: Rows, rows: Rows, ns: string, c: Check) {
    if c.ifVersion.None? then RowAt(rows, ns, c.key).Some? else RowAt(rows, ns, c.key) == RowAt(rows0, ns, c.key)
  }

  /** The check phase of the transaction. */
  method ClaimAll(rows0: Rows, ns: string, order: seq<Check>, marks: seq<Version>, now: Time)
    returns (rows: Rows, claimedMissing: set<Key>, conflict: bool)
    requires DistinctChecks(order) && |marks| == |order|
    ensures conflict <==> exists h :: 0 <= h < |order| && !Holds(rows0, ns, order[h], now)
    ensures !conflict ==> forall h :: 0 <= h < |order| ==> Claimed(rows0, rows, ns, order[h])
    ensures !conflict ==> forall k :: k in claimedMissing <==> Check(k, None) in order
    ensures !conflict ==> forall n, k :: n != ns || (forall h :: 0 <= h < |order| ==> order[h].key != k) ==>
                                           RowAt(rows, n, k) == RowAt(rows0, n, k)
  {
    rows, claimedMissing, conflict := rows0, {}, false;
    for i := 0 to |order|
      invariant forall h :: 0 <= h < i ==> Holds(rows0, ns, order[h], now) && Claimed(rows0, rows, ns, order[h])
      invariant forall k :: k in claimedMissing <==> Check(k, None) in order[..i]
      invariant forall n, k :: n != ns || (forall h :: 0 <= h < i ==> order[h].key != k) ==>
                                 RowAt(rows, n, k) == RowAt(rows0, n, k)
    {
      var c := order[i];
      assert RowAt(rows, ns, c.key) == RowAt(rows0, ns, c.key);
      assert order[..i + 1] == order[..i] + [c];
      rows := Purge(rows, ns, c.key, now);
      if c.ifVersion.None? {
        if RowAt(rows, ns, c.key).Some? { return rows, claimedMissing, true; }
        rows := PutRow(rows, ns, c.key, Row([0], marks[i], None));
        claimedMissing := claimedMissing + {c.key};
      } else if RowAt(rows, ns, c.key).None? || RowAt(rows, ns, c.key).value.version != c.ifVersion.value {
        return rows, claimedMissing, true;
      }
    }
    assert order[..|order|] == order;
  }

  method RemoveAll(rows: Rows, ns: string, keys: seq<Key>) returns (r: Rows)
    ensures forall n, k :: RowAt(r, n, k) == if n == ns && k in keys then None else RowAt(rows, n, k)
  {
    hide RowAt, DropRow;
    r := rows;
    for i := 0 to |keys|
      invariant forall n, k :: RowAt(r, n, k) == if n == ns && k in keys[..i] then None else RowAt(rows, n, k)
    {
      assert keys[..i + 1] == keys[..i] + [keys[i]];
      r := DropRow(r, ns, keys[i]);
    }
    assert keys[..|keys|] == keys;
  }

  function EncodedRow(w: Write, token: Version, now: Time, encode: Value -> Blob): Row {
    Row(encode(w.value), token, Expiry(w.ttl, now))
  }

  method PutAll(rows: Rows, ns: string, ws: seq<Write>, tokens: seq<Version>, now: Time, encode: Value -> Blob)
      returns (r: Rows)
    requires |tokens| == |ws|
    ensures forall n, k :: RowAt(r, n, k) ==
                           (var h := WriteOf(ws, k);
                            if n == ns && h != -1 then Some(EncodedRow(ws[h], tokens[h], now, encode))
                                else RowAt(rows, n, k))
  {
    hide RowAt, PutRow, EncodedRow;
    r := rows;
    for i := 0 to |ws|
      invariant forall n, k :: RowAt(r, n, k) ==
                               (var h := WriteOf(ws[..i], k);
                                if n == ns && h != -1 then Some(EncodedRow(ws[h], tokens[h], now, encode))
                                    else RowAt(rows, n, k))
    {
      assert ws[..i + 1][..i] == ws[..i];
      r := PutRow(r, ns, ws[i].key, EncodedRow(ws[i], tokens[i], now, encode));
    }
    assert ws[..|ws|] == ws;
  }

  /** Remove the placeholders that nothing replaced. */
  method RemoveUnused(rows: Rows, ns: string, claimedMissing: set<Key>, mutated: set<Key>) returns (r: Rows)
    ensures forall n, k ::
          RowAt(r, n, k) == if n == ns && k in claimedMissing && k !in mutated then None else RowAt(rows, n, k)
  {
    hide RowAt, DropRow;
    r := rows;
    var left := claimedMissing;
    while left != {}
      invariant left <= claimedMissing
      invariant forall n, k :: RowAt(r, n, k) ==
                               if n == ns && k in claimedMissing - left && k !in mutated then None
                                   else RowAt(rows, n, k)
      decreases left
    {
      var k :| k in left;
      if k !in mutated { r := DropRow(r, ns, k); }
      left := left - {k};
    }
  }

  lemma HoldsIsPassing(rows: Rows, decode: Decoder, ns: string, c: Check, now: Time)
    ensures Holds(rows, ns, c, now) <==> VersionOf(Shows(rows, decode)(ns, c.key, now)) == c.ifVersion
  {
    assert Shows(rows, decode)(ns, c.key, now) == RowShown(rows, decode, ns, c.key, now);
  }

  lemma AppliedIsCommitted(rows0: Rows, rows1: Rows, rows: Rows, decode: Decoder, encode: Value -> Blob, ns: string,
      m: Mutation,
                           order: seq<Check>, claimedMissing: set<Key>, tokens: seq<Version>, now: Time)
    requires |tokens| == |m.writes| && WellFormed(m) && multiset(order) == multiset(m.checks)
    requires forall i :: 0 <= i < |m.writes| ==> decode(encode(m.writes[i].value)) == m.writes[i].value
    requires forall h :: 0 <= h < |order| ==> Holds(rows0, ns, order[h], now) && Claimed(rows0, rows1, ns, order[h])
    requires forall k :: k in claimedMissing <==> Check(k, None) in order
    requires forall n, k :: n != ns || (forall h :: 0 <= h < |order| ==> order[h].key != k) ==>
          RowAt(rows1, n, k) == RowAt(rows0, n, k)
    requires forall n, k :: RowAt(rows, n, k) ==
                            (var h := WriteOf(m.writes, k);
                             if n != ns then RowAt(rows1, n, k)
                             else if h != -1 then Some(EncodedRow(m.writes[h], tokens[h], now, encode))
                             else if k in m.deletes || k in claimedMissing then None
                             else RowAt(rows1, n, k))
    ensures Committed(Shows(rows0, decode), Shows(rows, decode), ns, m, tokens, now, true)
  {
    forall i | 0 <= i < |m.checks| ensures VersionOf(Shows(rows0, decode)(ns, m.checks[i].key, now))
        == m.checks[i].ifVersion {
      assert m.checks[i] in multiset(order);
      var h :| 0 <= h < |order| && order[h] == m.checks[i];
      HoldsIsPassing(rows0, decode, ns, order[h], now);
    }
    forall n, k, t | now <= t
      ensures Shows(rows, decode)(n, k, t) ==
              if n == ns then Alive(After(m, tokens, now, k, Shows(rows0, decode)(n, k, t)), t)
                  else Shows(rows0, decode)(n, k, t)
    {
      ShownAfter(rows0, rows1, rows, decode, encode, ns, m, order, claimedMissing, tokens, now, n, k, t);
    }
  }

  lemma ShownAfter(rows0: Rows, rows1: Rows, rows: Rows, decode: Decoder, encode: Value -> Blob, ns: string,
      m: Mutation,
                   order: seq<Check>, claimedMissing: set<Key>, tokens: seq<Version>, now: Time, n: string, k: Key,
                       t: Time)
    requires |tokens| == |m.writes| && now <= t
    requires forall i :: 0 <= i < |m.writes| ==> decode(encode(m.writes[i].value)) == m.writes[i].value
    requires forall h :: 0 <= h < |order| ==> Holds(rows0, ns, order[h], now) && Claimed(rows0, rows1, ns, order[h])
    requires k in claimedMissing <==> Check(k, None) in order
    requires n != ns || (forall h :: 0 <= h < |order| ==> order[h].key != k) ==>
          RowAt(rows1, n, k) == RowAt(rows0, n, k)
    requires RowAt(rows, n, k) ==
             (var h := WriteOf(m.writes, k);
              if n != ns then RowAt(rows1, n, k)
              else if h != -1 then Some(EncodedRow(m.writes[h], tokens[h], now, encode))
              else if k in m.deletes || k in claimedMissing then None
              else RowAt(rows1, n, k))
    ensures RowShown(rows, decode, n, k, t) ==
            if n == ns then Alive(After(m, tokens, now, k, RowShown(rows0, decode, n, k, t)), t)
                else RowShown(rows0, decode, n, k, t)
  {
    if n == ns && WriteOf(m.writes, k) == -1 && k !in m.deletes {
      if k in claimedMissing {
        var h :| 0 <= h < |order| && order[h] == Check(k, None);
        assert Holds(rows0, ns, order[h], now) && Claimed(rows0, rows1, ns, order[h]);
      } else if h :| 0 <= h < |order| && order[h].key == k {
        assert Holds(rows0, ns, order[h], now) && Claimed(rows0, rows1, ns, order[h]);
        assert order[h].ifVersion.Some?;
      }
    }
  }

  class SqliteStore {
    var rows: Rows
    const encode: Value -> Blob
    const decode: Decoder
    /** The values the codec has a form for. */
    const storable: Value -> bool

    ghost predicate Valid()
      reads this
    {
      forall v :: storable(v) ==> decode(encode(v)) == v
    }

    constructor (e: Value -> Blob, d: Decoder, s: Value -> bool)
      requires forall v :: s(v) ==> d(e(v)) == v
      ensures Valid() && rows == map[] && encode == e && decode == d && storable == s
    {
      rows, encode, decode, storable := map[], e, d, s;
    }

    /** Every value to be written has a form. */
    predicate Storable(m: Mutation) { forall i :: 0 <= i < |m.writes| ==> storable(m.writes[i].value) }

    /** `#getEntry`. */
    method GetEntry(ns: string, key: Key, now: Time) returns (r: Option<Record>)
      modifies this`rows
      ensures r == old(Shows(rows, decode)(ns, key, now))
      ensures SameFrom(old(Shows(rows, decode)), Shows(rows, decode), now)
    {
      Purged(rows, decode, ns, key, now);
      assert Shows(rows, decode)(ns, key, now) == RowShown(rows, decode, ns, key, now);
      rows := Purge(rows, ns, key, now);
      r := Decoded(RowAt(rows, ns, key), decode);
    }

    method Delete(ns: string, key: Key, now: Time) returns (existed: bool)
      modifies this`rows
      ensures Deleted(old(Shows(rows, decode)), Shows(rows, decode), ns, key, now, existed)
    {
      var purged := Purge(rows, ns, key, now);
      existed := (ns, key) in purged;
      rows := purged - {(ns, key)};
      Gone(old(rows), rows, decode, ns, key, now, existed);
    }

    /**
     * `#commit`. `order` is `m.checks` in the collation order the store sorts them into, `tokens` and
     * `marks` are the fresh versions drawn for the writes and for placeholders.
     */
    method Commit(ns: string, m: Mutation, order: seq<Check>, tokens: seq<Version>, marks: seq<Version>, now: Time)
      returns (result: CommitResult)
      requires Valid() && |tokens| == |m.writes| && |marks| == |order| && multiset(order) == multiset(m.checks)
      modifies this`rows
      ensures Valid()
      ensures result.Invalid? <==> !WellFormed(m)
      ensures result.Refused? <==> WellFormed(m) && !Storable(m)
      ensures !result.Done? ==> rows == old(rows)
      ensures WellFormed(m) && Storable(m) ==>
            Committed(old(Shows(rows, decode)), Shows(rows, decode), ns, m, tokens, now, result.Done?)
      ensures WellFormed(m) && Storable(m) ==>
            Observed(old(Shows(rows, decode)), Shows(rows, decode), ns, m, tokens, now, result.Done?)
      ensures result.Done? ==> result.written == Report(m.writes, tokens)
    {
      hide Committed, Shows, Observed;
      result := Apply(ns, m, order, tokens, marks, now);
      ShowsLive(old(rows), decode);
      if WellFormed(m) && Storable(m) {
        CommitMeans(old(Shows(rows, decode)), Shows(rows, decode), ns, m, tokens, now, result.Done?);
      }
    }

    method Apply(ns: string, m: Mutation, order: seq<Check>, tokens: seq<Version>, marks: seq<Version>, now: Time)
      returns (result: CommitResult)
      requires Valid() && |tokens| == |m.writes| && |marks| == |order| && multiset(order) == multiset(m.checks)
      modifies this`rows
      ensures Valid()
      ensures result.Invalid? <==> !WellFormed(m)
      ensures result.Refused? <==> WellFormed(m) && !Storable(m)
      ensures !result.Done? ==> rows == old(rows)
      ensures WellFormed(m) && Storable(m) ==>
            Committed(old(Shows(rows, decode)), Shows(rows, decode), ns, m, tokens, now, result.Done?)
      ensures result.Done? ==> result.written == Report(m.writes, tokens)
    {
      var ok := ValidateMutation(m);
      if !ok { return Invalid; }
      if !Storable(m) { return Refused; }
      DistinctInAnyOrder(order, m.checks);
      var saved := rows;
      var claimedMissing, conflict;
      rows, claimedMissing, conflict := ClaimAll(rows, ns, order, marks, now);
      if conflict {
        rows := saved;
        ConflictFails(saved, decode, ns, m, order, tokens, now);
        return Conflict;
      }
      ghost var claimed := rows;
      rows := RemoveAll(rows, ns, m.deletes);
      rows := PutAll(rows, ns, m.writes, tokens, now, encode);
      var mutated := (set k | k in m.deletes) + (set w | w in m.writes :: w.key);
      rows := RemoveUnused(rows, ns, claimedMissing, mutated);
      AppliedIsCommitted(saved, claimed, rows, decode, encode, ns, m, order, claimedMissing, tokens, now);
      return Done(Report(m.writes, tokens));
    }
  }

  lemma ShowsLive(rows: Rows, decode: Decoder)
    ensures OnlyLive(Shows(rows, decode))
  {
    forall n, k, t ensures Alive(Shows(rows, decode)(n, k, t), t) == Shows(rows, decode)(n, k, t) {
      assert Shows(rows, decode)(n, k, t) == RowShown(rows, decode, n, k, t);
    }
  }

  lemma Purged(rows: Rows, decode: Decoder, ns: string, key: Key, now: Time)
    ensures SameFrom(Shows(rows, decode), Shows(Purge(rows, ns, key, now), decode), now)
  {
    var rows' := Purge(rows, ns, key, now);
    forall n, k, t | now <= t ensures RowShown(rows, decode, n, k, t) == RowShown(rows', decode, n, k, t) {
      assert n != ns || k != key ==> RowAt(rows, n, k) == RowAt(rows', n, k);
    }
  }

  lemma Gone(before: Rows, after: Rows, decode: Decoder, ns: string, key: Key, now: Time, existed: bool)
    requires after == Purge(before, ns, key, now) - {(ns, key)} && existed == ((ns, key) in Purge(before, ns, key, now))
    ensures Deleted(Shows(before, decode), Shows(after, decode), ns, key, now, existed)
  {
    assert Shows(before, decode)(ns, key, now) == RowShown(before, decode, ns, key, now);
    forall n, k, t | now <= t
      ensures Shows(after, decode)(n, k, t) == if n == ns && k == key then None else Shows(before, decode)(n, k, t)
    {
      assert n != ns || k != key ==> RowAt(before, n, k) == RowAt(after, n, k);
      assert Shows(after, decode)(n, k, t) == RowShown(after, decode, n, k, t);
      assert Shows(before, decode)(n, k, t) == RowShown(before, decode, n, k, t);
    }
  }

  lemma {:induction false} CountOnce(checks: seq<Check>, c: Check)
    requires DistinctChecks(checks)
    ensures multiset(checks)[c] <= 1
  {
    if checks != [] {
      var front := checks[..|checks| - 1];
      assert checks == front + [checks[|checks| - 1]];
      CountOnce(front, c);
      assert c == checks[|checks| - 1] ==> c !in front;
    }
  }

  lemma CountTwice(s: seq<Check>, i: nat, j: nat)
    requires i < j < |s| && s[i] == s[j]
    ensures multiset(s)[s[i]] >= 2
  {
    assert s == s[..i] + [s[i]] + s[i + 1..j] + [s[j]] + s[j + 1..];
  }

  /** Sorting does not bring equal keys together that were not there. */
  lemma DistinctInAnyOrder(order: seq<Check>, checks: seq<Check>)
    requires multiset(order) == multiset(checks) && DistinctChecks(checks)
    ensures DistinctChecks(order)
  {
    forall i, j | 0 <= i < j < |order| ensures order[i].key != order[j].key {
      CountOnce(checks, order[i]);
      if order[i] == order[j] {
        CountTwice(order, i, j);
      } else {
        assert order[i] in multiset(checks) && order[j] in multiset(checks);
        var p :| 0 <= p < |checks| && checks[p] == order[i];
        var q :| 0 <= q < |checks| && checks[q] == order[j];
        assert checks[p].key != checks[q].key;
      }
    }
  }

  lemma ConflictFails(rows: Rows, decode: Decoder, ns: string, m: Mutation, order: seq<Check>, tokens: seq<Version>,
      now: Time)
    requires |tokens| == |m.writes| && multiset(order) == multiset(m.checks)
    requires exists h :: 0 <= h < |order| && !Holds(rows, ns, order[h], now)
    ensures Committed(Shows(rows, decode), Shows(rows, decode), ns, m, tokens, now, false)
  {
    var h :| 0 <= h < |order| && !Holds(rows, ns, order[h], now);
    assert order[h] in multiset(m.checks);
    var i :| 0 <= i < |m.checks| && m.checks[i] == order[h];
    HoldsIsPassing(rows, decode, ns, order[h], now);
  }
}
