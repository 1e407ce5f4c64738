/** The in-memory ZIP codec of fino:archive: `serializeZip` and `parseZip`. */
module Zip {
  import opened Basics
  import opened Bytes
  import opened Utf8
  import opened ArchivePath
  import Crc32

  const LOCAL := 67324752
  const CENTRAL := 33639248
  const END := 101010256
  const STORE := 0
  const DEFLATE := 8

  type Uint16 = n: int | 0 <= n < 65536
  type Uint32 = n: int | 0 <= n < 4294967296

  // ----- DOS time stamps -----

  /** The calendar fields of a date, in local time. */
  datatype Stamp = Stamp(year: int, month: nat, day: nat, hour: nat, minute: nat, second: nat)

  ghost predicate ValidStamp(t: Stamp) {
    1 <= t.month <= 12 && 1 <= t.day <= 31 && t.hour < 24 && t.minute < 60 && t.second < 60
  }

  datatype Dos = Dos(time: Uint16, date: Uint16)

  function Clamped(year: int): (y: int)
    ensures 1980 <= y <= 2107
  {
    if year < 1980 then 1980 else if year > 2107 then 2107 else year
  }

  /** `dateToDos`; masks and shifts are written as remainders and powers of two. */
  function ToDos(t: Stamp): Dos {
    Dos(t.hour % 32 * 2048 + t.minute % 64 * 32 + t.second / 2 % 32,
        (Clamped(t.year) - 1980) % 128 * 512 + t.month % 16 * 32 + t.day % 32)
  }

  /** `dosToDate`, up to the Date constructor's own carrying. */
  function FromDos(d: Dos): Stamp {
    var month, day := d.date / 32 % 16 - 1, d.date % 32;
    Stamp(d.date / 512 % 128 + 1980, (if month < 0 then 0 else month) + 1, if day < 1 then 1 else day,
          d.time / 2048 % 32, d.time / 32 % 64, d.time % 32 * 2)
  }

  /** A date survives exactly when it lies in the years the format has, on an even second; otherwise it is rounded. */
  lemma DosRoundTrip(t: Stamp)
    requires ValidStamp(t)
    ensures FromDos(ToDos(t)) == t <==> 1980 <= t.year <= 2107 && t.second % 2 == 0
    ensures FromDos(ToDos(t)) == t.(year := if t.year < 1980 then 1980 else if t.year > 2107 then 2107 else t.year,
                                    second := t.second - t.second % 2)
  {
    hide ToDos;
    TimeFields(t);
    DateFields(t);
  }

  lemma TimeFields(t: Stamp)
    requires ValidStamp(t)
    ensures var w := ToDos(t).time; w / 2048 % 32 == t.hour && w / 32 % 64 == t.minute && w % 32 == t.second / 2
  {
    assert t.hour % 32 == t.hour && t.minute % 64 == t.minute && t.second / 2 % 32 == t.second / 2;
    UnpackTime(t.hour, t.minute, t.second / 2);
  }

  lemma DateFields(t: Stamp)
    requires ValidStamp(t)
    ensures var w := ToDos(t).date; w / 32 % 16 == t.month && w % 32 == t.day
    ensures ToDos(t).date / 512 % 128 + 1980 == Clamped(t.year)
  {
    hide Clamped;
    assert (Clamped(t.year) - 1980) % 128 == Clamped(t.year) - 1980 && t.month % 16 == t.month && t.day % 32 == t.day;
    UnpackDate(Clamped(t.year) - 1980, t.month, t.day);
  }

  // Three fields packed into one word come apart again.

  lemma UnpackTime(high: nat, middle: nat, low: nat)
    requires middle < 64 && low < 32
    ensures var word := high * 2048 + middle * 32 + low;
          word % 32 == low && word / 32 % 64 == middle && word / 2048 == high
  {
    assert (high * 2048 + middle * 32 + low) / 32 == high * 64 + middle;
  }

  lemma UnpackDate(high: nat, middle: nat, low: nat)
    requires middle < 16 && low < 32
    ensures var word := high * 512 + middle * 32 + low;
          word % 32 == low && word / 32 % 16 == middle && word / 512 == high
  {
    assert (high * 512 + middle * 32 + low) / 32 == high * 16 + middle;
  }

  // ----- little-endian fields -----

  function U16(n: nat): (r: seq<Byte>)
    ensures |r| == 2
  {
    [n % 256, n / 256 % 256]
  }

  function U32(n: nat): (r: seq<Byte>)
    ensures |r| == 4
  {
    U16(n) + U16(n / 65536)
  }

  function Get16(b: seq<Byte>, at: nat): Uint16
    requires at + 2 <= |b|
  {
    b[at] as int + 256 * b[at + 1] as int
  }

  function Get32(b: seq<Byte>, at: nat): Uint32
    requires at + 4 <= |b|
  {
    Get16(b, at) as int + 65536 * Get16(b, at + 2) as int
  }

  /** The bytes `p` stand at position `at`. */
  ghost predicate Has(b: seq<Byte>, at: nat, p: seq<Byte>) {
    at + |p| <= |b| && b[at..at + |p|] == p
  }

  lemma Read16(b: seq<Byte>, at: nat, n: nat)
    requires Has(b, at, U16(n))
    ensures at + 2 <= |b| && Get16(b, at) == n % 65536
  {
    assert b[at] == b[at..at + 2][0] && b[at + 1] == b[at..at + 2][1];
    TwoDigits(n);
  }

  lemma TwoDigits(n: nat)
    ensures n % 256 + 256 * (n / 256 % 256) == n % 65536
  {
    assert n / 256 / 256 == n / 65536;
  }

  lemma Read32(b: seq<Byte>, at: nat, n: nat)
    requires Has(b, at, U32(n))
    ensures at + 4 <= |b| && Get32(b, at) == n % 4294967296
  {
    hide U16, Get16;
    assert b[at..at + 2] == b[at..at + 4][..2] && b[at + 2..at + 4] == b[at..at + 4][2..];
    Read16(b, at, n);
    Read16(b, at + 2, n / 65536);
    assert n % 4294967296 == n % 65536 + 65536 * (n / 65536 % 65536);
  }

  lemma HasShift(pre: seq<Byte>, b: seq<Byte>, post: seq<Byte>)
    ensures forall at: nat, p: seq<Byte> {:trigger Has(b, at, p)} :: Has(b, at, p) ==>
          Has(pre + b + post, |pre| + at, p)
  {
    var all := pre + b + post;
    forall at: nat, p: seq<Byte> {:trigger Has(b, at, p)} | Has(b, at, p) ensures Has(all, |pre| + at, p) {
      assert all[|pre| + at..|pre| + at + |p|] == b[at..at + |p|];
    }
  }

  /** `setUint16`, `setUint32` and `set`, with the bytes to store. */
  method Put(view: array<Byte>, at: nat, p: seq<Byte>)
    requires at + |p| <= view.Length
    modifies view
    ensures Has(view[..], at, p)
    ensures forall a: nat, q: seq<Byte> {:trigger old(Has(view[..], a, q))} ::
              old(Has(view[..], a, q)) && (a + |q| <= at || at + |p| <= a) ==> Has(view[..], a, q)
  {
    for i := 0 to |p|
      invariant forall k :: 0 <= k < i ==> view[at + k] == p[k]
      invariant forall k :: 0 <= k < view.Length && !(at <= k < at + i) ==> view[k] == old(view[k])
    {
      view[at + i] := p[i];
    }
    assert view[..][at..at + |p|] == p;
    forall a: nat, q: seq<Byte> {:trigger old(Has(view[..], a, q))} | old(Has(view[..], a, q))
        && (a + |q| <= at || at + |p| <= a)
      ensures Has(view[..], a, q)
    {
      SameSlice(view[..], old(view[..]), a, a + |q|);
    }
  }

  // ----- records -----

  /** What is stored for one entry. */
  datatype Record = Record(name: seq<Byte>, how: Uint16, dos: Dos, crc: nat, size: nat, compressed: seq<Byte>,
      mode: nat)

  /** A local file header with its name and data (section 4.3.7 of the ZIP APPNOTE). */
  ghost predicate LocalAt(b: seq<Byte>, o: nat, r: Record) {
    && Has(b, o, U32(LOCAL)) && Has(b, o + 4, U16(20)) && Has(b, o + 6, U16(0)) && Has(b, o + 8, U16(r.how))
    && Has(b, o + 10, U16(r.dos.time)) && Has(b, o + 12, U16(r.dos.date)) && Has(b, o + 14, U32(r.crc))
    && Has(b, o + 18, U32(|r.compressed|)) && Has(b, o + 22, U32(r.size))
    && Has(b, o + 26, U16(|r.name|)) && Has(b, o + 28, U16(0))
    && Has(b, o + 30, r.name) && Has(b, o + 30 + |r.name|, r.compressed)
  }

  /** A central directory header (section 4.3.12 of the ZIP APPNOTE). */
  ghost predicate CentralAt(b: seq<Byte>, o: nat, r: Record, local: nat) {
    && CentralHead(b, o, r)
    && Has(b, o + 28, U16(|r.name|)) && Has(b, o + 30, U16(0)) && Has(b, o + 32, U16(0))
    && Has(b, o + 34, U16(0)) && Has(b, o + 36, U16(0)) && Has(b, o + 38, U32(r.mode % 65536 * 65536))
    && Has(b, o + 42, U32(local)) && Has(b, o + 46, r.name)
  }

  ghost predicate CentralHead(b: seq<Byte>, o: nat, r: Record) {
    && Has(b, o, U32(CENTRAL)) && Has(b, o + 4, U16(20)) && Has(b, o + 6, U16(20)) && Has(b, o + 8, U16(0))
    && Has(b, o + 10, U16(r.how)) && Has(b, o + 12, U16(r.dos.time)) && Has(b, o + 14, U16(r.dos.date))
    && Has(b, o + 16, U32(r.crc)) && Has(b, o + 20, U32(|r.compressed|)) && Has(b, o + 24, U32(r.size))
  }

  /** The end of central directory record (section 4.3.16 of the ZIP APPNOTE). */
  ghost predicate EndAt(b: seq<Byte>, o: nat, count: nat, size: nat, central: nat) {
    && Has(b, o, U32(END)) && Has(b, o + 4, U16(0)) && Has(b, o + 6, U16(0)) && Has(b, o + 8, U16(count))
    && Has(b, o + 10, U16(count)) && Has(b, o + 12, U32(size)) && Has(b, o + 16, U32(central)) && Has(b, o + 20, U16(0))
  }

  function LocalSize(r: Record): nat { 30 + |r.name| + |r.compressed| }

  function CentralSize(r: Record): nat { 46 + |r.name| }

  method MakeLocal(r: Record) returns (h: seq<Byte>)
    ensures |h| == LocalSize(r) && LocalAt(h, 0, r)
  {
    hide Has, U16, U32;
    var view := new Byte[LocalSize(r)](i => 0);
    Put(view, 0, U32(LOCAL));
    Put(view, 4, U16(20));
    Put(view, 6, U16(0));
    Put(view, 8, U16(r.how));
    Put(view, 10, U16(r.dos.time));
    Put(view, 12, U16(r.dos.date));
    Put(view, 14, U32(r.crc));
    Put(view, 18, U32(|r.compressed|));
    Put(view, 22, U32(r.size));
    Put(view, 26, U16(|r.name|));
    Put(view, 28, U16(0));
    Put(view, 30, r.name);
    Put(view, 30 + |r.name|, r.compressed);
    h := view[..];
  }

  method MakeCentral(r: Record, local: nat) returns (h: seq<Byte>)
    ensures |h| == CentralSize(r) && CentralAt(h, 0, r, local)
  {
    hide Has, U16, U32, CentralHead;
    var view := new Byte[CentralSize(r)](i => 0);
    PutCentralHead(view, r);
    ghost var s := view[..];
    HasPrefix(s, 28);
    Put(view, 28, U16(|r.name|));
    Put(view, 30, U16(0));
    Put(view, 32, U16(0));
    Put(view, 34, U16(0));
    Put(view, 36, U16(0));
    Put(view, 38, U32(r.mode % 65536 * 65536));
    Put(view, 42, U32(local));
    Put(view, 46, r.name);
    h := view[..];
    SameHead(s, h, r);
  }

  method PutCentralHead(view: array<Byte>, r: Record)
    requires view.Length >= 46
    modifies view
    ensures CentralHead(view[..], 0, r)
  {
    hide Has, U16, U32;
    Put(view, 0, U32(CENTRAL));
    Put(view, 4, U16(20));
    Put(view, 6, U16(20));
    Put(view, 8, U16(0));
    Put(view, 10, U16(r.how));
    Put(view, 12, U16(r.dos.time));
    Put(view, 14, U16(r.dos.date));
    Put(view, 16, U32(r.crc));
    Put(view, 20, U32(|r.compressed|));
    Put(view, 24, U32(r.size));
  }

  lemma HasPrefix(b: seq<Byte>, n: nat)
    requires n <= |b|
    ensures Has(b, 0, b[..n])
  {
  }

  lemma SameHead(s: seq<Byte>, t: seq<Byte>, r: Record)
    requires 28 <= |s| && Has(t, 0, s[..28]) && CentralHead(s, 0, r)
    ensures CentralHead(t, 0, r)
  {
    hide U16, U32;
    forall at: nat, p: seq<Byte> {:trigger Has(s, at, p)} | Has(s, at, p) && at + |p| <= 28 ensures Has(t, at, p) {
      assert t[at..at + |p|] == t[..28][at..at + |p|] == s[..28][at..at + |p|] == s[at..at + |p|];
    }
  }

  method MakeEnd(count: nat, size: nat, central: nat) returns (h: seq<Byte>)
    ensures |h| == 22 && EndAt(h, 0, count, size, central)
  {
    hide Has, U16, U32;
    var view := new Byte[22](i => 0);
    Put(view, 0, U32(END));
    Put(view, 4, U16(0));
    Put(view, 6, U16(0));
    Put(view, 8, U16(count));
    Put(view, 10, U16(count));
    Put(view, 12, U32(size));
    Put(view, 16, U32(central));
    Put(view, 20, U16(0));
    h := view[..];
  }

  // ----- writing -----

  /** An entry to be written, with its options resolved; `how` is the compression method. */
  datatype Entry = Entry(name: Name, kind: Kind, mode: nat, mtime: Stamp, how: Uint16, data: seq<Byte>)

  type Deflate = seq<Byte> -> seq<Byte>

  function Payload(e: Entry): seq<Byte> { if e.kind.Directory? then [] else e.data }

  function WrittenName(e: Entry): Name {
    if e.kind.Directory? && !EndsInSlash(e.name) then e.name + [SLASH] else e.name
  }

  predicate EndsInSlash(name: Name) { name != [] && name[|name| - 1] == SLASH }

  function How(e: Entry): Uint16 { if e.kind.Directory? then STORE else e.how }

  function Packed(e: Entry, deflate: Deflate): seq<Byte> {
    if How(e) == STORE then Payload(e) else deflate(Payload(e))
  }

  function RecordOf(e: Entry, deflate: Deflate): Record {
    Record(Encode(WrittenName(e)), How(e), ToDos(e.mtime), Crc32.Crc(Payload(e)), |Payload(e)|, Packed(e, deflate),
        e.mode)
  }

  function Records(es: seq<Entry>, deflate: Deflate): (rs: seq<Record>)
    ensures |rs| == |es| && forall i :: 0 <= i < |es| ==> rs[i] == RecordOf(es[i], deflate)
  {
    seq(|es|, i requires 0 <= i < |es| => RecordOf(es[i], deflate))
  }

  function LocalStart(rs: seq<Record>, i: nat): nat
    requires i <= |rs|
  {
    if i == 0 then 0 else LocalStart(rs, i - 1) + LocalSize(rs[i - 1])
  }

  function CentralStart(rs: seq<Record>, i: nat): nat
    requires i <= |rs|
  {
    if i == 0 then 0 else CentralStart(rs, i - 1) + CentralSize(rs[i - 1])
  }

  ghost predicate AllLocals(b: seq<Byte>, rs: seq<Record>, n: nat)
    requires n <= |rs|
  {
    forall i :: 0 <= i < n ==> LocalAt(b, LocalStart(rs, i), rs[i])
  }

  ghost predicate AllCentrals(b: seq<Byte>, base: nat, rs: seq<Record>, n: nat)
    requires n <= |rs|
  {
    forall i :: 0 <= i < n ==> CentralAt(b, base + CentralStart(rs, i), rs[i], LocalStart(rs, i))
  }

  /** Local records, then the central directory, then the end record. */
  ghost predicate IsZip(b: seq<Byte>, rs: seq<Record>) {
    var n := |rs|;
    var central := LocalStart(rs, n);
    var end := central + CentralStart(rs, n);
    && |b| == end + 22 && AllLocals(b, rs, n) && AllCentrals(b, central, rs, n)
    && EndAt(b, end, n, CentralStart(rs, n), central)
  }

  lemma LocalShift(pre: seq<Byte>, b: seq<Byte>, post: seq<Byte>, o: nat, r: Record)
    requires LocalAt(b, o, r)
    ensures LocalAt(pre + b + post, |pre| + o, r)
  {
    hide Has, U16, U32;
    HasShift(pre, b, post);
  }

  lemma CentralShift(pre: seq<Byte>, b: seq<Byte>, post: seq<Byte>, o: nat, r: Record, local: nat)
    requires CentralAt(b, o, r, local)
    ensures CentralAt(pre + b + post, |pre| + o, r, local)
  {
    hide Has, U16, U32;
    HasShift(pre, b, post);
  }

  lemma EndShift(pre: seq<Byte>, b: seq<Byte>, count: nat, size: nat, central: nat)
    requires EndAt(b, 0, count, size, central)
    ensures EndAt(pre + b, |pre|, count, size, central)
  {
    hide Has, U16, U32;
    HasShift(pre, b, []);
    assert pre + b + [] == pre + b;
  }

  lemma LocalsShift(b: seq<Byte>, post: seq<Byte>, rs: seq<Record>, n: nat)
    requires n <= |rs| && AllLocals(b, rs, n)
    ensures AllLocals(b + post, rs, n)
  {
    hide LocalAt, LocalStart;
    forall i | 0 <= i < n ensures LocalAt(b + post, LocalStart(rs, i), rs[i]) {
      LocalShift([], b, post, LocalStart(rs, i), rs[i]);
      assert [] + b + post == b + post;
    }
  }

  lemma CentralsShift(pre: seq<Byte>, b: seq<Byte>, post: seq<Byte>, rs: seq<Record>, n: nat)
    requires n <= |rs| && AllCentrals(b, 0, rs, n)
    ensures AllCentrals(pre + b + post, |pre|, rs, n)
  {
    hide CentralAt, LocalStart, CentralStart;
    forall i | 0 <= i < n ensures CentralAt(pre + b + post, |pre| + CentralStart(rs, i), rs[i], LocalStart(rs, i)) {
      CentralShift(pre, b, post, CentralStart(rs, i), rs[i], LocalStart(rs, i));
    }
  }

  lemma NextLocal(b: seq<Byte>, h: seq<Byte>, rs: seq<Record>, i: nat)
    requires i < |rs| && |b| == LocalStart(rs, i) && AllLocals(b, rs, i) && LocalAt(h, 0, rs[i])
    ensures AllLocals(b + h, rs, i + 1)
  {
    hide LocalAt, LocalStart;
    LocalsShift(b, h, rs, i);
    LocalShift(b, h, [], 0, rs[i]);
    assert b + h + [] == b + h;
  }

  lemma NextCentral(b: seq<Byte>, h: seq<Byte>, rs: seq<Record>, i: nat)
    requires i < |rs| && |b| == CentralStart(rs, i) && AllCentrals(b, 0, rs, i)
        && CentralAt(h, 0, rs[i], LocalStart(rs, i))
    ensures AllCentrals(b + h, 0, rs, i + 1)
  {
    hide CentralAt, LocalStart, CentralStart;
    CentralsShift([], b, h, rs, i);
    assert [] + b + h == b + h;
    CentralShift(b, h, [], 0, rs[i], LocalStart(rs, i));
    assert b + h + [] == b + h;
  }

  lemma Finish(locals: seq<Byte>, central: seq<Byte>, end: seq<Byte>, rs: seq<Record>)
    requires |locals| == LocalStart(rs, |rs|) && AllLocals(locals, rs, |rs|)
    requires |central| == CentralStart(rs, |rs|) && AllCentrals(central, 0, rs, |rs|)
    requires |end| == 22 && EndAt(end, 0, |rs|, |central|, |locals|)
    ensures IsZip(locals + central + end, rs)
  {
    hide AllLocals, AllCentrals, EndAt, LocalStart, CentralStart;
    LocalsShift(locals, central + end, rs, |rs|);
    assert locals + (central + end) == locals + central + end;
    CentralsShift(locals, central, end, rs, |rs|);
    EndShift(locals + central, end, |rs|, |central|, |locals|);
  }

  /** `serializeZip`. */
  method Serialize(es: seq<Entry>, deflate: Deflate) returns (bytes: seq<Byte>)
    ensures IsZip(bytes, Records(es, deflate))
  {
    hide AllLocals, AllCentrals, IsZip, LocalAt, CentralAt, EndAt, ToDos, Crc32.Crc, Records, Encode;
    var locals: seq<Byte>, central: seq<Byte> := [], [];
    ghost var rs := Records(es, deflate);
    NoneYet(rs);
    for i := 0 to |es|
      invariant |locals| == LocalStart(rs, i) && AllLocals(locals, rs, i)
      invariant |central| == CentralStart(rs, i) && AllCentrals(central, 0, rs, i)
    {
      var e := es[i];
      var crc := Crc32.Compute(Payload(e));
      var name := Encode(WrittenName(e));
      var r := Record(name, How(e), ToDos(e.mtime), crc, |Payload(e)|, Packed(e, deflate), e.mode);
      var local := MakeLocal(r);
      var header := MakeCentral(r, |locals|);
      NextLocal(locals, local, rs, i);
      NextCentral(central, header, rs, i);
      locals, central := locals + local, central + header;
    }
    var end := MakeEnd(|es|, |central|, |locals|);
    Finish(locals, central, end, rs);
    bytes := locals + central + end;
  }

  lemma NoneYet(rs: seq<Record>)
    ensures AllLocals([], rs, 0) && AllCentrals([], 0, rs, 0)
  {
  }

  // ----- reading -----

  /** An entry as it is listed; the loader closes over `compressed`. */
  datatype Loaded = Loaded(name: Name, kind: Kind, size: nat, compressed: seq<Byte>, mtime: Stamp, mode: nat,
      how: Uint16, crc: nat)

  datatype Item = Item(entry: Loaded, next: nat)

  /** The flag for sizes that follow the data. */
  predicate Deferred(flags: Uint16) { flags / 8 % 2 == 1 }

  /** The checks on a central directory header alone. */
  predicate CentralOk(b: seq<Byte>, o: nat) {
    && o + 46 <= |b| && Get32(b, o) == CENTRAL && !Deferred(Get16(b, o + 8))
    && Get32(b, o + 20) != 4294967295 && Get32(b, o + 24) != 4294967295 && Get32(b, o + 42) != 4294967295
    && Next(b, o) <= |b|
  }

  function Next(b: seq<Byte>, o: nat): nat
    requires o + 46 <= |b|
  {
    o + 46 + Get16(b, o + 28) as int + Get16(b, o + 30) as int + Get16(b, o + 32) as int
  }

  function DataStart(b: seq<Byte>, local: nat): nat
    requires local + 30 <= |b|
  {
    local + 30 + Get16(b, local + 26) as int + Get16(b, local + 28) as int
  }

  /** The checks on the local header it refers to: everything stored twice must agree. */
  predicate LocalOk(b: seq<Byte>, o: nat)
    requires CentralOk(b, o)
  {
    var local, length := Get32(b, o + 42) as int, Get16(b, o + 28) as int;
    && local + 30 <= |b| && Get32(b, local) == LOCAL && !Deferred(Get16(b, local + 6))
    && DataStart(b, local) <= |b|
    && Get16(b, local + 26) == length && b[local + 30..local + 30 + length] == b[o + 46..o + 46 + length]
    && Get16(b, local + 6) == Get16(b, o + 8) && Get16(b, local + 8) == Get16(b, o + 10)
    && Get32(b, local + 14) == Get32(b, o + 16) && Get32(b, local + 18) == Get32(b, o + 20)
    && Get32(b, local + 22) == Get32(b, o + 24)
    && DataStart(b, local) + Get32(b, o + 20) as int <= |b|
  }

  function EntryAt(b: seq<Byte>, o: nat): Loaded
    requires CentralOk(b, o) && LocalOk(b, o)
  {
    var name := Decode(b[o + 46..o + 46 + Get16(b, o + 28) as int]);
    var data := DataStart(b, Get32(b, o + 42));
    var mode := Get32(b, o + 38) / 65536;
    var kind := if EndsInSlash(name) || mode / 4096 == 4 then Directory else File;
    Loaded(Normalize(name), kind, Get32(b, o + 24), b[data..data + Get32(b, o + 20) as int],
           FromDos(Dos(Get16(b, o + 12), Get16(b, o + 14))),
           if mode != 0 then mode else DefaultMode(kind), Get16(b, o + 10), Get32(b, o + 16))
  }

  function DefaultMode(kind: Kind): nat { if kind.Directory? then DEFAULT_DIR_MODE else DEFAULT_MODE }

  /** One turn of the loop over the central directory; `None` stands for the errors. */
  function ReadEntry(b: seq<Byte>, o: nat): Option<Item> {
    if CentralOk(b, o) && LocalOk(b, o) then Some(Item(EntryAt(b, o), Next(b, o))) else None
  }

  function ReadEntries(b: seq<Byte>, o: nat, n: nat): Option<seq<Loaded>>
    decreases n
  {
    if n == 0 then Some([])
    else
      var item := ReadEntry(b, o);
      if item.None? then None else Prepend([item.value.entry], ReadEntries(b, item.value.next, n - 1))
  }

  function Prepend(es: seq<Loaded>, rest: Option<seq<Loaded>>): Option<seq<Loaded>> {
    if rest.None? then None else Some(es + rest.value)
  }

  /** The last end record that leaves room for itself and at most 65535 bytes of comment. */
  ghost predicate IsEnd(b: seq<Byte>, o: nat) {
    && |b| - 22 - 65535 <= o <= |b| - 22 && Get32(b, o) == 101010256
    && forall later :: o < later <= |b| - 22 ==> Get32(b, later) != 101010256
  }

  /** The backward search for the end record. */
  method FindEnd(b: seq<Byte>) returns (end: Option<nat>)
    ensures end.Some? ==> IsEnd(b, end.value)
    ensures end.None? ==> forall o :: !IsEnd(b, o)
  {
    var low := if |b| - 22 - 65535 > 0 then |b| - 22 - 65535 else 0;
    var offset: int := |b| - 22;
    while offset >= low
      invariant low - 1 <= offset || |b| < 22
      invariant offset <= |b| - 22 && forall later: nat :: offset < later <= |b| - 22 ==> Get32(b, later) != END
    {
      if Get32(b, offset) == END { return Some(offset); }
      offset := offset - 1;
    }
    return None;
  }

  function Listing(b: seq<Byte>, end: nat): Option<seq<Loaded>>
    requires end + 22 <= |b|
  {
    var central := Get32(b, end + 16);
    if central > |b| then None else ReadEntries(b, central, Get16(b, end + 10))
  }

  /** `parseZip`; `None` stands for the errors it throws. */
  method Parse(b: seq<Byte>) returns (r: Option<seq<Loaded>>)
    ensures forall end :: IsEnd(b, end) ==> r == Listing(b, end)
    ensures r.Some? ==> exists end :: IsEnd(b, end)
  {
    hide ReadEntry, Get16, Get32;
    var end := FindEnd(b);
    if end.None? { return None; }
    OneEnd(b, end.value);
    var count, offset := Get16(b, end.value + 10), Get32(b, end.value + 16) as int;
    if offset > |b| { return None; }
    var entries: seq<Loaded> := [];
    PrependNothing(ReadEntries(b, offset, count));
    for i := 0 to count
      invariant offset >= 0 && Listing(b, end.value) == Prepend(entries, ReadEntries(b, offset, count - i))
    {
      var item := ReadEntry(b, offset);
      if item.None? { return None; }
      PrependMore(entries, item.value.entry, ReadEntries(b, item.value.next, count - i - 1));
      entries, offset := entries + [item.value.entry], item.value.next;
    }
    assert entries + [] == entries;
    return Some(entries);
  }

  lemma OneEnd(b: seq<Byte>, end: nat)
    requires IsEnd(b, end)
    ensures forall o :: IsEnd(b, o) ==> o == end
  {
  }

  lemma PrependNothing(rest: Option<seq<Loaded>>)
    ensures Prepend([], rest) == rest
  {
    assert rest.Some? ==> [] + rest.value == rest.value;
  }

  lemma PrependMore(es: seq<Loaded>, e: Loaded, rest: Option<seq<Loaded>>)
    ensures Prepend(es, Prepend([e], rest)) == Prepend(es + [e], rest)
  {
    assert rest.Some? ==> es + ([e] + rest.value) == es + [e] + rest.value;
  }

  type Inflate = (seq<Byte>, nat) -> Option<seq<Byte>>

  /** The loader of a listed entry; inflating is given the size it must produce. */
  function Load(l: Loaded, inflate: Inflate): Option<seq<Byte>> {
    if l.kind.Directory? then Some([])
    else if l.how == STORE then
      if l.size > MAX_DECOMPRESSED_BYTES || |l.compressed| != l.size || Crc32.Crc(l.compressed) != l.crc then None
      else Some(l.compressed)
    else if l.how == DEFLATE && l.size <= MAX_DECOMPRESSED_BYTES then
      var data := inflate(l.compressed, l.size);
      if data.None? || Crc32.Crc(data.value) != l.crc then None else data
    else None
  }

  // ----- the round trip -----

  /** Text that UTF-8 carries: surrogates are paired, and no byte order mark comes first. */
  ghost predicate Plain(s: Name) { Paired(s) && (s == [] || s[0] != BYTE_ORDER_MARK) }

  /** A file is told from a directory by its name, and by its file-type bits. */
  predicate LooksLike(e: Entry) { e.kind.File? ==> !EndsInSlash(e.name) && e.mode / 4096 != 4 }

  /** What the fields can carry. */
  ghost predicate Fits(e: Entry) {
    && |Encode(WrittenName(e))| < 65536 && Plain(WrittenName(e)) && |Payload(e)| < 4294967295 && e.mode < 65536
    && LooksLike(e)
  }

  function Expected(e: Entry, deflate: Deflate): Loaded {
    var data, how := if e.kind.Directory? then [] else e.data, if e.kind.Directory? then 0 else e.how;
    Loaded(Normalize(e.name), e.kind, |data|, if how == 0 then data else deflate(data), FromDos(ToDos(e.mtime)),
           if e.mode != 0 then e.mode else if e.kind.Directory? then 493 else 420, how, Crc32.Crc(data))
  }

  lemma CentralReads(b: seq<Byte>, o: nat, r: Record, local: nat)
    requires CentralAt(b, o, r, local)
    ensures o + 46 + |r.name| <= |b| && Get32(b, o) == CENTRAL && Get16(b, o + 8) == 0 && Get16(b, o + 10) == r.how
    ensures Get16(b, o + 12) == r.dos.time && Get16(b, o + 14) == r.dos.date && Get32(b, o + 16) == r.crc % 4294967296
    ensures Get32(b, o + 20) == |r.compressed| % 4294967296 && Get32(b, o + 24) == r.size % 4294967296
    ensures Get16(b, o + 28) == |r.name| % 65536 && Get16(b, o + 30) == 0 && Get16(b, o + 32) == 0
    ensures Get32(b, o + 38) / 65536 == r.mode % 65536 && Get32(b, o + 42) == local % 4294967296
    ensures b[o + 46..o + 46 + |r.name|] == r.name
  {
    hide U16, U32, Get16, Get32;
    Read32(b, o, CENTRAL);
    Read16(b, o + 8, 0);
    Read16(b, o + 10, r.how);
    Read16(b, o + 12, r.dos.time);
    Read16(b, o + 14, r.dos.date);
    Read32(b, o + 16, r.crc);
    Read32(b, o + 20, |r.compressed|);
    Read32(b, o + 24, r.size);
    Read16(b, o + 28, |r.name|);
    Read16(b, o + 30, 0);
    Read16(b, o + 32, 0);
    Read32(b, o + 38, r.mode % 65536 * 65536);
    Read32(b, o + 42, local);
  }

  lemma LocalReads(b: seq<Byte>, o: nat, r: Record)
    requires LocalAt(b, o, r)
    ensures o + LocalSize(r) <= |b| && Get32(b, o) == LOCAL && Get16(b, o + 6) == 0 && Get16(b, o + 8) == r.how
    ensures Get32(b, o + 14) == r.crc % 4294967296 && Get32(b, o + 18) == |r.compressed| % 4294967296
    ensures Get32(b, o + 22) == r.size % 4294967296 && Get16(b, o + 26) == |r.name| % 65536 && Get16(b, o + 28) == 0
    ensures b[o + 30..o + 30 + |r.name|] == r.name
    ensures b[o + 30 + |r.name|..o + LocalSize(r)] == r.compressed
  {
    hide U16, U32, Get16, Get32;
    Read32(b, o, LOCAL);
    Read16(b, o + 6, 0);
    Read16(b, o + 8, r.how);
    Read32(b, o + 14, r.crc);
    Read32(b, o + 18, |r.compressed|);
    Read32(b, o + 22, r.size);
    Read16(b, o + 26, |r.name|);
    Read16(b, o + 28, 0);
  }

  /** A record that stands twice in the archive and whose offset is not a ZIP64 mark. */
  ghost predicate Placed(b: seq<Byte>, o: nat, r: Record, local: nat) {
    && CentralAt(b, o, r, local) && LocalAt(b, local, r)
    && |r.compressed| < 4294967295 && local < 4294967295 && r.crc < 4294967296
  }

  /** What is read of a record whose lengths fit. */
  function Back(r: Record): Loaded {
    var name, mode := Decode(r.name), r.mode % 65536;
    var kind := if EndsInSlash(name) || mode / 4096 == 4 then Directory else File;
    Loaded(Normalize(name), kind, r.size, r.compressed, FromDos(r.dos), if mode != 0 then mode else DefaultMode(kind),
           r.how, r.crc)
  }

  lemma ReadBack(b: seq<Byte>, o: nat, r: Record, local: nat)
    requires Placed(b, o, r, local) && |r.name| < 65536 && r.size < 4294967295
    ensures ReadEntry(b, o) == Some(Item(Back(r), o + CentralSize(r)))
  {
    hide LocalAt, CentralAt, Get16, Get32, Normalize, FromDos, LocalOk, Decode;
    CentralReads(b, o, r, local);
    LocalReads(b, local, r);
    LocalAgrees(b, o, r, local);
  }

  lemma LocalAgrees(b: seq<Byte>, o: nat, r: Record, local: nat)
    requires Placed(b, o, r, local) && |r.name| < 65536 && r.size < 4294967295
    ensures CentralOk(b, o) && LocalOk(b, o)
  {
    hide LocalAt, CentralAt, Get16, Get32;
    CentralReads(b, o, r, local);
    LocalReads(b, local, r);
  }

  /** A name that is too long comes back short, and a size that is too large as another one. */
  lemma ReadLess(b: seq<Byte>, o: nat, r: Record, local: nat, text: Name)
    requires Placed(b, o, r, local) && r.name == Encode(text)
    ensures var item := ReadEntry(b, o); item.Some? ==>
              && (|r.name| >= 65536 ==> |item.value.entry.name| + 1 < |text|)
              && (r.size >= 4294967295 ==> item.value.entry.size != r.size)
  {
    hide LocalAt, CentralAt, Get16, Get32, Normalize, FromDos, LocalOk, Decode, Encode, EndsInSlash;
    CentralReads(b, o, r, local);
    SliceOfSlice(b, o + 46, o + 46 + |r.name|, 0, |r.name| % 65536);
    assert r.name[0..|r.name| % 65536] == r.name[..|r.name| % 65536];
    CutName(text);
  }

  lemma CutName(text: Name)
    ensures var b := Encode(text);
            |b| >= 65536 ==> |Normalize(Decode(b[..|b| % 65536]))| + 1 < |text|
  {
    hide Normalize, Decode, Encode, Units;
    var n := |Encode(text)| % 65536;
    var cut := Encode(text)[..n];
    NormalizeShrinks(Decode(cut));
    DecodeIsShorter(cut);
    PrefixUnits(text, n);
  }

  lemma DecodeIsShorter(b: seq<Byte>)
    ensures |Decode(b)| <= |Units(b)|
  {
    hide Take;
    if StartsWithMark(b) {
      var mark := EncodePoint(BYTE_ORDER_MARK);
      assert mark == [239, 187, 191] && b == mark + b[3..];
      TakesPoint(BYTE_ORDER_MARK, b[3..]);
    }
  }

  ghost predicate Normal(e: Entry) { Normalize(e.name) == e.name }

  /** Encoding and decoding a name leaves its last slash, and puts none there. */
  lemma SlashStays(w: Name)
    ensures EndsInSlash(Decode(Encode(w))) <==> EndsInSlash(w)
  {
    hide Decode, Encode, Fixed;
    DecodeEncode(w);
    FixedIs(w);
    if w != [] { FixedIs(w[1..]); }
  }

  lemma PlainComesBack(e: Entry)
    requires Plain(WrittenName(e))
    ensures Normalize(Decode(Encode(WrittenName(e)))) == Normalize(e.name)
  {
    hide Decode, Encode, Fixed, Paired, Normalize;
    DecodeEncodeIff(WrittenName(e));
    NormalizeDropsTrailingSlash(e.name);
  }

  /** A normalized name comes back exactly when UTF-8 carries it. */
  lemma NameComesBack(e: Entry)
    requires Normal(e)
    ensures Normalize(Decode(Encode(WrittenName(e)))) == e.name <==> Plain(WrittenName(e))
  {
    hide Decode, Encode, Fixed, Paired, Normalize;
    var w := WrittenName(e);
    FixedIffPaired(w);
    if Plain(w) {
      PlainComesBack(e);
    } else {
      NormalizedEnd(e.name);
      DecodeEncode(w);
      FixedIs(w);
      if w[0] == BYTE_ORDER_MARK {
        FixedIs(w[1..]);
        Shortened(Fixed(w[1..]), e);
      } else {
        Replaced(Fixed(w), e);
      }
    }
  }

  /** Without its first unit a name does not normalize to itself. */
  lemma Shortened(d: Name, e: Entry)
    requires Normal(e) && e.name != [] && |d| == |WrittenName(e)| - 1 && (e.kind.Directory? ==> EndsInSlash(d))
    requires !EndsInSlash(e.name)
    ensures Normalize(d) != e.name
  {
    hide Normalize;
    NormalizeShrinks(d);
    if e.kind.Directory? {
      var front := d[..|d| - 1];
      assert d == front + [SLASH];
      NormalizeDropsTrailingSlash(front);
      NormalizeShrinks(front);
    }
  }

  /** Nor does it with some unit replaced. */
  lemma Replaced(d: Name, e: Entry)
    requires Normal(e) && !EndsInSlash(e.name)
    requires var w := WrittenName(e); d != w && |d| == |w| && forall i :: 0 <= i < |w| ==>
          d[i] == w[i] || (d[i] == REPLACEMENT && IsSurrogate(w[i]))
    ensures Normalize(d) != e.name
  {
    hide Normalize;
    var w := WrittenName(e);
    var i :| 0 <= i < |w| && d[i] != w[i];
    var front := d[..|e.name|];
    assert e.kind.Directory? ==> d == front + [SLASH];
    assert e.kind.File? ==> d == front;
    NormalizeDropsTrailingSlash(front);
    NormalizeShrinks(front);
    assert front[i] == REPLACEMENT && e.name[i] != REPLACEMENT && e.name[i] != SLASH;
    assert Slashes(front)[i] == REPLACEMENT;
  }

  predicate IsSurrogate(u: Unit) { IsHigh(u) || IsLow(u) }

  /**
   * What is read of an entry is the entry if UTF-8 carries its name and its mode and kind can be told; for a
   * normalized name, only then.
   */
  lemma BackIsExpected(e: Entry, deflate: Deflate)
    ensures var same := Back(RecordOf(e, deflate)) == Expected(e, deflate);
            && (Plain(WrittenName(e)) && e.mode < 65536 && LooksLike(e) ==> same)
            && (Normal(e) && same ==> Plain(WrittenName(e)) && e.mode < 65536 && LooksLike(e))
  {
    hide Normalize, FromDos, ToDos, Crc32.Crc, Decode, Encode, Plain;
    SlashStays(WrittenName(e));
    NormalizedEnd(e.name);
    if Plain(WrittenName(e)) { PlainComesBack(e); }
    if Normal(e) { NameComesBack(e); }
  }

  /** One entry comes back as itself if it fits; with a normalized name, only then. */
  lemma EntryRoundTrip(b: seq<Byte>, o: nat, e: Entry, deflate: Deflate, local: nat)
    requires Placed(b, o, RecordOf(e, deflate), local)
    ensures var item := ReadEntry(b, o);
            && (Fits(e) ==> item == Some(Item(Expected(e, deflate), o + CentralSize(RecordOf(e, deflate)))))
            && (Normal(e) && !Fits(e) && item.Some? ==> item.value.entry != Expected(e, deflate))
  {
    hide ReadEntry, Placed, Back, Normalize, ToDos, FromDos, Crc32.Crc, Encode, Decode, Plain, LooksLike;
    var r := RecordOf(e, deflate);
    ReadLess(b, o, r, local, WrittenName(e));
    BackIsExpected(e, deflate);
    if |r.name| < 65536 && r.size < 4294967295 { ReadBack(b, o, r, local); }
  }

  ghost function ExpectedFrom(es: seq<Entry>, i: nat, deflate: Deflate): seq<Loaded>
    requires i <= |es|
    decreases |es| - i
  {
    if i == |es| then [] else [Expected(es[i], deflate)] + ExpectedFrom(es, i + 1, deflate)
  }

  lemma {:induction false} ExpectedIs(es: seq<Entry>, i: nat, deflate: Deflate)
    requires i <= |es|
    ensures var r := ExpectedFrom(es, i, deflate);
            |r| == |es| - i && forall k :: 0 <= k < |r| ==> r[k] == Expected(es[i + k], deflate)
    decreases |es| - i
  {
    hide Expected;
    if i < |es| {
      ExpectedIs(es, i + 1, deflate);
      var rest := ExpectedFrom(es, i + 1, deflate);
      forall k | 0 < k <= |rest| ensures ([Expected(es[i], deflate)] + rest)[k] == Expected(es[i + k], deflate) {
        assert rest[k - 1] == Expected(es[i + 1 + (k - 1)], deflate);
      }
    }
  }

  /** Local records end below 4 GiB, so that every offset can be stored. */
  ghost predicate InReach(es: seq<Entry>, deflate: Deflate) { LocalStart(Records(es, deflate), |es|) < 4294967296 }

  ghost predicate AllFit(es: seq<Entry>, from: nat) { forall k :: from <= k < |es| ==> Fits(es[k]) }

  /** Names as `Archive` keeps them. */
  ghost predicate AllNormal(es: seq<Entry>) { forall k :: 0 <= k < |es| ==> Normal(es[k]) }

  lemma {:induction false} LocalStartGrows(rs: seq<Record>, i: nat, j: nat)
    requires i < j <= |rs|
    ensures LocalStart(rs, i) + LocalSize(rs[i]) <= LocalStart(rs, j)
    decreases j - i
  {
    hide LocalSize;
    if i + 1 < j { LocalStartGrows(rs, i, j - 1); }
  }

  lemma RecordHasWordCrc(e: Entry, deflate: Deflate)
    ensures RecordOf(e, deflate).crc < 4294967296
  {
    hide Crc32.Crc, ToDos;
    Crc32.CrcIsWord(Payload(e));
  }

  lemma PlacedIn(b: seq<Byte>, es: seq<Entry>, deflate: Deflate, i: nat)
    requires i < |es| && InReach(es, deflate) && IsZip(b, Records(es, deflate))
    ensures Placed(b, CentralOffset(es, deflate, i), RecordOf(es[i], deflate), LocalStart(Records(es, deflate), i))
  {
    hide LocalAt, CentralAt, EndAt, Records, RecordOf, Normal, LocalStart, CentralStart;
    var rs := Records(es, deflate);
    assert rs[i] == RecordOf(es[i], deflate);
    LocalStartGrows(rs, i, |rs|);
    RecordHasWordCrc(es[i], deflate);
  }

  ghost function CentralOffset(es: seq<Entry>, deflate: Deflate, i: nat): nat
    requires i <= |es|
  {
    LocalStart(Records(es, deflate), |es|) + CentralStart(Records(es, deflate), i)
  }

  lemma NextOffset(es: seq<Entry>, deflate: Deflate, i: nat)
    requires i < |es|
    ensures CentralOffset(es, deflate, i + 1) == CentralOffset(es, deflate, i) + CentralSize(RecordOf(es[i], deflate))
  {
    hide Records, RecordOf, LocalStart, CentralSize;
  }

  lemma {:induction false} EntriesRoundTrip(b: seq<Byte>, es: seq<Entry>, deflate: Deflate, i: nat)
    requires i <= |es| && InReach(es, deflate) && IsZip(b, Records(es, deflate))
    ensures var read := ReadEntries(b, CentralOffset(es, deflate, i), |es| - i) == Some(ExpectedFrom(es, i, deflate));
            (AllFit(es, i) ==> read) && (AllNormal(es) && read ==> AllFit(es, i))
    decreases |es| - i
  {
    hide ReadEntry, Placed, Expected, Fits, IsZip, LocalStart, CentralOffset, CentralSize, Records, RecordOf, Normal;
    if i < |es| {
      var o, rest := CentralOffset(es, deflate, i), ExpectedFrom(es, i + 1, deflate);
      PlacedIn(b, es, deflate, i);
      EntryRoundTrip(b, o, es[i], deflate, LocalStart(Records(es, deflate), i));
      NextOffset(es, deflate, i);
      EntriesRoundTrip(b, es, deflate, i + 1);
      var r := ReadEntries(b, CentralOffset(es, deflate, i + 1), |es| - i - 1);
      SameTail(Expected(es[i], deflate), rest, r);
      if Normal(es[i]) && !Fits(es[i]) {
        NotSame(ReadEntry(b, o), Expected(es[i], deflate), rest, b, |es| - i - 1);
      }
    }
  }

  lemma SameTail(first: Loaded, rest: seq<Loaded>, r: Option<seq<Loaded>>)
    ensures Prepend([first], r) == Some([first] + rest) <==> r == Some(rest)
  {
    assert r.Some? ==> ([first] + r.value)[1..] == r.value;
    assert ([first] + rest)[1..] == rest;
  }

  lemma NotSame(item: Option<Item>, first: Loaded, rest: seq<Loaded>, b: seq<Byte>, n: nat)
    requires item.Some? ==> item.value.entry != first
    ensures item.Some? ==> Prepend([item.value.entry], ReadEntries(b, item.value.next, n)) != Some([first] + rest)
  {
    hide ReadEntries;
    if item.Some? {
      var r := ReadEntries(b, item.value.next, n);
      assert r.Some? ==> ([item.value.entry] + r.value)[0] == item.value.entry;
      assert ([first] + rest)[0] == first;
    }
  }

  lemma {:induction false} CountIsRead(b: seq<Byte>, o: nat, n: nat)
    ensures ReadEntries(b, o, n).Some? ==> |ReadEntries(b, o, n).value| == n
    decreases n
  {
    hide ReadEntry;
    if n > 0 && ReadEntry(b, o).Some? { CountIsRead(b, ReadEntry(b, o).value.next, n - 1); }
  }

  lemma EndReads(b: seq<Byte>, o: nat, count: nat, size: nat, central: nat)
    requires EndAt(b, o, count, size, central)
    ensures o + 22 <= |b| && Get32(b, o) == END && Get16(b, o + 10) == count % 65536
        && Get32(b, o + 16) == central % 4294967296
  {
    hide U16, U32, Get16, Get32;
    Read32(b, o, END);
    Read16(b, o + 10, count);
    Read32(b, o + 16, central);
  }

  /** The end record is the one in the last 22 bytes. */
  lemma EndIsLast(b: seq<Byte>, rs: seq<Record>)
    requires IsZip(b, rs)
    ensures |b| >= 22 && IsEnd(b, |b| - 22)
    ensures Get16(b, |b| - 12) == |rs| % 65536 && Get32(b, |b| - 6) == LocalStart(rs, |rs|) % 4294967296
    ensures LocalStart(rs, |rs|) <= |b|
  {
    hide EndAt, LocalStart, CentralStart, Get16, Get32, AllLocals, AllCentrals;
    EndReads(b, |b| - 22, |rs|, CentralStart(rs, |rs|), LocalStart(rs, |rs|));
  }

  lemma ListingRoundTrip(b: seq<Byte>, es: seq<Entry>, deflate: Deflate)
    requires InReach(es, deflate) && IsZip(b, Records(es, deflate))
    ensures |b| >= 22 && IsEnd(b, |b| - 22)
    ensures var read := Listing(b, |b| - 22) == Some(ExpectedFrom(es, 0, deflate));
            && (|es| < 65536 && AllFit(es, 0) ==> read)
            && (AllNormal(es) && read ==> |es| < 65536 && AllFit(es, 0))
  {
    hide IsZip, InReach, AllFit, AllNormal, ReadEntries, ExpectedFrom, Expected, IsEnd, Fits, Records, RecordOf,
        LocalStart, CentralOffset, Listing;
    ListingReads(b, es, deflate);
    FirstOffset(es, deflate);
    EntriesRoundTrip(b, es, deflate, 0);
    CountDecides(b, CentralOffset(es, deflate, 0), es, deflate);
    assert |es| < 65536 ==> |es| % 65536 == |es|;
  }

  lemma ListingReads(b: seq<Byte>, es: seq<Entry>, deflate: Deflate)
    requires InReach(es, deflate) && IsZip(b, Records(es, deflate))
    ensures |b| >= 22 && IsEnd(b, |b| - 22)
    ensures Listing(b, |b| - 22) == ReadEntries(b, LocalStart(Records(es, deflate), |es|), |es| % 65536)
  {
    hide IsZip, ReadEntries, IsEnd, Listing, Records, RecordOf, LocalStart, Normal;
    RecordsListed(b, Records(es, deflate));
  }

  lemma RecordsListed(b: seq<Byte>, rs: seq<Record>)
    requires IsZip(b, rs) && LocalStart(rs, |rs|) < 4294967296
    ensures |b| >= 22 && IsEnd(b, |b| - 22)
    ensures Listing(b, |b| - 22) == ReadEntries(b, LocalStart(rs, |rs|), |rs| % 65536)
  {
    hide IsZip, ReadEntries, IsEnd, Get16, Get32, LocalStart;
    EndIsLast(b, rs);
  }

  lemma CountDecides(b: seq<Byte>, at: nat, es: seq<Entry>, deflate: Deflate)
    ensures ReadEntries(b, at, |es| % 65536) == Some(ExpectedFrom(es, 0, deflate))
        ==> |es| < 65536 && ReadEntries(b, at, |es|) == Some(ExpectedFrom(es, 0, deflate))
  {
    hide ReadEntries, ExpectedFrom, Expected;
    CountIsRead(b, at, |es| % 65536);
    ExpectedIs(es, 0, deflate);
  }

  lemma FirstOffset(es: seq<Entry>, deflate: Deflate)
    ensures CentralOffset(es, deflate, 0) == LocalStart(Records(es, deflate), |es|)
  {
    hide Records, LocalStart;
  }

  /** The loader has bytes for an entry: they are within the limit and the method is known. */
  predicate Loadable(e: Entry) {
    e.kind.Directory? || (|e.data| <= MAX_DECOMPRESSED_BYTES && e.how in {STORE, DEFLATE})
  }

  /** The loader of a listed file yields its bytes exactly then. */
  lemma LoaderReturnsData(e: Entry, deflate: Deflate, inflate: Inflate)
    requires inflate(deflate(e.data), |e.data|) == Some(e.data)
    ensures Load(Expected(e, deflate), inflate) == Some(Payload(e)) <==> Loadable(e)
  {
  }

  /** The loaders of a list yield the bytes of the entries. */
  ghost predicate LoadsBack(ls: seq<Loaded>, es: seq<Entry>, deflate: Deflate, inflate: Inflate) {
    && |ls| == |es|
    && forall i :: 0 <= i < |es| && inflate(deflate(es[i].data), |es[i].data|) == Some(es[i].data) ==>
                     (Load(ls[i], inflate) == Some(Payload(es[i])) <==> Loadable(es[i]))
  }

  lemma ExpectedLoads(es: seq<Entry>, deflate: Deflate, inflate: Inflate)
    ensures LoadsBack(ExpectedFrom(es, 0, deflate), es, deflate, inflate)
  {
    hide ExpectedFrom, Expected, Load;
    ExpectedIs(es, 0, deflate);
    forall i | 0 <= i < |es| && inflate(deflate(es[i].data), |es[i].data|) == Some(es[i].data)
      ensures Load(ExpectedFrom(es, 0, deflate)[i], inflate) == Some(Payload(es[i])) <==> Loadable(es[i])
    {
      LoaderReturnsData(es[i], deflate, inflate);
    }
  }

  /**
   * Writing an archive and listing it returns every entry, in order, if the entries and their number fit. With
   * normalized names it does so only then. The loaders then yield the bytes that were written.
   */
  method RoundTrip(es: seq<Entry>, deflate: Deflate) returns (r: Option<seq<Loaded>>)
    ensures InReach(es, deflate) && |es| < 65536 && AllFit(es, 0) ==>
              && r == Some(ExpectedFrom(es, 0, deflate))
              && forall inflate :: LoadsBack(r.value, es, deflate, inflate)
    ensures InReach(es, deflate) && AllNormal(es) ==>
              (r == Some(ExpectedFrom(es, 0, deflate)) <==> |es| < 65536 && AllFit(es, 0))
  {
    hide IsZip, InReach, ExpectedFrom, IsEnd, AllFit, AllNormal, Listing, Records, LoadsBack;
    var b := Serialize(es, deflate);
    r := Parse(b);
    if InReach(es, deflate) { ListingRoundTrip(b, es, deflate); }
    forall inflate ensures LoadsBack(ExpectedFrom(es, 0, deflate), es, deflate, inflate) {
      ExpectedLoads(es, deflate, inflate);
    }
  }
}
