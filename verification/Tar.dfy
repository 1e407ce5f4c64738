/** The in-memory tar codec of fino:archive: `serializeTar` and `parseTar`. */
module Tar {
  import opened Basics
  import opened Bytes
  import opened Utf8
  import opened ArchivePath
  import Octal

  /** An entry to be written; `mtime` is in seconds, and the clock stands in when it is absent. */
  datatype Entry = Entry(name: Name, kind: Kind, mode: nat, mtime: Option<int>, data: seq<Byte>)

  /** An entry as it is read back. */
  datatype Loaded = Loaded(name: Name, kind: Kind, mode: nat, mtime: Option<nat>, data: seq<Byte>)

  function Payload(e: Entry): seq<Byte> { if e.kind.Directory? then [] else e.data }

  function Flag(e: Entry): Byte { if e.kind.Directory? then 53 else 48 }

  /** The name written: directories get a slash, which normalizing takes away again. */
  function WrittenName(e: Entry): Name {
    Normalize(if e.kind.Directory? && (e.name == [] || e.name[|e.name| - 1] != SLASH) then e.name + [SLASH] else e.name)
  }

  function Seconds(e: Entry, now: int): nat {
    var t := if e.mtime.Some? then e.mtime.value else now;
    if t < 0 then 0 else t
  }

  /** Length rounded up to whole blocks. */
  function Round(n: nat): (r: nat)
    ensures n <= r < n + 512 && r % 512 == 0
  {
    (n + 511) / 512 * 512
  }

  ghost predicate ZeroFrom(s: seq<Byte>, lo: nat, hi: nat)
    requires hi <= |s|
  {
    forall i :: lo <= i < hi ==> s[i] == 0
  }

  /** Sum of the header bytes, with the checksum field read as spaces. */
  function Sum(h: seq<Byte>, n: nat): (r: nat)
    requires n <= |h|
    ensures r <= 255 * n
  {
    if n == 0 then 0 else Sum(h, n - 1) + if 148 <= n - 1 < 156 then 32 else h[n - 1] as int
  }

  lemma {:induction false} SumFrame(h: seq<Byte>, g: seq<Byte>, n: nat)
    requires n <= |h| && n <= |g| && forall i :: 0 <= i < n && !(148 <= i < 156) ==> h[i] == g[i]
    ensures Sum(h, n) == Sum(g, n)
  {
    if n > 0 { SumFrame(h, g, n - 1); }
  }

  const USTAR: seq<Byte> := [117, 115, 116, 97, 114, 0]
  const VERSION: seq<Byte> := [48, 48]

  /** All 512 bytes of the header written for an entry. */
  ghost predicate IsHeader(h: seq<Byte>, name: Name, mode: nat, size: nat, mtime: nat, flag: Byte) {
    && |h| == 512 && |name| <= 100
    && h[..|name|] == LowBytes(name) && ZeroFrom(h, |name|, 100)
    && h[100..108] == Octal.Field(mode, 8)
    && h[108..116] == Octal.Field(0, 8) && h[116..124] == Octal.Field(0, 8)
    && h[124..136] == Octal.Field(size, 12)
    && h[136..148] == Octal.Field(mtime, 12)
    && h[148..156] == Octal.Field(Sum(h, 512), 8)
    && h[156] == flag && ZeroFrom(h, 157, 257)
    && h[257..263] == [117, 115, 116, 97, 114, 0] && h[263..265] == [48, 48] && ZeroFrom(h, 265, 512)
  }

  /** What a byte array keeps of each code unit. */
  function LowBytes(name: Name): (b: seq<Byte>)
    ensures |b| == |name| && forall i :: 0 <= i < |name| ==> b[i] == name[i] % 256
  {
    seq(|name|, i requires 0 <= i < |name| => name[i] % 256)
  }

  function CharAt(text: seq<Unit>, i: nat): Byte { if i < |text| then text[i] % 256 else 0 }

  /** `writeAscii` in place. */
  method WriteAscii(view: array<Byte>, offset: nat, width: nat, text: seq<Unit>)
    requires offset + width <= view.Length
    modifies view
    ensures forall h :: 0 <= h < view.Length ==>
                          view[h] == if offset <= h < offset + width then CharAt(text, h - offset) else old(view[h])
  {
    for i := 0 to width
      invariant forall h :: 0 <= h < view.Length ==>
                              view[h] == if offset <= h < offset + i then CharAt(text, h - offset) else old(view[h])
    {
      view[offset + i] := if i < |text| then text[i] % 256 else 0;
    }
  }

  /** The numeric fields of a header under construction; the checksum field still holds spaces. */
  ghost predicate Numbers(h: seq<Byte>, mode: nat, size: nat, mtime: nat) {
    && |h| == 512
    && h[100..108] == Octal.Field(mode, 8)
    && h[108..116] == Octal.Field(0, 8) && h[116..124] == Octal.Field(0, 8)
    && h[124..136] == Octal.Field(size, 12)
    && h[136..148] == Octal.Field(mtime, 12)
    && forall i :: 148 <= i < 156 ==> h[i] == 32
  }

  lemma NumbersFrame(h: seq<Byte>, g: seq<Byte>, mode: nat, size: nat, mtime: nat)
    requires Numbers(h, mode, size, mtime) && |g| == 512 && g[100..156] == h[100..156]
    ensures Numbers(g, mode, size, mtime)
  {
    forall i | 100 <= i < 156 ensures g[i] == h[i] {
      assert g[100..156][i - 100] == h[100..156][i - 100];
    }
  }

  lemma SameFields(s: seq<Byte>, t: seq<Byte>)
    requires |s| == |t| == 512 && forall k :: 0 <= k < 512 && !(148 <= k < 156) ==> s[k] == t[k]
    ensures s[100..108] == t[100..108] && s[108..116] == t[108..116] && s[116..124] == t[116..124]
    ensures s[124..136] == t[124..136] && s[136..148] == t[136..148]
  {
    SameSlice(s, t, 100, 108);
    SameSlice(s, t, 108, 116);
    SameSlice(s, t, 116, 124);
    SameSlice(s, t, 124, 136);
    SameSlice(s, t, 136, 148);
  }

  method WriteNumbers(header: array<Byte>, mode: nat, size: nat, mtime: nat)
    requires header.Length == 512
    modifies header
    ensures Numbers(header[..], mode, size, mtime)
    ensures forall k :: 0 <= k < 512 && !(100 <= k < 156) ==> header[k] == old(header[k])
  {
    hide Octal.Field;
    Octal.Write(header, 100, 8, mode);
    ghost var s1 := header[..];
    Octal.Write(header, 108, 8, 0);
    ghost var s2 := header[..];
    Octal.Write(header, 116, 8, 0);
    ghost var s3 := header[..];
    Octal.Write(header, 124, 12, size);
    ghost var s4 := header[..];
    Octal.Write(header, 136, 12, mtime);
    ghost var s := header[..];
    SameSlice(s1, s, 100, 108);
    SameSlice(s2, s, 108, 116);
    SameSlice(s3, s, 116, 124);
    SameSlice(s4, s, 124, 136);
    for i := 148 to 156
      invariant forall k :: 148 <= k < i ==> header[k] == 32
      invariant forall k :: 0 <= k < 512 && !(148 <= k < 156) ==> header[k] == s[k]
    {
      header[i] := 32;
    }
    SameFields(s, header[..]);
  }

  /** The header part of one turn of `serializeTar`. */
  method MakeHeader(name: Name, mode: nat, size: nat, mtime: nat, flag: Byte) returns (h: seq<Byte>)
    requires |Encode(name)| <= 100
    ensures IsHeader(h, name, mode, size, mtime, flag)
  {
    hide Octal.Field, Numbers, Encode;
    EncodeLength(name);
    var header := new Byte[512](i => 0);
    WriteAscii(header, 0, |Encode(name)|, name);
    WriteNumbers(header, mode, size, mtime);
    ghost var s := header[..];
    header[156] := flag;
    WriteAscii(header, 257, 6, USTAR);
    WriteAscii(header, 263, 2, VERSION);
    SameSlice(header[..], s, 100, 156);
    NumbersFrame(s, header[..], mode, size, mtime);
    var checksum := SumHeader(header, mode, size, mtime);
    ghost var t := header[..];
    TextsAre(t, name, flag);
    Octal.Write(header, 148, 8, checksum);
    h := header[..];
    Assemble(t, h, name, mode, size, mtime, flag);
  }

  ghost predicate Texts(h: seq<Byte>, name: Name, flag: Byte) {
    && |h| == 512 && |name| <= 100
    && h[..|name|] == LowBytes(name) && ZeroFrom(h, |name|, 100)
    && h[156] == flag && ZeroFrom(h, 157, 257)
    && h[257..263] == USTAR && h[263..265] == VERSION && ZeroFrom(h, 265, 512)
  }

  lemma TextsAre(h: seq<Byte>, name: Name, flag: Byte)
    requires |h| == 512 && |name| <= 100 && h[156] == flag
    requires forall k :: 0 <= k < 100 ==> h[k] == CharAt(name, k)
    requires forall k :: 157 <= k < 257 ==> h[k] == 0
    requires forall k :: 257 <= k < 263 ==> h[k] == CharAt(USTAR, k - 257)
    requires forall k :: 263 <= k < 265 ==> h[k] == CharAt(VERSION, k - 263)
    requires forall k :: 265 <= k < 512 ==> h[k] == 0
    ensures Texts(h, name, flag)
  {
    assert h[257..263] == USTAR && h[263..265] == VERSION;
  }

  lemma Assemble(t: seq<Byte>, h: seq<Byte>, name: Name, mode: nat, size: nat, mtime: nat, flag: Byte)
    requires Numbers(t, mode, size, mtime) && Texts(t, name, flag) && |h| == 512
    requires forall k :: 0 <= k < 512 && !(148 <= k < 156) ==> h[k] == t[k]
    requires h[148..156] == Octal.Field(Sum(t, 512), 8)
    ensures IsHeader(h, name, mode, size, mtime, flag)
  {
    hide Octal.Field, Sum;
    SumFrame(h, t, 512);
    SameSlice(h, t, 0, |name|);
    SameFields(h, t);
    SameSlice(h, t, 257, 263);
    SameSlice(h, t, 263, 265);
  }

  /** The checksum loop, while the checksum field holds spaces. */
  method SumHeader(header: array<Byte>, ghost mode: nat, ghost size: nat, ghost mtime: nat) returns (checksum: nat)
    requires header.Length == 512 && Numbers(header[..], mode, size, mtime)
    ensures checksum == Sum(header[..], 512)
  {
    checksum := 0;
    for i := 0 to 512
      invariant checksum == Sum(header[..], i)
    {
      checksum := checksum + header[i] as int;
    }
  }

  // ----- whole archives -----

  function Size(e: Entry): nat { 512 + Round(|Payload(e)|) }

  /** Where entry `i` starts. */
  function Offset(es: seq<Entry>, i: nat): nat
    requires i <= |es|
  {
    if i == 0 then 0 else Offset(es, i - 1) + Size(es[i - 1])
  }

  ghost predicate PlacedAt(bytes: seq<Byte>, offset: nat, e: Entry, now: int) {
    var p := Payload(e);
    && offset + Size(e) <= |bytes|
    && IsHeader(bytes[offset..offset + 512], WrittenName(e), e.mode, |p|, Seconds(e, now), Flag(e))
    && bytes[offset + 512..offset + 512 + |p|] == p
    && ZeroFrom(bytes, offset + 512 + |p|, offset + Size(e))
  }

  /** The entries one after the other, then two zero blocks. */
  ghost predicate IsTar(bytes: seq<Byte>, es: seq<Entry>, now: int) {
    var end := Offset(es, |es|);
    && |bytes| == end + 1024 && ZeroFrom(bytes, end, |bytes|)
    && AllPlaced(bytes, es, |es|, now)
  }

  ghost predicate AllPlaced(bytes: seq<Byte>, es: seq<Entry>, n: nat, now: int)
    requires n <= |es|
  {
    forall i :: 0 <= i < n ==> PlacedAt(bytes, Offset(es, i), es[i], now)
  }

  lemma AllPlacedAppend(bytes: seq<Byte>, more: seq<Byte>, es: seq<Entry>, n: nat, now: int)
    requires n <= |es| && AllPlaced(bytes, es, n, now)
    ensures AllPlaced(bytes + more, es, n, now)
  {
    hide PlacedAt;
    forall i | 0 <= i < n ensures PlacedAt(bytes + more, Offset(es, i), es[i], now) {
      PlacedAppend(bytes, more, Offset(es, i), es[i], now);
    }
  }

  lemma PlacedAppend(bytes: seq<Byte>, more: seq<Byte>, offset: nat, e: Entry, now: int)
    requires PlacedAt(bytes, offset, e, now)
    ensures PlacedAt(bytes + more, offset, e, now)
  {
    hide IsHeader;
    var p, all := Payload(e), bytes + more;
    assert all[offset..offset + 512] == bytes[offset..offset + 512];
    assert all[offset + 512..offset + 512 + |p|] == bytes[offset + 512..offset + 512 + |p|];
  }

  lemma PlacedLast(out: seq<Byte>, header: seq<Byte>, pad: seq<Byte>, e: Entry, now: int)
    requires IsHeader(header, WrittenName(e), e.mode, |Payload(e)|, Seconds(e, now), Flag(e))
    requires |pad| == Round(|Payload(e)|) - |Payload(e)| && ZeroFrom(pad, 0, |pad|)
    ensures PlacedAt(out + header + Payload(e) + pad, |out|, e, now)
  {
    hide IsHeader, Round;
    var p, all := Payload(e), out + header + Payload(e) + pad;
    assert |header| == 512 by { HeaderLength(header, e, now); }
    assert all[|out|..|out| + 512] == header;
    assert all[|out| + 512..|out| + 512 + |p|] == p;
  }

  lemma HeaderLength(header: seq<Byte>, e: Entry, now: int)
    requires IsHeader(header, WrittenName(e), e.mode, |Payload(e)|, Seconds(e, now), Flag(e))
    ensures |header| == 512
  {
  }

  function ZeroBytes(n: nat): seq<Byte> { seq(n, i => 0) }

  /** `serializeTar`; `None` stands for the error on a name over 100 bytes. */
  method Serialize(es: seq<Entry>, now: int) returns (r: Option<seq<Byte>>)
    ensures r.Some? <==> forall i :: 0 <= i < |es| ==> |Encode(WrittenName(es[i]))| <= 100
    ensures r.Some? ==> IsTar(r.value, es, now)
  {
    hide IsHeader, WrittenName, AllPlaced, Round, Payload, Encode;
    var out: seq<Byte> := [];
    NonePlaced(es, now);
    for i := 0 to |es|
      invariant forall j :: 0 <= j < i ==> |Encode(WrittenName(es[j]))| <= 100
      invariant |out| == Offset(es, i) && AllPlaced(out, es, i, now)
    {
      var e := es[i];
      var name := WrittenName(e);
      if |Encode(name)| > 100 { return None; }
      var header := MakeHeader(name, e.mode, |Payload(e)|, Seconds(e, now), Flag(e));
      HeaderLength(header, e, now);
      var pad := ZeroBytes(Round(|Payload(e)|) - |Payload(e)|);
      PlaceNext(out, header, pad, es, i, now);
      out := out + header + Payload(e) + pad;
    }
    AllPlacedAppend(out, ZeroBytes(1024), es, |es|, now);
    return Some(out + ZeroBytes(1024));
  }

  lemma NonePlaced(es: seq<Entry>, now: int)
    ensures AllPlaced([], es, 0, now)
  {
  }

  lemma PlaceNext(out: seq<Byte>, header: seq<Byte>, pad: seq<Byte>, es: seq<Entry>, i: nat, now: int)
    requires i < |es| && |out| == Offset(es, i) && AllPlaced(out, es, i, now)
    requires IsHeader(header, WrittenName(es[i]), es[i].mode, |Payload(es[i])|, Seconds(es[i], now), Flag(es[i]))
    requires |pad| == Round(|Payload(es[i])|) - |Payload(es[i])| && ZeroFrom(pad, 0, |pad|)
    ensures AllPlaced(out + header + Payload(es[i]) + pad, es, i + 1, now)
  {
    hide PlacedAt, AllPlaced, IsHeader, Round, Payload, WrittenName, Seconds, Flag, Offset, Size, ZeroFrom;
    PlacedLast(out, header, pad, es[i], now);
    AllPlacedAppend(out, header + Payload(es[i]) + pad, es, i, now);
    Reassociate(out, header, Payload(es[i]), pad);
    AllPlacedExtend(out + header + Payload(es[i]) + pad, es, i, now);
  }

  lemma AllPlacedExtend(bytes: seq<Byte>, es: seq<Entry>, i: nat, now: int)
    requires i < |es| && AllPlaced(bytes, es, i, now) && PlacedAt(bytes, Offset(es, i), es[i], now)
    ensures AllPlaced(bytes, es, i + 1, now)
  {
    hide PlacedAt, Offset;
  }

  // ----- reading -----

  /** No line terminator, as `.` in a regular expression understands it. */
  predicate NoNewline(s: Name) { 10 !in s && 13 !in s && 8232 !in s && 8233 !in s }

  /** `replace(/\0.*$/, '')`: cut at the first NUL with no line break after it. */
  function CutNul(s: Name): Name {
    if s == [] || (s[0] == 0 && NoNewline(s)) then [] else [s[0]] + CutNul(s[1..])
  }

  /** What is found at one header position. */
  datatype Chunk = Stop | Bad | Skip(next: nat) | Found(entry: Loaded, next: nat)

  ghost predicate Readable(h: seq<Byte>)
    requires |h| == 512
  {
    && Octal.WellFormed(h[148..156]) && Octal.FieldValue(h[148..156]) == Sum(h, 512)
    && Octal.WellFormed(h[100..108]) && Octal.WellFormed(h[124..136]) && Octal.WellFormed(h[136..148])
    && h[156] !in {55, 76, 103, 120}
  }

  function FullName(h: seq<Byte>): Name
    requires |h| == 512
  {
    var name, prefix := CutNul(Decode(h[..100])), CutNul(Decode(h[345..500]));
    Normalize(if prefix != [] then prefix + [SLASH] + name else name)
  }

  /** One turn of `parseTar`. */
  ghost function ChunkAt(bytes: seq<Byte>, offset: nat): Chunk
    requires offset + 512 <= |bytes|
  {
    var h := bytes[offset..offset + 512];
    if ZeroFrom(h, 0, 512) then Stop
    else if !Readable(h) then Bad
    else
      var mode, size, mtime := Octal.FieldValue(h[100..108]), Octal.FieldValue(h[124..136]),
          Octal.FieldValue(h[136..148]);
      var full, start := FullName(h), offset + 512;
      if h[156] == 49 || h[156] == 50 then Skip(start + Round(size))
      else
        var slash := full != [] && full[|full| - 1] == SLASH;
        var kind := if h[156] == 53 || slash then Directory else File;
        if (kind.File? && size > MAX_DECOMPRESSED_BYTES) || start + size > |bytes| then Bad
        else
          Found(Loaded(if kind.Directory? && slash then full[..|full| - 1] else full, kind,
                       if mode == 0 then DEFAULT_MODE else mode, if mtime > 0 then Some(mtime) else None,
                       bytes[start..start + size]),
                start + Round(size))
  }

  ghost function ParseFrom(bytes: seq<Byte>, offset: nat): Option<seq<Loaded>>
    decreases |bytes| - offset
  {
    if offset + 512 > |bytes| then Some([])
    else
      match ChunkAt(bytes, offset)
      case Stop => Some([])
      case Bad => None
      case Skip(next) => if next <= offset then None else ParseFrom(bytes, next)
      case Found(entry, next) =>
        if next <= offset then None
        else
          var rest := ParseFrom(bytes, next);
          if rest.None? then None else Some([entry] + rest.value)
  }

  /** `isZeroBlock`. */
  method IsZeroBlock(bytes: seq<Byte>, offset: nat) returns (zero: bool)
    requires offset + 512 <= |bytes|
    ensures zero <==> ZeroFrom(bytes[offset..offset + 512], 0, 512)
  {
    for i := 0 to 512
      invariant ZeroFrom(bytes[offset..offset + 512], 0, i)
    {
      if bytes[offset + i] != 0 {
        assert bytes[offset..offset + 512][i] != 0;
        return false;
      }
    }
    return true;
  }

  method SumBlock(bytes: seq<Byte>, offset: nat) returns (checksum: nat)
    requires offset + 512 <= |bytes|
    ensures checksum == Sum(bytes[offset..offset + 512], 512)
  {
    checksum := 0;
    for i := 0 to 512
      invariant checksum == Sum(bytes[offset..offset + 512], i)
    {
      checksum := checksum + if 148 <= i < 156 then 32 else bytes[offset + i] as int;
    }
  }

  method ParseNumber(bytes: seq<Byte>, offset: nat, at: nat, length: nat) returns (r: Option<nat>)
    requires offset + 512 <= |bytes| && at + length <= 512
    ensures r.Some? <==> Octal.WellFormed(bytes[offset..offset + 512][at..at + length])
    ensures r.Some? ==> r.value == Octal.FieldValue(bytes[offset..offset + 512][at..at + length])
  {
    SliceOfSlice(bytes, offset, offset + 512, at, at + length);
    r := Octal.Parse(bytes, offset + at, length);
  }

  method ParseChunk(bytes: seq<Byte>, offset: nat) returns (c: Chunk)
    requires offset + 512 <= |bytes|
    ensures c == ChunkAt(bytes, offset)
  {
    hide Sum, FullName, Octal.WellFormed, Octal.FieldValue, Round;
    var zero := IsZeroBlock(bytes, offset);
    if zero { return Stop; }
    var h := bytes[offset..offset + 512];
    var stored := ParseNumber(bytes, offset, 148, 8);
    var checksum := SumBlock(bytes, offset);
    if stored != Some(checksum) { return Bad; }
    var mode := ParseNumber(bytes, offset, 100, 8);
    var size := ParseNumber(bytes, offset, 124, 12);
    var mtime := ParseNumber(bytes, offset, 136, 12);
    var flag := h[156];
    if mode.None? || size.None? || mtime.None? || flag in {55, 76, 103, 120} { return Bad; }
    var full := FullName(h);
    var dataStart := offset + 512;
    if flag == 49 || flag == 50 { return Skip(dataStart + Round(size.value)); }
    var slash := full != [] && full[|full| - 1] == SLASH;
    var kind := if flag == 53 || slash then Directory else File;
    if kind.File? && size.value > MAX_DECOMPRESSED_BYTES { return Bad; }
    if dataStart + size.value > |bytes| { return Bad; }
    c := Found(Loaded(if kind.Directory? && slash then full[..|full| - 1] else full, kind,
                      if mode.value == 0 then DEFAULT_MODE else mode.value,
                      if mtime.value > 0 then Some(mtime.value) else None,
                      bytes[dataStart..dataStart + size.value]),
               dataStart + Round(size.value));
  }

  lemma NextIsLater(bytes: seq<Byte>, offset: nat)
    requires offset + 512 <= |bytes|
    ensures ChunkAt(bytes, offset).Skip? ==> ChunkAt(bytes, offset).next >= offset + 512
    ensures ChunkAt(bytes, offset).Found? ==> ChunkAt(bytes, offset).next >= offset + 512
  {
    hide Sum, CutNul, Normalize, Octal.WellFormed, Octal.FieldValue, Readable, FullName;
  }

  ghost function Prepend(es: seq<Loaded>, rest: Option<seq<Loaded>>): Option<seq<Loaded>> {
    if rest.None? then None else Some(es + rest.value)
  }

  /** `parseTar`; `None` stands for the errors it throws. */
  method Parse(bytes: seq<Byte>) returns (r: Option<seq<Loaded>>)
    ensures r == ParseFrom(bytes, 0)
  {
    hide ChunkAt;
    var entries: seq<Loaded> := [];
    var offset := 0;
    assert ParseFrom(bytes, 0).Some? ==> [] + ParseFrom(bytes, 0).value == ParseFrom(bytes, 0).value;
    while offset + 512 <= |bytes|
      invariant ParseFrom(bytes, 0) == Prepend(entries, ParseFrom(bytes, offset))
      decreases |bytes| - offset
    {
      var c := ParseChunk(bytes, offset);
      NextIsLater(bytes, offset);
      match c
      case Stop => assert entries + [] == entries; return Some(entries);
      case Bad => return None;
      case Skip(next) => offset := next;
      case Found(entry, next) =>
        ghost var rest := ParseFrom(bytes, next);
        assert rest.Some? ==> entries + ([entry] + rest.value) == entries + [entry] + rest.value;
        entries := entries + [entry];
        offset := next;
    }
    assert entries + [] == entries;
    return Some(entries);
  }

  // ----- the round trip -----

  /** Every NUL in the name has a line break after it. */
  predicate Uncut(name: Name) {
    forall i :: 0 <= i < |name| && name[i] == 0 ==> !NoNewline(name[i..])
  }

  /** Written unit by unit and read as UTF-8, only ASCII comes back, and the replacement character. */
  predicate Portable(name: Name) {
    forall i :: 0 <= i < |name| ==> name[i] < 128 || name[i] == 65533
  }

  /**
   * What the format can carry: a name whose UTF-8 form has up to 100 bytes, that has only portable characters and is
   * read to its end, and numbers that fit their fields.
   */
  ghost predicate Fits(e: Entry, now: int) {
    && |Encode(WrittenName(e))| <= 100 && Portable(WrittenName(e)) && Uncut(WrittenName(e))
    && e.mode < Octal.Pow8(6) && Seconds(e, now) < Octal.Pow8(10)
    && |Payload(e)| <= MAX_DECOMPRESSED_BYTES
  }

  /** What comes back: a zero mode reads as the default, a zero time as none. */
  function Expected(e: Entry, now: int): Loaded {
    var t := if e.mtime.Some? then e.mtime.value else now;
    Loaded(Normalize(e.name), e.kind, if e.mode == 0 then 420 else e.mode, if t > 0 then Some(t) else None,
           if e.kind.Directory? then [] else e.data)
  }

  lemma {:induction false} CutPadded(s: Name, name: Name)
    requires |name| <= |s| && s[..|name|] == name && forall i :: |name| <= i < |s| ==> s[i] == 0
    ensures CutNul(s) == CutNul(name)
  {
    assert NoNewline(s) <==> NoNewline(name) by {
      assert forall i :: 0 <= i < |name| ==> s[i] == name[i];
    }
    if name != [] {
      assert s[0] == name[0] && s[1..][..|name| - 1] == name[1..];
      CutPadded(s[1..], name[1..]);
    }
  }

  lemma {:induction false} CutIsShorter(name: Name)
    ensures |CutNul(name)| <= |name| && (CutNul(name) == name <==> Uncut(name)) && (!Uncut(name) ==>
          |CutNul(name)| < |name|)
  {
    if name != [] {
      var rest := name[1..];
      CutIsShorter(rest);
      assert name == [name[0]] + rest;
      if name[0] == 0 && NoNewline(name) {
        assert name[0..] == name;
      } else if !Uncut(rest) {
        var i :| 0 <= i < |rest| && rest[i] == 0 && NoNewline(rest[i..]);
        assert name[i + 1..] == rest[i..];
      } else {
        forall i | 0 <= i < |name| && name[i] == 0 ensures !NoNewline(name[i..]) {
          if i == 0 { assert name[0..] == name; } else { assert name[i..] == rest[i - 1..]; }
        }
      }
    }
  }

  lemma WrittenIsNormal(e: Entry)
    ensures WrittenName(e) == Normalize(e.name) && Normalize(WrittenName(e)) == WrittenName(e)
  {
    NormalizeDropsTrailingSlash(e.name);
    NormalizeIdempotent(e.name);
  }

  /** The checksum needs at most six octal digits, so it always verifies; the fields are always well formed. */
  lemma HeaderReadable(h: seq<Byte>, name: Name, mode: nat, size: nat, mtime: nat, flag: Byte)
    requires IsHeader(h, name, mode, size, mtime, flag) && flag in {48, 53}
    ensures |h| == 512 && |name| <= 100 && !ZeroFrom(h, 0, 512) && Readable(h) && h[156] == flag
  {
    hide Octal.Field, Octal.WellFormed, Octal.FieldValue;
    Octal.Pow8Values();
    Octal.FieldRoundTrip(mode, 8);
    Octal.FieldRoundTrip(size, 12);
    Octal.FieldRoundTrip(mtime, 12);
    Octal.FieldRoundTrip(Sum(h, 512), 8);
    assert h[156] != 0;
  }

  /** Each number comes back exactly when it fits its field. */
  lemma HeaderNumbers(h: seq<Byte>, name: Name, mode: nat, size: nat, mtime: nat, flag: Byte)
    requires IsHeader(h, name, mode, size, mtime, flag)
    ensures |h| == 512
    ensures Octal.FieldValue(h[100..108]) == mode <==> mode < Octal.Pow8(6)
    ensures Octal.FieldValue(h[124..136]) == size <==> size < Octal.Pow8(10)
    ensures Octal.FieldValue(h[136..148]) == mtime <==> mtime < Octal.Pow8(10)
  {
    hide Octal.Field, Octal.WellFormed, Octal.FieldValue, Octal.Pow8;
    Octal.FieldRoundTrip(mode, 8);
    Octal.FieldRoundTrip(size, 12);
    Octal.FieldRoundTrip(mtime, 12);
  }

  /** The name field decodes to what its bytes decode to, and NULs. */
  lemma DecodeField(b: seq<Byte>, field: seq<Byte>)
    requires |b| <= |field| && field[..|b|] == b && ZeroFrom(field, |b|, |field|)
    ensures Decode(field) == Decode(b) + ZeroUnits(|field| - |b|)
  {
    hide Units;
    var z := field[|b|..];
    assert field == b + z && forall k :: 0 <= k < |z| ==> z[k] == 0;
    UnitsZeros(b, z);
    if StartsWithMark(b) {
      assert field[3..] == b[3..] + z;
      UnitsZeros(b[3..], z);
    }
  }

  lemma FieldName(h: seq<Byte>, name: Name, mode: nat, size: nat, mtime: nat, flag: Byte)
    requires IsHeader(h, name, mode, size, mtime, flag)
    ensures |h| == 512 && FullName(h) == Normalize(CutNul(Decode(LowBytes(name))))
  {
    hide Octal.Field, Normalize, Sum, CutNul, Decode, LowBytes;
    DecodeField(LowBytes(name), h[..100]);
    CutPadded(Decode(h[..100]), Decode(LowBytes(name)));
    DecodeField([], h[345..500]);
    DecodeNothing();
    CutPadded(Decode(h[345..500]), []);
    CutIsShorter([]);
  }

  lemma DecodeNothing()
    ensures Decode([]) == []
  {
  }

  lemma PortableDecodes(name: Name)
    requires Portable(name)
    ensures Decode(LowBytes(name)) == name
  {
    hide Units;
    LonersDecode(LowBytes(name));
    assert Bytewise(LowBytes(name)) == name;
  }

  /** A normalized name comes back exactly when it is portable and read to its end. */
  lemma NameComesBack(name: Name)
    requires Normalize(name) == name
    ensures Normalize(CutNul(Decode(LowBytes(name)))) == name <==> Portable(name) && Uncut(name)
  {
    hide Normalize, CutNul, Decode, Uncut;
    var read := Decode(LowBytes(name));
    CutIsShorter(read);
    NormalizeShrinks(CutNul(read));
    if Portable(name) {
      PortableDecodes(name);
    } else if Normalize(CutNul(read)) == name {
      DecodedBytewise(name);
    }
  }

  /** The name "é" is written as the byte E9, which is no UTF-8, and reads as the replacement character. */
  lemma AccentIsReplaced()
    ensures Normalize([233]) == [233] && Normalize(CutNul(Decode(LowBytes([233])))) == [65533]
  {
    PlainName(233);
    PlainName(REPLACEMENT);
    hide Normalize;
    assert LowBytes([233]) == [233];
    assert Take([233]) == Piece([REPLACEMENT], 1) && [233][1..] == [];
    assert Decode([233]) == [REPLACEMENT] + Units([]) == [REPLACEMENT];
    assert CutNul([REPLACEMENT]) == [REPLACEMENT];
  }

  lemma PlainName(u: Unit)
    requires u !in {SLASH, 92, 46}
    ensures Normalize([u]) == [u]
  {
    assert Slashes([u]) == [u];
    SplitPart([u]);
    assert Keep([[u]]) == [[u]] + Keep([]);
  }

  /** Where nothing gets shorter, decoding went byte by byte, and no byte gives back a unit that is not portable. */
  lemma DecodedBytewise(name: Name)
    requires |Decode(LowBytes(name))| == |name| && Slashes(Decode(LowBytes(name))) == name
    ensures Portable(name)
  {
    hide Units;
    SameLengthIsBytewise(LowBytes(name));
  }

  /** The name of a written header comes back exactly when it is portable and read to its end. */
  lemma HeaderName(h: seq<Byte>, e: Entry, now: int)
    requires IsHeader(h, WrittenName(e), e.mode, |Payload(e)|, Seconds(e, now), Flag(e))
    ensures |h| == 512 && (FullName(h) == Normalize(e.name) <==> Portable(WrittenName(e)) && Uncut(WrittenName(e)))
  {
    hide IsHeader, FullName, Normalize, CutNul, Decode, LowBytes, Uncut, Portable, WrittenName, Seconds;
    FieldName(h, WrittenName(e), e.mode, |Payload(e)|, Seconds(e, now), Flag(e));
    WrittenIsNormal(e);
    NameComesBack(WrittenName(e));
  }

  lemma ChunkRoundTrip(bytes: seq<Byte>, offset: nat, e: Entry, now: int)
    requires Fits(e, now) && PlacedAt(bytes, offset, e, now)
    ensures ChunkAt(bytes, offset) == Found(Expected(e, now), offset + Size(e))
  {
    hide IsHeader, Readable, FullName, Normalize, Octal.FieldValue, Uncut, Portable, Encode, WrittenName;
    var h := bytes[offset..offset + 512];
    HeaderReadable(h, WrittenName(e), e.mode, |Payload(e)|, Seconds(e, now), Flag(e));
    HeaderNumbers(h, WrittenName(e), e.mode, |Payload(e)|, Seconds(e, now), Flag(e));
    Octal.Pow8Values();
    HeaderName(h, e, now);
    NormalizedEnd(e.name);
  }

  /** An entry the format cannot carry is refused or comes back as another one. */
  lemma ChunkMismatch(bytes: seq<Byte>, offset: nat, e: Entry, now: int)
    requires !Fits(e, now) && PlacedAt(bytes, offset, e, now) && |Encode(WrittenName(e))| <= 100
    ensures var c := ChunkAt(bytes, offset); c.Bad? || (c.Found? && c.entry != Expected(e, now))
  {
    hide IsHeader, Readable, FullName, Normalize, Octal.FieldValue, Uncut, Portable, Encode, WrittenName;
    var h := bytes[offset..offset + 512];
    HeaderReadable(h, WrittenName(e), e.mode, |Payload(e)|, Seconds(e, now), Flag(e));
    HeaderNumbers(h, WrittenName(e), e.mode, |Payload(e)|, Seconds(e, now), Flag(e));
    Octal.Pow8Values();
    HeaderName(h, e, now);
    FullNameEnd(h);
    NormalizedEnd(e.name);
  }

  /** The name read is normalized, so it never ends in a slash. */
  lemma FullNameEnd(h: seq<Byte>)
    requires |h| == 512
    ensures FullName(h) != [] ==> FullName(h)[|FullName(h)| - 1] != SLASH
  {
    hide Normalize, CutNul, Decode;
    var name, prefix := CutNul(Decode(h[..100])), CutNul(Decode(h[345..500]));
    NormalizedEnd(if prefix != [] then prefix + [SLASH] + name else name);
  }

  ghost function ExpectedFrom(es: seq<Entry>, i: nat, now: int): seq<Loaded>
    requires i <= |es|
    decreases |es| - i
  {
    if i == |es| then [] else [Expected(es[i], now)] + ExpectedFrom(es, i + 1, now)
  }

  ghost predicate AllFit(es: seq<Entry>, now: int) {
    forall i :: 0 <= i < |es| ==> Fits(es[i], now)
  }

  lemma {:induction false} ArchiveRoundTrip(bytes: seq<Byte>, es: seq<Entry>, now: int, i: nat)
    requires i <= |es| && IsTar(bytes, es, now) && AllFit(es, now)
    ensures ParseFrom(bytes, Offset(es, i)) == Some(ExpectedFrom(es, i, now))
    decreases |es| - i
  {
    hide AllPlaced, Fits, ParseFrom, Expected, Size;
    if i == |es| {
      TrailerStops(bytes, Offset(es, i));
    } else {
      assert Fits(es[i], now);
      EntryRoundTrip(bytes, es, now, i);
      ArchiveRoundTrip(bytes, es, now, i + 1);
    }
  }

  lemma EntryRoundTrip(bytes: seq<Byte>, es: seq<Entry>, now: int, i: nat)
    requires i < |es| && AllPlaced(bytes, es, |es|, now) && Fits(es[i], now)
    ensures ParseFrom(bytes, Offset(es, i)) == Prepend([Expected(es[i], now)], ParseFrom(bytes, Offset(es, i + 1)))
  {
    hide PlacedAt, Fits, ChunkAt, Expected, Size;
    assert PlacedAt(bytes, Offset(es, i), es[i], now);
    ChunkRoundTrip(bytes, Offset(es, i), es[i], now);
    PlacedFits(bytes, Offset(es, i), es[i], now);
  }

  lemma PlacedFits(bytes: seq<Byte>, offset: nat, e: Entry, now: int)
    requires PlacedAt(bytes, offset, e, now)
    ensures offset + 512 <= offset + Size(e) <= |bytes|
  {
  }

  lemma TrailerStops(bytes: seq<Byte>, end: nat)
    requires |bytes| == end + 1024 && ZeroFrom(bytes, end, |bytes|)
    ensures ParseFrom(bytes, end) == Some([])
  {
    assert ZeroFrom(bytes[end..end + 512], 0, 512);
  }

  /** One entry that does not fit spoils everything read from there on, and so the whole. */
  lemma {:induction false} MisfitShows(bytes: seq<Byte>, es: seq<Entry>, now: int, i: nat, bad: nat)
    requires i <= bad < |es| && IsTar(bytes, es, now) && !Fits(es[bad], now)
    requires forall k :: 0 <= k < |es| ==> |Encode(WrittenName(es[k]))| <= 100
    requires forall k :: i <= k < bad ==> Fits(es[k], now)
    ensures ParseFrom(bytes, Offset(es, i)) != Some(ExpectedFrom(es, i, now))
    decreases bad - i
  {
    hide AllPlaced, Fits, ParseFrom, Expected, Size, Encode, WrittenName;
    if i == bad {
      EntryMismatch(bytes, es, now, i);
    } else {
      EntryRoundTrip(bytes, es, now, i);
      MisfitShows(bytes, es, now, i + 1, bad);
      NotAfter(Expected(es[i], now), ExpectedFrom(es, i + 1, now), ParseFrom(bytes, Offset(es, i + 1)));
    }
  }

  lemma EntryMismatch(bytes: seq<Byte>, es: seq<Entry>, now: int, i: nat)
    requires i < |es| && AllPlaced(bytes, es, |es|, now) && !Fits(es[i], now) && |Encode(WrittenName(es[i]))| <= 100
    ensures ParseFrom(bytes, Offset(es, i)) != Some(ExpectedFrom(es, i, now))
  {
    hide PlacedAt, Fits, ChunkAt, Expected, Size, Offset, Encode, WrittenName;
    assert PlacedAt(bytes, Offset(es, i), es[i], now);
    ChunkMismatch(bytes, Offset(es, i), es[i], now);
    PlacedFits(bytes, Offset(es, i), es[i], now);
    assert ExpectedFrom(es, i, now)[0] == Expected(es[i], now);
  }

  lemma NotAfter(first: Loaded, rest: seq<Loaded>, r: Option<seq<Loaded>>)
    requires r != Some(rest)
    ensures Prepend([first], r) != Some([first] + rest)
  {
    assert r.Some? ==> ([first] + r.value)[1..] == r.value;
    assert ([first] + rest)[1..] == rest;
  }

  lemma {:induction false} FirstMisfit(es: seq<Entry>, now: int, n: nat) returns (bad: nat)
    requires n <= |es| && !AllFit(es, now) && forall k :: 0 <= k < n ==> Fits(es[k], now)
    ensures bad < |es| && !Fits(es[bad], now) && forall k :: 0 <= k < bad ==> Fits(es[k], now)
    decreases |es| - n
  {
    hide Fits;
    if n < |es| && Fits(es[n], now) { bad := FirstMisfit(es, now, n + 1); } else { bad := n; }
  }

  /** Writing an archive and reading it back returns every entry, in order, exactly when each one fits. */
  method RoundTrip(es: seq<Entry>, now: int) returns (r: Option<seq<Loaded>>)
    ensures r == Some(ExpectedFrom(es, 0, now)) <==> AllFit(es, now)
  {
    hide IsTar, Expected, ExpectedFrom, Fits, ParseFrom, Encode, WrittenName;
    var bytes := Serialize(es, now);
    if bytes.None? {
      TooLong(es, now);
      return None;
    }
    r := Parse(bytes.value);
    if AllFit(es, now) {
      ArchiveRoundTrip(bytes.value, es, now, 0);
    } else {
      ghost var bad := FirstMisfit(es, now, 0);
      MisfitShows(bytes.value, es, now, 0, bad);
    }
  }

  lemma TooLong(es: seq<Entry>, now: int)
    requires !forall i :: 0 <= i < |es| ==> |Encode(WrittenName(es[i]))| <= 100
    ensures !AllFit(es, now)
  {
    var i :| 0 <= i < |es| && |Encode(WrittenName(es[i]))| > 100;
    assert !Fits(es[i], now);
  }
}
