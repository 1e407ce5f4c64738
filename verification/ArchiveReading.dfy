/** What the archive readers accept, said of the bytes themselves. */
module ArchiveReading {
  import opened Basics
  import opened Bytes
  import opened Utf8
  import opened ArchivePath
  import Crc32
  import Octal
  import Tar
  import Zip

  // ----- names -----

  /** One name below another; either may be missing. */
  ghost function Below(a: Name, b: Name): Name { if a == [] then b else if b == [] then a else a + [47] + b }

  lemma SplitStep(s: Name)
    requires s != []
    ensures var rest := Split(s[1..]);
            Split(s) == if s[0] == SLASH then [[]] + rest else [[s[0]] + rest[0]] + rest[1..]
  {
  }

  lemma {:induction false} SplitBelow(a: Name, b: Name)
    ensures Split(a + [SLASH] + b) == Split(a) + Split(b)
  {
    hide Split;
    var s := a + [SLASH] + b;
    SplitStep(s);
    if a == [] {
      assert s[1..] == b;
      SplitPart([]);
    } else {
      SplitStep(a);
      assert s[0] == a[0] && s[1..] == a[1..] + [SLASH] + b;
      SplitBelow(a[1..], b);
      HeadOfBoth(Split(a[1..]), Split(b), a[0]);
    }
  }

  lemma HeadOfBoth(p: seq<Name>, q: seq<Name>, u: Unit)
    requires p != []
    ensures (p + q)[0] == p[0] && (p + q)[1..] == p[1..] + q
    ensures [[]] + (p + q) == [[]] + p + q
    ensures [[u] + p[0]] + (p[1..] + q) == [[u] + p[0]] + p[1..] + q
  {
  }

  lemma {:induction false} JoinBelow(a: seq<Name>, b: seq<Name>)
    requires Plain(a) && Plain(b)
    ensures Join(a + b) == Below(Join(a), Join(b))
  {
    if a == [] {
      assert a + b == b;
    } else if b == [] {
      assert a + b == a;
    } else {
      JoinIsThere(b);
      JoinIsThere(a);
      assert (a + b)[1..] == a[1..] + b;
      JoinBelow(a[1..], b);
      if |a| > 1 {
        JoinIsThere(a[1..]);
        var x, y, z := a[0], Join(a[1..]), Join(b);
        assert x + [SLASH] + (y + [47] + z) == x + [SLASH] + y + [47] + z;
      }
    }
  }

  lemma JoinIsThere(parts: seq<Name>)
    requires Plain(parts) && parts != []
    ensures Join(parts) != []
  {
    JoinEndsInPart(parts);
  }

  /** Either slash puts one name below the other, and each is normalized by itself. */
  lemma NormalizeBelow(a: Name, slash: Unit, b: Name)
    requires slash in {47, 92}
    ensures Normalize(a + [slash] + b) == Below(Normalize(a), Normalize(b))
  {
    hide Split, Keep, Join;
    assert Slashes(a + [slash] + b) == Slashes(a) + [SLASH] + Slashes(b);
    SplitBelow(Slashes(a), Slashes(b));
    KeepAppend(Split(Slashes(a)), Split(Slashes(b)));
    KeptParts(a);
    KeptParts(b);
    JoinBelow(Keep(Split(Slashes(a))), Keep(Split(Slashes(b))));
  }

  /** A part without a slash stays, unless it is empty or a single dot. */
  lemma NormalizePart(part: Name)
    requires 47 !in part && 92 !in part
    ensures Normalize(part) == if part == [46] then [] else part
  {
    assert Slashes(part) == part;
    SplitPart(part);
    KeepOne(part);
  }

  lemma KeepOne(part: Name)
    ensures Keep([part]) == if part == [] || part == [46] then [] else [part]
  {
    var parts: seq<Name> := [part];
    assert parts[1..] == [] && Keep(parts[1..]) == [];
  }

  // ----- tar -----

  ghost function Weigh(b: seq<Byte>): nat { if b == [] then 0 else b[0] as int + Weigh(b[1..]) }

  lemma {:induction false} WeighMore(b: seq<Byte>, x: Byte)
    ensures Weigh(b + [x]) == Weigh(b) + x as int
  {
    if b == [] {
      assert b + [x] == [x] && [x][1..] == [];
    } else {
      assert (b + [x])[1..] == b[1..] + [x];
      WeighMore(b[1..], x);
    }
  }

  /** The checksum is the weight of the header with eight spaces where the checksum stands. */
  lemma {:induction false} SumIsWeight(h: seq<Byte>, n: nat)
    requires |h| == 512 && n <= 512
    ensures n <= 148 ==> Tar.Sum(h, n) == Weigh(h[..n])
    ensures 148 <= n <= 156 ==> Tar.Sum(h, n) == Weigh(h[..148]) + 32 * (n - 148)
    ensures 156 <= n ==> Tar.Sum(h, n) == Weigh(h[..148]) + 256 + Weigh(h[156..n])
  {
    if n > 0 {
      SumIsWeight(h, n - 1);
      if n <= 148 {
        assert h[..n] == h[..n - 1] + [h[n - 1]];
        WeighMore(h[..n - 1], h[n - 1]);
      } else if n > 156 {
        assert h[156..n] == h[156..n - 1] + [h[n - 1]];
        WeighMore(h[156..n - 1], h[n - 1]);
      } else {
        assert h[156..156] == [];
      }
    }
  }

  /** Octal digits, then NULs and spaces. */
  ghost predicate Number(f: seq<Byte>, digits: nat) {
    && digits <= |f| && (forall i :: 0 <= i < digits ==> 48 <= f[i] <= 55)
    && forall i :: digits <= i < |f| ==> f[i] in {0, 32}
  }

  ghost function Value(f: seq<Byte>, digits: nat): int
    requires digits <= |f|
  {
    if digits == 0 then 0 else 8 * Value(f, digits - 1) + (f[digits - 1] as int - 48)
  }

  /** The field holds `n` in octal. */
  ghost predicate Octals(f: seq<Byte>, n: nat) {
    n <= 9007199254740991 && exists digits: nat :: Number(f, digits) && Value(f, digits) == n
  }

  lemma {:induction false} ReadIsValue(f: seq<Byte>, digits: nat)
    requires digits <= |f| && forall i :: 0 <= i < digits ==> Octal.IsDigit(f[i])
    ensures Octal.Read(f[..digits]) == Value(f, digits)
  {
    if digits > 0 {
      ReadIsValue(f, digits - 1);
      assert f[..digits][..digits - 1] == f[..digits - 1];
    }
  }

  /** A field is read exactly when it is octal digits before NULs and spaces, and as the number they spell. */
  lemma FieldMeans(f: seq<Byte>, n: nat)
    ensures Octals(f, n) <==> Octal.WellFormed(f) && Octal.FieldValue(f) == n
  {
    if Octals(f, n) {
      var digits: nat :| Number(f, digits) && Value(f, digits) == n;
      Octal.DigitsIs(f, digits);
      ReadIsValue(f, digits);
    }
    if Octal.WellFormed(f) && Octal.FieldValue(f) == n {
      ReadIsValue(f, Octal.Digits(f));
      assert Number(f, Octal.Digits(f));
    }
  }

  /** A header that is not refused: its checksum is right, its numbers can be read, and it is no extension. */
  ghost predicate Describes(h: seq<Byte>, mode: nat, size: nat, mtime: nat)
    requires |h| == 512
  {
    && Octals(h[148..156], Weigh(h[..148]) + 256 + Weigh(h[156..]))
    && Octals(h[100..108], mode) && Octals(h[124..136], size) && Octals(h[136..148], mtime)
    && h[156] !in {55, 76, 103, 120}
  }

  lemma ReadableMeans(h: seq<Byte>, mode: nat, size: nat, mtime: nat)
    requires |h| == 512
    ensures Describes(h, mode, size, mtime) <==>
              && Tar.Readable(h) && Octal.FieldValue(h[100..108]) == mode && Octal.FieldValue(h[124..136]) == size
              && Octal.FieldValue(h[136..148]) == mtime
  {
    hide Octals, Octal.WellFormed, Octal.FieldValue, Tar.Sum, Weigh;
    SumIsWeight(h, 512);
    assert h[156..512] == h[156..];
    FieldMeans(h[148..156], Tar.Sum(h, 512));
    FieldMeans(h[100..108], mode);
    FieldMeans(h[124..136], size);
    FieldMeans(h[136..148], mtime);
  }

  /** A non-empty prefix goes in front of the name, and each is normalized. */
  lemma PrefixGoesFirst(h: seq<Byte>)
    requires |h| == 512
    ensures Tar.FullName(h) ==
            Below(Normalize(Tar.CutNul(Decode(h[345..500]))), Normalize(Tar.CutNul(Decode(h[..100]))))
  {
    hide Normalize, Tar.CutNul, Decode;
    var name, prefix := Tar.CutNul(Decode(h[..100])), Tar.CutNul(Decode(h[345..500]));
    NormalizeBelow(prefix, SLASH, name);
    NormalizePart([]);
  }

  /** `d[k..]` is cut off: a NUL with no line terminator after it, or nothing. */
  ghost predicate CutAt(d: Name, k: nat) {
    k == |d| || (k < |d| && d[k] == 0 && forall i :: k <= i < |d| ==> d[i] !in {10, 13, 8232, 8233})
  }

  lemma {:induction false} CutNulMeans(d: Name, k: nat)
    requires CutAt(d, k) && forall j :: 0 <= j < k ==> !CutAt(d, j)
    ensures Tar.CutNul(d) == d[..k]
    decreases k
  {
    assert CutAt(d, 0) <==> d == [] || (d[0] == 0 && Tar.NoNewline(d));
    if k > 0 {
      assert forall j :: 0 <= j < k ==> (CutAt(d[1..], j) <==> CutAt(d, j + 1));
      CutNulMeans(d[1..], k - 1);
      assert d[..k] == [d[0]] + d[1..][..k - 1];
    }
  }

  /** The next header stands on the next block after `size` bytes of data. */
  ghost predicate BlockAfter(offset: nat, size: nat, next: nat) {
    offset + 512 + size <= next < offset + 1024 + size && (next - offset) % 512 == 0
  }

  /** What is found at a header that is not refused. */
  ghost predicate Finds(bytes: seq<Byte>, offset: nat, mode: nat, size: nat, mtime: nat, c: Tar.Chunk)
    requires offset + 512 <= |bytes|
  {
    var h := bytes[offset..offset + 512];
    if h[156] in {49, 50} then c.Skip? && BlockAfter(offset, size, c.next)
    else if (h[156] != 53 && size > 536870912) || offset + 512 + size > |bytes| then c.Bad?
    else
      && c.Found? && BlockAfter(offset, size, c.next)
      && c.entry.name == Below(Normalize(Tar.CutNul(Decode(h[345..500]))), Normalize(Tar.CutNul(Decode(h[..100]))))
      && (c.entry.kind.Directory? <==> h[156] == 53)
      && c.entry.mode == (if mode == 0 then 420 else mode)
      && c.entry.mtime == (if mtime == 0 then None else Some(mtime))
      && c.entry.data == bytes[offset + 512..offset + 512 + size]
  }

  /**
   * One header: a zero block ends the archive, a header that describes nothing is an error, links are passed over,
   * and anything else is an entry, a directory exactly by its type flag.
   */
  lemma ChunkMeans(bytes: seq<Byte>, offset: nat)
    requires offset + 512 <= |bytes|
    ensures var h, c := bytes[offset..offset + 512], Tar.ChunkAt(bytes, offset);
            if forall i :: 0 <= i < 512 ==> h[i] == 0 then c.Stop?
            else if forall mode, size, mtime :: !Describes(h, mode, size, mtime) then c.Bad?
            else forall mode, size, mtime :: Describes(h, mode, size, mtime) ==>
                                               Finds(bytes, offset, mode, size, mtime, c)
  {
    hide Describes, Finds, Tar.Readable, Tar.FullName, Octal.FieldValue;
    var h, c := bytes[offset..offset + 512], Tar.ChunkAt(bytes, offset);
    forall mode, size, mtime ensures Describes(h, mode, size, mtime) ==> Tar.Readable(h) {
      ReadableMeans(h, mode, size, mtime);
    }
    if Tar.Readable(h) && !Tar.ZeroFrom(h, 0, 512) {
      var m, s, t := Octal.FieldValue(h[100..108]), Octal.FieldValue(h[124..136]), Octal.FieldValue(h[136..148]);
      ReadableMeans(h, m, s, t);
      FoundMeans(bytes, offset);
      forall mode, size, mtime | Describes(h, mode, size, mtime) ensures mode == m && size == s && mtime == t {
        ReadableMeans(h, mode, size, mtime);
      }
    }
  }

  lemma FoundMeans(bytes: seq<Byte>, offset: nat)
    requires offset + 512 <= |bytes|
    requires var h := bytes[offset..offset + 512]; Tar.Readable(h) && !Tar.ZeroFrom(h, 0, 512)
    ensures var h := bytes[offset..offset + 512];
            Finds(bytes, offset, Octal.FieldValue(h[100..108]), Octal.FieldValue(h[124..136]),
                  Octal.FieldValue(h[136..148]), Tar.ChunkAt(bytes, offset))
  {
    hide Tar.Readable, Tar.FullName, Octal.FieldValue, Normalize, Tar.CutNul, Decode, Below, Tar.ZeroFrom, Tar.Round;
    var h := bytes[offset..offset + 512];
    PrefixGoesFirst(h);
    Tar.FullNameEnd(h);
  }

  // ----- zip -----

  /** A little-endian number. */
  ghost function Little(b: seq<Byte>): nat { if b == [] then 0 else b[0] as int + 256 * Little(b[1..]) }

  lemma {:induction false} LittleInjective(a: seq<Byte>, b: seq<Byte>)
    requires |a| == |b| && Little(a) == Little(b)
    ensures a == b
  {
    if a != [] {
      LittleInjective(a[1..], b[1..]);
      assert a == [a[0]] + a[1..] && b == [b[0]] + b[1..];
    }
  }

  lemma LittlePair(w: seq<Byte>)
    requires |w| == 2
    ensures Little(w) == w[0] as int + 256 * w[1] as int
  {
    assert Little(w[1..]) == w[1] as int + 256 * Little(w[1..][1..]);
    assert w[1..][1..] == [];
  }

  lemma Get16Means(b: seq<Byte>, at: nat)
    requires at + 2 <= |b|
    ensures Zip.Get16(b, at) == Little(b[at..at + 2])
  {
    LittlePair(b[at..at + 2]);
  }

  lemma Get32Means(b: seq<Byte>, at: nat)
    requires at + 4 <= |b|
    ensures Zip.Get32(b, at) == Little(b[at..at + 4])
  {
    hide Zip.Get16;
    Get16Means(b, at);
    Get16Means(b, at + 2);
    LittleParts(b, at);
  }

  lemma LittleParts(b: seq<Byte>, at: nat)
    requires at + 4 <= |b|
    ensures Little(b[at..at + 4]) == Little(b[at..at + 2]) + 65536 * Little(b[at + 2..at + 4])
  {
    var w, x, y := b[at..at + 4], b[at..at + 2], b[at + 2..at + 4];
    assert w[0] == x[0] && w[1] == x[1] && w[1..][1..] == y;
    assert Little(w[1..]) == w[1] as int + 256 * Little(y);
    LittlePair(x);
  }

  lemma Is32(b: seq<Byte>, at: nat, w: seq<Byte>)
    requires at + 4 <= |b| && |w| == 4
    ensures Zip.Get32(b, at) == Little(w) <==> b[at..at + 4] == w
  {
    hide Zip.Get32, Little;
    Get32Means(b, at);
    if Zip.Get32(b, at) == Little(w) { LittleInjective(b[at..at + 4], w); }
  }

  /** The number in two bytes of the archive, or in four. */
  ghost function Field16(b: seq<Byte>, at: nat): nat
    requires at + 2 <= |b|
  {
    Little(b[at..at + 2])
  }

  ghost function Field32(b: seq<Byte>, at: nat): nat
    requires at + 4 <= |b|
  {
    Little(b[at..at + 4])
  }

  const FULL: seq<Byte> := [255, 255, 255, 255]

  /** The same `n` bytes stand at `i` and at `j`. */
  ghost predicate SameAt(b: seq<Byte>, i: nat, j: nat, n: nat)
    requires i + n <= |b| && j + n <= |b|
  {
    b[i..i + n] == b[j..j + n]
  }

  /** A central directory header: its signature, no data descriptor, no ZIP64 mark, and all of it there. */
  ghost predicate Central(b: seq<Byte>, o: nat) {
    && o + 46 <= |b| && b[o..o + 4] == [80, 75, 1, 2] && b[o + 8] / 8 % 2 == 0
    && b[o + 20..o + 24] != FULL && b[o + 24..o + 28] != FULL && b[o + 42..o + 46] != FULL
    && o + 46 + Field16(b, o + 28) + Field16(b, o + 30) + Field16(b, o + 32) <= |b|
  }

  /** Its local header: flags and method, then check sum, sizes and name length, then the name, are the same bytes. */
  ghost predicate Repeated(b: seq<Byte>, o: nat)
    requires Central(b, o)
  {
    var local, name, size := Field32(b, o + 42), Field16(b, o + 28), Field32(b, o + 20);
    && local + 30 <= |b| && b[local..local + 4] == [80, 75, 3, 4]
    && SameAt(b, local + 6, o + 8, 4) && SameAt(b, local + 14, o + 16, 14)
    && local + 30 + name + Field16(b, local + 28) + size <= |b| && SameAt(b, local + 30, o + 46, name)
  }

  lemma CentralMeans(b: seq<Byte>, o: nat)
    ensures Central(b, o) <==> Zip.CentralOk(b, o)
  {
    hide Zip.Get32, Zip.Get16, Little;
    if o + 46 <= |b| {
      Signatures();
      Is32(b, o, [80, 75, 1, 2]);
      Is32(b, o + 20, FULL);
      Is32(b, o + 24, FULL);
      Is32(b, o + 42, FULL);
      Get16Means(b, o + 28);
      Get16Means(b, o + 30);
      Get16Means(b, o + 32);
      Bit3(b, o + 8);
    }
  }

  lemma Signatures()
    ensures Little([80, 75, 1, 2]) == Zip.CENTRAL && Little([80, 75, 3, 4]) == Zip.LOCAL
    ensures Little(FULL) == 4294967295
  {
    LittleFour([80, 75, 1, 2]);
    LittleFour([80, 75, 3, 4]);
    LittleFour(FULL);
  }

  lemma LittleFour(w: seq<Byte>)
    requires |w| == 4
    ensures Little(w) == w[0] as int + 256 * w[1] as int + 65536 * w[2] as int + 16777216 * w[3] as int
  {
    LittleParts(w, 0);
    assert w[0..4] == w;
    LittlePair(w[0..2]);
    LittlePair(w[2..4]);
  }

  lemma Bit3(b: seq<Byte>, at: nat)
    requires at + 2 <= |b|
    ensures Zip.Deferred(Zip.Get16(b, at)) <==> b[at] / 8 % 2 == 1
  {
    var x, y := b[at] as int, b[at + 1] as int;
    assert (x + 256 * y) / 8 == x / 8 + 32 * y;
  }

  lemma Same16(b: seq<Byte>, i: nat, j: nat)
    requires i + 2 <= |b| && j + 2 <= |b|
    ensures Zip.Get16(b, i) == Zip.Get16(b, j) <==> SameAt(b, i, j, 2)
  {
    hide Zip.Get16, Little;
    Get16Means(b, i);
    Get16Means(b, j);
    if Zip.Get16(b, i) == Zip.Get16(b, j) { LittleInjective(b[i..i + 2], b[j..j + 2]); }
  }

  lemma Same32(b: seq<Byte>, i: nat, j: nat)
    requires i + 4 <= |b| && j + 4 <= |b|
    ensures Zip.Get32(b, i) == Zip.Get32(b, j) <==> SameAt(b, i, j, 4)
  {
    hide Zip.Get32, Little;
    Get32Means(b, i);
    Get32Means(b, j);
    if Zip.Get32(b, i) == Zip.Get32(b, j) { LittleInjective(b[i..i + 4], b[j..j + 4]); }
  }

  /** Two neighbouring stretches are the same as two others exactly when they are the same together. */
  lemma Neighbours(b: seq<Byte>, i: nat, j: nat, m: nat, n: nat)
    requires i + m + n <= |b| && j + m + n <= |b|
    ensures SameAt(b, i, j, m + n) <==> SameAt(b, i, j, m) && SameAt(b, i + m, j + m, n)
  {
    var x, y := b[i..i + m + n], b[j..j + m + n];
    assert x == b[i..i + m] + b[i + m..i + m + n] && y == b[j..j + m] + b[j + m..j + m + n];
    assert x[..m] == b[i..i + m] && y[..m] == b[j..j + m];
    assert x[m..] == b[i + m..i + m + n] && y[m..] == b[j + m..j + m + n];
  }

  lemma RepeatedMeans(b: seq<Byte>, o: nat)
    requires Central(b, o) && Zip.CentralOk(b, o)
    ensures Repeated(b, o) <==> Zip.LocalOk(b, o)
  {
    hide Zip.Get32, Zip.Get16, Little, Central, Zip.CentralOk;
    assert o + 46 <= |b| by { CentralFits(b, o); }
    Get32Means(b, o + 42);
    Get32Means(b, o + 20);
    Get16Means(b, o + 28);
    var local := Zip.Get32(b, o + 42) as int;
    if local + 30 <= |b| {
      Signatures();
      Is32(b, local, [80, 75, 3, 4]);
      Get16Means(b, local + 26);
      Get16Means(b, local + 28);
      SameFlags(b, local, o);
      SameSizes(b, local, o);
      NotDeferred(b, local, o);
    }
  }

  lemma CentralFits(b: seq<Byte>, o: nat)
    requires Central(b, o)
    ensures o + 46 <= |b|
  {
  }

  lemma SameFlags(b: seq<Byte>, local: nat, o: nat)
    requires local + 30 <= |b| && o + 46 <= |b|
    ensures SameAt(b, local + 6, o + 8, 4) <==>
              Zip.Get16(b, local + 6) == Zip.Get16(b, o + 8) && Zip.Get16(b, local + 8) == Zip.Get16(b, o + 10)
  {
    hide Zip.Get16, SameAt;
    Neighbours(b, local + 6, o + 8, 2, 2);
    Same16(b, local + 6, o + 8);
    Same16(b, local + 8, o + 10);
  }

  lemma SameSizes(b: seq<Byte>, local: nat, o: nat)
    requires local + 30 <= |b| && o + 46 <= |b|
    ensures SameAt(b, local + 14, o + 16, 14) <==>
              && Zip.Get32(b, local + 14) == Zip.Get32(b, o + 16) && Zip.Get32(b, local + 18) == Zip.Get32(b, o + 20)
              && Zip.Get32(b, local + 22) == Zip.Get32(b, o + 24) && Zip.Get16(b, local + 26) == Zip.Get16(b, o + 28)
  {
    hide Zip.Get16, Zip.Get32, SameAt;
    Neighbours(b, local + 14, o + 16, 4, 10);
    Neighbours(b, local + 18, o + 20, 4, 6);
    Neighbours(b, local + 22, o + 24, 4, 2);
    Same32(b, local + 14, o + 16);
    Same32(b, local + 18, o + 20);
    Same32(b, local + 22, o + 24);
    Same16(b, local + 26, o + 28);
  }

  lemma NotDeferred(b: seq<Byte>, local: nat, o: nat)
    requires local + 30 <= |b| && o + 46 <= |b| && Central(b, o)
    ensures Zip.Get16(b, local + 6) == Zip.Get16(b, o + 8) ==> !Zip.Deferred(Zip.Get16(b, local + 6))
  {
    hide Zip.Get16, Zip.Deferred;
    Bit3(b, o + 8);
  }

  /** The mode bits are the upper half of the external attributes. */
  lemma UpperHalf(b: seq<Byte>, at: nat)
    requires at + 4 <= |b|
    ensures Zip.Get32(b, at) / 65536 == Field16(b, at + 2)
  {
    hide Zip.Get16;
    Get16Means(b, at + 2);
  }

  /** An entry is listed exactly when its header stands there and its local header repeats it. */
  lemma EntryIsListed(b: seq<Byte>, o: nat)
    ensures Zip.ReadEntry(b, o).Some? <==> Central(b, o) && Repeated(b, o)
  {
    hide Central, Repeated, Zip.CentralOk, Zip.LocalOk, Zip.EntryAt, Zip.Next;
    CentralMeans(b, o);
    if Central(b, o) { RepeatedMeans(b, o); }
  }

  lemma CentralFields(b: seq<Byte>, o: nat)
    requires o + 46 <= |b|
    ensures Zip.Get16(b, o + 10) == Field16(b, o + 10) && Zip.Get16(b, o + 12) == Field16(b, o + 12)
    ensures Zip.Get16(b, o + 14) == Field16(b, o + 14) && Zip.Get32(b, o + 16) == Field32(b, o + 16)
    ensures Zip.Get32(b, o + 20) == Field32(b, o + 20) && Zip.Get32(b, o + 24) == Field32(b, o + 24)
    ensures Zip.Get16(b, o + 28) == Field16(b, o + 28) && Zip.Get16(b, o + 30) == Field16(b, o + 30)
    ensures Zip.Get16(b, o + 32) == Field16(b, o + 32) && Zip.Get32(b, o + 38) / 65536 == Field16(b, o + 40)
    ensures Zip.Get32(b, o + 42) == Field32(b, o + 42)
  {
    hide Zip.Get16, Zip.Get32, Little;
    Get16Means(b, o + 10);
    Get16Means(b, o + 12);
    Get16Means(b, o + 14);
    Get32Means(b, o + 16);
    Get32Means(b, o + 20);
    Get32Means(b, o + 24);
    Get16Means(b, o + 28);
    Get16Means(b, o + 30);
    Get16Means(b, o + 32);
    UpperHalf(b, o + 38);
    Get32Means(b, o + 42);
  }

  /** A listed entry is made of those bytes; it is a directory by its name or by its mode. */
  lemma EntryMeans(b: seq<Byte>, o: nat)
    requires Central(b, o) && Repeated(b, o)
    ensures Zip.ReadEntry(b, o).Some?
    ensures var item := Zip.ReadEntry(b, o).value;
            var e, length, local := item.entry, Field16(b, o + 28), Field32(b, o + 42);
            var name, mode := Decode(b[o + 46..o + 46 + length]), Field16(b, o + 40);
            var start := local + 30 + length + Field16(b, local + 28);
            && item.next == o + 46 + length + Field16(b, o + 30) + Field16(b, o + 32)
            && e.name == Normalize(name) && e.size == Field32(b, o + 24) && e.crc == Field32(b, o + 16)
            && e.how == Field16(b, o + 10) && e.compressed == b[start..start + Field32(b, o + 20)]
            && (e.kind.Directory? <==> (name != [] && name[|name| - 1] == 47) || 16384 <= mode < 20480)
            && e.mode == (if mode != 0 then mode else if e.kind.Directory? then 493 else 420)
            && e.mtime == Zip.FromDos(Zip.Dos(Zip.Get16(b, o + 12), Zip.Get16(b, o + 14)))
  {
    hide Zip.Get32, Zip.Get16, Little, Zip.CentralOk, Normalize, Decode, Zip.FromDos, SameAt;
    EntryIsListed(b, o);
    CentralFields(b, o);
    Get16Means(b, Field32(b, o + 42) + 28);
    Get16Means(b, Field32(b, o + 42) + 26);
  }

  /** What the loader of an entry yields: nothing of a directory, and of a file only bytes with the stored check sum. */
  lemma LoadMeans(l: Zip.Loaded, inflate: Zip.Inflate, data: seq<Byte>)
    ensures Zip.Load(l, inflate) == Some(data) <==>
              if l.kind.Directory? then data == []
              else
                && l.size <= 536870912 && Crc32.Crc(data) == l.crc
                && ((l.how == 0 && data == l.compressed && |data| == l.size)
                    || (l.how == 8 && inflate(l.compressed, l.size) == Some(data)))
  {
    hide Crc32.Crc;
  }
}
