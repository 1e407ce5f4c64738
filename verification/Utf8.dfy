/** UTF-8 as TextEncoder writes it and TextDecoder reads it (section 8.1 of the WHATWG Encoding Standard). */
module Utf8 {
  import opened Bytes

  /** A UTF-16 code unit, as `charCodeAt` returns it. */
  type Unit = u: int | 0 <= u < 65536

  const REPLACEMENT: Unit := 65533
  const BYTE_ORDER_MARK: Unit := 65279

  predicate IsHigh(u: Unit) { 55296 <= u < 56320 }

  predicate IsLow(u: Unit) { 56320 <= u < 57344 }

  // ----- encoding -----

  /** The text starts with a surrogate pair. */
  predicate StartsWithPair(s: seq<Unit>) { |s| >= 2 && IsHigh(s[0]) && IsLow(s[1]) }

  /** How many units the first code point takes. */
  function Width(s: seq<Unit>): (n: nat)
    requires s != []
    ensures 1 <= n <= |s| && n <= 2
  {
    if StartsWithPair(s) then 2 else 1
  }

  /** A code point that UTF-8 has a form for. */
  predicate Scalar(cp: nat) { cp < 1114112 && !(55296 <= cp < 57344) }

  /** The first code point; a surrogate on its own is replaced. */
  function CodePoint(s: seq<Unit>): (cp: nat)
    requires s != []
    ensures Scalar(cp)
  {
    if StartsWithPair(s) then 65536 + (s[0] - 55296) * 1024 + (s[1] - 56320)
    else if IsHigh(s[0]) || IsLow(s[0]) then REPLACEMENT
    else s[0]
  }

  function EncodePoint(cp: nat): (b: seq<Byte>)
    requires Scalar(cp)
    ensures 1 <= |b| <= 4
  {
    if cp < 128 then [cp]
    else if cp < 2048 then [192 + cp / 64, 128 + cp % 64]
    else if cp < 65536 then [224 + cp / 4096, 128 + cp / 64 % 64, 128 + cp % 64]
    else [240 + cp / 262144, 128 + cp / 4096 % 64, 128 + cp / 64 % 64, 128 + cp % 64]
  }

  function Encode(s: seq<Unit>): seq<Byte> {
    if s == [] then [] else EncodePoint(CodePoint(s)) + Encode(s[Width(s)..])
  }

  // ----- decoding -----

  /** The units of a code point. */
  function UnitsOf(cp: nat): (u: seq<Unit>)
    requires cp < 1114112
    ensures |u| == if cp < 65536 then 1 else 2
  {
    if cp < 65536 then [cp] else [55296 + (cp - 65536) / 1024, 56320 + (cp - 65536) % 1024]
  }

  /** How many bytes must follow a lead byte; none for a byte that leads nothing. */
  function Need(lead: Byte): (n: nat)
    ensures n <= 3
  {
    if 194 <= lead <= 223 then 1 else if 224 <= lead <= 239 then 2 else if 240 <= lead <= 244 then 3 else 0
  }

  /** May `b` be byte number `i` after the lead? Over-long forms, surrogates and values too large are out. */
  predicate Continues(lead: Byte, i: nat, b: Byte) {
    if i != 1 then 128 <= b <= 191
    else (if lead == 224 then 160 else if lead == 240 then 144 else 128) <= b
      <= (if lead == 237 then 159 else if lead == 244 then 143 else 191)
  }

  /** How many of the bytes from number `i` to `need` follow the lead. */
  function Follow(b: seq<Byte>, i: nat, need: nat): (k: nat)
    requires b != [] && 1 <= i <= need + 1
    ensures i - 1 <= k <= need && (k >= i ==> k < |b|)
    decreases need + 1 - i
  {
    if i <= need && i < |b| && Continues(b[0], i, b[i]) then Follow(b, i + 1, need) else i - 1
  }

  datatype Piece = Piece(units: seq<Unit>, used: nat)

  function Value(b: seq<Byte>, need: nat): (cp: nat)
    requires 1 <= need <= 3 && need < |b| && need == Need(b[0]) && Follow(b, 1, need) == need
  {
    FollowIs(b, 1, need);
    var lead: int, x: int := b[0] as int, b[1] as int - 128;
    if need == 1 then (lead - 192) * 64 + x
    else
      var y: int := b[2] as int - 128;
      if need == 2 then (lead - 224) * 4096 + x * 64 + y
      else
        var z: int := b[3] as int - 128;
        (lead - 240) * 262144 + x * 4096 + y * 64 + z
  }

  lemma {:induction false} FollowIs(b: seq<Byte>, i: nat, need: nat)
    requires b != [] && 1 <= i <= need + 1 && need < |b|
    ensures Follow(b, i, need) == need <==> forall k :: i <= k <= need ==> Continues(b[0], k, b[k])
    decreases need + 1 - i
  {
    if i <= need { FollowIs(b, i + 1, need); }
  }

  /** What the decoder makes of the bytes up to the next boundary. */
  function Take(b: seq<Byte>): (p: Piece)
    requires b != []
    ensures 1 <= p.used <= |b| && |p.units| <= p.used
    ensures |p.units| == p.used ==> p.used == 1 && p.units == [if b[0] < 128 then b[0] else REPLACEMENT]
  {
    if b[0] < 128 then Piece([b[0]], 1)
    else
      var need := Need(b[0]);
      var k := Follow(b, 1, need);
      if need > 0 && k == need then
        ValueInRange(b, need);
        Piece(UnitsOf(Value(b, need)), need + 1)
      else Piece([REPLACEMENT], k + 1)
  }

  lemma ValueInRange(b: seq<Byte>, need: nat)
    requires 1 <= need <= 3 && need < |b| && need == Need(b[0]) && Follow(b, 1, need) == need
    ensures Scalar(Value(b, need)) && (Value(b, need) >= 65536 <==> need == 3)
  {
    FollowIs(b, 1, need);
    assert Continues(b[0], 1, b[1]);
  }

  /** The units the bytes decode to, with the mark at the start still there. */
  function Units(b: seq<Byte>): (s: seq<Unit>)
    ensures |s| <= |b|
  {
    if b == [] then [] else Take(b).units + Units(b[Take(b).used..])
  }

  predicate StartsWithMark(b: seq<Byte>) { |b| >= 3 && b[0] == 239 && b[1] == 187 && b[2] == 191 }

  /** `TextDecoder.decode`: a byte order mark at the start is dropped. */
  function Decode(b: seq<Byte>): (s: seq<Unit>)
    ensures |s| <= |b|
  {
    if StartsWithMark(b) then Units(b[3..]) else Units(b)
  }

  // ----- what is encoded is decoded -----

  /** The text with every surrogate on its own replaced. */
  function Fixed(s: seq<Unit>): seq<Unit> {
    if s == [] then [] else UnitsOf(CodePoint(s)) + Fixed(s[Width(s)..])
  }

  lemma TakesPoint(cp: nat, rest: seq<Byte>)
    requires Scalar(cp)
    ensures Take(EncodePoint(cp) + rest) == Piece(UnitsOf(cp), |EncodePoint(cp)|)
  {
    var e := EncodePoint(cp);
    var b := e + rest;
    if cp >= 128 {
      var need := |e| - 1;
      assert need == Need(b[0]) && forall k :: 0 <= k <= need ==> b[k] == e[k];
      Continued(cp);
      FollowIs(b, 1, need);
      ValueOfPoint(cp, b);
    }
  }

  lemma Continued(cp: nat)
    requires Scalar(cp) && cp >= 128
    ensures var e := EncodePoint(cp); |e| == Need(e[0]) + 1 && forall k :: 1 <= k < |e| ==> Continues(e[0], k, e[k])
  {
    hide Continues;
    var e := EncodePoint(cp);
    if cp < 2048 {
      TwoBytes(cp);
    } else if cp < 65536 {
      ThreeBytes(cp);
    } else {
      FourBytes(cp);
    }
  }

  lemma TwoBytes(cp: nat)
    requires 128 <= cp < 2048
    ensures Need(192 + cp / 64) == 1 && Continues(192 + cp / 64, 1, 128 + cp % 64)
  {
  }

  lemma ThreeBytes(cp: nat)
    requires Scalar(cp) && 2048 <= cp < 65536
    ensures var lead := 224 + cp / 4096;
            Need(lead) == 2 && Continues(lead, 1, 128 + cp / 64 % 64) && Continues(lead, 2, 128 + cp % 64)
  {
    var high, mid := cp / 4096, cp / 64;
    assert mid / 64 == high && mid == high * 64 + mid % 64;
  }

  lemma FourBytes(cp: nat)
    requires Scalar(cp) && 65536 <= cp
    ensures var lead := 240 + cp / 262144;
            && Need(lead) == 3 && Continues(lead, 1, 128 + cp / 4096 % 64)
            && Continues(lead, 2, 128 + cp / 64 % 64) && Continues(lead, 3, 128 + cp % 64)
  {
    var high, mid := cp / 262144, cp / 4096;
    assert mid / 64 == high && mid == high * 64 + mid % 64;
  }

  lemma ValueOfPoint(cp: nat, b: seq<Byte>)
    requires Scalar(cp) && cp >= 128 && |EncodePoint(cp)| <= |b|
    requires forall k :: 0 <= k < |EncodePoint(cp)| ==> b[k] == EncodePoint(cp)[k]
    requires Need(b[0]) == |EncodePoint(cp)| - 1 && Follow(b, 1, Need(b[0])) == Need(b[0])
    ensures Value(b, Need(b[0])) == cp
  {
    Digits64(cp);
  }

  lemma Digits64(n: nat)
    ensures n == n / 64 * 64 + n % 64 && n == n / 4096 * 4096 + n / 64 % 64 * 64 + n % 64
    ensures n == n / 262144 * 262144 + n / 4096 % 64 * 4096 + n / 64 % 64 * 64 + n % 64
  {
    var a, b := n / 64, n / 4096;
    assert a / 64 == b && b / 64 == n / 262144;
  }

  lemma {:induction false} UnitsOfEncoded(s: seq<Unit>)
    ensures Units(Encode(s)) == Fixed(s)
  {
    hide Take, EncodePoint, CodePoint;
    if s != [] {
      var e, rest := EncodePoint(CodePoint(s)), s[Width(s)..];
      TakesPoint(CodePoint(s), Encode(rest));
      UnitsOfEncoded(rest);
      assert (e + Encode(rest))[|e|..] == Encode(rest);
    }
  }

  /** Replacing surrogates changes no length and nothing else. */
  lemma {:induction false} FixedIs(s: seq<Unit>)
    ensures |Fixed(s)| == |s|
    ensures forall i :: 0 <= i < |s| ==>
              Fixed(s)[i] == s[i] || (Fixed(s)[i] == 65533 && 55296 <= s[i] < 57344)
  {
    hide Fixed, UnitsOf, CodePoint;
    if s == [] {
      NothingToFix();
    } else {
      var n := Width(s);
      var head, rest := UnitsOf(CodePoint(s)), s[n..];
      FixedIs(rest);
      FirstUnits(s);
      FixedFirst(s);
      forall i | 0 <= i < |s|
        ensures Fixed(s)[i] == s[i] || (Fixed(s)[i] == 65533 && 55296 <= s[i] < 57344)
      {
        assert Fixed(s)[i] == if i < n then head[i] else Fixed(rest)[i - n];
      }
    }
  }

  lemma FixedFirst(s: seq<Unit>)
    requires s != []
    ensures Fixed(s) == UnitsOf(CodePoint(s)) + Fixed(s[Width(s)..])
  {
  }

  lemma NothingToFix()
    ensures Fixed([]) == []
  {
  }

  lemma FirstUnits(s: seq<Unit>)
    requires s != []
    ensures var u := UnitsOf(CodePoint(s));
            && |u| == Width(s)
            && (if StartsWithPair(s) then u == s[..2]
                else if IsHigh(s[0]) || IsLow(s[0]) then u == [REPLACEMENT] else u == [s[0]])
  {
    if StartsWithPair(s) {
      var hi: int, lo: int := s[0] as int - 55296, s[1] as int - 56320;
      assert (hi * 1024 + lo) / 1024 == hi && (hi * 1024 + lo) % 1024 == lo;
    }
  }

  /** Every high surrogate has a low one after it, and every low surrogate a high one before it. */
  predicate Paired(s: seq<Unit>) {
    && (forall i :: 0 <= i < |s| && IsHigh(s[i]) ==> i + 1 < |s| && IsLow(s[i + 1]))
    && (forall i :: 0 <= i < |s| && IsLow(s[i]) ==> 0 < i && IsHigh(s[i - 1]))
  }

  lemma PairedRest(s: seq<Unit>)
    requires s != []
    ensures Paired(s) <==> (StartsWithPair(s) || !(IsHigh(s[0]) || IsLow(s[0]))) && Paired(s[Width(s)..])
  {
    var n, rest := Width(s), s[Width(s)..];
    assert forall i :: 0 <= i < |rest| ==> rest[i] == s[i + n];
    assert forall i :: n <= i < |s| ==> s[i] == rest[i - n];
  }

  lemma FixedRest(s: seq<Unit>)
    requires s != []
    ensures var rest := s[Width(s)..];
            Fixed(s) == s <==> (StartsWithPair(s) || !(IsHigh(s[0]) || IsLow(s[0]))) && Fixed(rest) == rest
  {
    hide UnitsOf, CodePoint, Fixed;
    var n, head, rest := Width(s), UnitsOf(CodePoint(s)), s[Width(s)..];
    FirstUnits(s);
    FixedFirst(s);
    SameParts(head, Fixed(rest), s, n);
  }

  lemma SameParts(a: seq<Unit>, b: seq<Unit>, s: seq<Unit>, n: nat)
    requires |a| == n <= |s|
    ensures a + b == s <==> a == s[..n] && b == s[n..]
  {
    assert (a + b)[..n] == a && (a + b)[n..] == b;
    assert s[..n] + s[n..] == s;
  }

  /** Such a text has nothing to replace, and no other has. */
  lemma {:induction false} FixedIffPaired(s: seq<Unit>)
    ensures Fixed(s) == s <==> Paired(s)
  {
    hide Fixed;
    if s == [] {
      NothingToFix();
    } else {
      hide Paired;
      FixedIffPaired(s[Width(s)..]);
      PairedRest(s);
      FixedRest(s);
    }
  }

  lemma MarkIsEncoded(s: seq<Unit>)
    ensures StartsWithMark(Encode(s)) <==> s != [] && s[0] == BYTE_ORDER_MARK
    ensures s != [] && s[0] == BYTE_ORDER_MARK ==> Encode(s)[3..] == Encode(s[1..])
  {
    hide Encode;
    if s != [] {
      var cp, rest := CodePoint(s), Encode(s[Width(s)..]);
      EncodeFirst(s);
      if s[0] == BYTE_ORDER_MARK {
        assert EncodePoint(cp) == [239, 187, 191];
        assert (EncodePoint(cp) + rest)[3..] == rest;
      } else {
        MarkIsPoint(cp, rest);
      }
    } else {
      EncodeNothing();
    }
  }

  lemma EncodeNothing()
    ensures Encode([]) == []
  {
  }

  lemma EncodeFirst(s: seq<Unit>)
    requires s != []
    ensures Encode(s) == EncodePoint(CodePoint(s)) + Encode(s[Width(s)..])
  {
  }

  lemma MarkIsPoint(cp: nat, rest: seq<Byte>)
    requires Scalar(cp)
    ensures StartsWithMark(EncodePoint(cp) + rest) ==> cp == BYTE_ORDER_MARK
  {
    var e := EncodePoint(cp);
    var b := e + rest;
    assert forall k :: 0 <= k < |e| ==> b[k] == e[k];
    Digits64(cp);
  }

  /** Text comes back with lone surrogates replaced and without a byte order mark at its start. */
  lemma DecodeEncode(s: seq<Unit>)
    ensures Decode(Encode(s)) == if s != [] && s[0] == BYTE_ORDER_MARK then Fixed(s[1..]) else Fixed(s)
  {
    hide Units, Encode, Fixed;
    MarkIsEncoded(s);
    UnitsOfEncoded(s);
    if s != [] { UnitsOfEncoded(s[1..]); }
  }

  /** The text comes back as it went in exactly when every surrogate is paired and it does not start with the mark. */
  lemma DecodeEncodeIff(s: seq<Unit>)
    ensures Decode(Encode(s)) == s <==> Paired(s) && (s == [] || s[0] != BYTE_ORDER_MARK)
  {
    hide Decode, Encode, Fixed, Paired;
    DecodeEncode(s);
    if s != [] { FixedIs(s[1..]); }
    FixedIffPaired(s);
  }

  // ----- lengths -----

  lemma {:induction false} EncodeLength(s: seq<Unit>)
    ensures |s| <= |Encode(s)| <= 3 * |s|
  {
    if s != [] {
      EncodeLength(s[Width(s)..]);
      PointLength(s);
    }
  }

  lemma PointLength(s: seq<Unit>)
    requires s != []
    ensures Width(s) <= |EncodePoint(CodePoint(s))| <= 3 * Width(s)
  {
  }

  /** Cutting encoded text short costs a unit for every four bytes, but for the last. */
  lemma {:induction false} PrefixUnits(s: seq<Unit>, n: nat)
    requires n <= |Encode(s)|
    ensures 4 * |Units(Encode(s)[..n])| + (|Encode(s)| - n) <= 4 * |s| + 3
  {
    hide Take, EncodePoint, CodePoint;
    if s != [] {
      var e, rest := EncodePoint(CodePoint(s)), Encode(s[Width(s)..]);
      PointLength(s);
      EncodeLength(s);
      if n >= |e| {
        var b := Encode(s)[..n];
        assert b == e + rest[..n - |e|] && b[|e|..] == rest[..n - |e|];
        TakesPoint(CodePoint(s), rest[..n - |e|]);
        FirstUnits(s);
        PrefixUnits(s[Width(s)..], n - |e|);
      } else if n > 0 {
        assert Encode(s)[..n] == e[..n];
        PartOfPoint(CodePoint(s), n);
      }
    }
  }

  lemma PartOfPoint(cp: nat, n: nat)
    requires Scalar(cp) && 0 < n < |EncodePoint(cp)|
    ensures |Units(EncodePoint(cp)[..n])| == 1
  {
    var e := EncodePoint(cp);
    var b := e[..n];
    Continued(cp);
    FollowsToEnd(b, 1, |e| - 1);
    assert b[Take(b).used..] == [];
  }

  lemma {:induction false} FollowsToEnd(b: seq<Byte>, i: nat, need: nat)
    requires b != [] && 1 <= i <= |b| <= need && forall k :: i <= k < |b| ==> Continues(b[0], k, b[k])
    ensures Follow(b, i, need) == |b| - 1
    decreases |b| - i
  {
    if i < |b| { FollowsToEnd(b, i + 1, need); }
  }

  // ----- bytes that are not text -----

  function ZeroUnits(n: nat): seq<Unit> { seq(n, i => 0) }

  lemma {:induction false} FollowZeros(b: seq<Byte>, z: seq<Byte>, i: nat, need: nat)
    requires b != [] && 1 <= i <= need + 1 && forall k :: 0 <= k < |z| ==> z[k] == 0
    ensures Follow(b + z, i, need) == Follow(b, i, need)
    decreases need + 1 - i
  {
    var all := b + z;
    assert all[0] == b[0] && (i < |b| ==> all[i] == b[i]) && (|b| <= i < |all| ==> all[i] == 0);
    if i <= need { FollowZeros(b, z, i + 1, need); }
  }

  lemma TakeZeros(b: seq<Byte>, z: seq<Byte>)
    requires b != [] && forall k :: 0 <= k < |z| ==> z[k] == 0
    ensures Take(b + z) == Take(b)
  {
    var all, need := b + z, Need(b[0]);
    assert forall k :: 0 <= k < |b| ==> all[k] == b[k];
    FollowZeros(b, z, 1, need);
  }

  /** Zero bytes at the end decode by themselves. */
  lemma {:induction false} UnitsZeros(b: seq<Byte>, z: seq<Byte>)
    requires forall k :: 0 <= k < |z| ==> z[k] == 0
    ensures Units(b + z) == Units(b) + ZeroUnits(|z|)
    decreases |b| + |z|
  {
    hide Take;
    if b != [] {
      TakeZeros(b, z);
      var used := Take(b).used;
      assert (b + z)[used..] == b[used..] + z;
      UnitsZeros(b[used..], z);
    } else if z != [] {
      assert b + z == z;
      TakeAscii(z);
      UnitsZeros([], z[1..]);
      assert [] + z[1..] == z[1..];
      assert ZeroUnits(|z|) == [0] + ZeroUnits(|z| - 1);
    }
  }

  lemma TakeAscii(b: seq<Byte>)
    requires b != [] && b[0] < 128
    ensures Take(b) == Piece([b[0]], 1)
  {
  }

  /** A byte at a time: ASCII as it is, anything else replaced. */
  function Bytewise(b: seq<Byte>): (s: seq<Unit>)
    ensures |s| == |b| && forall i :: 0 <= i < |b| ==> s[i] == if b[i] < 128 then b[i] else REPLACEMENT
  {
    seq(|b|, i requires 0 <= i < |b| => if b[i] < 128 then b[i] else REPLACEMENT)
  }

  lemma BytewiseNothing()
    ensures Bytewise([]) == []
  {
  }

  lemma BytewiseFirst(b: seq<Byte>)
    requires b != []
    ensures Bytewise(b) == [if b[0] < 128 then b[0] else REPLACEMENT] + Bytewise(b[1..])
  {
  }

  /** Decoding keeps the length only if it went byte by byte. */
  lemma {:induction false} SameLengthIsBytewise(b: seq<Byte>)
    requires |Units(b)| == |b|
    ensures Units(b) == Bytewise(b)
  {
    hide Take, Bytewise;
    if b == [] {
      BytewiseNothing();
    } else {
      SameLengthIsBytewise(b[1..]);
      BytewiseFirst(b);
    }
  }

  lemma TakeLoner(b: seq<Byte>)
    requires b != [] && (b[0] < 128 || b[0] >= 245)
    ensures Take(b) == Piece([if b[0] < 128 then b[0] else REPLACEMENT], 1)
  {
  }

  /** Bytes that neither lead nor continue anything decode byte by byte. */
  lemma {:induction false} LonersDecode(b: seq<Byte>)
    requires forall i :: 0 <= i < |b| ==> b[i] < 128 || b[i] >= 245
    ensures Units(b) == Bytewise(b)
  {
    hide Take, Bytewise;
    if b == [] {
      BytewiseNothing();
    } else {
      assert forall i :: 0 <= i < |b| - 1 ==> b[1..][i] == b[i + 1];
      LonersDecode(b[1..]);
      TakeLoner(b);
      BytewiseFirst(b);
    }
  }
}
