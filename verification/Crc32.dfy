/** The table-driven CRC-32 of fino:archive (section 4.4.7 of the ZIP APPNOTE). */
module Crc32 {
  import opened Bytes

  /** A 32-bit register, least significant bit first. */
  type Word = w: seq<bool> | |w| == 32 witness seq(32, i => false)

  function Zeros(n: nat): seq<bool> { seq(n, i => false) }

  function Xor(x: Word, y: Word): Word { seq(32, i requires 0 <= i < 32 => x[i] != y[i]) }

  /** `>>> n`. */
  function Shift(x: Word, n: nat): Word
    requires n <= 32
  {
    x[n..] + Zeros(n)
  }

  /** 0xEDB88320, the reflected polynomial. */
  const POLYNOMIAL: Word := Bits(3988292384, 32)

  const ALL_ONES: Word := Bits(4294967295, 32)

  // ----- one bit at a time -----

  /** Shift one bit out; if it was set, subtract the polynomial. */
  function Step(c: Word): Word {
    if c[0] then Xor(POLYNOMIAL, Shift(c, 1)) else Shift(c, 1)
  }

  function Steps(c: Word, n: nat): Word
    decreases n
  {
    if n == 0 then c else Steps(Step(c), n - 1)
  }

  function Pad(b: Byte): Word { Bits(b, 8) + Zeros(24) }

  /** The register after feeding the bytes, bit by bit. */
  function Feed(c: Word, bytes: seq<Byte>): Word {
    if bytes == [] then c
    else Steps(Xor(Feed(c, bytes[..|bytes| - 1]), Pad(bytes[|bytes| - 1])), 8)
  }

  /** The CRC-32 of a byte string, by its definition. */
  function Crc(bytes: seq<Byte>): nat { Nat(Xor(Feed(ALL_ONES, bytes), ALL_ONES)) }

  // ----- the table -----

  lemma StepLinear(x: Word, y: Word)
    ensures Step(Xor(x, y)) == Xor(Step(x), Step(y))
  {
  }

  lemma {:induction false} StepsLinear(x: Word, y: Word, n: nat)
    ensures Steps(Xor(x, y), n) == Xor(Steps(x, n), Steps(y, n))
    decreases n
  {
    if n > 0 {
      StepLinear(x, y);
      StepsLinear(Step(x), Step(y), n - 1);
    }
  }

  /** Bits that do not reach the bottom are only shifted. */
  lemma {:induction false} HighBitsShift(x: Word, n: nat)
    requires n <= 32 && forall i :: 0 <= i < n ==> !x[i]
    ensures Steps(x, n) == Shift(x, n)
    decreases n
  {
    if n == 0 {
      assert Shift(x, 0) == x;
    } else {
      HighBitsShift(Step(x), n - 1);
      assert Shift(Shift(x, 1), n - 1) == Shift(x, n);
    }
  }

  function Low(x: Word): Word { x[..8] + Zeros(24) }

  function High(x: Word): Word { Zeros(8) + x[8..] }

  lemma SplitByte(x: Word)
    ensures Steps(x, 8) == Xor(Steps(Low(x), 8), Shift(x, 8))
  {
    assert x == Xor(Low(x), High(x));
    StepsLinear(Low(x), High(x), 8);
    HighBitsShift(High(x), 8);
    assert Shift(High(x), 8) == Shift(x, 8);
  }

  /** Entry `i` is eight steps from `i`. */
  ghost predicate IsTable(table: seq<Word>) {
    |table| == 256 && forall i :: 0 <= i < 256 ==> table[i] == Steps(Pad(i), 8)
  }

  /** `CRC32_TABLE`. */
  method BuildTable() returns (table: seq<Word>)
    ensures IsTable(table)
  {
    table := [];
    for i := 0 to 256
      invariant |table| == i && forall h :: 0 <= h < i ==> table[h] == Steps(Pad(h), 8)
    {
      var c: Word := Pad(i);
      for j := 0 to 8
        invariant Steps(c, 8 - j) == Steps(Pad(i), 8)
      {
        c := Step(c);
      }
      table := table + [c];
    }
  }

  lemma TableStep(table: seq<Word>, crc: Word, b: Byte)
    requires IsTable(table)
    ensures var x := Xor(crc, Pad(b));
            Nat(x[..8]) < 256 && Xor(table[Nat(x[..8])], Shift(crc, 8)) == Steps(x, 8)
  {
    hide Steps, Xor, Nat, Bits, Pow2;
    var x := Xor(crc, Pad(b));
    BitsNat(x[..8]);
    Pow2Values();
    assert Pad(Nat(x[..8])) == Low(x);
    SplitByte(x);
    ShiftedOut(crc, b);
  }

  /** A byte only reaches the bits that are shifted out. */
  lemma ShiftedOut(crc: Word, b: Byte)
    ensures Shift(Xor(crc, Pad(b)), 8) == Shift(crc, 8)
  {
    hide Bits;
  }

  /** `crc32`: one table look-up per byte computes the bit-at-a-time CRC. */
  method Compute(bytes: seq<Byte>) returns (r: nat)
    ensures r == Crc(bytes)
  {
    var table := BuildTable();
    var crc: Word := ALL_ONES;
    for i := 0 to |bytes|
      invariant crc == Feed(ALL_ONES, bytes[..i])
    {
      assert bytes[..i + 1][..i] == bytes[..i];
      TableStep(table, crc, bytes[i]);
      crc := Xor(table[Nat(Xor(crc, Pad(bytes[i]))[..8])], Shift(crc, 8));
    }
    assert bytes[..|bytes|] == bytes;
    r := Nat(Xor(crc, ALL_ONES));
  }

  lemma CrcIsWord(bytes: seq<Byte>)
    ensures Crc(bytes) < 4294967296
  {
    hide Feed, Xor, Pow2;
    BitsNat(Xor(Feed(ALL_ONES, bytes), ALL_ONES));
    Pow2Values();
  }

  // ----- known values -----

  /** The table entry of the byte 128 is the polynomial 0xEDB88320. */
  lemma TableHoldsPolynomial(table: seq<Word>)
    requires IsTable(table)
    ensures |table| == 256 && Nat(table[128]) == 3988292384
  {
    hide Nat, Pow2, Bits, Steps, Step;
    var x := Pad(128);
    TopOfByte();
    HighBitsShift(x, 7);
    StepsApart(x, 7, 1);
    StepOne(Shift(x, 7));
    Pow2Values();
    NatBits(3988292384, 32);
  }

  lemma TopOfByte()
    ensures Bits(128, 8) == Zeros(7) + [true]
  {
    assert Bits(128, 8) == [false, false, false, false, false, false, false, true];
  }

  /** One step from the lowest bit alone. */
  lemma StepOne(one: Word)
    requires one[0] && forall i :: 1 <= i < 32 ==> !one[i]
    ensures Steps(one, 1) == POLYNOMIAL
  {
    hide Bits;
    assert Steps(one, 1) == Steps(Step(one), 0);
    assert Shift(one, 1) == Zeros(32);
    assert Xor(POLYNOMIAL, Zeros(32)) == POLYNOMIAL;
  }

  lemma {:induction false} StepsApart(x: Word, m: nat, n: nat)
    ensures Steps(x, m + n) == Steps(Steps(x, m), n)
    decreases m
  {
    if m > 0 { StepsApart(Step(x), m - 1, n); }
  }

  function Ones(n: nat): seq<bool> { seq(n, i => true) }

  lemma {:induction false} OnesAreSet(k: nat)
    ensures Bits(Pow2(k) - 1, k) == Ones(k)
  {
    if k > 0 {
      assert (Pow2(k) - 1) / 2 == Pow2(k - 1) - 1 && (Pow2(k) - 1) % 2 == 1;
      OnesAreSet(k - 1);
      assert [true] + Ones(k - 1) == Ones(k);
    }
  }

  lemma {:induction false} NatShifted(z: nat, b: seq<bool>)
    ensures Nat(Zeros(z) + b) == Pow2(z) * Nat(b)
  {
    if z == 0 {
      assert Zeros(0) + b == b;
    } else {
      assert (Zeros(z) + b)[1..] == Zeros(z - 1) + b;
      NatShifted(z - 1, b);
    }
  }

  /** The empty string has check sum 0, and the byte 255 has 0xFF000000: the register starts and ends inverted. */
  lemma KnownSums()
    ensures Crc([]) == 0 && Crc([255]) == 4278190080
  {
    hide Bits, Nat, Pow2, Steps;
    Pow2Values();
    OnesAreSet(32);
    OnesAreSet(8);
    assert Xor(ALL_ONES, ALL_ONES) == Zeros(32) + [];
    NatShifted(32, []);
    var x := Xor(ALL_ONES, Pad(255));
    assert x == Zeros(8) + ALL_ONES[8..];
    HighBitsShift(x, 8);
    assert [255][..0] == [];
    assert Feed(ALL_ONES, [255]) == Shift(x, 8);
    var y := Xor(Shift(x, 8), ALL_ONES);
    assert y == Zeros(24) + Bits(255, 8);
    NatShifted(24, Bits(255, 8));
    NatBits(255, 8);
    Pow2Add(8, 16);
    NoBits();
  }

  lemma NoBits()
    ensures Nat([]) == 0
  {
  }

  // ----- a changed byte never goes unnoticed -----

  lemma TopBitSet()
    ensures POLYNOMIAL[31]
  {
    hide Bits;
    Pow2Values();
    TopBit(3988292384, 32);
  }

  lemma StepInjective(x: Word, y: Word)
    requires Step(x) == Step(y)
    ensures x == y
  {
    hide Bits;
    TopBitSet();
    assert Step(x)[31] == x[0] && Step(y)[31] == y[0];
    forall i | 1 <= i < 32 ensures x[i] == y[i] {
      assert Shift(x, 1)[i - 1] == x[i] && Shift(y, 1)[i - 1] == y[i];
      assert Step(x)[i - 1] == Step(y)[i - 1];
    }
  }

  lemma {:induction false} StepsInjective(x: Word, y: Word, n: nat)
    requires Steps(x, n) == Steps(y, n)
    ensures x == y
    decreases n
  {
    if n > 0 {
      StepsInjective(Step(x), Step(y), n - 1);
      StepInjective(x, y);
    }
  }

  lemma XorCancels(x: Word, y: Word, z: Word)
    requires Xor(x, z) == Xor(y, z)
    ensures x == y
  {
    forall i | 0 <= i < 32 ensures x[i] == y[i] {
      assert Xor(x, z)[i] == Xor(y, z)[i];
    }
  }

  lemma PadInjective(a: Byte, b: Byte)
    requires Pad(a) == Pad(b)
    ensures a == b
  {
    Pow2Values();
    NatBits(a, 8);
    NatBits(b, 8);
    assert Pad(a)[..8] == Bits(a, 8) && Pad(b)[..8] == Bits(b, 8);
  }

  /** Different registers stay different whatever is fed next. */
  lemma {:induction false} FeedInjective(x: Word, y: Word, bytes: seq<Byte>)
    requires Feed(x, bytes) == Feed(y, bytes)
    ensures x == y
  {
    hide Bits;
    if bytes != [] {
      var front, p := bytes[..|bytes| - 1], Pad(bytes[|bytes| - 1]);
      StepsInjective(Xor(Feed(x, front), p), Xor(Feed(y, front), p), 8);
      XorCancels(Feed(x, front), Feed(y, front), p);
      FeedInjective(x, y, front);
    }
  }

  lemma {:induction false} FeedAppend(c: Word, a: seq<Byte>, b: seq<Byte>)
    ensures Feed(c, a + b) == Feed(Feed(c, a), b)
  {
    hide Bits;
    if b == [] {
      assert a + b == a;
    } else {
      assert (a + b)[..|a + b| - 1] == a + b[..|b| - 1];
      FeedAppend(c, a, b[..|b| - 1]);
    }
  }

  lemma XorCommutes(x: Word, y: Word)
    ensures Xor(x, y) == Xor(y, x)
  {
  }

  /** Two strings that differ in exactly one byte have different CRCs. */
  lemma OneByteIsNoticed(front: seq<Byte>, a: Byte, b: Byte, rest: seq<Byte>)
    requires Crc(front + [a] + rest) == Crc(front + [b] + rest)
    ensures a == b
  {
    hide Bits;
    var x, y := Feed(ALL_ONES, front + [a] + rest), Feed(ALL_ONES, front + [b] + rest);
    BitsNat(Xor(x, ALL_ONES));
    BitsNat(Xor(y, ALL_ONES));
    XorCancels(x, y, ALL_ONES);
    FeedAppend(ALL_ONES, front + [a], rest);
    FeedAppend(ALL_ONES, front + [b], rest);
    FeedInjective(Feed(ALL_ONES, front + [a]), Feed(ALL_ONES, front + [b]), rest);
    var c := Feed(ALL_ONES, front);
    assert (front + [a])[..|front|] == front && (front + [b])[..|front|] == front;
    StepsInjective(Xor(c, Pad(a)), Xor(c, Pad(b)), 8);
    XorCommutes(c, Pad(a));
    XorCommutes(c, Pad(b));
    XorCancels(Pad(a), Pad(b), c);
    PadInjective(a, b);
  }
}
