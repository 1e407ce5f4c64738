/** Fixed-width octal fields of tar headers: `writeOctal` and `parseTarOctal`. */
module Octal {
  import opened Basics
  import opened Bytes

  predicate IsDigit(b: Byte) { 48 <= b <= 55 }

  /** NUL and space end a number. */
  predicate IsEnd(b: Byte) { b == 0 || b == 32 }

  function Pow8(n: nat): (p: nat)
    ensures p > 0
  {
    if n == 0 then 1 else 8 * Pow8(n - 1)
  }

  /** `toString(8)`. */
  function Print(n: nat): (s: seq<Byte>)
    ensures s != [] && forall i :: 0 <= i < |s| ==> IsDigit(s[i])
  {
    if n < 8 then [48 + n] else Print(n / 8) + [48 + n % 8]
  }

  /** `parseInt(s, 8)`. */
  function Read(s: seq<Byte>): nat
    requires forall i :: 0 <= i < |s| ==> IsDigit(s[i])
  {
    if s == [] then 0
    else
      var last := s[|s| - 1];
      assert IsDigit(last);
      8 * Read(s[..|s| - 1]) + (last as int - 48)
  }

  /** `padStart(width, '0')`. */
  function Padded(n: nat, width: nat): (s: seq<Byte>)
    ensures |s| >= width && forall i :: 0 <= i < |s| ==> IsDigit(s[i])
  {
    var digits := Print(n);
    if |digits| >= width then digits else seq(width - |digits|, i => 48) + digits
  }

  /** The field `writeOctal` leaves: the first `width - 2` digits, NUL, space. */
  function Field(n: nat, width: nat): (f: seq<Byte>)
    requires width >= 2
    ensures |f| == width
  {
    Padded(n, width - 2)[..width - 2] + [0, 32]
  }

  lemma {:induction false} ReadPrint(n: nat)
    ensures Read(Print(n)) == n
  {
    if n >= 8 {
      ReadPrint(n / 8);
      assert Print(n)[..|Print(n)| - 1] == Print(n / 8);
    } else {
      assert Print(n)[..0] == [];
    }
  }

  lemma {:induction false} PrintLength(n: nat, k: nat)
    requires k > 0
    ensures |Print(n)| <= k <==> n < Pow8(k)
  {
    if n < 8 {
      PowMonotone(1, k);
    } else if k == 1 {
      assert |Print(n)| > 1;
    } else {
      PrintLength(n / 8, k - 1);
    }
  }

  lemma {:induction false} PowMonotone(a: nat, b: nat)
    requires a <= b
    ensures Pow8(a) <= Pow8(b)
  {
    if a < b { PowMonotone(a, b - 1); }
  }

  lemma {:induction false} ReadZeros(z: nat, s: seq<Byte>)
    requires forall i :: 0 <= i < |s| ==> IsDigit(s[i])
    ensures Read(seq(z, i => 48) + s) == Read(s)
  {
    var t := seq(z, i => 48) + s;
    if s != [] {
      assert t[..|t| - 1] == seq(z, i => 48) + s[..|s| - 1];
      ReadZeros(z, s[..|s| - 1]);
    } else if z > 0 {
      assert t[..|t| - 1] == seq(z - 1, i => 48) + [];
      ReadZeros(z - 1, []);
    }
  }

  lemma ReadPadded(n: nat, width: nat)
    ensures Read(Padded(n, width)) == n
  {
    var digits := Print(n);
    ReadPrint(n);
    if |digits| < width { ReadZeros(width - |digits|, digits); }
  }

  /** Dropping digits makes a positive number smaller. */
  lemma {:induction false} ReadPrefix(s: seq<Byte>, k: nat)
    requires k < |s| && (forall i :: 0 <= i < |s| ==> IsDigit(s[i])) && s[0] != 48
    ensures Read(s[..k]) < Read(s)
  {
    var front := s[..|s| - 1];
    if k < |s| - 1 {
      ReadPrefix(front, k);
      assert front[..k] == s[..k];
    } else {
      if |s| > 1 { ReadPrefix(front, 0); }
      assert s[..k] == front;
    }
  }

  lemma {:induction false} PrintLeads(n: nat)
    requires n > 0
    ensures Print(n)[0] != 48
  {
    if n >= 8 { PrintLeads(n / 8); }
  }

  // ----- reading a field -----

  /** Length of the leading stretch of bytes that do not end a number. */
  function Digits(f: seq<Byte>): (k: nat)
    ensures k <= |f| && (forall i :: 0 <= i < k ==> !IsEnd(f[i])) && (k < |f| ==> IsEnd(f[k]))
  {
    if f == [] || IsEnd(f[0]) then 0 else 1 + Digits(f[1..])
  }

  /** Digits, then nothing but terminators. */
  ghost predicate WellFormed(f: seq<Byte>) {
    && (forall i :: 0 <= i < Digits(f) ==> IsDigit(f[i]))
    && (forall i :: Digits(f) <= i < |f| ==> IsEnd(f[i]))
    && FieldValue(f) <= 9007199254740991
  }

  ghost function FieldValue(f: seq<Byte>): nat {
    if forall i :: 0 <= i < Digits(f) ==> IsDigit(f[i]) then Read(f[..Digits(f)]) else 0
  }

  /** `parseTarOctal`; `None` stands for the error it throws. */
  method Parse(bytes: seq<Byte>, offset: nat, length: nat) returns (r: Option<nat>)
    requires offset + length <= |bytes|
    ensures r.Some? <==> WellFormed(bytes[offset..offset + length])
    ensures r.Some? ==> r.value == FieldValue(bytes[offset..offset + length])
  {
    ghost var f := bytes[offset..offset + length];
    var value: seq<Byte> := [];
    var sawTerminator := false;
    for i := 0 to length
      invariant forall h :: 0 <= h < |value| ==> IsDigit(value[h])
      invariant |value| <= i && value == f[..|value|]
      invariant !sawTerminator ==> |value| == i
      invariant sawTerminator ==> |value| < i && IsEnd(f[|value|])
      invariant forall h :: |value| <= h < i ==> IsEnd(f[h])
      invariant sawTerminator ==> Digits(f) == |value|
    {
      var byte := bytes[offset + i];
      assert byte == f[i];
      if IsEnd(byte) {
        if !sawTerminator { DigitsIs(f, i); }
        sawTerminator := true;
      } else {
        if sawTerminator || !IsDigit(byte) {
          return None;
        }
        value := value + [byte];
      }
    }
    if !sawTerminator { DigitsIs(f, length); }
    assert f[..Digits(f)] == value;
    var parsed := Read(value);
    if parsed > 9007199254740991 { return None; }
    return Some(parsed);
  }

  lemma {:induction false} DigitsIs(f: seq<Byte>, k: nat)
    requires k <= |f| && (forall i :: 0 <= i < k ==> !IsEnd(f[i])) && (k < |f| ==> IsEnd(f[k]))
    ensures Digits(f) == k
  {
    if k > 0 { DigitsIs(f[1..], k - 1); }
  }

  /** A number comes back from its field exactly when it has at most `width - 2` octal digits. */
  lemma FieldRoundTrip(n: nat, width: nat)
    requires 3 <= width <= 12
    ensures WellFormed(Field(n, width))
    ensures FieldValue(Field(n, width)) == n <==> n < Pow8(width - 2)
  {
    var f, digits := Field(n, width), Padded(n, width - 2);
    DigitsIs(f, width - 2);
    assert f[..width - 2] == digits[..width - 2];
    PrintLength(n, width - 2);
    if n < Pow8(width - 2) {
      ReadPadded(n, width - 2);
      assert digits[..width - 2] == digits;
      PowMonotone(width - 2, 10);
    } else {
      PrintLeads(n);
      ReadPrint(n);
      ReadPrefix(digits, width - 2);
      ReadBound(f[..width - 2]);
      PowMonotone(width - 2, 10);
    }
    Pow8Values();
  }

  lemma {:induction false} ReadBound(s: seq<Byte>)
    requires forall i :: 0 <= i < |s| ==> IsDigit(s[i])
    ensures Read(s) < Pow8(|s|)
  {
    if s != [] { ReadBound(s[..|s| - 1]); }
  }

  lemma Pow8Values()
    ensures Pow8(6) == 262144 && Pow8(10) == 1073741824
  {
    assert Pow8(4) == 4096;
    assert Pow8(8) == 16777216;
  }

  /** `writeOctal` in place. */
  method Write(view: array<Byte>, offset: nat, width: nat, n: nat)
    requires width >= 2 && offset + width <= view.Length
    modifies view
    ensures forall h :: 0 <= h < view.Length && !(offset <= h < offset + width) ==> view[h] == old(view[h])
    ensures view[offset..offset + width] == Field(n, width)
  {
    var padded := Padded(n, width - 2);
    for i := 0 to width
      invariant forall h :: 0 <= h < view.Length && !(offset <= h < offset + width) ==> view[h] == old(view[h])
    {
      view[offset + i] := 0;
    }
    var i := 0;
    while i < |padded| && i < width - 2
      invariant 0 <= i <= width - 2
      invariant forall h :: 0 <= h < view.Length && !(offset <= h < offset + width) ==> view[h] == old(view[h])
      invariant forall h :: 0 <= h < i ==> view[offset + h] == padded[h]
    {
      view[offset + i] := padded[i];
      i := i + 1;
    }
    view[offset + width - 2] := 0;
    view[offset + width - 1] := 32;
  }
}
