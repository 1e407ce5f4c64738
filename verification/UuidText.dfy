/** The canonical text of a UUID: `_bytesToString` and `_parse` of fino:uuid. */
module UuidText {
  import opened Basics
  import opened Bytes
  import opened Uuid

  type Nibble = n: int | 0 <= n < 16

  function HexChar(n: Nibble): char { if n < 10 then (48 + n) as char else (97 + n - 10) as char }

  function HexValue(c: char): Option<Nibble> {
    if '0' <= c <= '9' then Some(c as int - 48)
    else if 'a' <= c <= 'f' then Some(c as int - 97 + 10)
    else if 'A' <= c <= 'F' then Some(c as int - 65 + 10) else None
  }

  function Lower(c: char): char { if 'A' <= c <= 'F' then (c as int + 32) as char else c }

  function Nibbles(b: seq<Byte>, k: nat): Nibble
    requires k < 2 * |b|
  {
    if k % 2 == 0 then b[k / 2] / 16 else b[k / 2] % 16
  }

  function Hex(b: seq<Byte>): (h: string)
    ensures |h| == 2 * |b| && forall k :: 0 <= k < |h| ==> h[k] == HexChar(Nibbles(b, k))
  {
    seq(2 * |b|, k requires 0 <= k < 2 * |b| => HexChar(Nibbles(b, k)))
  }

  function ToText(b: seq<Byte>): string
    requires |b| == 16
  {
    var h := Hex(b);
    h[..8] + "-" + h[8..12] + "-" + h[12..16] + "-" + h[16..20] + "-" + h[20..]
  }

  predicate IsDash(p: nat) { p == 8 || p == 13 || p == 18 || p == 23 }

  /** Which digit stands at a position that is not a dash. */
  function DigitAt(p: nat): nat {
    if p < 8 then p else if p < 13 then p - 1 else if p < 18 then p - 2 else if p < 23 then p - 3 else p - 4
  }

  lemma TextAt(b: seq<Byte>)
    requires |b| == 16
    ensures |ToText(b)| == 36
    ensures forall p :: 0 <= p < 36 ==>
          ToText(b)[p] == if IsDash(p) then '-' else Hex(b)[if IsDash(p) then 0 else DigitAt(p)]
  {
    hide Hex;
    assert forall p :: 0 <= p < 36 && !IsDash(p) ==> DigitAt(p) < 32;
  }

  // ----- reading -----

  predicate WellFormed(s: string) {
    |s| == 36 && forall p :: 0 <= p < 36 ==> if IsDash(p) then s[p] == '-' else HexValue(s[p]).Some?
  }

  function Stripped(s: string): (h: string)
    requires |s| == 36
    ensures |h| == 32 && forall p :: 0 <= p < 36 && !IsDash(p) ==> DigitAt(p) < 32 && h[DigitAt(p)] == s[p]
  {
    s[..8] + s[9..13] + s[14..18] + s[19..23] + s[24..]
  }

  lemma StrippedIsHex(s: string, k: nat)
    requires WellFormed(s) && k < 32
    ensures HexValue(Stripped(s)[k]).Some?
  {
    var p := if k < 8 then k else if k < 12 then k + 1 else if k < 16 then k + 2 else if k < 20 then k + 3 else k + 4;
    assert !IsDash(p) && DigitAt(p) == k;
  }

  /** `_parse`; `None` stands for the error on malformed text. */
  method Parse(s: string) returns (r: Option<seq<Byte>>)
    ensures r.Some? <==> WellFormed(s)
    ensures r.Some? ==> Reads(s, r.value)
  {
    hide Stripped, HexValue;
    if !WellFormed(s) { return None; }
    var hex := Stripped(s);
    var out: seq<Byte> := [];
    for i := 0 to 16
      invariant |out| == i
      invariant forall k :: 0 <= k < 2 * i ==> HexValue(hex[k]) == Some(Nibbles(out, k))
    {
      StrippedIsHex(s, 2 * i);
      StrippedIsHex(s, 2 * i + 1);
      out := out + [HexValue(hex[2 * i]).value * 16 + HexValue(hex[2 * i + 1]).value];
    }
    return Some(out);
  }

  /** The digits of the text are those of the bytes. */
  ghost predicate Reads(s: string, b: seq<Byte>)
    requires |s| == 36
  {
    |b| == 16 && forall k :: 0 <= k < 32 ==> HexValue(Stripped(s)[k]) == Some(Nibbles(b, k))
  }

  lemma HexCharValue(n: Nibble)
    ensures HexValue(HexChar(n)) == Some(n) && HexChar(n) != '-' && Lower(HexChar(n)) == HexChar(n)
  {
  }

  lemma ValueHexChar(c: char)
    requires HexValue(c).Some?
    ensures HexChar(HexValue(c).value) == Lower(c)
  {
  }

  lemma SameNibbles(a: seq<Byte>, b: seq<Byte>)
    requires |a| == |b| && forall k :: 0 <= k < 2 * |a| ==> Nibbles(a, k) == Nibbles(b, k)
    ensures a == b
  {
    forall i | 0 <= i < |a| ensures a[i] == b[i] {
      assert Nibbles(a, 2 * i) == Nibbles(b, 2 * i) && Nibbles(a, 2 * i + 1) == Nibbles(b, 2 * i + 1);
      assert a[i] == a[i] / 16 * 16 + a[i] % 16;
    }
  }

  lemma StrippedText(b: seq<Byte>)
    requires |b| == 16
    ensures |ToText(b)| == 36 && Stripped(ToText(b)) == Hex(b)
  {
    hide Hex;
    var h, t := Hex(b), ToText(b);
    assert forall k :: 0 <= k < 8 ==> t[k] == h[k];
    assert forall k :: 9 <= k < 13 ==> t[k] == h[k - 1];
    assert forall k :: 14 <= k < 18 ==> t[k] == h[k - 2];
    assert forall k :: 19 <= k < 23 ==> t[k] == h[k - 3];
    assert forall k :: 24 <= k < 36 ==> t[k] == h[k - 4];
    assert t[..8] == h[..8] && t[9..13] == h[8..12] && t[14..18] == h[12..16] && t[19..23] == h[16..20]
        && t[24..] == h[20..];
  }

  /** The text of a value is well formed, and reading it gives that value and no other. */
  lemma TextRoundTrip(b: seq<Byte>, c: seq<Byte>)
    requires |b| == 16
    ensures WellFormed(ToText(b)) && (Reads(ToText(b), c) <==> c == b)
  {
    hide ToText, HexChar, HexValue, Stripped, Nibbles;
    var t := ToText(b);
    TextAt(b);
    StrippedText(b);
    forall k | 0 <= k < 32 ensures HexValue(Hex(b)[k]) == Some(Nibbles(b, k)) {
      HexCharValue(Nibbles(b, k));
    }
    assert forall p :: 0 <= p < 36 && !IsDash(p) ==> DigitAt(p) < 32;
    if Reads(t, c) {
      forall k | 0 <= k < 32 ensures Nibbles(b, k) == Nibbles(c, k) {
        assert HexValue(Stripped(t)[k]) == Some(Nibbles(c, k));
      }
      SameNibbles(b, c);
    }
  }

  /** Text that is read prints back as itself, in lower case. */
  lemma ReadPrintsBack(s: string, b: seq<Byte>)
    requires WellFormed(s) && Reads(s, b)
    ensures |ToText(b)| == 36 && forall p :: 0 <= p < 36 ==> ToText(b)[p] == Lower(s[p])
  {
    hide ToText, HexChar, HexValue, Stripped, Nibbles;
    TextAt(b);
    forall p | 0 <= p < 36 ensures ToText(b)[p] == Lower(s[p]) {
      if !IsDash(p) {
        var k := DigitAt(p);
        assert HexValue(Stripped(s)[k]) == Some(Nibbles(b, k));
        ValueHexChar(s[p]);
      }
    }
  }

  // ----- order -----

  ghost predicate TextBelow(s: string, t: string) {
    exists i :: 0 <= i < |s| && i < |t| && s[i] < t[i] && forall j :: 0 <= j < i ==> s[j] == t[j]
  }

  lemma HexCharOrder(m: Nibble, n: Nibble)
    requires m < n
    ensures HexChar(m) < HexChar(n)
  {
  }

  lemma HexBelow(a: seq<Byte>, b: seq<Byte>) returns (k: nat)
    requires |a| == |b| == 16 && Below(a, b)
    ensures k < 32 && Hex(a)[k] < Hex(b)[k] && forall j :: 0 <= j < k ==> Hex(a)[j] == Hex(b)[j]
  {
    hide Hex, HexChar;
    var i :| 0 <= i < 16 && a[i] < b[i] && forall j :: 0 <= j < i ==> a[j] == b[j];
    k := if a[i] / 16 < b[i] / 16 then 2 * i else 2 * i + 1;
    HexCharOrder(Nibbles(a, k), Nibbles(b, k));
    forall j | 0 <= j < k ensures Hex(a)[j] == Hex(b)[j] {
      assert j / 2 < i || j == 2 * i;
    }
  }

  lemma TextIsBelow(a: seq<Byte>, b: seq<Byte>)
    requires |a| == |b| == 16 && Below(a, b)
    ensures TextBelow(ToText(a), ToText(b))
  {
    hide ToText, Hex, Below;
    var k := HexBelow(a, b);
    TextAt(a);
    TextAt(b);
    var p := if k < 8 then k else if k < 12 then k + 1 else if k < 16 then k + 2 else if k < 20 then k + 3 else k + 4;
    assert !IsDash(p) && DigitAt(p) == k;
    assert forall j :: 0 <= j < p && !IsDash(j) ==> DigitAt(j) < k;
    assert ToText(a)[p] < ToText(b)[p];
  }

  /** Text order is byte order. */
  lemma TextOrder(a: seq<Byte>, b: seq<Byte>)
    requires |a| == |b| == 16
    ensures TextBelow(ToText(a), ToText(b)) <==> Below(a, b)
  {
    hide ToText, Num;
    if Num(a) < Num(b) {
      NumOrder(a, b);
      TextIsBelow(a, b);
    } else {
      NumOrder(b, a);
      if a != b {
        TextIsBelow(b, a);
        BelowIsOneWay(b, a);
      }
      assert !TextBelow(ToText(a), ToText(b));
    }
  }
}
