/** The base64 text of a byte string (section 4 of RFC 4648), as `btoa` and `atob` produce and read it. */
module Base64 {
  import opened Basics
  import opened Bytes

  type Digit = d: int | 0 <= d < 64

  function Char(d: Digit): char {
    if d < 26 then (65 + d) as char
    else if d < 52 then (97 + d - 26) as char
    else if d < 62 then (48 + d - 52) as char
    else if d == 62 then '+' else '/'
  }

  function Value(c: char): Option<Digit> {
    if 'A' <= c <= 'Z' then Some(c as int - 65)
    else if 'a' <= c <= 'z' then Some(c as int - 97 + 26)
    else if '0' <= c <= '9' then Some(c as int - 48 + 52)
    else if c == '+' then Some(62) else if c == '/' then Some(63) else None
  }

  lemma CharValue(d: Digit)
    ensures Value(Char(d)) == Some(d) && Char(d) != '='
  {
  }

  /** Three bytes make four digits; a last group of one or two bytes is padded. */
  function ToText(b: seq<Byte>): string {
    if b == [] then ""
    else if |b| == 1 then [Char(b[0] / 4), Char(b[0] % 4 * 16), '=', '=']
    else if |b| == 2 then [Char(b[0] / 4), Char(b[0] % 4 * 16 + b[1] / 16), Char(b[1] % 16 * 4), '=']
    else Group(b[0], b[1], b[2]) + ToText(b[3..])
  }

  function Group(x: Byte, y: Byte, z: Byte): (g: string)
    ensures |g| == 4
  {
    [Char(x / 4), Char(x % 4 * 16 + y / 16), Char(y % 16 * 4 + z / 64), Char(z % 64)]
  }

  // The bytes of a group of four digits.

  function First(a: Digit, b: Digit): Byte { a * 4 + b / 16 }

  function Second(b: Digit, c: Digit): Byte { b % 16 * 16 + c / 4 }

  function Third(c: Digit, d: Digit): Byte { c % 4 * 64 + d }

  /** `None` stands for the error on text that is not base64. */
  function FromText(s: string): Option<seq<Byte>> {
    if s == "" then Some([])
    else if |s| < 4 then None
    else
      var a, b, c, d := Value(s[0]), Value(s[1]), Value(s[2]), Value(s[3]);
      if a.None? || b.None? then None
      else
        var x := First(a.value, b.value);
        if s[2..] == "==" then Some([x])
        else if c.None? then None
        else
          var y := Second(b.value, c.value);
          if s[3..] == "=" then Some([x, y])
          else if d.None? then None
          else
            var z := Third(c.value, d.value);
            var rest := FromText(s[4..]);
            if rest.None? then None else Some([x, y, z] + rest.value)
  }

  lemma {:induction false} TextRoundTrip(b: seq<Byte>)
    ensures FromText(ToText(b)) == Some(b)
  {
    hide FromText, Group, Char;
    if b == [] {
      assert FromText("") == Some([]) by { NoText(); }
    } else if |b| == 1 {
      LastOne(b[0]);
      assert b == [b[0]];
    } else if |b| == 2 {
      LastTwo(b[0], b[1]);
      assert b == [b[0], b[1]];
    } else {
      GroupRoundTrip(b[0], b[1], b[2], ToText(b[3..]));
      TextRoundTrip(b[3..]);
      assert b == [b[0], b[1], b[2]] + b[3..];
    }
  }

  lemma NoText()
    ensures FromText("") == Some([])
  {
  }

  lemma LastOne(x: Byte)
    ensures FromText(ToText([x])) == Some([x])
  {
    hide Char, Value, First, FromText;
    AllBits(x, 0, 0);
    CharValue(x / 4);
    CharValue(x % 4 * 16);
    ReadOne(ToText([x]), x / 4, x % 4 * 16);
  }

  lemma ReadOne(s: string, a: Digit, b: Digit)
    requires |s| == 4 && s[2] == '=' && s[3] == '=' && Value(s[0]) == Some(a) && Value(s[1]) == Some(b)
    ensures FromText(s) == Some([First(a, b)])
  {
    hide Value, First;
    assert s[2..] == "==";
  }

  lemma LastTwo(x: Byte, y: Byte)
    ensures FromText(ToText([x, y])) == Some([x, y])
  {
    hide Char, Value, First, Second, FromText;
    AllBits(x, y, 0);
    CharValue(x / 4);
    CharValue(x % 4 * 16 + y / 16);
    CharValue(y % 16 * 4);
    ReadTwo(ToText([x, y]), x / 4, x % 4 * 16 + y / 16, y % 16 * 4);
  }

  lemma ReadTwo(s: string, a: Digit, b: Digit, c: Digit)
    requires |s| == 4 && s[2] != '=' && s[3] == '='
    requires Value(s[0]) == Some(a) && Value(s[1]) == Some(b) && Value(s[2]) == Some(c)
    ensures FromText(s) == Some([First(a, b), Second(b, c)])
  {
    hide Value, First, Second;
    assert s[2..][0] == s[2] && s[3..] == "=";
  }

  lemma GroupRoundTrip(x: Byte, y: Byte, z: Byte, rest: string)
    ensures var r := FromText(rest);
            FromText(Group(x, y, z) + rest) == if r.None? then None else Some([x, y, z] + r.value)
  {
    hide Char, Value, First, Second, Third, FromText;
    var s := Group(x, y, z) + rest;
    AllBits(x, y, z);
    CharValue(x / 4);
    CharValue(x % 4 * 16 + y / 16);
    CharValue(y % 16 * 4 + z / 64);
    CharValue(z % 64);
    assert s[4..] == rest;
    ReadGroup(s, x / 4, x % 4 * 16 + y / 16, y % 16 * 4 + z / 64, z % 64);
  }

  lemma ReadGroup(s: string, a: Digit, b: Digit, c: Digit, d: Digit)
    requires |s| >= 4 && s[2] != '=' && s[3] != '='
    requires Value(s[0]) == Some(a) && Value(s[1]) == Some(b) && Value(s[2]) == Some(c) && Value(s[3]) == Some(d)
    ensures var r := FromText(s[4..]);
            FromText(s) == if r.None? then None else Some([First(a, b), Second(b, c), Third(c, d)] + r.value)
  {
    hide Value, First, Second, Third;
    assert s[2..][0] == s[2] && s[3..][0] == s[3];
  }

  /** The digits of a group hold all the bits of its bytes. */
  lemma AllBits(x: Byte, y: Byte, z: Byte)
    ensures First(x / 4, x % 4 * 16 + y / 16) == x && Second(x % 4 * 16 + y / 16, y % 16 * 4 + z / 64) == y
    ensures Third(y % 16 * 4 + z / 64, z % 64) == z
  {
    assert (x % 4 * 16 + y / 16) / 16 == x % 4 && (x % 4 * 16 + y / 16) % 16 == y / 16;
    assert (y % 16 * 4 + z / 64) / 4 == y % 16 && (y % 16 * 4 + z / 64) % 4 == z / 64;
  }
}
