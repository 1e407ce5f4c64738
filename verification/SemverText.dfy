/** Reading and printing versions: `parse` and `formatSemVer` of fino:semver, on trimmed text. */
module SemverText {
  import opened Basics
  import opened SemverOrder
  import opened Decimal

  const MAX_SAFE := 9007199254740991

  predicate IsIdentChar(c: char) { IsDigit(c) || 'A' <= c <= 'Z' || 'a' <= c <= 'z' || c == '-' }

  predicate InClass(c: char, wide: bool) { if wide then IsIdentChar(c) else IsDigit(c) }

  /** The end of the run of digits, or of identifier characters, that starts at `i`. */
  function RunEnd(s: string, i: nat, wide: bool): (j: nat)
    requires i <= |s|
    ensures i <= j <= |s|
    ensures forall k :: i <= k < j ==> InClass(s[k], wide)
    ensures j < |s| ==> !InClass(s[j], wide)
    decreases |s| - i
  {
    if i < |s| && InClass(s[i], wide) then RunEnd(s, i + 1, wide) else i
  }

  lemma {:induction false} RunEndIs(s: string, i: nat, j: nat, wide: bool)
    requires i <= j <= |s| && (forall k :: i <= k < j ==> InClass(s[k], wide)) && (j < |s| ==> !InClass(s[j], wide))
    ensures RunEnd(s, i, wide) == j
    decreases j - i
  {
    if i < j { RunEndIs(s, i + 1, j, wide); }
  }

  // ----- identifiers -----

  /** A number without superfluous zeros that is a safe integer. */
  predicate GoodNumber(t: string) { Canonical(t) && Read(t) <= MAX_SAFE }

  /** What `readIdentifier` lets through; only prerelease identifiers are strict about numbers. */
  predicate GoodIdent(t: string, strict: bool) {
    t != "" && (forall k :: 0 <= k < |t| ==> IsIdentChar(t[k])) && (strict && AllDigits(t) ==> GoodNumber(t))
  }

  /** `parseIdentifier`. */
  function ToIdent(t: string): Ident { if AllDigits(t) then Number(Read(t)) else Text(t) }

  function IdentText(id: Ident): string { if id.Number? then Print(id.n) else id.s }

  /** Letters, digits and hyphens. */
  ghost predicate Identifier(t: string) {
    && t != ""
    && forall k :: 0 <= k < |t| ==> 'A' <= t[k] <= 'Z' || 'a' <= t[k] <= 'z' || '0' <= t[k] <= '9' || t[k] == '-'
  }

  ghost predicate GoodId(id: Ident) {
    if id.Number? then id.n <= 9007199254740991
    else Identifier(id.s) && exists k :: 0 <= k < |id.s| && !('0' <= id.s[k] <= '9')
  }

  ghost predicate WellFormed(v: Version) {
    && v.major <= 9007199254740991 && v.minor <= 9007199254740991 && v.patch <= 9007199254740991
    && (forall i :: 0 <= i < |v.prerelease| ==> GoodId(v.prerelease[i]))
    && (forall i :: 0 <= i < |v.build| ==> Identifier(v.build[i]))
  }

  // ----- printing -----

  function Join(parts: seq<string>): string {
    if parts == [] then "" else if |parts| == 1 then parts[0] else parts[0] + "." + Join(parts[1..])
  }

  function IdentTexts(ids: seq<Ident>): (ts: seq<string>)
    ensures |ts| == |ids| && forall i :: 0 <= i < |ids| ==> ts[i] == IdentText(ids[i])
  {
    seq(|ids|, i requires 0 <= i < |ids| => IdentText(ids[i]))
  }

  /** `formatSemVer`. */
  function Format(v: Version): string {
    Print(v.major) + "." + Print(v.minor) + "." + Print(v.patch) + Suffix(v)
  }

  function Suffix(v: Version): string { Tagged("-", IdentTexts(v.prerelease)) + Tagged("+", v.build) }

  function Tagged(mark: string, parts: seq<string>): string { if parts == [] then "" else mark + Join(parts) }

  // ----- reading -----

  /** What was read from a position, and where reading goes on. */
  datatype Got<T> = Fail | Got(value: T, next: nat)

  function ReadNumber(s: string, i: nat): Got<nat>
    requires i <= |s|
  {
    var j := RunEnd(s, i, false);
    if GoodNumber(s[i..j]) then Got(Read(s[i..j]), j) else Fail
  }

  function ReadIdent(s: string, i: nat, strict: bool): Got<string>
    requires i <= |s|
  {
    var j := RunEnd(s, i, true);
    if GoodIdent(s[i..j], strict) then Got(s[i..j], j) else Fail
  }

  predicate At(s: string, i: nat, c: char) { i < |s| && s[i] == c }

  function ReadList(s: string, i: nat, strict: bool): (g: Got<seq<string>>)
    requires i <= |s|
    ensures g.Got? ==> i <= g.next <= |s|
    decreases |s| - i
  {
    var first := ReadIdent(s, i, strict);
    if first.Fail? then Fail
    else if !At(s, first.next, '.') then Got([first.value], first.next)
    else
      var rest := ReadList(s, first.next + 1, strict);
      if rest.Fail? then Fail else Got([first.value] + rest.value, rest.next)
  }

  /** A list after its mark, or nothing. */
  function ReadTagged(s: string, i: nat, mark: char, strict: bool): (g: Got<seq<string>>)
    requires i <= |s|
    ensures g.Got? ==> i <= g.next <= |s|
  {
    if At(s, i, mark) then ReadList(s, i + 1, strict) else Got([], i)
  }

  function ToIdents(ts: seq<string>): (ids: seq<Ident>)
    ensures |ids| == |ts| && forall i :: 0 <= i < |ts| ==> ids[i] == ToIdent(ts[i])
  {
    seq(|ts|, i requires 0 <= i < |ts| => ToIdent(ts[i]))
  }

  function ReadCore(s: string): Got<(nat, nat, nat)> {
    var major := ReadNumber(s, 0);
    if major.Fail? || !At(s, major.next, '.') then Fail
    else
      var minor := ReadNumber(s, major.next + 1);
      if minor.Fail? || !At(s, minor.next, '.') then Fail
      else
        var patch := ReadNumber(s, minor.next + 1);
        if patch.Fail? then Fail else Got((major.value, minor.value, patch.value), patch.next)
  }

  /** What `parse` computes; `None` stands for the error. */
  function ParseText(s: string): Option<Version> {
    var core := ReadCore(s);
    if core.Fail? || core.next > |s| then None
    else
      var pre := ReadTagged(s, core.next, '-', true);
      if pre.Fail? then None
      else
        var build := ReadTagged(s, pre.next, '+', false);
        if build.Fail? || build.next != |s| then None
        else Some(Version(core.value.0, core.value.1, core.value.2, ToIdents(pre.value), build.value))
  }

  // ----- what is printed is read -----

  /** `t` stands at `i`. */
  ghost predicate Stands(s: string, i: nat, t: string) { i + |t| <= |s| && s[i..i + |t|] == t }

  lemma StandsParts(s: string, i: nat, t: string, u: string)
    requires Stands(s, i, t + u)
    ensures Stands(s, i, t) && Stands(s, i + |t|, u)
  {
    var all := s[i..i + |t + u|];
    assert s[i..i + |t|] == all[..|t|] && s[i + |t|..i + |t| + |u|] == all[|t|..];
  }

  lemma StandsWithin(s: string, i: nat, t: string)
    requires Stands(s, i, t)
    ensures i + |t| <= |s|
  {
  }

  lemma StandsChar(s: string, i: nat, c: char)
    requires Stands(s, i, [c])
    ensures At(s, i, c)
  {
    assert s[i] == s[i..i + 1][0];
  }

  lemma NumberIsRead(s: string, i: nat, n: nat)
    requires Stands(s, i, Print(n)) && n <= MAX_SAFE && (i + |Print(n)| < |s| ==> !IsDigit(s[i + |Print(n)|]))
    ensures ReadNumber(s, i) == Got(n, i + |Print(n)|)
  {
    hide Print;
    var t := Print(n);
    assert forall k :: i <= k < i + |t| ==> s[k] == t[k - i];
    RunEndIs(s, i, i + |t|, false);
    ReadPrint(n);
  }

  lemma IdentIsRead(s: string, i: nat, t: string, strict: bool)
    requires Stands(s, i, t) && GoodIdent(t, strict) && (i + |t| < |s| ==> !IsIdentChar(s[i + |t|]))
    ensures ReadIdent(s, i, strict) == Got(t, i + |t|)
  {
    assert forall k :: i <= k < i + |t| ==> s[k] == t[k - i];
    RunEndIs(s, i, i + |t|, true);
  }

  /** What may follow a list: nothing that would lengthen it. */
  predicate Ends(s: string, i: nat) { i < |s| ==> !IsIdentChar(s[i]) && s[i] != '.' }

  lemma {:induction false} ListIsRead(s: string, i: nat, parts: seq<string>, strict: bool)
    requires parts != [] && Stands(s, i, Join(parts)) && Ends(s, i + |Join(parts)|)
    requires forall k :: 0 <= k < |parts| ==> GoodIdent(parts[k], strict)
    ensures ReadList(s, i, strict) == Got(parts, i + |Join(parts)|)
    decreases |parts|
  {
    hide GoodIdent, ReadIdent, ReadList, Stands;
    StandsWithin(s, i, Join(parts));
    if |parts| == 1 {
      IdentIsRead(s, i, parts[0], strict);
      ReadListIs(s, i, strict);
      assert parts == [parts[0]];
    } else {
      var t, rest := parts[0], parts[1..];
      assert Join(parts) == t + ("." + Join(rest));
      StandsParts(s, i, t, "." + Join(rest));
      StandsParts(s, i + |t|, ".", Join(rest));
      StandsChar(s, i + |t|, '.');
      IdentIsRead(s, i, t, strict);
      ListIsRead(s, i + |t| + 1, rest, strict);
      ReadListIs(s, i, strict);
      assert parts == [t] + rest;
    }
  }

  lemma TaggedIsRead(s: string, i: nat, mark: char, parts: seq<string>, strict: bool)
    requires Stands(s, i, Tagged([mark], parts)) && Ends(s, i + |Tagged([mark], parts)|)
    requires forall k :: 0 <= k < |parts| ==> GoodIdent(parts[k], strict)
    requires parts == [] ==> !At(s, i, mark)
    ensures ReadTagged(s, i, mark, strict) == Got(parts, i + |Tagged([mark], parts)|)
  {
    hide GoodIdent, ReadList, Join;
    if parts != [] {
      StandsParts(s, i, [mark], Join(parts));
      StandsChar(s, i, mark);
      ListIsRead(s, i + 1, parts, strict);
    }
  }

  lemma IdentsRoundTrip(ids: seq<Ident>)
    requires forall i :: 0 <= i < |ids| ==> GoodId(ids[i])
    ensures ToIdents(IdentTexts(ids)) == ids
    ensures forall i :: 0 <= i < |ids| ==> GoodIdent(IdentTexts(ids)[i], true)
  {
    hide Print, Read;
    forall i | 0 <= i < |ids| ensures ToIdent(IdentText(ids[i])) == ids[i] && GoodIdent(IdentText(ids[i]), true) {
      if ids[i].Number? { ReadPrint(ids[i].n); }
    }
  }

  lemma CoreIsRead(s: string, v: Version)
    requires s == Format(v) && v.major <= MAX_SAFE && v.minor <= MAX_SAFE && v.patch <= MAX_SAFE
    ensures var core := Print(v.major) + "." + Print(v.minor) + "." + Print(v.patch);
            ReadCore(s) == Got((v.major, v.minor, v.patch), |core|) && Stands(s, |core|, Suffix(v))
                && |s| == |core| + |Suffix(v)|
  {
    hide Print, ReadNumber, Suffix, Stands;
    var a, b, c, x := Print(v.major), Print(v.minor), Print(v.patch), Suffix(v);
    Nested(a, b, c, x);
    WholeStands(s);
    NumberDot(s, 0, v.major, b + "." + (c + x));
    NumberDot(s, |a| + 1, v.minor, c + x);
    StandsParts(s, |a| + |b| + 2, c, x);
    LastNumber(s, |a| + |b| + 2, v);
  }

  lemma Nested(a: string, b: string, c: string, x: string)
    ensures a + "." + b + "." + c + x == a + "." + (b + "." + (c + x))
  {
    assert a + "." + b + "." + c + x == a + "." + b + "." + (c + x);
    assert a + "." + (b + "." + (c + x)) == a + "." + b + "." + (c + x);
  }

  lemma WholeStands(s: string)
    ensures Stands(s, 0, s)
  {
  }

  lemma NumberDot(s: string, i: nat, n: nat, rest: string)
    requires Stands(s, i, Print(n) + "." + rest) && n <= MAX_SAFE
    ensures ReadNumber(s, i) == Got(n, i + |Print(n)|) && At(s, i + |Print(n)|, '.')
        && Stands(s, i + |Print(n)| + 1, rest)
  {
    hide Print, ReadNumber, Stands;
    var t := Print(n);
    assert t + "." + rest == t + ("." + rest);
    StandsParts(s, i, t, "." + rest);
    StandsParts(s, i + |t|, ".", rest);
    StandsChar(s, i + |t|, '.');
    NumberIsRead(s, i, n);
  }

  lemma LastNumber(s: string, i: nat, v: Version)
    requires Stands(s, i, Print(v.patch)) && v.patch <= MAX_SAFE
    requires Stands(s, i + |Print(v.patch)|, Suffix(v)) && |s| == i + |Print(v.patch)| + |Suffix(v)|
    ensures ReadNumber(s, i) == Got(v.patch, i + |Print(v.patch)|)
  {
    hide Print, ReadNumber, Suffix;
    SuffixStart(v);
    var j, x := i + |Print(v.patch)|, Suffix(v);
    assert x != "" ==> s[j] == s[j..j + |x|][0];
    NumberIsRead(s, i, v.patch);
  }

  lemma SuffixStart(v: Version)
    ensures Suffix(v) != "" ==> Suffix(v)[0] == (if v.prerelease != [] then '-' else '+')
    ensures Suffix(v) == "" ==> v.prerelease == [] && v.build == []
  {
  }

  lemma GoodIsIdentifier(ts: seq<string>)
    ensures forall i :: 0 <= i < |ts| ==> (GoodIdent(ts[i], false) <==> Identifier(ts[i]))
  {
  }

  /** A printed version parses to itself. */
  lemma ParseFormat(v: Version)
    requires WellFormed(v)
    ensures ParseText(Format(v)) == Some(v)
  {
    hide Print, ReadCore, ReadTagged, GoodIdent, GoodId, Format, Tagged;
    var s := Format(v);
    var core := |Print(v.major) + "." + Print(v.minor) + "." + Print(v.patch)|;
    var pre, build := Tagged("-", IdentTexts(v.prerelease)), Tagged("+", v.build);
    CoreIsRead(s, v);
    StandsParts(s, core, pre, build);
    IdentsRoundTrip(v.prerelease);
    TaggedStart(s, core, v);
    GoodIsIdentifier(v.build);
    TaggedIsRead(s, core, '-', IdentTexts(v.prerelease), true);
    TaggedIsRead(s, core + |pre|, '+', v.build, false);
  }

  /** Where the two lists of a printed version begin. */
  lemma TaggedStart(s: string, i: nat, v: Version)
    requires Stands(s, i, Suffix(v)) && |s| == i + |Suffix(v)|
    ensures var pre := Tagged("-", IdentTexts(v.prerelease));
            Ends(s, i + |pre|) && (v.prerelease == [] ==> !At(s, i, '-')) && (v.build == [] ==> i + |pre| == |s|)
  {
    hide Join;
    var pre, build := Tagged("-", IdentTexts(v.prerelease)), Tagged("+", v.build);
    StandsParts(s, i, pre, build);
    if v.build != [] {
      StandsParts(s, i + |pre|, "+", Join(v.build));
      StandsChar(s, i + |pre|, '+');
    }
  }

  // ----- what is read prints back -----

  lemma {:induction false} ListPrintsBack(s: string, i: nat, strict: bool)
    requires i <= |s| && ReadList(s, i, strict).Got?
    ensures var g := ReadList(s, i, strict);
            && g.value != [] && s[i..g.next] == Join(g.value)
            && (forall k :: 0 <= k < |g.value| ==> GoodIdent(g.value[k], strict))
    decreases |s| - i
  {
    hide GoodIdent, ReadIdent, ReadList;
    ReadListIs(s, i, strict);
    IdentPrintsBack(s, i, strict);
    var first := ReadIdent(s, i, strict);
    if At(s, first.next, '.') {
      ListPrintsBack(s, first.next + 1, strict);
      var rest := ReadList(s, first.next + 1, strict);
      assert s[i..rest.next] == s[i..first.next] + "." + s[first.next + 1..rest.next];
      assert ([first.value] + rest.value)[1..] == rest.value;
    }
  }

  lemma IdentPrintsBack(s: string, i: nat, strict: bool)
    requires i <= |s| && ReadIdent(s, i, strict).Got?
    ensures var g := ReadIdent(s, i, strict);
          i <= g.next <= |s| && s[i..g.next] == g.value && GoodIdent(g.value, strict)
  {
  }

  lemma TaggedPrintsBack(s: string, i: nat, mark: char, strict: bool)
    requires i <= |s| && ReadTagged(s, i, mark, strict).Got?
    ensures var g := ReadTagged(s, i, mark, strict);
            && s[i..g.next] == Tagged([mark], g.value)
            && (forall k :: 0 <= k < |g.value| ==> GoodIdent(g.value[k], strict))
  {
    hide GoodIdent, ReadList, Join;
    if At(s, i, mark) {
      ListPrintsBack(s, i + 1, strict);
      var g := ReadList(s, i + 1, strict);
      assert s[i..g.next] == [mark] + s[i + 1..g.next];
    }
  }

  lemma TextsRoundTrip(ts: seq<string>)
    requires forall i :: 0 <= i < |ts| ==> GoodIdent(ts[i], true)
    ensures IdentTexts(ToIdents(ts)) == ts
    ensures forall i :: 0 <= i < |ts| ==> GoodId(ToIdents(ts)[i])
  {
    hide Print, Read;
    forall i | 0 <= i < |ts| ensures IdentText(ToIdent(ts[i])) == ts[i] && GoodId(ToIdent(ts[i])) {
      if AllDigits(ts[i]) { PrintRead(ts[i]); }
    }
  }

  lemma NumberPrintsBack(s: string, i: nat)
    requires i <= |s| && ReadNumber(s, i).Got?
    ensures var g := ReadNumber(s, i); i <= g.next <= |s| && s[i..g.next] == Print(g.value) && g.value <= MAX_SAFE
  {
    hide Print, Read;
    PrintRead(s[i..RunEnd(s, i, false)]);
  }

  lemma CorePrintsBack(s: string)
    requires ReadCore(s).Got?
    ensures var g := ReadCore(s);
            && g.next <= |s| && s[..g.next] == Print(g.value.0) + "." + Print(g.value.1) + "." + Print(g.value.2)
            && g.value.0 <= MAX_SAFE && g.value.1 <= MAX_SAFE && g.value.2 <= MAX_SAFE
  {
    hide Print, ReadNumber;
    var a := ReadNumber(s, 0);
    NumberPrintsBack(s, 0);
    var b := ReadNumber(s, a.next + 1);
    NumberPrintsBack(s, a.next + 1);
    var c := ReadNumber(s, b.next + 1);
    NumberPrintsBack(s, b.next + 1);
    assert s[..c.next] == s[0..a.next] + "." + s[a.next + 1..b.next] + "." + s[b.next + 1..c.next];
  }

  /** An accepted text is the printed form of its version, which is well formed. */
  lemma FormatParse(s: string)
    requires ParseText(s).Some?
    ensures var v := ParseText(s).value; WellFormed(v) && Format(v) == s
  {
    hide Print, ReadCore, ReadTagged, GoodIdent, GoodId, Tagged;
    var core := ReadCore(s);
    CorePrintsBack(s);
    var pre := ReadTagged(s, core.next, '-', true);
    TaggedPrintsBack(s, core.next, '-', true);
    var build := ReadTagged(s, pre.next, '+', false);
    TaggedPrintsBack(s, pre.next, '+', false);
    TextsRoundTrip(pre.value);
    GoodIsIdentifier(build.value);
    assert s == s[..core.next] + (s[core.next..pre.next] + s[pre.next..build.next]);
  }

  /** Parsing is exactly the inverse of printing. */
  lemma ParseIsInverse(s: string, v: Version)
    ensures ParseText(s) == Some(v) <==> WellFormed(v) && Format(v) == s
  {
    hide ParseText, WellFormed, Format;
    if ParseText(s) == Some(v) { FormatParse(s); }
    if WellFormed(v) && Format(v) == s { ParseFormat(v); }
  }

  // ----- the code -----

  ghost predicate Agrees<T>(g: Got<T>, r: Option<T>, pos: nat) {
    if g.Fail? then r.None? else r == Some(g.value) && pos == g.next
  }

  /** An index into a string. */
  class Scanner {
    const text: string
    var pos: nat

    constructor (text: string)
      ensures this.text == text && pos == 0
    {
      this.text, pos := text, 0;
    }

    method EatWhile(wide: bool) returns (value: string)
      requires pos <= |text|
      modifies this
      ensures old(pos) <= pos <= |text| && pos == RunEnd(text, old(pos), wide) && value == text[old(pos)..pos]
    {
      var start := pos;
      while pos < |text| && InClass(text[pos], wide)
        invariant start <= pos <= |text| && RunEnd(text, pos, wide) == RunEnd(text, start, wide)
      {
        pos := pos + 1;
      }
      value := text[start..pos];
    }

    method EatChar(c: char) returns (ok: bool)
      requires pos <= |text|
      modifies this
      ensures ok == At(text, old(pos), c) && pos == old(pos) + (if ok then 1 else 0) && pos <= |text|
    {
      ok := pos < |text| && text[pos] == c;
      if ok { pos := pos + 1; }
    }

    /** `readNumericIdentifier`. */
    method NumericIdentifier() returns (r: Option<nat>)
      requires pos <= |text|
      modifies this
      ensures pos <= |text| && Agrees(ReadNumber(text, old(pos)), r, pos)
    {
      var value := EatWhile(false);
      if value == "" || (|value| > 1 && value[0] == '0') || Read(value) > MAX_SAFE { return None; }
      return Some(Read(value));
    }

    /** `readIdentifier`. */
    method Identifier(strict: bool) returns (r: Option<string>)
      requires pos <= |text|
      modifies this
      ensures old(pos) <= pos <= |text| && Agrees(ReadIdent(text, old(pos), strict), r, pos)
    {
      var value := EatWhile(true);
      if value == "" { return None; }
      if strict && |value| > 1 && value[0] == '0' && AllDigits(value) { return None; }
      if strict && AllDigits(value) && Read(value) > MAX_SAFE { return None; }
      return Some(value);
    }

    /** `readIdentifierList`. */
    method IdentifierList(strict: bool) returns (r: Option<seq<string>>)
      requires pos <= |text|
      modifies this
      ensures pos <= |text| && Agrees(ReadList(text, old(pos), strict), r, pos)
    {
      hide ReadIdent;
      var first := Identifier(strict);
      if first.None? { return None; }
      var out := [first.value];
      ghost var start := pos;
      ReadListIs(text, old(pos), strict);
      var more := EatChar('.');
      while more
        invariant pos <= |text|
        invariant more ==> ReadList(text, old(pos), strict) == Prepended(out, ReadList(text, pos, strict))
        invariant !more ==> ReadList(text, old(pos), strict) == Got(out, pos)
        decreases |text| - pos, more
      {
        ghost var at := pos;
        ReadListIs(text, at, strict);
        var next := Identifier(strict);
        if next.None? { return None; }
        PrependedMore(out, next.value, text, pos, strict);
        out := out + [next.value];
        more := EatChar('.');
      }
      return Some(out);
    }
  }

  ghost function Prepended(out: seq<string>, g: Got<seq<string>>): Got<seq<string>> {
    if g.Fail? then Fail else Got(out + g.value, g.next)
  }

  lemma ReadListIs(s: string, i: nat, strict: bool)
    requires i <= |s|
    ensures var first := ReadIdent(s, i, strict);
            && (first.Fail? ==> ReadList(s, i, strict).Fail?)
            && (first.Got? && !At(s, first.next, '.') ==> ReadList(s, i, strict) == Got([first.value], first.next))
            && (first.Got? && At(s, first.next, '.') ==>
                  ReadList(s, i, strict) == Prepended([first.value], ReadList(s, first.next + 1, strict)))
  {
  }

  lemma PrependedMore(out: seq<string>, t: string, s: string, i: nat, strict: bool)
    requires i <= |s|
    ensures At(s, i, '.') ==>
              Prepended(out, Prepended([t], ReadList(s, i + 1, strict))) == Prepended(out + [t],
                  ReadList(s, i + 1, strict))
    ensures out + [t] == out + [t] + []
  {
    hide ReadList;
    if At(s, i, '.') {
      var g := ReadList(s, i + 1, strict);
      assert g.Got? ==> out + ([t] + g.value) == out + [t] + g.value;
    }
  }

  /** `parse`. */
  method Parse(s: string) returns (r: Option<Version>)
    ensures r == ParseText(s)
  {
    hide ReadNumber, ReadList;
    var sc := new Scanner(s);
    var major := sc.NumericIdentifier();
    if major.None? { return None; }
    var dot := sc.EatChar('.');
    if !dot { return None; }
    var minor := sc.NumericIdentifier();
    if minor.None? { return None; }
    dot := sc.EatChar('.');
    if !dot { return None; }
    var patch := sc.NumericIdentifier();
    if patch.None? { return None; }
    var prerelease: seq<string>, build: seq<string> := [], [];
    var marked := sc.EatChar('-');
    if marked {
      var list := sc.IdentifierList(true);
      if list.None? { return None; }
      prerelease := list.value;
    }
    marked := sc.EatChar('+');
    if marked {
      var list := sc.IdentifierList(false);
      if list.None? { return None; }
      build := list.value;
    }
    if sc.pos != |s| { return None; }
    return Some(Version(major.value, minor.value, patch.value, ToIdents(prerelease), build));
  }
}
