/** Range text of fino:semver: partial versions, tokens, hyphen ranges and alternatives, on ASCII text. */
module SemverRangeText {
  import opened Basics
  import opened Decimal
  import opened SemverOrder
  import opened SemverText
  import opened SemverRange

  // ----- partial versions -----

  /** One part of a version in a range, as it is written. */
  datatype Word = Absent | Wild(c: char) | Num(n: nat)

  /** What `parsePartialVersion` returns. */
  datatype Words = Words(major: Word, minor: Word, patch: Word, prerelease: seq<Ident>)

  predicate IsWild(c: char) { c == 'x' || c == 'X' || c == '*' }

  function WordText(w: Word): string {
    match w
    case Absent => ""
    case Wild(c) => [c]
    case Num(n) => Print(n)
  }

  function Dotted(w: Word): string { if w.Absent? then "" else "." + WordText(w) }

  function Spell(w: Words): string {
    WordText(w.major) + (Dotted(w.minor) + (Dotted(w.patch) + Tagged("-", IdentTexts(w.prerelease))))
  }

  predicate GoodWord(w: Word) { (w.Wild? ==> w.c in {'x', 'X', '*'}) && (w.Num? ==> w.n <= 9007199254740991) }

  /** The partial versions that can be written. */
  ghost predicate Spelled(w: Words) {
    && GoodWord(w.major) && GoodWord(w.minor) && GoodWord(w.patch)
    && !w.major.Absent? && (w.minor.Absent? ==> w.patch.Absent?)
    && forall i :: 0 <= i < |w.prerelease| ==> GoodId(w.prerelease[i])
  }

  function PartOf(w: Word): Option<nat> { if w.Num? then Some(w.n) else None }

  function PartialOf(w: Words): Partial { Partial(PartOf(w.major), PartOf(w.minor), PartOf(w.patch), w.prerelease) }

  /** `readXRangePart`. */
  function ReadWord(s: string, i: nat): (g: Got<Word>)
    requires i <= |s|
    ensures g.Got? ==> i < g.next <= |s| && !g.value.Absent?
  {
    if i < |s| && IsWild(s[i]) then Got(Wild(s[i]), i + 1)
    else
      var n := ReadNumber(s, i);
      if n.Fail? then Fail else Got(Num(n.value), n.next)
  }

  function ReadDotted(s: string, i: nat): (g: Got<Word>)
    requires i <= |s|
    ensures g.Got? ==> i <= g.next <= |s|
  {
    if At(s, i, '.') then ReadWord(s, i + 1) else Got(Absent, i)
  }

  /** What `parsePartialVersion` computes; `None` stands for the error. */
  function ParseWords(s: string): Option<Words> {
    var major := ReadWord(s, 0);
    if major.Fail? then None
    else
      var minor := ReadDotted(s, major.next);
      if minor.Fail? then None
      else
        var patch := if minor.value.Absent? then Got(Absent, minor.next) else ReadDotted(s, minor.next);
        if patch.Fail? then None
        else
          var pre := ReadTagged(s, patch.next, '-', true);
          if pre.Fail? || pre.next != |s| then None
          else Some(Words(major.value, minor.value, patch.value, ToIdents(pre.value)))
  }

  /** `parsePartialVersion`. */
  method ParsePartial(s: string) returns (r: Option<Words>)
    ensures r == ParseWords(s)
  {
    hide ReadNumber, ReadList;
    var sc := new Scanner(s);
    var major := XRangePart(sc);
    if major.None? { return None; }
    var minor, patch := Absent, Absent;
    var dot := sc.EatChar('.');
    if dot {
      var w := XRangePart(sc);
      if w.None? { return None; }
      minor := w.value;
      dot := sc.EatChar('.');
      if dot {
        w := XRangePart(sc);
        if w.None? { return None; }
        patch := w.value;
      }
    }
    var prerelease: seq<string> := [];
    var marked := sc.EatChar('-');
    if marked {
      var list := sc.IdentifierList(true);
      if list.None? { return None; }
      prerelease := list.value;
    }
    if sc.pos != |s| { return None; }
    return Some(Words(major.value, minor, patch, ToIdents(prerelease)));
  }

  method XRangePart(sc: Scanner) returns (r: Option<Word>)
    requires sc.pos <= |sc.text|
    modifies sc
    ensures sc.pos <= |sc.text| && Agrees(ReadWord(sc.text, old(sc.pos)), r, sc.pos)
  {
    hide ReadNumber;
    if sc.pos < |sc.text| && IsWild(sc.text[sc.pos]) {
      sc.pos := sc.pos + 1;
      return Some(Wild(sc.text[sc.pos - 1]));
    }
    var n := sc.NumericIdentifier();
    if n.None? { return None; }
    return Some(Num(n.value));
  }

  lemma NumberText(n: nat)
    ensures Print(n) != "" && forall k :: 0 <= k < |Print(n)| ==> IsDigit(Print(n)[k])
  {
    hide Print, Read;
    ReadPrint(n);
  }

  lemma WordIsRead(s: string, i: nat, w: Word)
    requires Stands(s, i, WordText(w)) && GoodWord(w) && !w.Absent?
    requires i + |WordText(w)| < |s| ==> !IsDigit(s[i + |WordText(w)|])
    ensures ReadWord(s, i) == Got(w, i + |WordText(w)|)
  {
    hide Print, ReadNumber;
    if w.Wild? {
      StandsChar(s, i, w.c);
    } else {
      NumberText(w.n);
      assert s[i] == s[i..i + |Print(w.n)|][0];
      NumberIsRead(s, i, w.n);
    }
  }

  lemma DottedIsRead(s: string, i: nat, w: Word)
    requires Stands(s, i, Dotted(w)) && GoodWord(w)
    requires i + |Dotted(w)| < |s| ==> !IsDigit(s[i + |Dotted(w)|]) && (w.Absent? ==> s[i] != '.')
    ensures ReadDotted(s, i) == Got(w, i + |Dotted(w)|)
  {
    hide ReadWord, WordText;
    if !w.Absent? {
      StandsParts(s, i, ".", WordText(w));
      StandsChar(s, i, '.');
      WordIsRead(s, i + 1, w);
    }
  }

  /** Where the parts of four stand, and what follows each. */
  lemma FourStand(s: string, a: string, b: string, c: string, d: string)
    requires s == a + (b + (c + d))
    ensures Stands(s, 0, a) && Stands(s, |a|, b) && Stands(s, |a| + |b|, c) && Stands(s, |a| + |b| + |c|, d)
    ensures |s| == |a| + |b| + |c| + |d|
  {
    hide Stands;
    WholeStands(s);
    StandsParts(s, 0, a, b + (c + d));
    StandsParts(s, |a|, b, c + d);
    StandsParts(s, |a| + |b|, c, d);
  }

  lemma FourFollow(s: string, a: string, b: string, c: string, d: string)
    requires s == a + (b + (c + d))
    ensures b + (c + d) != "" ==> |a| < |s| && s[|a|] == (b + (c + d))[0]
    ensures c + d != "" ==> |a| + |b| < |s| && s[|a| + |b|] == (c + d)[0]
    ensures d != "" ==> |a| + |b| + |c| < |s| && s[|a| + |b| + |c|] == d[0]
  {
  }

  lemma Starts(w: Word, pre: seq<string>)
    ensures Dotted(w) != "" ==> Dotted(w)[0] == '.'
    ensures Dotted(w) == "" <==> w.Absent?
    ensures Tagged("-", pre) != "" ==> Tagged("-", pre)[0] == '-'
    ensures Tagged("-", pre) == "" <==> pre == []
  {
    hide WordText, Join;
  }

  /** A spelled partial version is read as itself. */
  lemma ReadSpell(w: Words)
    requires Spelled(w)
    ensures ParseWords(Spell(w)) == Some(w)
  {
    hide ReadWord, ReadDotted, ReadTagged, WordText, GoodId, GoodIdent, IdentTexts, Stands, Tagged, Dotted, GoodWord;
    var s, pre := Spell(w), IdentTexts(w.prerelease);
    var a, b, c, d := WordText(w.major), Dotted(w.minor), Dotted(w.patch), Tagged("-", pre);
    FourStand(s, a, b, c, d);
    FourFollow(s, a, b, c, d);
    Starts(w.minor, pre);
    Starts(w.patch, pre);
    IdentsRoundTrip(w.prerelease);
    WordIsRead(s, 0, w.major);
    DottedIsRead(s, |a|, w.minor);
    DottedIsRead(s, |a| + |b|, w.patch);
    TaggedIsRead(s, |a| + |b| + |c|, '-', pre, true);
  }

  lemma WordPrintsBack(s: string, i: nat)
    requires i <= |s| && ReadWord(s, i).Got?
    ensures var g := ReadWord(s, i); s[i..g.next] == WordText(g.value) && GoodWord(g.value)
  {
    hide Print, ReadNumber;
    if !(i < |s| && IsWild(s[i])) { NumberPrintsBack(s, i); }
  }

  lemma DottedPrintsBack(s: string, i: nat)
    requires i <= |s| && ReadDotted(s, i).Got?
    ensures var g := ReadDotted(s, i); s[i..g.next] == Dotted(g.value) && GoodWord(g.value)
  {
    hide ReadWord, WordText;
    if At(s, i, '.') {
      WordPrintsBack(s, i + 1);
      assert s[i..ReadDotted(s, i).next] == "." + s[i + 1..ReadDotted(s, i).next];
    }
  }

  /** A text that is read is the spelling of what was read. */
  lemma SpellRead(s: string)
    requires ParseWords(s).Some?
    ensures Spelled(ParseWords(s).value) && Spell(ParseWords(s).value) == s
  {
    hide ReadWord, ReadDotted, ReadTagged, WordText, GoodId, GoodIdent, IdentTexts, Tagged, Dotted, GoodWord;
    var major := ReadWord(s, 0);
    WordPrintsBack(s, 0);
    var minor := ReadDotted(s, major.next);
    DottedPrintsBack(s, major.next);
    AbsentIsNothing();
    var patch := if minor.value.Absent? then Got(Absent, minor.next) else ReadDotted(s, minor.next);
    if !minor.value.Absent? { DottedPrintsBack(s, minor.next); }
    var pre := ReadTagged(s, patch.next, '-', true);
    TaggedPrintsBack(s, patch.next, '-', true);
    TextsRoundTrip(pre.value);
    FourParts(s, major.next, minor.next, patch.next);
  }

  lemma AbsentIsNothing()
    ensures Dotted(Absent) == "" && GoodWord(Absent)
  {
  }

  lemma FourParts(s: string, i: nat, j: nat, k: nat)
    requires i <= j <= k <= |s|
    ensures s == s[0..i] + (s[i..j] + (s[j..k] + s[k..|s|])) && s[j..j] == ""
  {
    assert s[j..k] + s[k..|s|] == s[j..|s|];
    assert s[i..j] + s[j..|s|] == s[i..|s|];
  }

  /** Reading a partial version is exactly the inverse of spelling it. */
  lemma WordsAreInverse(s: string, w: Words)
    ensures ParseWords(s) == Some(w) <==> Spelled(w) && Spell(w) == s
  {
    hide ParseWords, Spelled, Spell;
    if ParseWords(s) == Some(w) { SpellRead(s); }
    if Spelled(w) && Spell(w) == s { ReadSpell(w); }
  }
}
