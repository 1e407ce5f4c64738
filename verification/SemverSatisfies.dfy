/** `satisfies` and `maxSatisfying` of fino:semver on text, and what the written range forms accept. */
module SemverSatisfies {
  import opened Basics
  import opened SemverOrder
  import opened SemverRange
  import opened SemverRangeText
  import opened SemverRangeParse
  import SemverText

  /** Some alternative accepts the version. */
  ghost predicate Meets(v: Version, css: seq<seq<Comparator>>) {
    exists i :: 0 <= i < |css| && Accepts(v, css[i])
  }

  lemma MeetsIsSatisfied(v: Version, sets: seq<RangeSet>)
    ensures Satisfied(v, sets) <==> Meets(v, Lists(sets))
  {
    hide Accepts;
    assert forall i :: 0 <= i < |sets| ==> Lists(sets)[i] == sets[i].comparators;
  }

  /** `satisfies`: `None` stands for the error on an invalid version or range. */
  method SatisfiesText(version: string, range: string) returns (r: Option<bool>)
    ensures r.None? <==> SemverText.ParseText(version).None? || RangeOf(range).None?
    ensures r.Some? ==> (r.value <==> Meets(SemverText.ParseText(version).value, RangeOf(range).value))
  {
    hide RangeOf, SemverText.ParseText, Meets, Satisfied, Built, Lists;
    var v := SemverText.Parse(version);
    if v.None? { return None; }
    var sets := ParseRange(range);
    if sets.None? { return None; }
    MeetsIsSatisfied(v.value, sets.value);
    var ok := Satisfies(v.value, sets.value);
    return Some(ok);
  }

  /** `maxSatisfying`; without versions the range is not looked at. */
  method MaxSatisfyingText(texts: seq<string>, range: string) returns (r: Option<Option<string>>)
    ensures r.None? <==>
              && texts != []
              && (RangeOf(range).None? || exists i :: 0 <= i < |texts| && SemverText.ParseText(texts[i]).None?)
    ensures r == Some(None) ==> forall i :: 0 <= i < |texts| ==> !Meets(Parsed(texts)[i], RangeOf(range).value)
    ensures r.Some? && r.value.Some? ==>
              exists k :: 0 <= k < |texts| && r.value.value == texts[k]
                          && IsGreatest(Parsed(texts), RangeOf(range).value, k)
  {
    hide RangeOf, SemverText.ParseText, Meets, Satisfied, Built, Lists, Precedes;
    if texts == [] { return Some(None); }
    var sets := ParseRange(range);
    if sets.None? { return None; }
    r := MaxSatisfying(texts, sets.value);
    if r.Some? {
      forall i | 0 <= i < |texts| ensures Satisfied(Parsed(texts)[i], sets.value) <==>
                                          Meets(Parsed(texts)[i], RangeOf(range).value) {
        MeetsIsSatisfied(Parsed(texts)[i], sets.value);
      }
    }
  }

  /** Version number `k` is a greatest one that meets the range, and the first such. */
  ghost predicate IsGreatest(vs: seq<Version>, css: seq<seq<Comparator>>, k: nat) {
    && k < |vs| && Meets(vs[k], css)
    && (forall i :: 0 <= i < |vs| && Meets(vs[i], css) ==> !Precedes(vs[k], vs[i]))
    && (forall i :: 0 <= i < k && Meets(vs[i], css) ==> Precedes(vs[i], vs[k]))
  }

  // ----- range texts of one token -----

  /** What a range with these comparators comes to: a range that compares nothing has no alternative left. */
  function Alternatives(cs: seq<Comparator>): seq<seq<Comparator>> { if cs == [] then [] else [cs] }

  lemma {:induction false} NoBars(s: string)
    requires '|' !in s
    ensures SplitBars(s) == [s]
  {
    if s != "" {
      assert s[0] in s && s == [s[0]] + s[1..];
      assert |s| >= 2 ==> s[..2][0] == s[0];
      NoBars(s[1..]);
    }
  }

  lemma TrimToken(t: string)
    requires t != "" && !IsSpace(t[0]) && !IsSpace(t[|t| - 1])
    ensures Trim(t) == t
  {
  }

  lemma OneBranch(t: string, cs: Option<seq<Comparator>>)
    requires t != "" && !IsSpace(t[0]) && !IsSpace(t[|t| - 1]) && '|' !in t && !Anything(t) && Branch(t) == cs
    ensures RangeOf(t) == if cs.None? then None else Some(Alternatives(cs.value))
  {
    hide Trim, SplitBars, Branch, Anything;
    TrimToken(t);
    NoBars(t);
    assert [t][..0] == [];
    if cs.Some? {
      assert Branches([t]) == Some([] + [cs.value]) && [] + [cs.value] == [cs.value];
      OneAlternative(cs.value);
    }
  }

  lemma OneAlternative(cs: seq<Comparator>)
    ensures NonEmpty([cs]) == Alternatives(cs)
  {
    assert [cs][..0] == [];
    assert NonEmpty([]) + Alternatives(cs) == Alternatives(cs);
  }

  lemma OneToken(t: string)
    requires IsToken(t) && '|' !in t && !Anything(t)
    ensures RangeOf(t) == if Expand(t).None? then None else Some(Alternatives(Expand(t).value))
  {
    hide RangeOf, Expand, Anything;
    TokenBranch(t);
    OneBranch(t, Expand(t));
  }

  lemma TokenBranch(t: string)
    requires IsToken(t)
    ensures Branch(t) == Expand(t)
  {
    hide Expand, Tokens;
    TokenFirst(t, "");
    NoTokens();
    assert t + "" == t && [t] + [] == [t];
    assert Hyphens([t]) == [t] + Hyphens([]) by { assert [t][1..] == []; }
    assert ExpandAll([t]) == Expand(t) by {
      assert [t][..0] == [];
      assert Expand(t).Some? ==> [] + Expand(t).value == Expand(t).value;
    }
  }

  /** What spelled partial versions are made of. */
  predicate Plain(s: string) {
    forall k :: 0 <= k < |s| ==> SemverText.IsIdentChar(s[k]) || s[k] == '.' || s[k] == '*'
  }

  lemma PlainIsToken(s: string)
    requires Plain(s) && s != ""
    ensures IsToken(s) && '|' !in s
  {
  }

  lemma PlainParts(a: string, b: string)
    requires Plain(a) && Plain(b)
    ensures Plain(a + b)
  {
  }

  lemma {:induction false} PlainJoin(parts: seq<string>)
    requires forall i :: 0 <= i < |parts| ==> SemverText.GoodIdent(parts[i], true)
    ensures Plain(SemverText.Join(parts))
  {
    if |parts| > 1 {
      PlainJoin(parts[1..]);
      PlainParts(parts[0], ".");
      PlainParts(parts[0] + ".", SemverText.Join(parts[1..]));
    }
  }

  lemma PlainWord(w: Word)
    requires GoodWord(w)
    ensures Plain(WordText(w)) && Plain(Dotted(w))
    ensures !w.Absent? ==> WordText(w) != "" && (SemverText.InClass(WordText(w)[0], false) || IsWild(WordText(w)[0]))
    ensures w.Wild? ==> WordText(w) == [w.c]
    ensures w.Num? ==> SemverText.InClass(WordText(w)[0], false)
  {
    if w.Num? { NumberText(w.n); }
  }

  /** A spelling is one token that starts with a digit or a wildcard. */
  lemma SpellIsToken(w: Words)
    requires Spelled(w)
    ensures IsToken(Spell(w)) && '|' !in Spell(w) && Spell(w)[0] == WordText(w.major)[0]
    ensures SemverText.InClass(Spell(w)[0], false) || IsWild(Spell(w)[0])
    ensures w.major.Num? ==> SemverText.InClass(Spell(w)[0], false)
  {
    hide WordText, Dotted, GoodWord, Plain, SemverText.Tagged, SemverText.IdentTexts, SemverText.GoodIdent, IsToken;
    var pre := SemverText.IdentTexts(w.prerelease);
    var a, b, c, d := WordText(w.major), Dotted(w.minor), Dotted(w.patch), SemverText.Tagged("-", pre);
    PlainWord(w.major);
    PlainWord(w.minor);
    PlainWord(w.patch);
    SemverText.IdentsRoundTrip(w.prerelease);
    PlainTagged(pre);
    PlainParts(c, d);
    PlainParts(b, c + d);
    PlainParts(a, b + (c + d));
    PlainIsToken(Spell(w));
  }

  lemma PlainTagged(pre: seq<string>)
    requires forall i :: 0 <= i < |pre| ==> SemverText.GoodIdent(pre[i], true)
    ensures Plain(SemverText.Tagged("-", pre))
  {
    hide SemverText.GoodIdent, SemverText.Join;
    PlainJoin(pre);
  }

  /** A sign in front of a spelling. */
  lemma SignedToken(sign: string, w: Words)
    requires Spelled(w) && sign in {"^", "~", "<", ">", "<=", ">="}
    ensures var t := sign + Spell(w);
            IsToken(t) && '|' !in t && !Anything(t) && t[0] == sign[0] && t[|sign|..] == Spell(w)
  {
    hide Spell, Spelled;
    SpellIsToken(w);
    var t := sign + Spell(w);
    assert forall k :: |sign| <= k < |t| ==> t[k] == Spell(w)[k - |sign|];
    assert Lower(t[0]) != 'l';
  }

  /** Each written form is read as the comparators it stands for. */
  lemma CaretText(w: Words)
    requires Spelled(w)
    ensures RangeOf("^" + Spell(w)) == Some([Caret(PartialOf(w))])
  {
    hide RangeOf, ParseWords, Spell, Spelled, Anything, IsToken;
    SignedToken("^", w);
    OneToken("^" + Spell(w));
    ReadSpell(w);
  }

  lemma TildeText(w: Words)
    requires Spelled(w)
    ensures RangeOf("~" + Spell(w)) == Some([Tilde(PartialOf(w))])
  {
    hide RangeOf, ParseWords, Spell, Spelled, Anything, IsToken;
    SignedToken("~", w);
    OneToken("~" + Spell(w));
    ReadSpell(w);
  }

  function OpText(op: Op): string {
    match op
    case Same => ""
    case Above => ">"
    case AtLeast => ">="
    case Below => "<"
    case AtMost => "<="
  }

  lemma OperatorRead(op: Op, w: Words)
    requires Spelled(w)
    ensures var t := OpText(op) + Spell(w);
            && Operator(t) == (op, |OpText(op)|) && t[|OpText(op)|..] == Spell(w) && |t| > |OpText(op)|
            && t[0] !in {'^', '~'} && (!op.Same? ==> t !in {"", "*", "x", "X"})
  {
    hide Spell, Spelled;
    SpellIsToken(w);
    var t := OpText(op) + Spell(w);
    assert |OpText(op)| == 2 ==> t[..2] == OpText(op);
    assert |OpText(op)| == 1 && |t| >= 2 ==> t[..2][1] == Spell(w)[0];
    assert op.Same? ==> t == Spell(w) && (|t| >= 2 ==> t[..2][0] == t[0]);
  }

  lemma ExpandComparator(op: Op, w: Words)
    requires Spelled(w)
    ensures Expand(OpText(op) + Spell(w)) == Some(FromParts(op, PartialOf(w)))
  {
    hide ParseWords, Spell, Spelled, Operator;
    OperatorRead(op, w);
    ReadSpell(w);
    var t := OpText(op) + Spell(w);
    if t in {"*", "x", "X"} {
      assert t == Spell(w);
      WildIsWild(w);
    }
  }

  lemma WildIsWild(w: Words)
    requires Spelled(w) && Spell(w) in {"*", "x", "X"}
    ensures PartialOf(w).major.None?
  {
    hide Spell, Spelled;
    SpellIsToken(w);
  }

  lemma NotLatest(w: Words)
    requires Spelled(w) && Spell(w) != "*"
    ensures !Anything(Spell(w))
  {
    hide Spell, Spelled;
    SpellIsToken(w);
    assert Lower(Spell(w)[0]) != 'l';
  }

  lemma ComparatorText(op: Op, w: Words)
    requires Spelled(w) && OpText(op) + Spell(w) != "*"
    ensures RangeOf(OpText(op) + Spell(w)) == Some(Alternatives(FromParts(op, PartialOf(w))))
  {
    hide RangeOf, Expand, Spell, Spelled, IsToken, FromParts, Anything;
    ExpandComparator(op, w);
    if op.Same? {
      SpellIsToken(w);
      assert "" + Spell(w) == Spell(w);
      NotLatest(w);
    } else {
      SignedToken(OpText(op), w);
    }
    OneToken(OpText(op) + Spell(w));
  }

  lemma HyphenText(low: Words, high: Words)
    requires Spelled(low) && Spelled(high)
    ensures RangeOf(Spell(low) + (" - " + Spell(high))) == Some(Alternatives(Hyphen(PartialOf(low), PartialOf(high))))
  {
    hide RangeOf, Expand, Spell, Spelled, FromParts, Branch;
    var a, b := Spell(low), Spell(high);
    var t := a + (" - " + b);
    SpellIsToken(low);
    SpellIsToken(high);
    assert t[0] == a[0] && t[|t| - 1] == b[|b| - 1];
    assert '|' !in t;
    assert Lower(t[0]) != 'l' && |t| > 1;
    HyphenBranch(a, b);
    ExpandComparator(AtLeast, low);
    ExpandComparator(AtMost, high);
    OneBranch(t, Branch(t));
  }

  lemma HyphenBranch(a: string, b: string)
    requires IsToken(a) && IsToken(b)
    ensures var x, y := Expand(">=" + a), Expand("<=" + b);
            Branch(a + (" - " + b)) == if x.None? || y.None? then None else Some(x.value + y.value)
  {
    hide Expand, Tokens;
    TokenFirst(a, " - " + b);
    SpaceFirst(' ', "- " + b);
    assert " - " + b == [' '] + ("- " + b) && "- " + b == "-" + (" " + b);
    TokenFirst("-", " " + b);
    SpaceFirst(' ', b);
    TokenFirst(b, "");
    NoTokens();
    assert b + "" == b && " " + b == [' '] + b;
    assert Tokens(a + (" - " + b)) == [a, "-", b];
    HyphensThree(a, b);
    ExpandTwo(">=" + a, "<=" + b);
  }

  lemma HyphensThree(a: string, b: string)
    requires IsToken(a) && IsToken(b)
    ensures Hyphens([a, "-", b]) == [">=" + a, "<=" + b]
  {
    assert [a, "-", b][3..] == [];
    assert Bounds(a, b) + [] == Bounds(a, b);
  }

  lemma ExpandTwo(s: string, t: string)
    ensures var x, y := Expand(s), Expand(t);
            ExpandAll([s, t]) == if x.None? || y.None? then None else Some(x.value + y.value)
  {
    hide Expand;
    assert [s, t][..1] == [s] && [s][..0] == [];
    assert Expand(s).Some? ==> [] + Expand(s).value == Expand(s).value;
    assert ExpandAll([s]) == Expand(s);
  }

  /** The tokens of an alternative are conditions that all have to hold. */
  lemma {:induction false} ConjunctionMeans(v: Version, ts: seq<string>)
    ensures ExpandAll(ts).Some? <==> forall i :: 0 <= i < |ts| ==> Expand(ts[i]).Some?
    ensures ExpandAll(ts).Some? ==>
              (All(v, ExpandAll(ts).value) <==> forall i :: 0 <= i < |ts| ==> All(v, Expand(ts[i]).value))
  {
    hide Expand, All;
    if ts == [] {
      assert All(v, []) by { NothingAsked(v); }
    } else {
      var front, last := ts[..|ts| - 1], ts[|ts| - 1];
      ConjunctionMeans(v, front);
      assert forall i :: 0 <= i < |front| ==> front[i] == ts[i];
      if ExpandAll(ts).Some? { AllOfBoth(v, ExpandAll(front).value, Expand(last).value); }
    }
  }

  lemma NothingAsked(v: Version)
    ensures All(v, [])
  {
  }

  /** Without a lone hyphen the tokens are taken as they are. */
  lemma {:induction false} NoHyphenStays(ts: seq<string>)
    requires forall i :: 0 <= i < |ts| ==> IsToken(ts[i]) && ts[i] != "-"
    ensures Hyphens(ts) == ts
  {
    if ts != [] {
      NoHyphenStays(ts[1..]);
      assert ts == [ts[0]] + ts[1..];
    }
  }

  // ----- alternatives -----

  lemma {:induction false} StartTrimmed(a: string, r: string)
    requires r != "" && !IsSpace(r[0])
    ensures TrimStart(a + r) == TrimStart(a) + r
  {
    if a == "" {
      assert a + r == r;
    } else {
      assert (a + r)[1..] == a[1..] + r;
      StartTrimmed(a[1..], r);
    }
  }

  lemma {:induction false} EndTrimmed(l: string, b: string)
    requires l != "" && !IsSpace(l[|l| - 1])
    ensures TrimEnd(l + b) == l + TrimEnd(b)
  {
    if b == "" {
      assert l + b == l;
    } else {
      assert (l + b)[..|l + b| - 1] == l + b[..|b| - 1];
      EndTrimmed(l, b[..|b| - 1]);
    }
  }

  lemma {:induction false} BarsBetween(a: string, b: string)
    requires '|' !in a
    ensures SplitBars(a + ("||" + b)) == [a] + SplitBars(b)
  {
    var t := a + ("||" + b);
    if a == "" {
      assert t == "||" + b && t[..2] == "||" && t[2..] == b;
    } else {
      assert a[0] in a && t[0] == a[0] && t[..2][0] == a[0];
      assert t[1..] == a[1..] + ("||" + b);
      BarsBetween(a[1..], b);
      assert [a[0]] + a[1..] == a;
      assert ([a[1..]] + SplitBars(b))[1..] == SplitBars(b);
    }
  }

  lemma {:induction false} TrimKeepsOut(s: string)
    requires '|' !in s
    ensures '|' !in TrimStart(s) && '|' !in TrimEnd(s)
  {
    if s != "" {
      TrimKeepsOut(s[1..]);
      TrimKeepsOut(s[..|s| - 1]);
    }
  }

  /** Two alternatives are both tried, and an error in one is an error. */
  lemma OrText(a: string, b: string)
    requires '|' !in a && '|' !in b
    ensures RangeOf(a + ("||" + b)) ==
            if Branch(a).None? || Branch(b).None? then None
            else Some(Alternatives(Branch(a).value) + Alternatives(Branch(b).value))
  {
    hide Branch, SplitBars, TrimStart, TrimEnd, Anything, Branches, NonEmpty;
    var x, y := TrimStart(a), TrimEnd(b);
    StartTrimmed(a, "||" + b);
    EndTrimmed(x + "||", b);
    assert x + ("||" + b) == x + "||" + b && x + "||" + y == x + ("||" + y);
    TrimKeepsOut(a);
    TrimKeepsOut(b);
    BarsBetween(x, y);
    NoBars(y);
    SameBranch(a, x);
    SameBranch(b, y);
    NotAnything(x, y);
    TwoBranches(x, y);
    assert [x] + [y] == [x, y];
    assert Trim(a + ("||" + b)) == x + ("||" + y);
  }

  /** An alternative without a token is an error. */
  lemma BlankIsError(a: string, b: string)
    requires '|' !in b && Blank(a)
    ensures RangeOf(a + ("||" + b)).None? && RangeOf(b + ("||" + a)).None?
  {
    hide RangeOf, Tokens;
    TokensMean(a, "-", "");
    OrText(a, b);
    OrText(b, a);
  }

  lemma SameBranch(s: string, t: string)
    requires t == TrimStart(s) || t == TrimEnd(s)
    ensures Branch(t) == Branch(s)
  {
    hide Tokens, ExpandAll, Hyphens;
    TokensTrimmed(s);
  }

  lemma NotAnything(x: string, y: string)
    ensures !Anything(x + ("||" + y))
  {
    var t := x + ("||" + y);
    assert t[|x|] == '|' && Lower('|') == '|';
    assert |t| >= 2;
  }

  lemma TwoBranches(x: string, y: string)
    ensures Branches([x, y]) == if Branch(x).None? || Branch(y).None? then None
                                else Some([Branch(x).value, Branch(y).value])
    ensures Branch(x).Some? && Branch(y).Some? ==>
              NonEmpty([Branch(x).value, Branch(y).value]) ==
              Alternatives(Branch(x).value) + Alternatives(Branch(y).value)
  {
    hide Branch, Branches, NonEmpty, Alternatives;
    LastBranch([], x);
    LastBranch([x], y);
    assert [] + [x] == [x] && [x] + [y] == [x, y];
    if Branch(x).Some? && Branch(y).Some? {
      var p, q := Branch(x).value, Branch(y).value;
      assert [] + [p] == [p] && [p] + [q] == [p, q];
      OneAlternative(p);
      LastAlternative([p], q);
    }
  }

  lemma LastBranch(bs: seq<string>, b: string)
    ensures Branches(bs + [b]) == if Branches(bs).None? || Branch(b).None? then None
                                  else Some(Branches(bs).value + [Branch(b).value])
    ensures Branches([]) == Some([])
  {
    hide Branch;
    assert (bs + [b])[..|bs|] == bs;
  }

  lemma LastAlternative(css: seq<seq<Comparator>>, cs: seq<Comparator>)
    ensures NonEmpty(css + [cs]) == NonEmpty(css) + Alternatives(cs)
  {
    assert (css + [cs])[..|css|] == css;
  }

  // ----- what the texts accept -----

  lemma MeetsOne(v: Version, cs: seq<Comparator>)
    requires Release(v)
    ensures Meets(v, [cs]) <==> All(v, cs)
    ensures !Meets(v, [])
  {
    hide All;
    assert [cs][0] == cs;
  }

  // Partial versions as they are written: an absent part and a wildcard count as zero where a number is needed.

  ghost function Counted(w: Word): nat { if w.Num? then w.n else 0 }

  /** The three numbers of `v` come before those of `w`. */
  ghost predicate Under(v: Version, w: Words) {
    || v.major < Counted(w.major)
    || (v.major == Counted(w.major)
        && (v.minor < Counted(w.minor) || (v.minor == Counted(w.minor) && v.patch < Counted(w.patch))))
  }

  /** `v` is at most everything that `w` names. */
  ghost predicate Within(v: Version, w: Words)
    requires w.major.Num?
  {
    || v.major < w.major.n
    || (v.major == w.major.n
        && (!w.minor.Num? || v.minor < w.minor.n
            || (v.minor == w.minor.n
                && (!w.patch.Num? || v.patch < w.patch.n || (v.patch == w.patch.n && w.prerelease == [])))))
  }

  /** `v` has the numbers that `w` names; a patch number after a wildcard is a lower bound. */
  ghost predicate Fits(v: Version, w: Words)
    requires w.major.Num?
  {
    && v.major == w.major.n && (w.minor.Num? ==> v.minor == w.minor.n)
    && (w.minor.Num? && w.patch.Num? ==> v.patch == w.patch.n && w.prerelease == [])
    && (!w.minor.Num? && w.patch.Num? ==> v.minor > 0 || v.patch >= w.patch.n)
  }

  lemma UnderIsLess(v: Version, w: Words)
    ensures Under(v, w) <==> TripleLess(v, Full(PartialOf(w)))
    ensures w.major.Num? ==> (Within(v, w) <==> UpTo(v, PartialOf(w)))
  {
  }

  /** A written caret range: not below, and the same up to the leftmost number that is not zero. */
  lemma CaretTextMeans(v: Version, w: Words)
    requires Release(v) && Spelled(w)
    ensures var r := RangeOf("^" + Spell(w));
            r.Some? && (Meets(v, r.value) <==>
                          && !Under(v, w) && v.major == Counted(w.major)
                          && (Counted(w.major) == 0 ==>
                                && v.minor == Counted(w.minor)
                                && (Counted(w.minor) == 0 ==> v.patch == Counted(w.patch))))
  {
    hide RangeOf, Spell, Spelled, Meets, All, TripleLess, Under;
    CaretText(w);
    MeetsOne(v, Caret(PartialOf(w)));
    CaretMeans(v, PartialOf(w));
    UnderIsLess(v, w);
  }

  /** A written tilde range that names a major number: not below, with the major and any minor number it names. */
  lemma TildeTextMeans(v: Version, w: Words)
    requires Release(v) && Spelled(w) && w.major.Num?
    ensures var r := RangeOf("~" + Spell(w));
            r.Some? && (Meets(v, r.value) <==>
                          !Under(v, w) && v.major == w.major.n && (w.minor.Num? ==> v.minor == w.minor.n))
  {
    hide RangeOf, Spell, Spelled, Meets, All, TripleLess, Tilde, Under;
    TildeText(w);
    MeetsOne(v, Tilde(PartialOf(w)));
    TildeMeans(v, PartialOf(w));
    UnderIsLess(v, w);
  }

  /** A written hyphen range of numbered versions is the interval from the one to all that the other names. */
  lemma HyphenTextMeans(v: Version, low: Words, high: Words)
    requires Release(v) && Spelled(low) && Spelled(high) && low.major.Num? && high.major.Num?
    ensures var r := RangeOf(Spell(low) + (" - " + Spell(high)));
            r.Some? && (Meets(v, r.value) <==> !Under(v, low) && Within(v, high))
  {
    hide RangeOf, Spell, Spelled, Meets, All, TripleLess, UpTo, Under, Within;
    var p, q := PartialOf(low), PartialOf(high);
    HyphenText(low, high);
    assert Hyphen(p, q) != [];
    MeetsOne(v, Hyphen(p, q));
    HyphenMeans(v, p, q);
    UnderIsLess(v, low);
    UnderIsLess(v, high);
  }

  /** A written comparison: with missing parts, `>` is above and `<` below everything that is named. */
  lemma ComparatorTextMeans(v: Version, op: Op, w: Words)
    requires Release(v) && Spelled(w) && w.major.Num?
    ensures var r := RangeOf((match op case Same => "" case Above => ">" case AtLeast => ">=" case Below => "<"
                              case AtMost => "<=") + Spell(w));
            r.Some? && (Meets(v, r.value) <==>
                          match op
                          case Same => Fits(v, w)
                          case Above => !Within(v, w)
                          case AtLeast => !Under(v, w)
                          case Below => Under(v, w)
                          case AtMost => Within(v, w))
  {
    hide RangeOf, Spell, Spelled, Meets, All, TripleLess, UpTo, Under, Within, FromParts, XRange;
    var p := PartialOf(w);
    NumberFirst(op, w);
    ComparatorText(op, w);
    MeetsOne(v, FromParts(op, p));
    FromPartsMeans(v, op, p);
    XRangeMeans(v, p);
    UnderIsLess(v, w);
  }

  lemma NumberFirst(op: Op, w: Words)
    requires Spelled(w) && w.major.Num?
    ensures OpText(op) + Spell(w) != "*"
  {
    hide Spell, Spelled;
    SpellIsToken(w);
    assert (OpText(op) + Spell(w))[|OpText(op)|] == Spell(w)[0];
  }

  /** How a version compares with a whole one, prereleases included. */
  ghost predicate Compares(v: Version, op: Op, target: Version) {
    match op
    case Same => SameTriple(v, target) && v.prerelease == target.prerelease
    case Above => Precedes(target, v)
    case AtLeast => !Precedes(v, target)
    case Below => Precedes(v, target)
    case AtMost => !Precedes(target, v)
  }

  /** A comparison with a whole version, for every version: a prerelease needs one with the same three numbers. */
  lemma WholeTextMeans(v: Version, op: Op, w: Words)
    requires Spelled(w) && w.major.Num? && w.minor.Num? && w.patch.Num?
    ensures var r := RangeOf((match op case Same => "" case Above => ">" case AtLeast => ">=" case Below => "<"
                              case AtMost => "<=") + Spell(w));
            var target := Version(w.major.n, w.minor.n, w.patch.n, w.prerelease, []);
            r.Some? && (Meets(v, r.value) <==>
                          && Compares(v, op, target)
                          && (v.prerelease == [] || (w.prerelease != [] && SameTriple(v, target))))
  {
    hide RangeOf, Spell, Spelled, Precedes;
    NumberFirst(op, w);
    ComparatorText(op, w);
    var target := Version(w.major.n, w.minor.n, w.patch.n, w.prerelease, []);
    var cs := [Comparator(op, target)];
    assert FromParts(op, PartialOf(w)) == cs;
    assert All(v, cs) <==> Holds(v, cs[0]);
    assert Accepts(v, cs) <==> Meets(v, [cs]) by { assert [cs][0] == cs; }
    assert (exists i :: 0 <= i < |cs| && !Release(cs[i].version) && SameTriple(v, cs[i].version)) <==>
           !Release(cs[0].version) && SameTriple(v, cs[0].version);
  }

  /** A prerelease is in a caret or tilde range only beside a prerelease of the same three numbers, and not below it. */
  lemma PrereleaseTextMeans(v: Version, w: Words)
    requires !Release(v) && Spelled(w)
    ensures var r, s := RangeOf("^" + Spell(w)), RangeOf("~" + Spell(w));
            var lower := Version(Counted(w.major), Counted(w.minor), Counted(w.patch), w.prerelease, []);
            var beside := w.prerelease != [] && SameTriple(v, lower) && !Precedes(v, lower);
            r.Some? && s.Some? && (Meets(v, r.value) <==> beside) && (Meets(v, s.value) <==> beside)
  {
    hide RangeOf, Spell, Spelled, Precedes, Accepts;
    CaretText(w);
    TildeText(w);
    var lower := Version(Counted(w.major), Counted(w.minor), Counted(w.patch), w.prerelease, []);
    var up1, up2 := Caret(PartialOf(w))[1].version, Tilde(PartialOf(w))[1].version;
    BesidePrerelease(v, lower, up1);
    BesidePrerelease(v, lower, up2);
    assert [Between(lower, up1)][0] == Between(lower, up1) && [Between(lower, up2)][0] == Between(lower, up2);
  }

  lemma BesidePrerelease(v: Version, lower: Version, upper: Version)
    requires !Release(v) && Release(upper) && TripleLess(lower, upper)
    ensures Accepts(v, Between(lower, upper)) <==>
              lower.prerelease != [] && SameTriple(v, lower) && !Precedes(v, lower)
  {
    hide ListPrecedes;
    var cs := Between(lower, upper);
    assert All(v, cs) <==> Holds(v, cs[0]) && Holds(v, cs[1]);
    assert (exists i :: 0 <= i < |cs| && !Release(cs[i].version) && SameTriple(v, cs[i].version)) <==>
           !Release(cs[0].version) && SameTriple(v, cs[0].version);
  }

  /**
   * A partial version alone, like `x.1` or `1.x`. With a number in front it accepts something; with a wildcard in
   * front it accepts nothing at all, unless it is the text `*`, which accepts everything.
   */
  lemma WildRange(w: Words)
    requires Spelled(w)
    ensures RangeOf(Spell(w)) == Some([]) <==> w.major.Wild? && Spell(w) != "*"
    ensures Spell(w) == "*" ==> RangeOf(Spell(w)) == Some([[]])
    ensures w.major.Num? ==> RangeOf(Spell(w)) == Some([FromParts(Same, PartialOf(w))])
  {
    hide RangeOf, Spell;
    SpellIsToken(w);
    if Spell(w) == "*" {
      StarIsAnything();
    } else {
      assert OpText(Same) + Spell(w) == Spell(w);
      ComparatorText(Same, w);
    }
  }

  /** Everything is accepted, prereleases too, exactly by nothing, a star or `latest` in any letter case. */
  lemma EverythingText(before: string, t: string, after: string)
    requires Blank(before) && Blank(after) && (t != "" ==> !Blank(t[..1]) && !Blank(t[|t| - 1..]))
    ensures RangeOf(before + (t + after)) == Some([[]]) <==>
              t == "" || t == "*" || (|t| == 6 && forall i :: 0 <= i < 6 ==> t[i] == "latest"[i] || t[i] == "LATEST"[i])
  {
    hide Branches, SplitBars, TrimStart, TrimEnd, NonEmpty;
    Trimmed(before, t, after);
    assert |t| == 6 ==> forall i :: 0 <= i < 6 ==>
                                      (Lower(t[i]) == "latest"[i] <==> t[i] == "latest"[i] || t[i] == "LATEST"[i]);
    var css := Branches(SplitBars(t));
    if css.Some? {
      NoneIsEmpty(css.value);
      assert NonEmpty(css.value) != [[]] by {
        if |NonEmpty(css.value)| == 1 { assert NonEmpty(css.value)[0] != []; }
      }
    }
  }

  lemma {:induction false} NoneIsEmpty(css: seq<seq<Comparator>>)
    ensures forall i :: 0 <= i < |NonEmpty(css)| ==> NonEmpty(css)[i] != []
  {
    if css != [] { NoneIsEmpty(css[..|css| - 1]); }
  }

  lemma {:induction false} BlankTrimmed(s: string)
    requires Blank(s)
    ensures TrimStart(s) == "" && TrimEnd(s) == ""
  {
    if s != "" {
      BlankTrimmed(s[1..]);
      BlankTrimmed(s[..|s| - 1]);
    }
  }

  lemma Trimmed(before: string, t: string, after: string)
    requires Blank(before) && Blank(after) && (t != "" ==> !Blank(t[..1]) && !Blank(t[|t| - 1..]))
    ensures Trim(before + (t + after)) == t
  {
    hide TrimStart, TrimEnd;
    if t == "" {
      assert before + (t + after) == before + after && Blank(before + after);
      BlankTrimmed(before + after);
      BlankTrimmed("");
    } else {
      BlankTrimmed(before);
      BlankTrimmed(after);
      assert (t + after)[0] == t[0];
      StartTrimmed(before, t + after);
      assert "" + (t + after) == t + after && t + "" == t;
      EndTrimmed(t, after);
    }
  }

  lemma StarIsAnything()
    ensures RangeOf("*") == Some([[]])
  {
    TrimToken("*");
  }

  /** `x` alone, and `*` beside another alternative, accept nothing. */
  lemma XAcceptsNothing(v: Version)
    ensures RangeOf("x") == Some([]) && !Meets(v, [])
    ensures RangeOf("*") == Some([[]]) && RangeOf("*||*") == Some([])
  {
    hide RangeOf, Expand;
    StarIsAnything();
    assert Expand("x") == Some([]) && Expand("*") == Some([]) by { Stars(); }
    OneToken("x");
    TokenBranch("*");
    OrText("*", "*");
    assert "*||*" == "*" + ("||" + "*");
  }

  lemma Stars()
    ensures Expand("x") == Some([]) && Expand("*") == Some([])
  {
  }
}
