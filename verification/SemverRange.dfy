/** Range matching of fino:semver: comparators, desugaring of range forms, `satisfies` and `maxSatisfying`. */
module SemverRange {
  import opened Basics
  import opened SemverOrder
  import Decimal
  import SemverText

  datatype Op = Same | Above | AtLeast | Below | AtMost

  datatype Comparator = Comparator(op: Op, version: Version)

  ghost predicate Holds(v: Version, c: Comparator) {
    match c.op
    case Same => SameUpToBuild(v, c.version)
    case Above => Precedes(c.version, v)
    case AtLeast => !Precedes(v, c.version)
    case Below => Precedes(v, c.version)
    case AtMost => !Precedes(c.version, v)
  }

  /** `testComparator`. */
  method TestComparator(v: Version, c: Comparator) returns (ok: bool)
    ensures ok <==> Holds(v, c)
  {
    hide Precedes;
    var result := CompareParsed(v, c.version);
    match c.op
    case Same => return result == 0;
    case Above => return result > 0;
    case AtLeast => return result >= 0;
    case Below => return result < 0;
    case AtMost => return result <= 0;
  }

  // ----- desugaring -----

  /** A version of a range; `None` is a wildcard or a missing part. */
  datatype Partial = Partial(major: Option<nat>, minor: Option<nat>, patch: Option<nat>, prerelease: seq<Ident>)

  function Part(o: Option<nat>): nat { if o.Some? then o.value else 0 }

  /** `toSemVer`. */
  function Full(p: Partial): Version { Version(Part(p.major), Part(p.minor), Part(p.patch), p.prerelease, []) }

  function NextMajor(v: Version): Version { Version(v.major + 1, 0, 0, [], []) }

  function NextMinor(v: Version): Version { Version(v.major, v.minor + 1, 0, [], []) }

  function NextPatch(v: Version): Version { Version(v.major, v.minor, v.patch + 1, [], []) }

  function Between(lower: Version, upper: Version): seq<Comparator> {
    [Comparator(AtLeast, lower), Comparator(Below, upper)]
  }

  /** `xRangeToComparators`. */
  function XRange(p: Partial): seq<Comparator> {
    if p.major.None? then []
    else if p.minor.None? then Between(Full(p), NextMajor(Full(p)))
    else if p.patch.None? then Between(Full(p), NextMinor(Full(p)))
    else [Comparator(Same, Full(p))]
  }

  /** `tildeComparators`. */
  function Tilde(p: Partial): seq<Comparator> {
    Between(Full(p), if p.minor.None? then NextMajor(Full(p)) else NextMinor(Full(p)))
  }

  /** `caretComparators`. */
  function Caret(p: Partial): seq<Comparator> {
    var lower := Full(p);
    Between(lower, if lower.major > 0 then NextMajor(lower) else if lower.minor > 0 then NextMinor(lower)
        else NextPatch(lower))
  }

  /** `comparatorFromParts`. */
  function FromParts(op: Op, p: Partial): seq<Comparator> {
    if p.major.None? then []
    else if p.minor.None? || p.patch.None? then
      var cs := XRange(p);
      match op
      case Same => cs
      case AtLeast => [cs[0]]
      case Above => [Comparator(AtLeast, cs[1].version)]
      case Below => [Comparator(Below, cs[0].version)]
      case AtMost => [cs[1]]
    else [Comparator(op, Full(p))]
  }

  /** `normalizeHyphenRanges`: `low - high`. */
  function Hyphen(low: Partial, high: Partial): seq<Comparator> { FromParts(AtLeast, low) + FromParts(AtMost, high) }

  // ----- what the forms mean for releases -----

  ghost predicate All(v: Version, cs: seq<Comparator>) {
    forall i :: 0 <= i < |cs| ==> Holds(v, cs[i])
  }

  predicate Release(v: Version) { v.prerelease == [] }

  /** For a release, comparing is comparing the three numbers; only an exact tie looks at the other's prerelease. */
  lemma ReleaseHolds(v: Version, w: Version)
    requires Release(v)
    ensures Holds(v, Comparator(AtLeast, w)) <==> !TripleLess(v, w)
    ensures Holds(v, Comparator(Below, w)) <==> TripleLess(v, w)
    ensures Holds(v, Comparator(Same, w)) <==> SameTriple(v, w) && Release(w)
    ensures Holds(v, Comparator(AtMost, w)) <==> TripleLess(v, w) || (SameTriple(v, w) && Release(w))
    ensures Holds(v, Comparator(Above, w)) <==> TripleLess(w, v) || (SameTriple(v, w) && !Release(w))
  {
    hide ListPrecedes;
  }

  lemma BetweenMeans(v: Version, lower: Version, upper: Version)
    requires Release(v)
    ensures All(v, Between(lower, upper)) <==> !TripleLess(v, lower) && TripleLess(v, upper)
  {
    hide Holds, TripleLess;
    var cs := Between(lower, upper);
    ReleaseHolds(v, lower);
    ReleaseHolds(v, upper);
    assert All(v, cs) <==> Holds(v, cs[0]) && Holds(v, cs[1]);
  }

  /** An x-range fixes the parts it names. */
  lemma XRangeMeans(v: Version, p: Partial)
    requires Release(v) && p.major.Some?
    ensures All(v, XRange(p)) <==>
              && v.major == p.major.value
              && (if p.minor.Some? then v.minor == p.minor.value && (p.patch.Some? ==>
                    v.patch == p.patch.value && p.prerelease == [])
                  else v.minor > 0 || v.patch >= Part(p.patch))
  {
    hide Holds;
    if p.minor.None? {
      BetweenMeans(v, Full(p), NextMajor(Full(p)));
    } else if p.patch.None? {
      BetweenMeans(v, Full(p), NextMinor(Full(p)));
    } else {
      ReleaseHolds(v, Full(p));
      assert All(v, XRange(p)) <==> Holds(v, XRange(p)[0]);
    }
  }

  /** A tilde range keeps the major number, and the minor number when it names one. */
  lemma TildeMeans(v: Version, p: Partial)
    requires Release(v) && p.major.Some?
    ensures All(v, Tilde(p)) <==>
              !TripleLess(v, Full(p)) && v.major == p.major.value && (p.minor.Some? ==> v.minor == p.minor.value)
  {
    hide Holds;
    BetweenMeans(v, Full(p), if p.minor.None? then NextMajor(Full(p)) else NextMinor(Full(p)));
  }

  /** A caret range keeps everything up to the leftmost number that is not zero, missing parts counting as zero. */
  lemma CaretMeans(v: Version, p: Partial)
    requires Release(v)
    ensures var lower := Full(p);
            All(v, Caret(p)) <==>
              && !TripleLess(v, lower) && v.major == lower.major
              && (lower.major == 0 ==> v.minor == lower.minor && (lower.minor == 0 ==> v.patch == lower.patch))
  {
    hide Holds;
    var lower := Full(p);
    BetweenMeans(v, lower, if lower.major > 0 then NextMajor(lower) else if lower.minor > 0 then NextMinor(lower)
        else NextPatch(lower));
  }

  /** Is `v` at most `p`, a missing part standing for any number? */
  ghost predicate UpTo(v: Version, p: Partial)
    requires p.major.Some?
  {
    || v.major < p.major.value
    || (v.major == p.major.value
        && (p.minor.None? || v.minor < p.minor.value
            || (v.minor == p.minor.value
                && (p.patch.None? || v.patch < p.patch.value || (v.patch == p.patch.value && p.prerelease == [])))))
  }

  /** Every operator before a partial version that names a major number. */
  lemma FromPartsMeans(v: Version, op: Op, p: Partial)
    requires Release(v) && p.major.Some?
    ensures FromParts(op, p) != []
    ensures All(v, FromParts(op, p)) <==>
              match op
              case Same => All(v, XRange(p))
              case Above => !UpTo(v, p)
              case AtLeast => !TripleLess(v, Full(p))
              case Below => TripleLess(v, Full(p))
              case AtMost => UpTo(v, p)
  {
    hide Holds;
    var cs := FromParts(op, p);
    if !op.Same? {
      ReleaseHolds(v, cs[0].version);
      assert All(v, cs) <==> Holds(v, cs[0]);
    }
  }

  /** A hyphen range is the closed interval from `low` to all that `high` names. */
  lemma HyphenMeans(v: Version, low: Partial, high: Partial)
    requires Release(v) && low.major.Some? && high.major.Some?
    ensures All(v, Hyphen(low, high)) <==> !TripleLess(v, Full(low)) && UpTo(v, high)
  {
    hide Holds, FromParts;
    var a, b := FromParts(AtLeast, low), FromParts(AtMost, high);
    FromPartsMeans(v, AtLeast, low);
    FromPartsMeans(v, AtMost, high);
    AllOfBoth(v, a, b);
  }

  lemma AllOfBoth(v: Version, a: seq<Comparator>, b: seq<Comparator>)
    ensures All(v, a + b) <==> All(v, a) && All(v, b)
  {
    hide Holds;
    if All(v, a + b) {
      forall i | 0 <= i < |b| ensures Holds(v, b[i]) {
        assert (a + b)[|a| + i] == b[i];
      }
      forall i | 0 <= i < |a| ensures Holds(v, a[i]) {
        assert (a + b)[i] == a[i];
      }
    }
  }

  // ----- satisfies -----

  function BaseKey(v: Version): string {
    Decimal.Print(v.major) + "." + Decimal.Print(v.minor) + "." + Decimal.Print(v.patch)
  }

  lemma CutAtDot(a: string, x: string, b: string, y: string)
    requires '.' !in a && '.' !in b && a + "." + x == b + "." + y
    ensures a == b && x == y
  {
    var s, t := a + "." + x, b + "." + y;
    assert s[|a|] == '.' && t[|b|] == '.';
    assert forall k :: 0 <= k < |a| ==> s[k] == a[k];
    assert forall k :: 0 <= k < |b| ==> t[k] == b[k];
    assert a == s[..|a|] && b == t[..|b|] && x == s[|a| + 1..] && y == t[|b| + 1..];
  }

  /** Base keys tell the three numbers apart. */
  lemma BaseKeyIsTriple(v: Version, w: Version)
    ensures BaseKey(v) == BaseKey(w) <==> SameTriple(v, w)
  {
    hide Decimal.Print;
    if BaseKey(v) == BaseKey(w) {
      var a, b, c := Decimal.Print(v.major), Decimal.Print(v.minor), Decimal.Print(v.patch);
      var a', b', c' := Decimal.Print(w.major), Decimal.Print(w.minor), Decimal.Print(w.patch);
      assert a + "." + (b + "." + c) == BaseKey(v) && a' + "." + (b' + "." + c') == BaseKey(w);
      CutAtDot(a, b + "." + c, a', b' + "." + c');
      CutAtDot(b, c, b', c');
      Decimal.PrintInjective(v.major, w.major);
      Decimal.PrintInjective(v.minor, w.minor);
      Decimal.PrintInjective(v.patch, w.patch);
    }
  }

  datatype RangeSet = RangeSet(comparators: seq<Comparator>, bases: set<string>)

  /** The bases are those of the prerelease comparators. */
  ghost predicate Built(s: RangeSet) {
    forall k :: k in s.bases <==>
          exists i ::
            0 <= i < |s.comparators| && !Release(s.comparators[i].version) && k == BaseKey(s.comparators[i].version)
  }

  /** The loop of `parseRangeSet` over the comparators of its tokens. */
  method BuildSet(tokens: seq<seq<Comparator>>) returns (s: RangeSet)
    ensures Built(s) && s.comparators == Flat(tokens, |tokens|)
  {
    hide BaseKey;
    var comparators: seq<Comparator>, bases: set<string> := [], {};
    for t := 0 to |tokens|
      invariant comparators == Flat(tokens, t) && Built(RangeSet(comparators, bases))
    {
      ghost var before := comparators;
      for i := 0 to |tokens[t]|
        invariant comparators == before + tokens[t][..i] && Built(RangeSet(comparators, bases))
      {
        var c := tokens[t][i];
        assert tokens[t][..i + 1] == tokens[t][..i] + [c];
        BuiltMore(comparators, bases, c);
        comparators := comparators + [c];
        if c.version.prerelease != [] { bases := bases + {BaseKey(c.version)}; }
      }
      assert tokens[t][..|tokens[t]|] == tokens[t];
    }
    return RangeSet(comparators, bases);
  }

  function Flat(tokens: seq<seq<Comparator>>, n: nat): seq<Comparator>
    requires n <= |tokens|
  {
    if n == 0 then [] else Flat(tokens, n - 1) + tokens[n - 1]
  }

  lemma BuiltMore(cs: seq<Comparator>, bases: set<string>, c: Comparator)
    requires Built(RangeSet(cs, bases))
    ensures Built(RangeSet(cs + [c], if Release(c.version) then bases else bases + {BaseKey(c.version)}))
  {
    hide BaseKey;
    var all := cs + [c];
    assert all[|cs|] == c && forall i :: 0 <= i < |cs| ==> all[i] == cs[i];
    forall k ensures (k in bases || (!Release(c.version) && k == BaseKey(c.version)))
                 <==> exists i :: 0 <= i < |all| && !Release(all[i].version) && k == BaseKey(all[i].version) {
      if k in bases {
        var i :| 0 <= i < |cs| && !Release(cs[i].version) && k == BaseKey(cs[i].version);
        assert all[i] == cs[i];
      }
    }
  }

  /**
   * A prerelease is let in only by a comparator on a prerelease of the same three numbers, or where nothing is
   * compared.
   */
  ghost predicate Accepts(v: Version, cs: seq<Comparator>) {
    && All(v, cs)
    && (Release(v) || cs == [] || exists i :: 0 <= i < |cs| && !Release(cs[i].version) && SameTriple(v, cs[i].version))
  }

  ghost predicate Satisfied(v: Version, range: seq<RangeSet>) {
    exists i :: 0 <= i < |range| && Accepts(v, range[i].comparators)
  }

  /** One branch of a range. */
  method Matches(v: Version, s: RangeSet) returns (ok: bool)
    requires Built(s)
    ensures ok <==> Accepts(v, s.comparators)
  {
    hide Holds, Built, BaseKey;
    for i := 0 to |s.comparators|
      invariant forall k :: 0 <= k < i ==> Holds(v, s.comparators[k])
    {
      var holds := TestComparator(v, s.comparators[i]);
      if !holds { return false; }
    }
    GateIsTriple(v, s);
    return v.prerelease == [] || BaseKey(v) in s.bases || s.comparators == [];
  }

  lemma GateIsTriple(v: Version, s: RangeSet)
    requires Built(s)
    ensures BaseKey(v) in s.bases <==>
          exists i ::
            0 <= i < |s.comparators| && !Release(s.comparators[i].version) && SameTriple(v, s.comparators[i].version)
  {
    hide BaseKey;
    forall i | 0 <= i < |s.comparators| ensures BaseKey(v) == BaseKey(s.comparators[i].version) <==>
          SameTriple(v, s.comparators[i].version) {
      BaseKeyIsTriple(v, s.comparators[i].version);
    }
  }

  /** `satisfies`, on a parsed version and range. */
  method Satisfies(v: Version, range: seq<RangeSet>) returns (ok: bool)
    requires forall i :: 0 <= i < |range| ==> Built(range[i])
    ensures ok <==> Satisfied(v, range)
  {
    hide Accepts, Built;
    for i := 0 to |range|
      invariant forall k :: 0 <= k < i ==> !Accepts(v, range[k].comparators)
    {
      var matches := Matches(v, range[i]);
      if matches { return true; }
    }
    return false;
  }

  // ----- maxSatisfying -----

  /** Text number `k` is a greatest satisfying version among the first `n`, and the first such. */
  ghost predicate IsMax(vs: seq<Version>, range: seq<RangeSet>, n: nat, k: nat)
    requires n <= |vs|
  {
    && k < n && Satisfied(vs[k], range)
    && (forall i :: 0 <= i < n && Satisfied(vs[i], range) ==> !Precedes(vs[k], vs[i]))
    && (forall i :: 0 <= i < k && Satisfied(vs[i], range) ==> Precedes(vs[i], vs[k]))
  }

  ghost function Parsed(texts: seq<string>): (vs: seq<Version>)
    requires forall i :: 0 <= i < |texts| ==> SemverText.ParseText(texts[i]).Some?
    ensures |vs| == |texts| && forall i :: 0 <= i < |vs| ==> vs[i] == SemverText.ParseText(texts[i]).value
  {
    seq(|texts|, i requires 0 <= i < |texts| => SemverText.ParseText(texts[i]).value)
  }

  /** `maxSatisfying`: `None` stands for the error on an invalid version, `Some(None)` for no match. */
  method MaxSatisfying(texts: seq<string>, range: seq<RangeSet>) returns (r: Option<Option<string>>)
    requires forall i :: 0 <= i < |range| ==> Built(range[i])
    ensures r.None? <==> exists i :: 0 <= i < |texts| && SemverText.ParseText(texts[i]).None?
    ensures r == Some(None) ==> forall i :: 0 <= i < |texts| ==> !Satisfied(Parsed(texts)[i], range)
    ensures r.Some? && r.value.Some? ==>
          exists k :: 0 <= k < |texts| && r.value.value == texts[k] && IsMax(Parsed(texts), range, |texts|, k)
  {
    hide Satisfied, Precedes, SemverText.ParseText, Built;
    var best: Option<nat> := None;
    var vs: seq<Version> := [];
    for i := 0 to |texts|
      invariant |vs| == i && forall j :: 0 <= j < i ==> SemverText.ParseText(texts[j]) == Some(vs[j])
      invariant best.None? ==> forall j :: 0 <= j < i ==> !Satisfied(vs[j], range)
      invariant best.Some? ==> best.value < i && IsMax(vs, range, i, best.value)
    {
      var v := SemverText.Parse(texts[i]);
      if v.None? { return None; }
      var matches := Satisfies(v.value, range);
      ghost var before := vs;
      vs := vs + [v.value];
      var better := matches && best.None?;
      if matches && best.Some? {
        var result := CompareParsed(v.value, vs[best.value]);
        better := result > 0;
      }
      MaxStep(before, v.value, range, best, matches, better);
      if better { best := Some(i); }
    }
    assert vs == Parsed(texts);
    return Some(if best.None? then None else Some(texts[best.value]));
  }

  lemma MaxStep(vs: seq<Version>, v: Version, range: seq<RangeSet>, best: Option<nat>, matches: bool, better: bool)
    requires best.None? ==> forall j :: 0 <= j < |vs| ==> !Satisfied(vs[j], range)
    requires best.Some? ==> best.value < |vs| && IsMax(vs, range, |vs|, best.value)
    requires matches <==> Satisfied(v, range)
    requires better <==> matches && (best.None? || Precedes(vs[best.value], v))
    ensures better ==> IsMax(vs + [v], range, |vs| + 1, |vs|)
    ensures !better && best.Some? ==> IsMax(vs + [v], range, |vs| + 1, best.value)
    ensures !better && best.None? ==> forall j :: 0 <= j < |vs| + 1 ==> !Satisfied((vs + [v])[j], range)
  {
    hide Satisfied, Precedes;
    var all := vs + [v];
    PrecedesIsStrict(v, v, v);
    if better && best.Some? {
      var top := vs[best.value];
      forall i | 0 <= i < |vs| && Satisfied(vs[i], range) ensures Precedes(vs[i], v) && !Precedes(v, vs[i]) {
        BelowTop(vs[i], top, v);
      }
    }
  }

  /** What is not above `top` comes before anything that `top` precedes. */
  lemma BelowTop(a: Version, top: Version, v: Version)
    requires !Precedes(top, a) && Precedes(top, v)
    ensures Precedes(a, v) && !Precedes(v, a)
  {
    Trichotomy(a, top);
    PrecedesIsStrict(a, top, v);
    if SameUpToBuild(a, top) {
      assert Precedes(a, v);
    }
    NotBoth(a, v);
  }
}
