/** What both archive formats share: entry kinds, limits, and `normalizedArchivePath`. */
module ArchivePath {
  import opened Utf8

  datatype Kind = File | Directory

  const DEFAULT_MODE := 420
  const DEFAULT_DIR_MODE := 493
  const MAX_DECOMPRESSED_BYTES := 536870912

  const SLASH: Unit := 47
  const BACKSLASH: Unit := 92
  const DOT: Unit := 46

  /** A name is a string, that is a sequence of UTF-16 code units. */
  type Name = seq<Unit>

  function Slashes(s: Name): (r: Name)
    ensures |r| == |s| && forall i :: 0 <= i < |s| ==> r[i] == if s[i] == BACKSLASH then SLASH else s[i]
  {
    seq(|s|, i requires 0 <= i < |s| => if s[i] == BACKSLASH then SLASH else s[i])
  }

  /** `split('/')`. */
  function Split(s: Name): (parts: seq<Name>)
    ensures parts != []
    ensures forall i :: 0 <= i < |parts| ==> SLASH !in parts[i]
  {
    if s == [] then [[]]
    else
      var rest := Split(s[1..]);
      if s[0] == SLASH then [[]] + rest else [[s[0]] + rest[0]] + rest[1..]
  }

  predicate Kept(part: Name) { part != [] && part != [DOT] }

  function Keep(parts: seq<Name>): (r: seq<Name>)
    ensures forall p :: p in r <==> p in parts && Kept(p)
  {
    if parts == [] then []
    else
      assert parts == [parts[0]] + parts[1..];
      if Kept(parts[0]) then [parts[0]] + Keep(parts[1..]) else Keep(parts[1..])
  }

  /** `join('/')`. */
  function Join(parts: seq<Name>): Name {
    if parts == [] then [] else if |parts| == 1 then parts[0] else parts[0] + [SLASH] + Join(parts[1..])
  }

  function Normalize(s: Name): Name { Join(Keep(Split(Slashes(s)))) }

  ghost predicate Plain(parts: seq<Name>) {
    forall i :: 0 <= i < |parts| ==> Kept(parts[i]) && SLASH !in parts[i] && BACKSLASH !in parts[i]
  }

  lemma {:induction false} SplitPart(p: Name)
    requires SLASH !in p
    ensures Split(p) == [p]
  {
    if p != [] {
      SplitPart(p[1..]);
      assert p == [p[0]] + p[1..];
    }
  }

  lemma {:induction false} SplitCons(p: Name, s: Name)
    requires SLASH !in p
    ensures Split(p + [SLASH] + s) == [p] + Split(s)
  {
    var t := p + [SLASH] + s;
    if p == [] {
      assert t[1..] == s;
    } else {
      assert t[1..] == p[1..] + [SLASH] + s;
      SplitCons(p[1..], s);
      assert p == [p[0]] + p[1..];
    }
  }

  lemma {:induction false} SplitJoin(parts: seq<Name>)
    requires parts != [] && Plain(parts)
    ensures Split(Join(parts)) == parts
  {
    if |parts| == 1 {
      SplitPart(parts[0]);
    } else {
      SplitJoin(parts[1..]);
      SplitCons(parts[0], Join(parts[1..]));
      assert parts == [parts[0]] + parts[1..];
    }
  }

  lemma {:induction false} KeepAll(parts: seq<Name>)
    requires Plain(parts)
    ensures Keep(parts) == parts
  {
    if parts != [] { KeepAll(parts[1..]); }
  }

  lemma {:induction false} SplitOfSlashes(s: Name)
    requires BACKSLASH !in s
    ensures forall i :: 0 <= i < |Split(s)| ==> BACKSLASH !in Split(s)[i]
  {
    if s != [] { SplitOfSlashes(s[1..]); }
  }

  lemma KeptParts(s: Name)
    ensures Plain(Keep(Split(Slashes(s))))
  {
    var t := Slashes(s);
    SplitOfSlashes(t);
    var parts := Keep(Split(t));
    forall i | 0 <= i < |parts| ensures Kept(parts[i]) && SLASH !in parts[i] && BACKSLASH !in parts[i] {
      assert parts[i] in parts;
    }
  }

  lemma {:induction false} JoinHasNoBackslash(parts: seq<Name>)
    requires Plain(parts)
    ensures BACKSLASH !in Join(parts)
  {
    if |parts| > 1 { JoinHasNoBackslash(parts[1..]); }
  }

  /** Normalizing twice is normalizing once. */
  lemma NormalizeIdempotent(s: Name)
    ensures Normalize(Normalize(s)) == Normalize(s)
  {
    var parts := Keep(Split(Slashes(s)));
    KeptParts(s);
    var n := Join(parts);
    JoinHasNoBackslash(parts);
    assert Slashes(n) == n;
    if parts == [] {
      var empty: seq<Name> := [[]];
      assert Split([]) == empty;
      assert Keep(empty) == [] by { assert !Kept(empty[0]) && empty[1..] == []; }
    } else {
      SplitJoin(parts);
      KeepAll(parts);
    }
  }

  lemma {:induction false} SplitTrailing(s: Name)
    ensures Split(s + [SLASH]) == Split(s) + [[]]
  {
    if s == [] {
      assert (s + [SLASH])[1..] == [];
    } else {
      assert (s + [SLASH])[1..] == s[1..] + [SLASH];
      SplitTrailing(s[1..]);
      var rest := Split(s[1..]);
      assert (rest + [[]])[0] == rest[0] && (rest + [[]])[1..] == rest[1..] + [[]];
    }
  }

  lemma {:induction false} KeepAppend(a: seq<Name>, b: seq<Name>)
    ensures Keep(a + b) == Keep(a) + Keep(b)
  {
    if a == [] {
      assert a + b == b;
    } else {
      assert (a + b)[1..] == a[1..] + b;
      KeepAppend(a[1..], b);
    }
  }

  /** A directory's trailing slash does not survive. */
  lemma NormalizeDropsTrailingSlash(s: Name)
    ensures Normalize(s + [SLASH]) == Normalize(s)
  {
    assert Slashes(s + [SLASH]) == Slashes(s) + [SLASH];
    SplitTrailing(Slashes(s));
    var empty: seq<Name> := [[]];
    KeepAppend(Split(Slashes(s)), empty);
    assert Keep(Split(Slashes(s))) + [] == Keep(Split(Slashes(s)));
    assert Keep(empty) == [] by { assert !Kept(empty[0]) && empty[1..] == []; }
  }

  lemma {:induction false} JoinEndsInPart(parts: seq<Name>)
    requires Plain(parts) && parts != []
    ensures Join(parts) != [] && Join(parts)[|Join(parts)| - 1] != SLASH
  {
    if |parts| > 1 { JoinEndsInPart(parts[1..]); }
  }

  /** A normalized name never ends in a slash. */
  lemma NormalizedEnd(s: Name)
    ensures Normalize(s) != [] ==> Normalize(s)[|Normalize(s)| - 1] != SLASH
  {
    var parts := Keep(Split(Slashes(s)));
    KeptParts(s);
    if parts != [] { JoinEndsInPart(parts); }
  }

  lemma {:induction false} JoinSplit(s: Name)
    ensures Join(Split(s)) == s
  {
    if s != [] {
      JoinSplit(s[1..]);
      var rest := Split(s[1..]);
      if s[0] == SLASH {
        assert Split(s)[1..] == rest;
      } else {
        assert Split(s)[1..] == rest[1..] && Split(s)[0] == [s[0]] + rest[0];
      }
    }
  }

  lemma {:induction false} KeepShrinks(parts: seq<Name>)
    ensures |Join(Keep(parts))| <= |Join(parts)|
    ensures |Join(Keep(parts))| == |Join(parts)| ==> Join(Keep(parts)) == Join(parts)
  {
    if parts != [] {
      KeepShrinks(parts[1..]);
      if Kept(parts[0]) { assert Keep(parts)[1..] == Keep(parts[1..]); }
    }
  }

  /** Normalizing never makes a name longer, and without making it shorter it only turns the slashes. */
  lemma NormalizeShrinks(s: Name)
    ensures |Normalize(s)| <= |s|
    ensures |Normalize(s)| == |s| ==> Normalize(s) == Slashes(s)
  {
    JoinSplit(Slashes(s));
    KeepShrinks(Split(Slashes(s)));
  }
}
