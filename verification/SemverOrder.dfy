/** Versions and their precedence (clauses 9 to 11 of SemVer 2.0.0), as fino:semver compares them. */
module SemverOrder {

  /** A prerelease identifier: numbers are numbers, anything else is text. */
  datatype Ident = Number(n: nat) | Text(s: string)

  datatype Version = Version(major: nat, minor: nat, patch: nat, prerelease: seq<Ident>, build: seq<string>)

  // ----- what precedence means -----

  /** Character order: the first difference decides, and a proper prefix comes first. */
  ghost predicate TextPrecedes(s: string, t: string) {
    exists i :: 0 <= i <= |s| && i <= |t| && s[..i] == t[..i] && i < |t| && (i == |s| || s[i] < t[i])
  }

  ghost predicate IdentPrecedes(a: Ident, b: Ident) {
    if a.Number? then b.Text? || a.n < b.n else b.Text? && TextPrecedes(a.s, b.s)
  }

  ghost predicate ListPrecedes(p: seq<Ident>, q: seq<Ident>) {
    exists i :: 0 <= i <= |p| && i <= |q| && p[..i] == q[..i] && i < |q| && (i == |p| || IdentPrecedes(p[i], q[i]))
  }

  predicate TripleLess(a: Version, b: Version) {
    a.major < b.major || (a.major == b.major && (a.minor < b.minor || (a.minor == b.minor && a.patch < b.patch)))
  }

  predicate SameTriple(a: Version, b: Version) { a.major == b.major && a.minor == b.minor && a.patch == b.patch }

  /** A prerelease comes before its release. */
  ghost predicate Precedes(a: Version, b: Version) {
    TripleLess(a, b)
        || (SameTriple(a, b) && a.prerelease != [] && (b.prerelease == [] || ListPrecedes(a.prerelease, b.prerelease)))
  }

  ghost predicate SameUpToBuild(a: Version, b: Version) { SameTriple(a, b) && a.prerelease == b.prerelease }

  // ----- it is a strict order -----

  lemma TextTransitive(s: string, t: string, u: string)
    requires TextPrecedes(s, t) && TextPrecedes(t, u)
    ensures TextPrecedes(s, u)
  {
    var i :| 0 <= i <= |s| && i <= |t| && s[..i] == t[..i] && i < |t| && (i == |s| || s[i] < t[i]);
    var j :| 0 <= j <= |t| && j <= |u| && t[..j] == u[..j] && j < |u| && (j == |t| || t[j] < u[j]);
    Cut(s, t, u, i, j);
  }

  /** Up to the nearer of two first differences, the outer ones agree. */
  lemma Cut<T>(s: seq<T>, t: seq<T>, u: seq<T>, i: nat, j: nat)
    requires i <= |s| && i <= |t| && s[..i] == t[..i] && j <= |t| && j <= |u| && t[..j] == u[..j]
    ensures i <= j ==> s[..i] == u[..i] && (i < j ==> t[i] == u[i])
    ensures j <= i ==> s[..j] == u[..j] && (j < i ==> s[j] == t[j])
  {
    assert i <= j ==> t[..j][..i] == t[..i] && u[..j][..i] == u[..i];
    assert j <= i ==> s[..i][..j] == s[..j] && t[..i][..j] == t[..j];
    assert i < j ==> t[..j][i] == t[i] && u[..j][i] == u[i];
    assert j < i ==> s[..i][j] == s[j] && t[..i][j] == t[j];
  }

  lemma TextIrreflexive(s: string)
    ensures !TextPrecedes(s, s)
  {
  }

  lemma IdentTransitive(a: Ident, b: Ident, c: Ident)
    requires IdentPrecedes(a, b) && IdentPrecedes(b, c)
    ensures IdentPrecedes(a, c)
  {
    if a.Text? { TextTransitive(a.s, b.s, c.s); }
  }

  lemma ListTransitive(p: seq<Ident>, q: seq<Ident>, r: seq<Ident>)
    requires ListPrecedes(p, q) && ListPrecedes(q, r)
    ensures ListPrecedes(p, r)
  {
    hide IdentPrecedes;
    var i :| 0 <= i <= |p| && i <= |q| && p[..i] == q[..i] && i < |q| && (i == |p| || IdentPrecedes(p[i], q[i]));
    var j :| 0 <= j <= |q| && j <= |r| && q[..j] == r[..j] && j < |r| && (j == |q| || IdentPrecedes(q[j], r[j]));
    Cut(p, q, r, i, j);
    if i == j && i < |p| { IdentTransitive(p[i], q[i], r[i]); }
  }

  lemma ListIrreflexive(p: seq<Ident>)
    ensures !ListPrecedes(p, p)
  {
    forall i | 0 <= i < |p| ensures !IdentPrecedes(p[i], p[i]) {
      if p[i].Text? { TextIrreflexive(p[i].s); }
    }
  }

  /** Precedence is transitive, and no version precedes itself. */
  lemma PrecedesIsStrict(a: Version, b: Version, c: Version)
    ensures Precedes(a, b) && Precedes(b, c) ==> Precedes(a, c)
    ensures !Precedes(a, a)
  {
    hide ListPrecedes;
    ListIrreflexive(a.prerelease);
    if ListPrecedes(a.prerelease, b.prerelease) && ListPrecedes(b.prerelease, c.prerelease) {
      ListTransitive(a.prerelease, b.prerelease, c.prerelease);
    }
  }

  lemma NotBoth(a: Version, b: Version)
    requires Precedes(a, b)
    ensures !Precedes(b, a) && !SameUpToBuild(a, b)
  {
    hide ListPrecedes;
    PrecedesIsStrict(a, b, a);
    ListIrreflexive(a.prerelease);
  }

  // ----- the code -----

  function CompareText(s: string, t: string): (r: int)
    ensures -1 <= r <= 1
  {
    if s == t then 0
    else if s == "" then -1
    else if t == "" then 1
    else if s[0] != t[0] then (if s[0] < t[0] then -1 else 1)
    else CompareText(s[1..], t[1..])
  }

  lemma {:induction false} CompareTextMeans(s: string, t: string)
    ensures CompareText(s, t) < 0 ==> TextPrecedes(s, t)
    ensures CompareText(s, t) > 0 ==> TextPrecedes(t, s)
    ensures CompareText(s, t) == 0 ==> s == t
  {
    if s == t {
    } else if s == "" || t == "" || s[0] != t[0] {
      assert s[..0] == t[..0];
    } else {
      CompareTextMeans(s[1..], t[1..]);
      assert s == [s[0]] + s[1..] && t == [t[0]] + t[1..];
      if CompareText(s, t) < 0 { TextDeeper(s, t); } else if CompareText(s, t) > 0 { TextDeeper(t, s); }
    }
  }

  lemma TextDeeper(s: string, t: string)
    requires s != "" && t != "" && s[0] == t[0] && TextPrecedes(s[1..], t[1..])
    ensures TextPrecedes(s, t)
  {
    var s', t' := s[1..], t[1..];
    var i :| 0 <= i <= |s'| && i <= |t'| && s'[..i] == t'[..i] && i < |t'| && (i == |s'| || s'[i] < t'[i]);
    assert s[..i + 1] == [s[0]] + s'[..i] && t[..i + 1] == [t[0]] + t'[..i];
  }

  /** `compareIdentifier`. */
  function CompareIdent(a: Ident, b: Ident): int {
    if a.Number? && b.Number? then a.n - b.n
    else if a.Number? then -1
    else if b.Number? then 1
    else CompareText(a.s, b.s)
  }

  lemma CompareIdentMeans(a: Ident, b: Ident)
    ensures CompareIdent(a, b) < 0 ==> IdentPrecedes(a, b)
    ensures CompareIdent(a, b) > 0 ==> IdentPrecedes(b, a)
    ensures CompareIdent(a, b) == 0 ==> a == b
  {
    hide TextPrecedes, CompareText;
    if a.Text? && b.Text? { CompareTextMeans(a.s, b.s); }
  }

  ghost predicate Sign(r: int, less: bool, same: bool, more: bool) {
    (r < 0 <==> less) && (r == 0 <==> same) && (r > 0 <==> more)
  }

  /** `compareParsed`: negative, zero or positive as precedence says; zero exactly on versions equal up to build. */
  method CompareParsed(a: Version, b: Version) returns (r: int)
    ensures Sign(r, Precedes(a, b), SameUpToBuild(a, b), Precedes(b, a))
  {
    hide ListPrecedes;
    if a.major != b.major { return a.major - b.major; }
    if a.minor != b.minor { return a.minor - b.minor; }
    if a.patch != b.patch { return a.patch - b.patch; }
    if a.prerelease == [] && b.prerelease == [] { return 0; }
    if a.prerelease == [] { return 1; }
    if b.prerelease == [] { return -1; }
    r := CompareLists(a.prerelease, b.prerelease);
    if r < 0 {
      NotBoth(a, b);
    } else if r > 0 {
      NotBoth(b, a);
    } else {
      PrecedesIsStrict(a, a, a);
      ListIrreflexive(a.prerelease);
    }
  }

  method CompareLists(p: seq<Ident>, q: seq<Ident>) returns (r: int)
    ensures r < 0 ==> ListPrecedes(p, q)
    ensures r > 0 ==> ListPrecedes(q, p)
    ensures r == 0 ==> p == q
  {
    hide IdentPrecedes, CompareIdent;
    var length := if |p| > |q| then |p| else |q|;
    for i := 0 to length
      invariant i <= |p| && i <= |q| && p[..i] == q[..i]
    {
      if i >= |p| { return -1; }
      if i >= |q| { return 1; }
      CompareIdentMeans(p[i], q[i]);
      var result := CompareIdent(p[i], q[i]);
      if result != 0 { return result; }
      assert p[..i + 1] == p[..i] + [p[i]] && q[..i + 1] == q[..i] + [q[i]];
    }
    assert p[..|p|] == p && q[..|q|] == q;
    return 0;
  }

  /** Any two versions are ordered one way or equal up to build metadata. */
  lemma {:induction false} Trichotomy(a: Version, b: Version)
    ensures Precedes(a, b) || SameUpToBuild(a, b) || Precedes(b, a)
  {
    hide ListPrecedes;
    ListTrichotomy(a.prerelease, b.prerelease, 0);
  }

  lemma {:induction false} ListTrichotomy(p: seq<Ident>, q: seq<Ident>, i: nat)
    requires i <= |p| && i <= |q| && p[..i] == q[..i]
    ensures ListPrecedes(p, q) || p == q || ListPrecedes(q, p)
    decreases |p| - i
  {
    hide IdentPrecedes;
    if i < |p| && i < |q| {
      CompareIdentMeans(p[i], q[i]);
      if p[i] == q[i] {
        assert p[..i + 1] == p[..i] + [p[i]] && q[..i + 1] == q[..i] + [q[i]];
        ListTrichotomy(p, q, i + 1);
      }
    } else {
      assert i == |p| ==> p[..i] == p;
      assert i == |q| ==> q[..i] == q;
    }
  }
}
