/** From range text to comparators: tokens, hyphen ranges, alternatives, and which texts mean what. */
module SemverRangeParse {
  import opened Basics
  import opened SemverRange
  import opened SemverRangeText

  // ----- tokens -----

  predicate IsSpace(c: char) { c == ' ' || c == '\t' || c == '\n' || c == '\r' }

  predicate IsToken(t: string) { t != "" && forall k :: 0 <= k < |t| ==> !IsSpace(t[k]) }

  function WordEnd(s: string): (n: nat)
    ensures n <= |s| && (forall k :: 0 <= k < n ==> !IsSpace(s[k])) && (n < |s| ==> IsSpace(s[n]))
  {
    if s == "" || IsSpace(s[0]) then 0 else 1 + WordEnd(s[1..])
  }

  /** The stretches of a text between whitespace. */
  function Tokens(s: string): (ts: seq<string>)
    ensures forall i :: 0 <= i < |ts| ==> IsToken(ts[i])
  {
    if s == "" then []
    else if IsSpace(s[0]) then Tokens(s[1..])
    else
      var n := WordEnd(s);
      assert n > 0;
      [s[..n]] + Tokens(s[n..])
  }

  /** `tokenizeRangeSet`. */
  method Tokenize(s: string) returns (ts: seq<string>)
    ensures ts == Tokens(s)
  {
    hide Tokens;
    ts := [];
    var pos := 0;
    TokensFrom(s, 0);
    while pos < |s|
      invariant pos <= |s| && ts + Tokens(s[pos..]) == Tokens(s)
    {
      pos := SkipWhitespace(s, pos);
      if pos == |s| { break; }
      var end := EatToken(s, pos);
      assert ts + ([s[pos..end]] + Tokens(s[end..])) == ts + [s[pos..end]] + Tokens(s[end..]);
      ts := ts + [s[pos..end]];
      pos := end;
    }
    TokensFrom(s, |s|);
  }

  method SkipWhitespace(s: string, start: nat) returns (pos: nat)
    requires start <= |s|
    ensures start <= pos <= |s| && (pos < |s| ==> !IsSpace(s[pos])) && Tokens(s[pos..]) == Tokens(s[start..])
  {
    hide Tokens;
    pos := start;
    while pos < |s| && IsSpace(s[pos])
      invariant start <= pos <= |s| && Tokens(s[pos..]) == Tokens(s[start..])
    {
      TokensFrom(s, pos);
      pos := pos + 1;
    }
  }

  method EatToken(s: string, start: nat) returns (pos: nat)
    requires start < |s| && !IsSpace(s[start])
    ensures start < pos <= |s| && Tokens(s[start..]) == [s[start..pos]] + Tokens(s[pos..])
  {
    hide Tokens;
    TokensFrom(s, start);
    pos := start + 1;
    while pos < |s| && !IsSpace(s[pos])
      invariant start < pos <= |s| && forall k :: start <= k < pos ==> !IsSpace(s[k])
    {
      pos := pos + 1;
    }
    WordEndIs(s[start..pos], s[pos..]);
    assert s[start..pos] + s[pos..] == s[start..];
    assert s[start..][..pos - start] == s[start..pos] && s[start..][pos - start..] == s[pos..];
  }

  lemma TokensFrom(s: string, i: nat)
    requires i <= |s|
    ensures i == 0 ==> [] + Tokens(s[i..]) == Tokens(s)
    ensures i == |s| ==> Tokens(s[i..]) == []
    ensures i < |s| && IsSpace(s[i]) ==> Tokens(s[i..]) == Tokens(s[i + 1..])
    ensures i < |s| && !IsSpace(s[i]) ==>
              var n := WordEnd(s[i..]); Tokens(s[i..]) == [s[i..][..n]] + Tokens(s[i..][n..])
  {
    assert s[0..] == s;
    assert i < |s| ==> s[i..][0] == s[i] && s[i..][1..] == s[i + 1..];
  }

  lemma {:induction false} WordEndIs(t: string, rest: string)
    requires (forall k :: 0 <= k < |t| ==> !IsSpace(t[k])) && (rest != "" ==> IsSpace(rest[0]))
    ensures WordEnd(t + rest) == |t|
  {
    if t == "" {
      assert t + rest == rest;
    } else {
      assert (t + rest)[1..] == t[1..] + rest;
      WordEndIs(t[1..], rest);
    }
  }

  lemma TokenFirst(t: string, rest: string)
    requires IsToken(t) && (rest != "" ==> IsSpace(rest[0]))
    ensures Tokens(t + rest) == [t] + Tokens(rest)
  {
    WordEndIs(t, rest);
    assert (t + rest)[..|t|] == t && (t + rest)[|t|..] == rest;
  }

  /** `join(' ')`. */
  function JoinSpace(ts: seq<string>): string {
    if ts == [] then "" else if |ts| == 1 then ts[0] else ts[0] + (" " + JoinSpace(ts[1..]))
  }

  /** Joined tokens are the same tokens again. */
  lemma {:induction false} TokensOfJoin(ts: seq<string>)
    requires forall i :: 0 <= i < |ts| ==> IsToken(ts[i])
    ensures Tokens(JoinSpace(ts)) == ts
  {
    hide Tokens, WordEnd;
    NoTokens();
    if |ts| == 1 {
      TokenFirst(ts[0], "");
      assert ts[0] + "" == ts[0];
    } else if ts != [] {
      var rest := JoinSpace(ts[1..]);
      TokensOfJoin(ts[1..]);
      TokenFirst(ts[0], " " + rest);
      SpaceFirst(' ', rest);
    }
  }

  lemma NoTokens()
    ensures Tokens("") == []
  {
  }

  lemma SpaceFirst(c: char, s: string)
    requires IsSpace(c)
    ensures Tokens([c] + s) == Tokens(s)
  {
    assert ([c] + s)[1..] == s;
  }

  // ----- trimming -----

  function TrimStart(s: string): string { if s != "" && IsSpace(s[0]) then TrimStart(s[1..]) else s }

  function TrimEnd(s: string): string { if s != "" && IsSpace(s[|s| - 1]) then TrimEnd(s[..|s| - 1]) else s }

  function Trim(s: string): string { TrimEnd(TrimStart(s)) }

  lemma {:induction false} SpaceLast(s: string, c: char)
    requires IsSpace(c)
    ensures Tokens(s + [c]) == Tokens(s)
    decreases |s|
  {
    var t := s + [c];
    if s == "" {
      assert t == [c] && t[1..] == "";
    } else if IsSpace(s[0]) {
      assert t[1..] == s[1..] + [c];
      SpaceLast(s[1..], c);
    } else {
      var n := WordEnd(s);
      SpaceLast(s[n..], c);
      var word, rest := s[..n], s[n..] + [c];
      assert t == word + rest && s == word + s[n..];
      TokenFirst(word, rest);
      TokenFirst(word, s[n..]);
    }
  }

  /** Trimming changes no token. */
  lemma {:induction false} TokensTrimmed(s: string)
    ensures Tokens(TrimStart(s)) == Tokens(s) && Tokens(TrimEnd(s)) == Tokens(s)
    decreases |s|
  {
    if s != "" {
      if IsSpace(s[0]) { TokensTrimmed(s[1..]); }
      if IsSpace(s[|s| - 1]) {
        TokensTrimmed(s[..|s| - 1]);
        assert s == s[..|s| - 1] + [s[|s| - 1]];
        SpaceLast(s[..|s| - 1], s[|s| - 1]);
      }
    }
  }

  ghost predicate Blank(s: string) { forall k :: 0 <= k < |s| ==> s[k] in {' ', '\t', '\n', '\r'} }

  ghost predicate Solid(s: string) { s != "" && forall k :: 0 <= k < |s| ==> s[k] !in {' ', '\t', '\n', '\r'} }

  /** Blanks hold no token, and a word between blanks is one. */
  lemma {:induction false} TokensMean(blank: string, word: string, rest: string)
    requires Blank(blank) && Solid(word) && (rest != "" ==> Blank(rest[..1]))
    ensures Tokens(blank) == [] && Tokens(blank + (word + rest)) == [word] + Tokens(rest)
    decreases |blank|
  {
    hide Tokens;
    NoTokens();
    if blank == "" {
      assert blank + (word + rest) == word + rest;
      assert rest != "" ==> rest[..1][0] == rest[0];
      TokenFirst(word, rest);
    } else {
      TokensMean(blank[1..], word, rest);
      assert blank == [blank[0]] + blank[1..];
      SpaceFirst(blank[0], blank[1..]);
      SpaceFirst(blank[0], blank[1..] + (word + rest));
      assert blank + (word + rest) == [blank[0]] + (blank[1..] + (word + rest));
    }
  }

  // ----- hyphen ranges -----

  /** The two bounds that `a - b` stands for. */
  function Bounds(a: string, b: string): (r: seq<string>)
    requires IsToken(a) && IsToken(b)
    ensures |r| == 2 && IsToken(r[0]) && IsToken(r[1])
  {
    assert forall k :: 2 <= k < |a| + 2 ==> (">=" + a)[k] == a[k - 2];
    assert forall k :: 2 <= k < |b| + 2 ==> ("<=" + b)[k] == b[k - 2];
    [">=" + a, "<=" + b]
  }

  function Hyphens(ts: seq<string>): (r: seq<string>)
    requires forall i :: 0 <= i < |ts| ==> IsToken(ts[i])
    ensures forall i :: 0 <= i < |r| ==> IsToken(r[i])
  {
    if ts == [] then []
    else if |ts| >= 3 && ts[1] == "-" then Bounds(ts[0], ts[2]) + Hyphens(ts[3..])
    else [ts[0]] + Hyphens(ts[1..])
  }

  /** `normalizeHyphenRanges`. */
  method NormalizeHyphens(s: string) returns (r: string)
    ensures Tokens(r) == Hyphens(Tokens(s))
  {
    hide Tokens, IsToken, JoinSpace, Hyphens, Bounds;
    var tokens := Tokenize(s);
    var out: seq<string>, i := [], 0;
    assert tokens[0..] == tokens;
    while i < |tokens|
      invariant i <= |tokens| && out + Hyphens(tokens[i..]) == Hyphens(tokens)
      decreases |tokens| - i
    {
      HyphensFrom(tokens, i);
      if i + 2 < |tokens| && tokens[i + 1] == "-" {
        assert out + (Bounds(tokens[i], tokens[i + 2]) + Hyphens(tokens[i + 3..]))
            == out + Bounds(tokens[i], tokens[i + 2]) + Hyphens(tokens[i + 3..]);
        out := out + Bounds(tokens[i], tokens[i + 2]);
        i := i + 3;
      } else {
        assert out + ([tokens[i]] + Hyphens(tokens[i + 1..])) == out + [tokens[i]] + Hyphens(tokens[i + 1..]);
        out := out + [tokens[i]];
        i := i + 1;
      }
    }
    NoHyphens();
    assert tokens[i..] == [] && out + [] == out;
    TokensOfJoin(out);
    return JoinSpace(out);
  }

  lemma NoHyphens()
    ensures Hyphens([]) == []
  {
  }

  lemma HyphensFrom(ts: seq<string>, i: nat)
    requires i < |ts| && forall k :: 0 <= k < |ts| ==> IsToken(ts[k])
    ensures Hyphens(ts[i..]) ==
            if i + 2 < |ts| && ts[i + 1] == "-" then Bounds(ts[i], ts[i + 2]) + Hyphens(ts[i + 3..])
            else [ts[i]] + Hyphens(ts[i + 1..])
  {
    var t := ts[i..];
    assert t[1..] == ts[i + 1..] && (|t| >= 3 ==> t[3..] == ts[i + 3..]);
  }

  // ----- what a token stands for -----

  function Operator(t: string): (r: (Op, nat))
    ensures r.1 <= |t|
  {
    if |t| >= 2 && t[..2] == "<=" then (AtMost, 2)
    else if |t| >= 2 && t[..2] == ">=" then (AtLeast, 2)
    else if |t| >= 1 && t[0] == '<' then (Below, 1)
    else if |t| >= 1 && t[0] == '>' then (Above, 1)
    else (Same, 0)
  }

  /** What `expandToken` computes; `None` stands for the error. */
  function Expand(t: string): Option<seq<Comparator>> {
    if t == "" || t == "*" || t == "x" || t == "X" then Some([])
    else if t[0] == '^' then
      var w := ParseWords(t[1..]);
      if w.None? then None else Some(Caret(PartialOf(w.value)))
    else if t[0] == '~' then
      var w := ParseWords(t[1..]);
      if w.None? then None else Some(Tilde(PartialOf(w.value)))
    else
      var (op, n) := Operator(t);
      var w := ParseWords(t[n..]);
      if n == |t| || w.None? then None else Some(FromParts(op, PartialOf(w.value)))
  }

  /** `expandToken`. */
  method ExpandToken(t: string) returns (r: Option<seq<Comparator>>)
    ensures r == Expand(t)
  {
    hide ParseWords;
    if t == "" || t == "*" || t == "x" || t == "X" { return Some([]); }
    if t[0] == '^' || t[0] == '~' {
      var w := ParsePartial(t[1..]);
      if w.None? { return None; }
      return Some(if t[0] == '^' then Caret(PartialOf(w.value)) else Tilde(PartialOf(w.value)));
    }
    var (op, n) := Operator(t);
    if n == |t| { return None; }
    var w := ParsePartial(t[n..]);
    if w.None? { return None; }
    return Some(FromParts(op, PartialOf(w.value)));
  }

  function ExpandAll(ts: seq<string>): Option<seq<Comparator>> {
    if ts == [] then Some([])
    else
      var front, last := ExpandAll(ts[..|ts| - 1]), Expand(ts[|ts| - 1]);
      if front.None? || last.None? then None else Some(front.value + last.value)
  }

  /** `parseRangeSet`. */
  method ParseRangeSet(text: string) returns (r: Option<RangeSet>)
    ensures var cs := ExpandAll(Tokens(text)); if cs.None? then r.None? else r.Some? && r.value.comparators == cs.value
    ensures r.Some? ==> Built(r.value)
  {
    hide Tokens, Expand, Built;
    var tokens := Tokenize(Trim(text));
    TokensTrimmed(text);
    TokensTrimmed(TrimStart(text));
    var parts: seq<seq<Comparator>> := [];
    for i := 0 to |tokens|
      invariant |parts| == i && ExpandAll(tokens[..i]) == Some(Flat(parts, i))
    {
      assert tokens[..i + 1][..i] == tokens[..i];
      var cs := ExpandToken(tokens[i]);
      if cs.None? {
        NoneSpreads(tokens, i + 1);
        return None;
      }
      FlatMore(parts, cs.value, i);
      parts := parts + [cs.value];
    }
    assert tokens[..|tokens|] == tokens;
    var s := BuildSet(parts);
    return Some(s);
  }

  lemma {:induction false} FlatMore(parts: seq<seq<Comparator>>, cs: seq<Comparator>, n: nat)
    requires n <= |parts|
    ensures Flat(parts + [cs], n) == Flat(parts, n)
  {
    if n > 0 { FlatMore(parts, cs, n - 1); }
  }

  lemma {:induction false} NoneSpreads(ts: seq<string>, i: nat)
    requires i <= |ts| && ExpandAll(ts[..i]).None?
    ensures ExpandAll(ts).None?
    decreases |ts| - i
  {
    hide Expand;
    if i < |ts| {
      assert ts[..i + 1][..i] == ts[..i];
      NoneSpreads(ts, i + 1);
    } else {
      assert ts[..i] == ts;
    }
  }

  // ----- alternatives -----

  function Grown(p: string, bs: seq<string>): (r: seq<string>)
    requires bs != []
    ensures r != []
  {
    [p + bs[0]] + bs[1..]
  }

  /** The stretches of a text between double bars. */
  function SplitBars(s: string): (bs: seq<string>)
    ensures bs != []
  {
    if s == "" then [""]
    else if |s| >= 2 && s[..2] == "||" then [""] + SplitBars(s[2..])
    else Grown([s[0]], SplitBars(s[1..]))
  }

  /** One alternative; an empty one is an error. */
  function Branch(s: string): Option<seq<Comparator>> {
    if Tokens(s) == [] then None else ExpandAll(Hyphens(Tokens(s)))
  }

  function Branches(bs: seq<string>): Option<seq<seq<Comparator>>> {
    if bs == [] then Some([])
    else
      var front, last := Branches(bs[..|bs| - 1]), Branch(bs[|bs| - 1]);
      if front.None? || last.None? then None else Some(front.value + [last.value])
  }

  /** The alternatives that compare something. */
  function NonEmpty(css: seq<seq<Comparator>>): seq<seq<Comparator>> {
    if css == [] then []
    else NonEmpty(css[..|css| - 1]) + if css[|css| - 1] == [] then [] else [css[|css| - 1]]
  }

  function Lower(c: char): char { if 'A' <= c <= 'Z' then (c as int + 32) as char else c }

  /** `partIsWildcard`, on trimmed text. */
  predicate Anything(t: string) {
    t == "" || t == "*" || (|t| == 6 && forall i :: 0 <= i < 6 ==> Lower(t[i]) == "latest"[i])
  }

  /** What `parseRange` computes; `None` stands for the error. */
  function RangeOf(text: string): Option<seq<seq<Comparator>>> {
    var t := Trim(text);
    if Anything(t) then Some([[]])
    else
      var css := Branches(SplitBars(t));
      if css.None? then None else Some(NonEmpty(css.value))
  }

  function Lists(sets: seq<RangeSet>): (css: seq<seq<Comparator>>)
    ensures |css| == |sets| && forall i :: 0 <= i < |sets| ==> css[i] == sets[i].comparators
  {
    seq(|sets|, i requires 0 <= i < |sets| => sets[i].comparators)
  }

  ghost predicate AllBuilt(sets: seq<RangeSet>) { forall i :: 0 <= i < |sets| ==> Built(sets[i]) }

  method ParseBranch(text: string) returns (r: Option<RangeSet>)
    ensures var cs := Branch(text); if cs.None? then r.None? else r.Some? && r.value.comparators == cs.value
    ensures r.Some? ==> Built(r.value)
  {
    hide Tokens, ExpandAll, Hyphens, Built, Trim;
    var branch := Trim(text);
    TrimEmpty(text);
    if branch == "" { return None; }
    var normal := NormalizeHyphens(branch);
    r := ParseRangeSet(normal);
  }

  lemma TrimEmpty(s: string)
    ensures Tokens(Trim(s)) == Tokens(s) && (Trim(s) == "" <==> Tokens(s) == [])
  {
    TokensTrimmed(s);
    TokensTrimmed(TrimStart(s));
    TrimmedStart(s);
    if Trim(s) != "" { TrimmedEnd(TrimStart(s)); }
  }

  lemma {:induction false} TrimmedStart(s: string)
    ensures TrimStart(s) != "" ==> !IsSpace(TrimStart(s)[0])
  {
    if s != "" { TrimmedStart(s[1..]); }
  }

  lemma {:induction false} TrimmedEnd(s: string)
    ensures TrimEnd(s) <= s
  {
    if s != "" { TrimmedEnd(s[..|s| - 1]); }
  }

  /** `parseRange`. */
  method ParseRange(text: string) returns (r: Option<seq<RangeSet>>)
    ensures r.None? <==> RangeOf(text).None?
    ensures r.Some? ==> AllBuilt(r.value) && Lists(r.value) == RangeOf(text).value
  {
    hide Branch, Trim, Built, SplitBars, Branches, NonEmpty;
    var t := Trim(text);
    if Anything(t) {
      NothingBuilt();
      return Some([RangeSet([], {})]);
    }
    var sets := AllBranches(t);
    if sets.None? { return None; }
    var kept := Compare(sets.value);
    return Some(kept);
  }

  lemma NothingBuilt()
    ensures Built(RangeSet([], {}))
  {
  }

  /** The loop of `parseRange` over the text. */
  method AllBranches(t: string) returns (r: Option<seq<RangeSet>>)
    ensures r.None? <==> Branches(SplitBars(t)).None?
    ensures r.Some? ==> AllBuilt(r.value) && Lists(r.value) == Branches(SplitBars(t)).value
  {
    hide Branch, Built, SplitBars, Branches, Lists;
    var sets: seq<RangeSet>, start, pos := [], 0, 0;
    ghost var done: seq<string> := [];
    BarsStart(t);
    while pos < |t|
      invariant start <= pos <= |t| && done + Grown(t[start..pos], SplitBars(t[pos..])) == SplitBars(t)
      invariant AllBuilt(sets) && Branches(done) == Some(Lists(sets))
    {
      BarsFrom(t, start, pos);
      if pos + 2 <= |t| && t[pos..pos + 2] == "||" {
        var branch := ParseBranch(t[start..pos]);
        BranchStep(done, t[start..pos], sets, branch);
        assert done + ([t[start..pos]] + SplitBars(t[pos + 2..])) == done + [t[start..pos]] + SplitBars(t[pos + 2..]);
        if branch.None? {
          NoneStays(SplitBars(t), |done| + 1);
          return None;
        }
        sets, done := sets + [branch.value], done + [t[start..pos]];
        pos := pos + 2;
        start := pos;
        GrownByNothing(t, pos);
      } else {
        pos := pos + 1;
      }
    }
    BarsEnd(t, start);
    var branch := ParseBranch(t[start..]);
    BranchStep(done, t[start..], sets, branch);
    if branch.None? { return None; }
    return Some(sets + [branch.value]);
  }

  lemma BarsStart(t: string)
    ensures [] + Grown(t[0..0], SplitBars(t[0..])) == SplitBars(t) && Branches([]) == Some(Lists([]))
  {
    assert t[0..] == t;
    GrownByNothing(t, 0);
  }

  lemma BarsFrom(t: string, start: nat, pos: nat)
    requires start <= pos < |t|
    ensures Grown(t[start..pos], SplitBars(t[pos..])) ==
            if pos + 2 <= |t| && t[pos..pos + 2] == "||" then [t[start..pos]] + SplitBars(t[pos + 2..])
            else Grown(t[start..pos + 1], SplitBars(t[pos + 1..]))
  {
    var s := t[pos..];
    assert s[1..] == t[pos + 1..] && (|s| >= 2 ==> s[..2] == t[pos..pos + 2] && s[2..] == t[pos + 2..]);
    assert t[start..pos] + "" == t[start..pos];
    var rest := SplitBars(t[pos + 1..]);
    assert t[start..pos] + ([t[pos]] + rest[0]) == t[start..pos + 1] + rest[0];
  }

  lemma BarsEnd(t: string, start: nat)
    requires start <= |t|
    ensures Grown(t[start..|t|], SplitBars(t[|t|..])) == [t[start..]]
  {
    assert t[|t|..] == "" && t[start..|t|] + "" == t[start..];
  }

  lemma GrownByNothing(t: string, pos: nat)
    requires pos <= |t|
    ensures Grown(t[pos..pos], SplitBars(t[pos..])) == SplitBars(t[pos..])
  {
    assert t[pos..pos] == "";
    var bs := SplitBars(t[pos..]);
    assert "" + bs[0] == bs[0] && [bs[0]] + bs[1..] == bs;
  }

  lemma BranchStep(done: seq<string>, b: string, sets: seq<RangeSet>, r: Option<RangeSet>)
    requires Branches(done) == Some(Lists(sets))
    requires var cs := Branch(b); if cs.None? then r.None? else r.Some? && r.value.comparators == cs.value
    ensures r.None? ==> Branches(done + [b]).None?
    ensures r.Some? ==> Branches(done + [b]) == Some(Lists(sets + [r.value]))
  {
    hide Branch;
    assert (done + [b])[..|done|] == done;
    assert r.Some? ==> Lists(sets + [r.value]) == Lists(sets) + [r.value.comparators];
  }

  lemma {:induction false} NoneStays(bs: seq<string>, i: nat)
    requires i <= |bs| && Branches(bs[..i]).None?
    ensures Branches(bs).None?
    decreases |bs| - i
  {
    hide Branch;
    if i < |bs| {
      assert bs[..i + 1][..i] == bs[..i];
      NoneStays(bs, i + 1);
    } else {
      assert bs[..i] == bs;
    }
  }

  /** The `filter` at the end of `parseRange`. */
  method Compare(sets: seq<RangeSet>) returns (kept: seq<RangeSet>)
    requires AllBuilt(sets)
    ensures AllBuilt(kept) && Lists(kept) == NonEmpty(Lists(sets))
  {
    hide Built;
    kept := [];
    for i := 0 to |sets|
      invariant AllBuilt(kept) && Lists(kept) == NonEmpty(Lists(sets)[..i])
    {
      assert Lists(sets)[..i + 1][..i] == Lists(sets)[..i];
      if sets[i].comparators != [] {
        assert Lists(kept + [sets[i]]) == Lists(kept) + [sets[i].comparators];
        kept := kept + [sets[i]];
      }
    }
    assert Lists(sets)[..|sets|] == Lists(sets);
  }
}
