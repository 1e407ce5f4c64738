/** Host nodes, the renderer's `Mounted` mirror, and what it means for the two to agree. */
module UiMounted {
  import opened Basics
  import opened UiTree

  /** A host node; nodes refer to their children by identity. */
  datatype HostNode = HostText(text: string) | HostElement(name: string, props: Props, children: seq<nat>)

  type Nodes = map<nat, HostNode>

  datatype Mounted =
    | MountedText(node: nat, text: string)
    | MountedNode(node: nat, name: string, key: Option<Key>, props: Props, children: seq<Mounted>)

  function KeyOf(m: Mounted): Option<Key> { if m.MountedText? then None else m.key }

  function MountedKey(m: Mounted, index: nat): Key { EffectiveKey(KeyOf(m), index) }

  function NodeIds(ms: seq<Mounted>): (ids: seq<nat>)
    ensures |ids| == |ms| && forall i :: 0 <= i < |ms| ==> ids[i] == ms[i].node
  {
    seq(|ms|, i requires 0 <= i < |ms| => ms[i].node)
  }

  /** Host nodes owned by a mirror. */
  ghost function Ids(m: Mounted): set<nat> {
    {m.node} + if m.MountedText? then {} else ChildIds(m.children)
  }

  ghost function ChildIds(ms: seq<Mounted>): set<nat> {
    set i, x | 0 <= i < |ms| && x in Ids(ms[i]) :: x
  }

  /** No host node is owned twice. */
  ghost predicate Treelike(m: Mounted) {
    m.MountedNode? ==>
      && m.node !in ChildIds(m.children)
      && (forall i :: 0 <= i < |m.children| ==> Treelike(m.children[i]))
      && (forall i, j :: 0 <= i < j < |m.children| ==> Ids(m.children[i]) !! Ids(m.children[j]))
  }

  /** The mirror records exactly this virtual tree. */
  ghost predicate Mirrors(m: Mounted, v: VNode)
    decreases m
  {
    match m
    case MountedText(_, text) => v == Text(text)
    case MountedNode(_, name, key, props, children) =>
      && v.Element? && v.kind == Name(name) && v.key == key && v.props == props
      && |children| == |v.children|
      && forall i :: 0 <= i < |children| ==> Mirrors(children[i], v.children[i])
  }

  /**
   * The host shows the mirror: every mirrored node is there with its text or name and props, and
   * its child list starts with the mirrored children, in order. Other nodes may follow.
   */
  ghost predicate Shows(nodes: Nodes, m: Mounted)
    decreases m
  {
    && m.node in nodes
    && match m
       case MountedText(node, text) => nodes[node] == HostText(text)
       case MountedNode(node, name, _, props, children) =>
         && nodes[node].HostElement? && nodes[node].name == name && nodes[node].props == props
         && NodeIds(children) <= nodes[node].children
         && NoDup(nodes[node].children)
         && forall i :: 0 <= i < |children| ==> Shows(nodes, children[i])
  }

  /** No mirrored node has host children the mirror does not know of. */
  ghost predicate Clean(nodes: Nodes, m: Mounted)
    decreases m
  {
    m.MountedNode? ==>
      && m.node in nodes && nodes[m.node].HostElement?
      && nodes[m.node].children == NodeIds(m.children)
      && forall i :: 0 <= i < |m.children| ==> Clean(nodes, m.children[i])
  }

  /** The host tree below `id`, read off node by node, is `t`. */
  ghost predicate Reads(nodes: Nodes, id: nat, t: Shown)
    decreases t
  {
    && id in nodes
    && match t
       case ShownText(text) => nodes[id] == HostText(text)
       case ShownElement(name, props, children) =>
         && nodes[id].HostElement? && nodes[id].name == name && nodes[id].props == props
         && |nodes[id].children| == |children|
         && forall i :: 0 <= i < |children| ==> Reads(nodes, nodes[id].children[i], children[i])
  }

  /** A host node shows at most one tree. */
  lemma {:induction false} ReadsIsFunctional(nodes: Nodes, id: nat, t: Shown, u: Shown)
    requires Reads(nodes, id, t) && Reads(nodes, id, u)
    ensures t == u
    decreases t
  {
    if t.ShownElement? {
      forall i | 0 <= i < |t.children| ensures t.children[i] == u.children[i] {
        ReadsIsFunctional(nodes, nodes[id].children[i], t.children[i], u.children[i]);
      }
      assert t.children == u.children;
    }
  }

  lemma {:induction false} MirrorOfLowered(m: Mounted, v: VNode)
    requires Mirrors(m, v)
    ensures Lowered(v)
    decreases m
  {
    if m.MountedNode? {
      forall i | 0 <= i < |v.children| ensures Lowered(v.children[i]) {
        MirrorOfLowered(m.children[i], v.children[i]);
      }
    }
  }

  /** A shown mirror of `v` reads as `v` exactly when no stray host children are left. */
  lemma {:induction false} ReadsIffClean(nodes: Nodes, m: Mounted, v: VNode)
    requires Mirrors(m, v) && Shows(nodes, m) && Lowered(v)
    ensures Reads(nodes, m.node, Visible(v)) <==> Clean(nodes, m)
    decreases m
  {
    if m.MountedNode? {
      forall i | 0 <= i < |m.children|
        ensures Reads(nodes, m.children[i].node, Visible(v.children[i])) <==> Clean(nodes, m.children[i])
      {
        ReadsIffClean(nodes, m.children[i], v.children[i]);
      }
      var host := nodes[m.node].children;
      assert forall i :: 0 <= i < |m.children| ==> host[i] == m.children[i].node;
      if Reads(nodes, m.node, Visible(v)) {
        assert host == NodeIds(m.children);
        forall i | 0 <= i < |m.children| ensures Clean(nodes, m.children[i]) {
          assert Visible(v).children[i] == Visible(v.children[i]);
        }
      }
    }
  }

  ghost predicate Agree(nodes: Nodes, nodes': Nodes, ids: set<nat>) {
    forall x :: x in ids ==> x in nodes && x in nodes' && nodes[x] == nodes'[x]
  }

  /** Showing a mirror depends only on the nodes it owns. */
  lemma {:induction false} Frame(nodes: Nodes, nodes': Nodes, m: Mounted)
    requires Agree(nodes, nodes', Ids(m))
    ensures Shows(nodes, m) <==> Shows(nodes', m)
    ensures Clean(nodes, m) <==> Clean(nodes', m)
    decreases m
  {
    if m.MountedNode? {
      forall i | 0 <= i < |m.children|
        ensures Shows(nodes, m.children[i]) <==> Shows(nodes', m.children[i])
        ensures Clean(nodes, m.children[i]) <==> Clean(nodes', m.children[i])
      {
        assert Ids(m.children[i]) <= Ids(m);
        Frame(nodes, nodes', m.children[i]);
      }
    }
  }

  // ----- which mounted child a new child is matched with -----

  /** The entry `existing` holds for `k`: the last mounted child with that effective key, or -1. */
  function FindLast(ms: seq<Mounted>, k: Key): (i: int)
    ensures -1 <= i < |ms|
    ensures i != -1 ==> MountedKey(ms[i], i) == k
  {
    if ms == [] then -1
    else if MountedKey(ms[|ms| - 1], |ms| - 1) == k then |ms| - 1
    else FindLast(ms[..|ms| - 1], k)
  }

  lemma {:induction false} FindLastIsLast(ms: seq<Mounted>, k: Key, j: nat)
    requires j < |ms| && MountedKey(ms[j], j) == k
    ensures j <= FindLast(ms, k)
  {
    if MountedKey(ms[|ms| - 1], |ms| - 1) != k {
      FindLastIsLast(ms[..|ms| - 1], k, j);
    }
  }

  predicate FirstUse(vs: seq<VNode>, j: nat)
    requires j < |vs|
  {
    forall a :: 0 <= a < j ==> ChildKey(vs[a], a) != ChildKey(vs[j], j)
  }

  /** Index of the mounted child that new child `j` takes over, or -1 when it is mounted afresh. */
  function Match(ms: seq<Mounted>, vs: seq<VNode>, j: nat): (i: int)
    requires j < |vs|
    ensures -1 <= i < |ms|
  {
    if FirstUse(vs, j) then FindLast(ms, ChildKey(vs[j], j)) else -1
  }

  ghost predicate UniqueMountedKeys(ms: seq<Mounted>) {
    forall i, j :: 0 <= i < j < |ms| ==> MountedKey(ms[i], i) != MountedKey(ms[j], j)
  }

  /** `reconcile` keeps the host node: same kind, same type, same key. */
  predicate Retains(m: Mounted, v: VNode) {
    match (m, v)
    case (MountedText(_, _), Text(_)) => true
    case (MountedNode(_, name, key, _, _), Element(kind, _, _, vkey)) => kind == Name(name) && key == vkey
    case _ => false
  }

  /**
   * Reconciling `m` with `v` leaves no stray host children: wherever a node is kept, it has none
   * already and no two of its mounted children share an effective key.
   */
  ghost predicate KeepsClean(nodes: Nodes, m: Mounted, v: VNode)
    decreases v, 0
  {
    Retains(m, v) && m.MountedNode? ==>
      && m.node in nodes && nodes[m.node].HostElement?
      && nodes[m.node].children == NodeIds(m.children)
      && UniqueMountedKeys(m.children)
      && forall j :: 0 <= j < |v.children| ==> ChildKeepsClean(nodes, m.children, v.children, j)
  }

  ghost predicate ChildKeepsClean(nodes: Nodes, ms: seq<Mounted>, vs: seq<VNode>, j: nat)
    requires j < |vs|
    decreases vs[j], 1
  {
    Match(ms, vs, j) != -1 ==> KeepsClean(nodes, ms[Match(ms, vs, j)], vs[j])
  }

  lemma {:induction false} FrameKeepsClean(nodes: Nodes, nodes': Nodes, m: Mounted, v: VNode)
    requires Agree(nodes, nodes', Ids(m))
    ensures KeepsClean(nodes, m, v) <==> KeepsClean(nodes', m, v)
    decreases v
  {
    if Retains(m, v) && m.MountedNode? {
      forall j | 0 <= j < |v.children|
        ensures ChildKeepsClean(nodes, m.children, v.children, j) <==>
              ChildKeepsClean(nodes', m.children, v.children, j)
      {
        var i := Match(m.children, v.children, j);
        if i != -1 {
          assert Ids(m.children[i]) <= Ids(m);
          FrameKeepsClean(nodes, nodes', m.children[i], v.children[j]);
        }
      }
    }
  }

  /**
   * Which host nodes are reused: a retained node keeps its identity and so do, recursively, its
   * matched children; everything else is created after `bound`.
   */
  ghost predicate Identity(m: Mounted, v: VNode, m': Mounted, bound: nat)
    decreases v, 0
  {
    if Retains(m, v) then
      && m'.node == m.node
      && (m.MountedNode? && m'.MountedNode? && |m'.children| == |v.children| ==>
            forall j :: 0 <= j < |v.children| ==>
                          ChildIdentity(m.children, v.children, j, m'.children[j], bound))
    else
      forall x :: x in Ids(m') ==> bound <= x
  }

  ghost predicate ChildIdentity(ms: seq<Mounted>, vs: seq<VNode>, j: nat, m': Mounted, bound: nat)
    requires j < |vs|
    decreases vs[j], 1
  {
    var i := Match(ms, vs, j);
    if i == -1 then forall x :: x in Ids(m') ==> bound <= x
    else Identity(ms[i], vs[j], m', bound)
  }

  lemma {:induction false} IdentityMonotone(m: Mounted, v: VNode, m': Mounted, bound: nat, lower: nat)
    requires Identity(m, v, m', bound) && lower <= bound
    ensures Identity(m, v, m', lower)
    decreases v
  {
    if Retains(m, v) && m.MountedNode? && m'.MountedNode? && |m'.children| == |v.children| {
      forall j | 0 <= j < |v.children|
        ensures ChildIdentity(m.children, v.children, j, m'.children[j], lower)
      {
        assert ChildIdentity(m.children, v.children, j, m'.children[j], bound);
        var i := Match(m.children, v.children, j);
        if i != -1 {
          IdentityMonotone(m.children[i], v.children[j], m'.children[j], bound, lower);
        }
      }
    }
  }

  /** A clean mirror of a tree with sibling-unique keys stays clean whatever is rendered next. */
  lemma {:induction false} UniqueKeysKeepClean(nodes: Nodes, m: Mounted, v0: VNode, v: VNode)
    requires Mirrors(m, v0) && UniqueKeys(v0) && Clean(nodes, m)
    ensures KeepsClean(nodes, m, v)
    decreases v
  {
    if Retains(m, v) && m.MountedNode? {
      var ms := m.children;
      forall i | 0 <= i < |ms| ensures MountedKey(ms[i], i) == ChildKey(v0.children[i], i) {
        assert Mirrors(ms[i], v0.children[i]);
      }
      forall j | 0 <= j < |v.children| ensures ChildKeepsClean(nodes, ms, v.children, j) {
        var i := Match(ms, v.children, j);
        if i != -1 {
          UniqueKeysKeepClean(nodes, ms[i], v0.children[i], v.children[j]);
        }
      }
    }
  }

  // ----- which host nodes are reused, in terms of the keys given -----

  /** The key a child is given, if any. */
  ghost function GivenKey(v: VNode): Option<Key> { if v.Element? then v.key else None }

  /** The key a mounted child was given, if any. */
  ghost function HeldKey(m: Mounted): Option<Key> { if m.MountedNode? then m.key else None }

  /** New child `j` goes by the key of mounted child `i`. */
  ghost predicate Claims(ms: seq<Mounted>, vs: seq<VNode>, i: nat, j: nat)
    requires i < |ms| && j < |vs|
  {
    SameKey(HeldKey(ms[i]), i, GivenKey(vs[j]), j)
  }

  /** It is the first that does, and no later mounted child goes by that key. */
  ghost predicate TakesOver(ms: seq<Mounted>, vs: seq<VNode>, i: nat, j: nat)
    requires i < |ms| && j < |vs|
  {
    && Claims(ms, vs, i, j)
    && (forall h :: i < h < |ms| ==> !Claims(ms, vs, h, j))
    && (forall g :: 0 <= g < j ==> !Claims(ms, vs, i, g))
  }

  lemma ClaimsMeans(ms: seq<Mounted>, vs: seq<VNode>, i: nat, j: nat)
    requires i < |ms| && j < |vs|
    ensures MountedKey(ms[i], i) == ChildKey(vs[j], j) <==> Claims(ms, vs, i, j)
  {
    hide SameKey, EffectiveKey;
    EffectiveKeysMean(HeldKey(ms[i]), i, GivenKey(vs[j]), j);
    TextKey(vs[j], j);
  }

  lemma TextKey(v: VNode, j: nat)
    ensures ChildKey(v, j) == EffectiveKey(GivenKey(v), j)
  {
  }

  lemma LastMeans(ms: seq<Mounted>, k: Key)
    ensures forall h :: FindLast(ms, k) < h < |ms| ==> MountedKey(ms[h], h) != k
  {
    hide FindLast, MountedKey;
    forall h: nat | FindLast(ms, k) < h < |ms| ensures MountedKey(ms[h], h) != k {
      if MountedKey(ms[h], h) == k { FindLastIsLast(ms, k, h); }
    }
  }

  /** New child `j` is matched with mounted child `i` exactly when it takes it over. */
  lemma MatchMeans(ms: seq<Mounted>, vs: seq<VNode>, i: nat, j: nat)
    requires i < |ms| && j < |vs|
    ensures Match(ms, vs, j) == i <==> TakesOver(ms, vs, i, j)
  {
    hide FindLast, ChildKey, MountedKey, Claims;
    var k := ChildKey(vs[j], j);
    forall h | 0 <= h < |ms| ensures MountedKey(ms[h], h) == k <==> Claims(ms, vs, h, j) {
      ClaimsMeans(ms, vs, h, j);
    }
    forall g | 0 <= g < j ensures MountedKey(ms[i], i) == ChildKey(vs[g], g) <==> Claims(ms, vs, i, g) {
      ClaimsMeans(ms, vs, i, g);
    }
    if MountedKey(ms[i], i) == k {
      FindLastIsLast(ms, k, i);
      var f := FindLast(ms, k);
      assert f != i ==> Claims(ms, vs, f, j);
      assert f == i ==> forall h :: i < h < |ms| ==> !Claims(ms, vs, h, j) by {
        LastMeans(ms, k);
      }
      assert FirstUse(vs, j) <==> forall g :: 0 <= g < j ==> !Claims(ms, vs, i, g);
    } else {
      assert !Claims(ms, vs, i, j);
    }
  }

  /** The same kind of node: two texts, or two elements with one name and one key. */
  ghost predicate SameNode(m: Mounted, v: VNode) {
    if m.MountedText? then v.Text? else v.Element? && v.kind == Name(m.name) && v.key == m.key
  }

  ghost predicate AllNew(m: Mounted, bound: nat) { forall x :: x in Ids(m) ==> bound <= x }

  /**
   * Which host nodes are reused, on given keys alone. The same kind of node keeps its host node, and every child that
   * takes over a mounted one is treated the same way. Everything else consists of new host nodes.
   */
  ghost predicate Reuses(m: Mounted, v: VNode, m': Mounted, bound: nat)
    decreases v
  {
    if SameNode(m, v) then
      && m'.node == m.node
      && (m.MountedNode? ==>
            && m'.MountedNode? && |m'.children| == |v.children|
            && forall j :: 0 <= j < |v.children| ==>
                 && (forall i :: 0 <= i < |m.children| && TakesOver(m.children, v.children, i, j) ==>
                       Reuses(m.children[i], v.children[j], m'.children[j], bound))
                 && ((forall i :: 0 <= i < |m.children| ==> !TakesOver(m.children, v.children, i, j)) ==>
                       AllNew(m'.children[j], bound)))
    else
      AllNew(m', bound)
  }

  lemma {:induction false} IdentityMeans(m: Mounted, v: VNode, m': Mounted, bound: nat)
    requires Identity(m, v, m', bound) && Mirrors(m', v)
    ensures Reuses(m, v, m', bound)
    decreases v, 0
  {
    hide TakesOver, Match, Ids;
    if SameNode(m, v) && m.MountedNode? {
      forall j | 0 <= j < |v.children|
        ensures forall i :: 0 <= i < |m.children| && TakesOver(m.children, v.children, i, j) ==>
                              Reuses(m.children[i], v.children[j], m'.children[j], bound)
        ensures (forall i :: 0 <= i < |m.children| ==> !TakesOver(m.children, v.children, i, j)) ==>
                  AllNew(m'.children[j], bound)
      {
        ChildIdentityMeans(m, v, m', bound, j);
      }
    }
  }

  lemma {:induction false} ChildIdentityMeans(m: Mounted, v: VNode, m': Mounted, bound: nat, j: nat)
    requires m.MountedNode? && m'.MountedNode? && v.Element? && j < |v.children| == |m'.children|
    requires ChildIdentity(m.children, v.children, j, m'.children[j], bound) && Mirrors(m'.children[j], v.children[j])
    ensures forall i :: 0 <= i < |m.children| && TakesOver(m.children, v.children, i, j) ==>
                          Reuses(m.children[i], v.children[j], m'.children[j], bound)
    ensures (forall i :: 0 <= i < |m.children| ==> !TakesOver(m.children, v.children, i, j)) ==>
              AllNew(m'.children[j], bound)
    decreases v.children[j], 1
  {
    hide TakesOver, Match, Ids, Reuses;
    var f := Match(m.children, v.children, j);
    forall i | 0 <= i < |m.children| ensures Match(m.children, v.children, j) == i <==>
                                              TakesOver(m.children, v.children, i, j) {
      MatchMeans(m.children, v.children, i, j);
    }
    if f != -1 {
      assert TakesOver(m.children, v.children, f, j);
      IdentityMeans(m.children[f], v.children[j], m'.children[j], bound);
    }
  }

  /** A child keeps its host node wherever it moves to, if its key is its own on both sides. */
  lemma KeyedChildKept(m: Mounted, v: VNode, m': Mounted, bound: nat, i: nat, j: nat, k: Key)
    requires Reuses(m, v, m', bound) && SameNode(m, v) && m.MountedNode? && i < |m.children| && j < |v.children|
    requires m.children[i].MountedNode? && m.children[i].key == Some(k) && SameNode(m.children[i], v.children[j])
    requires forall h :: 0 <= h < |m.children| && h != i ==>
               var key := HeldKey(m.children[h]); key != Some(k) && (key.None? ==> k != Str("#" + Decimal.Print(h)))
    requires forall g :: 0 <= g < |v.children| && g != j ==>
               var key := GivenKey(v.children[g]); key != Some(k) && (key.None? ==> k != Str("#" + Decimal.Print(g)))
    ensures m'.children[j].node == m.children[i].node
  {
    hide Decimal.Print;
    assert TakesOver(m.children, v.children, i, j);
  }

  /** A child without a key keeps its host node as long as it keeps its position, if no key imitates the position. */
  lemma PlacedChildKept(m: Mounted, v: VNode, m': Mounted, bound: nat, i: nat)
    requires Reuses(m, v, m', bound) && SameNode(m, v) && m.MountedNode? && i < |m.children| && i < |v.children|
    requires HeldKey(m.children[i]).None? && SameNode(m.children[i], v.children[i])
    requires forall h :: 0 <= h < |m.children| ==> HeldKey(m.children[h]) != Some(Str("#" + Decimal.Print(i)))
    requires forall g :: 0 <= g < |v.children| ==> GivenKey(v.children[g]) != Some(Str("#" + Decimal.Print(i)))
    ensures m'.children[i].node == m.children[i].node
  {
    hide Decimal.Print;
    assert TakesOver(m.children, v.children, i, i);
  }

  /** The keys of mounted children clash exactly when two of them go by the same key. */
  lemma UniqueKeysMean(ms: seq<Mounted>)
    ensures UniqueMountedKeys(ms) <==>
              forall i, j :: 0 <= i < j < |ms| ==> !SameKey(HeldKey(ms[i]), i, HeldKey(ms[j]), j)
  {
    hide SameKey, EffectiveKey;
    forall i, j | 0 <= i < j < |ms|
      ensures MountedKey(ms[i], i) == MountedKey(ms[j], j) <==> SameKey(HeldKey(ms[i]), i, HeldKey(ms[j]), j)
    {
      EffectiveKeysMean(HeldKey(ms[i]), i, HeldKey(ms[j]), j);
    }
  }
}
