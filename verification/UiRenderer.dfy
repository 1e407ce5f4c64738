/** `createRenderer`: one mounted tree per root, re-rendered in place. */
module UiRenderer {
  import opened Basics
  import opened UiTree
  import opened UiMounted
  import opened UiReconcile

  /** Root `r` lists its mounted tree `m`, then just `others`, and `m` is a shown mirror of `v`. */
  ghost predicate RootShows(nodes: Nodes, r: nat, m: Mounted, v: VNode, others: seq<nat>) {
    && r in nodes && nodes[r].HostElement? && NoDup(nodes[r].children)
    && nodes[r].children == [m.node] + others
    && Rendered(nodes, m, v)
  }

  /** Trees of different roots, and the roots themselves, share no host node. */
  ghost predicate Apart(roots: map<nat, Mounted>) {
    && (forall r, q :: r in roots && q in roots ==> q !in Ids(roots[r]))
    && (forall r, q :: r in roots && q in roots && r != q ==> Ids(roots[r]) !! Ids(roots[q]))
  }

  /** Rendering one root leaves the others alone. */
  lemma OtherRoots(nodes0: Nodes, nodes: Nodes, roots: map<nat, Mounted>, root: nat, touched: set<nat>,
                   r: nat, v: VNode, others: seq<nat>)
    requires Apart(roots) && r in roots && r != root && root !in Ids(roots[r])
    requires touched == if root in roots then Ids(roots[root]) + {root} else {root}
    requires Preserved(nodes0, nodes, touched) && RootShows(nodes0, r, roots[r], v, others)
    ensures RootShows(nodes, r, roots[r], v, others) && Agree(nodes0, nodes, Ids(roots[r]) + {r})
  {
    RenderedIsOwned(nodes0, roots[r]);
    assert Ids(roots[r]) !! touched;
    Frame(nodes0, nodes, roots[r]);
  }

  lemma StillApart(roots: map<nat, Mounted>, root: nat, m: Mounted, bound: nat)
    requires Apart(roots) && root !in Ids(m)
    requires forall r :: r in roots ==> r < bound && root !in Ids(roots[r]) && forall x :: x in Ids(roots[r]) ==>
          x < bound
    requires forall x :: x in Ids(m) ==> (root in roots && x in Ids(roots[root])) || bound <= x
    ensures Apart(roots[root := m])
  {
  }

  lemma OwnedBelow(nodes: Nodes, r: nat, m: Mounted, v: VNode, others: seq<nat>, bound: nat)
    requires RootShows(nodes, r, m, v, others) && forall x :: x in nodes ==> x < bound
    ensures r < bound && forall x :: x in Ids(m) ==> x < bound
  {
    RenderedIsOwned(nodes, m);
  }

  /** Taking the mounted node out of the list and a node in at the front replaces just the mounted one. */
  lemma FrontReplaced(before: nat, after: nat, others: seq<nat>)
    ensures SpliceIn(Without([before] + others, before), 0, after) == [after] + others
  {
    IndexOfIs([before] + others, before, 0);
  }

  lemma FrontInserted(after: nat, others: seq<nat>)
    ensures SpliceIn(others, 0, after) == [after] + others
  {
  }

  class Renderer {
    const host: Host
    var roots: map<nat, Mounted>
    /** Latest tree rendered into each root. */
    ghost var latest: map<nat, VNode>
    /** What each root listed before anything was rendered into it. */
    ghost var others: map<nat, seq<nat>>

    ghost predicate Valid()
      reads this, host
    {
      && host.Closed() && roots.Keys == latest.Keys == others.Keys && Apart(roots)
      && forall r :: r in roots ==> RootShows(host.nodes, r, roots[r], latest[r], others[r])
    }

    /** The host tree of root `r` is the one a fresh mount of the latest tree would show. */
    ghost predicate Faithful(r: nat)
      requires r in roots && r in latest
      reads this, host
    {
      Lowered(latest[r]) && Reads(host.nodes, roots[r].node, Visible(latest[r]))
    }

    constructor (h: Host)
      requires h.Closed()
      ensures Valid() && host == h && roots == map[]
    {
      host, roots, latest, others := h, map[], map[], map[];
    }

    /** What `root` lists beside its rendered element. */
    ghost function Beside(root: nat): seq<nat>
      requires host.Container(root)
      reads this, host
    {
      if root in others then others[root] else host.nodes[root].children
    }

    /**
     * `render`. It fails exactly on trees that are not fully lowered. Otherwise the mirror of `root`
     * records `element` and the other roots are untouched. The root lists its element once, before what
     * it listed at first: a replaced element is gone. The host then shows what a fresh mount of
     * `element` would, exactly when no kept node had strays or clashing child keys; in particular
     * when it was faithful to a tree with sibling-unique keys before. Kept nodes keep their identity.
     */
    method Render(element: VNode, root: nat) returns (ok: bool)
      requires Valid() && element.Element? && host.Container(root)
      requires forall r :: r in roots ==> root !in Ids(roots[r])
      modifies this, host
      ensures ok <==> Lowered(element)
      ensures ok ==> Valid() && roots.Keys == old(roots.Keys) + {root} && latest == old(latest)[root := element]
      ensures ok ==> others == old(others)[root := old(Beside(root))]
      ensures ok ==> host.nodes[root] == old(host.nodes[root]).(children := [roots[root].node] + old(Beside(root)))
      ensures ok
          ==> (Faithful(root) <==> (root in old(roots) ==> KeepsClean(old(host.nodes), old(roots)[root], element)))
      ensures ok ==> (root in old(roots) ==> old(Faithful(root)) && UniqueKeys(old(latest)[root])) ==> Faithful(root)
      ensures ok && root in old(roots) ==> Identity(old(roots)[root], element, roots[root], old(host.next))
      ensures ok && root in old(roots) ==> Reuses(old(roots)[root], element, roots[root], old(host.next))
      ensures ok ==> forall r :: r in old(roots) && r != root ==>
                                   && roots[r] == old(roots)[r]
                                   && Agree(old(host.nodes), host.nodes, Ids(roots[r]) + {r})
    {
      hide Apart, RootShows, Reads, Rendered, KeepsClean, Identity, Reuses, UniqueKeys, Lowered, Visible, Preserved,
          Agree, Ids;
      ghost var nodes0, bound := host.nodes, host.next;
      ghost var touched := if root in roots then Ids(roots[root]) + {root} else {root};
      var m;
      m, ok := Draw(element, root);
      if !ok { return; }
      forall r | r in roots
        ensures r < bound && forall x :: x in Ids(roots[r]) ==> x < bound
      {
        OwnedBelow(nodes0, r, roots[r], latest[r], others[r], bound);
      }
      StillApart(roots, root, m, bound);
      forall r | r in roots && r != root
        ensures RootShows(host.nodes, r, roots[r], latest[r], others[r])
            && Agree(nodes0, host.nodes, Ids(roots[r]) + {r})
      {
        OtherRoots(nodes0, host.nodes, roots, root, touched, r, latest[r], others[r]);
      }
      others := others[root := old(Beside(root))];
      roots, latest := roots[root := m], latest[root := element];
    }

    /** A root that was empty at first lists its rendered element and nothing else, after every render. */
    lemma ListsOnlyItsElement(root: nat)
      requires Valid() && root in roots && others[root] == []
      ensures root in host.nodes && host.nodes[root].HostElement? && host.nodes[root].children == [roots[root].node]
    {
    }

    /** The two branches of `render`: reconcile the mounted tree, or mount the first one. */
    method Draw(element: VNode, root: nat) returns (m: Mounted, ok: bool)
      requires Valid() && element.Element? && host.Container(root)
      requires root in roots ==> root !in Ids(roots[root])
      modifies host
      ensures ok <==> Lowered(element)
      ensures ok ==> host.Closed() && old(host.next) <= host.next
      ensures ok ==> Preserved(old(host.nodes), host.nodes, if root in roots then Ids(roots[root]) + {root} else {root})
      ensures ok ==> RootShows(host.nodes, root, m, element, old(Beside(root)))
      ensures ok ==> host.nodes[root] == old(host.nodes[root]).(children := [m.node] + old(Beside(root)))
      ensures ok ==> root !in Ids(m)
      ensures ok ==> forall x :: x in Ids(m) ==> (root in roots && x in Ids(roots[root])) || old(host.next) <= x
      ensures ok ==> (Reads(host.nodes, m.node, Visible(element)) <==>
                      (root in roots ==> KeepsClean(old(host.nodes), roots[root], element)))
      ensures root in roots && old(Faithful(root)) && UniqueKeys(latest[root]) ==>
            KeepsClean(old(host.nodes), roots[root], element)
      ensures ok && root in roots ==> Identity(roots[root], element, m, old(host.next))
      ensures ok && root in roots ==> Reuses(roots[root], element, m, old(host.next))
    {
      hide Apart, Reuses;
      if root in roots {
        Unfold(host.nodes, roots[root], latest[root], element);
        m, ok := host.Reconcile(roots[root], element, root, 0);
      } else {
        m, ok := host.Mount(element, root, 0);
      }
      if ok {
        if root in roots {
          FrontReplaced(roots[root].node, m.node, others[root]);
          IdentityMeans(roots[root], element, m, old(host.next));
        } else {
          FrontInserted(m.node, old(Beside(root)));
        }
        Exact(host.nodes, m, element);
      }
    }
  }

  lemma Unfold(nodes: Nodes, m: Mounted, v0: VNode, v: VNode)
    requires Rendered(nodes, m, v0)
    ensures Treelike(m) && Shows(nodes, m) && Lowered(v0)
    ensures Reads(nodes, m.node, Visible(v0)) && UniqueKeys(v0) ==> KeepsClean(nodes, m, v)
  {
    MirrorOfLowered(m, v0);
    ReadsIffClean(nodes, m, v0);
    if Clean(nodes, m) && UniqueKeys(v0) {
      UniqueKeysKeepClean(nodes, m, v0, v);
    }
  }

  lemma Exact(nodes: Nodes, m: Mounted, v: VNode)
    requires Rendered(nodes, m, v)
    ensures Lowered(v) && (Reads(nodes, m.node, Visible(v)) <==> Clean(nodes, m))
  {
    MirrorOfLowered(m, v);
    ReadsIffClean(nodes, m, v);
  }

  /**
   * Any element with two children of one key, rendered and then rendered again as any element of the same
   * type and key: the first of the two children is left behind in the host.
   */
  method ClashingSiblingsLeaveStrays(v0: VNode, v: VNode, i: nat, j: nat) returns (r: Renderer, root: nat)
    requires v0.Element? && v.Element? && Lowered(v0) && Lowered(v) && v.kind == v0.kind && v.key == v0.key
    requires i < j < |v0.children| && ChildKey(v0.children[i], i) == ChildKey(v0.children[j], j)
    ensures r.Valid() && root in r.roots && root in r.latest && r.latest[root] == v && !r.Faithful(root)
  {
    hide Lowered, Rendered, KeepsClean, Reads, Visible, ChildKey, UniqueKeys, Identity;
    var host := new Host();
    root := host.CreateNode("root", map[]);
    r := new Renderer(host);
    var ok := r.Render(v0, root);
    Clash(host.nodes, r.roots[root], v0, v, i, j);
    RootApart(r.roots, root);
    ok := r.Render(v, root);
  }

  lemma RootApart(roots: map<nat, Mounted>, root: nat)
    requires Apart(roots) && root in roots
    ensures forall r :: r in roots ==> root !in Ids(roots[r])
  {
  }

  lemma Clash(nodes: Nodes, m: Mounted, v0: VNode, v: VNode, i: nat, j: nat)
    requires Rendered(nodes, m, v0) && v0.Element? && v.Element? && v.kind == v0.kind && v.key == v0.key
    requires i < j < |v0.children| && ChildKey(v0.children[i], i) == ChildKey(v0.children[j], j)
    ensures !KeepsClean(nodes, m, v)
  {
    assert Mirrors(m.children[i], v0.children[i]) && Mirrors(m.children[j], v0.children[j]);
    assert MountedKey(m.children[i], i) == MountedKey(m.children[j], j);
  }
}
