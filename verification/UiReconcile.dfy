/** The host adapter and the keyed reconciler that drives it. */
module UiReconcile {
  import opened Basics
  import opened UiTree
  import opened UiMounted

  /** Every node outside `touched` is as it was. */
  ghost predicate Preserved(before: Nodes, after: Nodes, touched: set<nat>) {
    && before.Keys <= after.Keys
    && forall x :: x in before && x !in touched ==> after[x] == before[x]
  }

  /** A mirror of `v` that owns its nodes and that the host shows. */
  ghost predicate Rendered(nodes: Nodes, m: Mounted, v: VNode) {
    Mirrors(m, v) && Treelike(m) && Shows(nodes, m)
  }

  ghost predicate Disjoint(ms: seq<Mounted>) {
    forall a, b :: 0 <= a < b < |ms| ==> Ids(ms[a]) !! Ids(ms[b])
  }

  /** Mirrors of the first `|ms|` children, owning nodes below `limit` other than `node`. */
  ghost predicate RenderedAll(nodes: Nodes, ms: seq<Mounted>, vs: seq<VNode>, node: nat, limit: nat) {
    && |ms| <= |vs|
    && Disjoint(ms)
    && forall a :: 0 <= a < |ms| ==>
                     && Rendered(nodes, ms[a], vs[a])
                     && node !in Ids(ms[a])
                     && forall x :: x in Ids(ms[a]) ==> x < limit
  }

  lemma NodeIdsPush(ms: seq<Mounted>, m: Mounted)
    ensures NodeIds(ms + [m]) == NodeIds(ms) + [m.node]
  {
  }

  lemma RenderedIsOwned(nodes: Nodes, m: Mounted)
    requires Shows(nodes, m)
    ensures forall x :: x in Ids(m) ==> x in nodes
    decreases m
  {
    if m.MountedNode? {
      forall i | 0 <= i < |m.children| ensures forall x :: x in Ids(m.children[i]) ==> x in nodes {
        RenderedIsOwned(nodes, m.children[i]);
      }
    }
  }

  /** Mirrors already built survive a step that touches none of their nodes. */
  lemma RenderedAllFrame(before: Nodes, after: Nodes, ms: seq<Mounted>, vs: seq<VNode>,
                         node: nat, limit: nat, limit': nat, touched: set<nat>)
    requires RenderedAll(before, ms, vs, node, limit) && limit <= limit'
    requires Preserved(before, after, touched)
    requires forall a :: 0 <= a < |ms| ==> Ids(ms[a]) !! touched
    ensures RenderedAll(after, ms, vs, node, limit')
    ensures forall a :: 0 <= a < |ms| ==> (Clean(before, ms[a]) <==> Clean(after, ms[a]))
  {
    forall a | 0 <= a < |ms|
      ensures Shows(after, ms[a]) && (Clean(before, ms[a]) <==> Clean(after, ms[a]))
    {
      RenderedIsOwned(before, ms[a]);
      Frame(before, after, ms[a]);
    }
  }

  lemma NothingRendered(nodes: Nodes, vs: seq<VNode>, node: nat, limit: nat)
    ensures RenderedAll(nodes, [], vs, node, limit) && NodeIds([]) == []
  {
  }

  /** One more child, of new nodes only, after the others. */
  lemma PushRendered(before: Nodes, after: Nodes, ms: seq<Mounted>, vs: seq<VNode>, node: nat, limit: nat,
                     limit': nat, m: Mounted)
    requires RenderedAll(before, ms, vs, node, limit) && |ms| < |vs| && node < limit <= limit'
    requires Preserved(before, after, {node}) && Rendered(after, m, vs[|ms|]) && Clean(after, m)
    requires forall x :: x in Ids(m) ==> limit <= x < limit'
    requires forall a :: 0 <= a < |ms| ==> Clean(before, ms[a])
    ensures RenderedAll(after, ms + [m], vs, node, limit')
    ensures forall a :: 0 <= a < |ms + [m]| ==> Clean(after, (ms + [m])[a])
  {
    hide Rendered, Clean, Ids;
    RenderedAllFrame(before, after, ms, vs, node, limit, limit', {node});
    forall a | 0 <= a < |ms| ensures Ids(ms[a]) !! Ids(m) {
    }
  }

  // ----- one call of reconcileChildren -----

  /** The host it starts from, the kept element with its mounted children, and the new children. */
  datatype Job = Job(nodes0: Nodes, node: nat, ms: seq<Mounted>, vs: seq<VNode>, bound: nat)

  ghost predicate Begun(w: Job) {
    && w.node in w.nodes0 && w.nodes0[w.node].HostElement? && NoDup(w.nodes0[w.node].children)
    && NodeIds(w.ms) <= w.nodes0[w.node].children
    && w.node !in ChildIds(w.ms) && Disjoint(w.ms)
    && forall i :: 0 <= i < |w.ms| ==> Treelike(w.ms[i]) && Shows(w.nodes0, w.ms[i])
  }

  /**
   * Mounted children still to be matched: `used` holds the indexes already taken over, `avail` the
   * nodes owned by the others, `rest` the host children after those already placed.
   */
  datatype Pool = Pool(used: set<nat>, avail: set<nat>, rest: seq<nat>)

  ghost predicate PoolValid(p: Pool, nodes0: Nodes, nodes: Nodes, host0: seq<nat>, ms: seq<Mounted>) {
    && p.avail <= ChildIds(ms)
    && Agree(nodes0, nodes, p.avail)
    && (forall i :: 0 <= i < |ms| && i !in p.used ==> Ids(ms[i]) <= p.avail)
    && (forall x :: x in p.rest <==> x in host0 && forall i :: i in p.used && i < |ms| ==> ms[i].node != x)
  }

  /** The element lists the placed children, then the rest of the pool; nothing else changed. */
  ghost predicate Left(w: Job, nodes: Nodes, done: seq<Mounted>, p: Pool)
    requires Begun(w)
  {
    && w.node in nodes && nodes[w.node] == w.nodes0[w.node].(children := NodeIds(done) + p.rest)
    && NoDup(nodes[w.node].children)
    && Preserved(w.nodes0, nodes, {w.node} + ChildIds(w.ms))
    && PoolValid(p, w.nodes0, nodes, w.nodes0[w.node].children, w.ms)
  }

  /** What is known of child `a` once it is placed as `c`. */
  ghost predicate ChildDone(w: Job, nodes: Nodes, avail: set<nat>, a: nat, c: Mounted)
    requires a < |w.vs|
  {
    && Ids(c) !! avail
    && (forall x :: x in Ids(c) ==> x in ChildIds(w.ms) || w.bound <= x)
    && (Clean(nodes, c) <==> ChildKeepsClean(w.nodes0, w.ms, w.vs, a))
    && ChildIdentity(w.ms, w.vs, a, c, w.bound)
  }

  ghost predicate Placed(w: Job, nodes: Nodes, limit: nat, done: seq<Mounted>, avail: set<nat>) {
    && RenderedAll(nodes, done, w.vs, w.node, limit)
    && forall a :: 0 <= a < |done| ==> ChildDone(w, nodes, avail, a, done[a])
  }

  ghost predicate IsLast(ms: seq<Mounted>, i: nat)
    requires i < |ms|
  {
    FindLast(ms, MountedKey(ms[i], i)) == i
  }

  /** `existing` leads to exactly the last mounted child of each key that is not used yet. */
  ghost predicate ExistingValid(existing: map<Key, nat>, used: set<nat>, ms: seq<Mounted>) {
    && (forall k :: k in existing ==> existing[k] == FindLast(ms, k) && existing[k] !in used)
    && (forall i :: i in used ==> i < |ms| && IsLast(ms, i) && MountedKey(ms[i], i) !in existing)
    && (forall i :: 0 <= i < |ms| && IsLast(ms, i) ==> i in used || MountedKey(ms[i], i) in existing)
  }

  /** A key is still in `existing` when some mounted child has it and no new child did so far. */
  ghost predicate Unclaimed(existing: map<Key, nat>, ms: seq<Mounted>, vs: seq<VNode>, j: nat)
    requires j <= |vs|
  {
    forall k :: k in existing <==> FindLast(ms, k) != -1 && forall a :: 0 <= a < j ==> ChildKey(vs[a], a) != k
  }

  /** What the call leaves behind. */
  ghost predicate ChildrenDone(w: Job, nodes: Nodes, limit: nat, done: seq<Mounted>)
    requires Begun(w)
  {
    && |done| == |w.vs|
    && w.node in nodes && nodes[w.node].HostElement?
    && nodes[w.node] == w.nodes0[w.node].(children := nodes[w.node].children)
    && NoDup(nodes[w.node].children) && NodeIds(done) <= nodes[w.node].children
    && Preserved(w.nodes0, nodes, {w.node} + ChildIds(w.ms))
    && Placed(w, nodes, limit, done, {})
    && (nodes[w.node].children == NodeIds(done) <==>
        w.nodes0[w.node].children == NodeIds(w.ms) && UniqueMountedKeys(w.ms))
  }

  /** The pool after mounted child `i` is taken over. */
  ghost function Take(p: Pool, ms: seq<Mounted>, i: nat): Pool
    requires i < |ms|
  {
    Pool(p.used + {i}, p.avail - Ids(ms[i]), Without(p.rest, ms[i].node))
  }

  lemma PoolStart(nodes: Nodes, ms: seq<Mounted>, host: seq<nat>)
    requires forall i :: 0 <= i < |ms| ==> Shows(nodes, ms[i])
    ensures PoolValid(Pool({}, ChildIds(ms), host), nodes, nodes, host, ms)
  {
    forall x | x in ChildIds(ms) ensures x in nodes {
      var i :| 0 <= i < |ms| && x in Ids(ms[i]);
      RenderedIsOwned(nodes, ms[i]);
    }
  }

  lemma BeginLeft(w: Job) returns (p: Pool)
    requires Begun(w)
    ensures Left(w, w.nodes0, [], p) && p.used == {}
  {
    p := Pool({}, ChildIds(w.ms), w.nodes0[w.node].children);
    PoolStart(w.nodes0, w.ms, w.nodes0[w.node].children);
    hide PoolValid;
    assert NodeIds([]) + w.nodes0[w.node].children == w.nodes0[w.node].children;
  }

  lemma BeginExisting(existing: map<Key, nat>, ms: seq<Mounted>)
    requires forall k :: k in existing <==> FindLast(ms, k) != -1
    requires forall k :: k in existing ==> existing[k] == FindLast(ms, k)
    ensures ExistingValid(existing, {}, ms)
  {
  }

  lemma PoolTake(p: Pool, nodes0: Nodes, before: Nodes, after: Nodes, host0: seq<nat>,
                 node: nat, ms: seq<Mounted>, i: nat)
    requires PoolValid(p, nodes0, before, host0, ms) && NoDup(p.rest)
    requires i < |ms| && i !in p.used && node !in ChildIds(ms)
    requires Disjoint(ms)
    requires Preserved(before, after, Ids(ms[i]) + {node})
    ensures PoolValid(Take(p, ms, i), nodes0, after, host0, ms)
  {
    hide Ids, ChildIds, NoDup, IndexOf;
    WithoutProperties(p.rest, ms[i].node);
    var q := Take(p, ms, i);
    forall h | 0 <= h < |ms| && h !in q.used ensures Ids(ms[h]) <= q.avail {
      assert Ids(ms[h]) !! Ids(ms[i]);
    }
    forall x ensures x in q.rest <==> x in host0 && forall h :: h in q.used && h < |ms| ==> ms[h].node != x {
    }
  }

  lemma PoolGives(p: Pool, nodes0: Nodes, nodes: Nodes, host0: seq<nat>, ms: seq<Mounted>, i: nat)
    requires PoolValid(p, nodes0, nodes, host0, ms) && Disjoint(ms)
    requires i < |ms| && i !in p.used && ms[i].node in host0
    ensures Ids(ms[i]) <= p.avail && Agree(nodes0, nodes, Ids(ms[i])) && ms[i].node in p.rest
    ensures forall x :: x in p.avail ==> x in nodes
  {
    forall h | h in p.used && h < |ms| ensures ms[h].node != ms[i].node {
      assert ms[h].node in Ids(ms[h]) && ms[i].node in Ids(ms[i]);
    }
  }

  /** Mounted child `i`, still in the pool, is as it was and may be reconciled. */
  lemma Ready(w: Job, nodes: Nodes, done: seq<Mounted>, p: Pool, i: nat, v: VNode)
    requires Begun(w) && Left(w, nodes, done, p) && i < |w.ms| && i !in p.used
    ensures Treelike(w.ms[i]) && Shows(nodes, w.ms[i]) && w.node !in Ids(w.ms[i])
    ensures w.ms[i].node in p.rest && w.ms[i].node in nodes[w.node].children
    ensures Ids(w.ms[i]) <= p.avail && forall x :: x in p.avail ==> x in nodes
    ensures KeepsClean(nodes, w.ms[i], v) <==> KeepsClean(w.nodes0, w.ms[i], v)
  {
    assert w.nodes0[w.node].children[i] == w.ms[i].node;
    PoolGives(p, w.nodes0, nodes, w.nodes0[w.node].children, w.ms, i);
    Frame(w.nodes0, nodes, w.ms[i]);
    FrameKeepsClean(w.nodes0, nodes, w.ms[i], v);
    assert Ids(w.ms[i]) <= ChildIds(w.ms);
  }

  /** Child `i` leaves the pool, and `placed` (its node or its replacement) follows the placed ones. */
  lemma LeftStep(w: Job, before: Nodes, after: Nodes, done: seq<Mounted>, done': seq<Mounted>, p: Pool, i: nat)
    requires Begun(w) && Left(w, before, done, p) && i < |w.ms| && i !in p.used
    requires Preserved(before, after, Ids(w.ms[i]) + {w.node})
    requires after[w.node] == before[w.node].(children := NodeIds(done') + Without(p.rest, w.ms[i].node))
    requires NoDup(after[w.node].children)
    ensures Left(w, after, done', Take(p, w.ms, i))
  {
    NoDupParts(NodeIds(done), p.rest);
    PoolTake(p, w.nodes0, before, after, w.nodes0[w.node].children, w.node, w.ms, i);
    assert Ids(w.ms[i]) <= ChildIds(w.ms);
  }

  lemma LeftFresh(w: Job, before: Nodes, after: Nodes, done: seq<Mounted>, done': seq<Mounted>, p: Pool, limit: nat)
    requires Begun(w) && Left(w, before, done, p) && Preserved(before, after, {w.node})
    requires after[w.node] == before[w.node].(children := NodeIds(done') + p.rest)
    requires NoDup(after[w.node].children) && forall x :: x in before ==> x < limit
    ensures Left(w, after, done', p) && forall x :: x in p.avail ==> x < limit
  {
  }

  /** Children already placed survive a step that touches only the element and the pool. */
  lemma PlacedKeep(w: Job, before: Nodes, after: Nodes, limit: nat, limit': nat,
                   done: seq<Mounted>, avail: set<nat>, avail': set<nat>, touched: set<nat>)
    requires Placed(w, before, limit, done, avail) && avail' <= avail && limit <= limit'
    requires Preserved(before, after, touched) && touched <= avail + {w.node}
    ensures Placed(w, after, limit', done, avail')
  {
    forall a | 0 <= a < |done| ensures Ids(done[a]) !! touched {
      assert ChildDone(w, before, avail, a, done[a]);
    }
    RenderedAllFrame(before, after, done, w.vs, w.node, limit, limit', touched);
    forall a | 0 <= a < |done| ensures ChildDone(w, after, avail', a, done[a]) {
      assert ChildDone(w, before, avail, a, done[a]);
    }
  }

  lemma PlacedPush(w: Job, nodes: Nodes, limit: nat, limit': nat, done: seq<Mounted>, c: Mounted, avail: set<nat>,
      avail': set<nat>)
    requires Placed(w, nodes, limit, done, avail) && avail' <= avail && |done| < |w.vs| && limit <= limit'
    requires Rendered(nodes, c, w.vs[|done|]) && ChildDone(w, nodes, avail', |done|, c)
    requires forall x :: x in Ids(c) ==> x < limit' && x != w.node && (x in avail || limit <= x)
    ensures Placed(w, nodes, limit', done + [c], avail')
  {
    hide Ids, ChildIds, Clean, ChildIdentity, ChildKeepsClean, Rendered;
    var all := done + [c];
    forall a | 0 <= a < |done| ensures Ids(done[a]) !! Ids(c) && ChildDone(w, nodes, avail', a, done[a]) {
      assert ChildDone(w, nodes, avail, a, done[a]);
    }
    forall a | 0 <= a < |all| ensures ChildDone(w, nodes, avail', a, all[a]) {
    }
  }

  lemma FreshDone(w: Job, after: Nodes, avail: set<nat>, j: nat, c: Mounted, limit: nat)
    requires j < |w.vs| && Match(w.ms, w.vs, j) == -1
    requires forall x :: x in Ids(c) ==> limit <= x
    requires w.bound <= limit && forall x :: x in avail ==> x < limit
    requires Clean(after, c)
    ensures ChildDone(w, after, avail, j, c)
  {
  }

  lemma MatchedDone(w: Job, after: Nodes, avail: set<nat>, j: nat, i: nat, c: Mounted, limit: nat)
    requires j < |w.vs| && i < |w.ms| && Match(w.ms, w.vs, j) == i
    requires forall x :: x in Ids(c) ==> x in Ids(w.ms[i]) || limit <= x
    requires w.bound <= limit && forall x :: x in avail ==> x < limit
    requires Clean(after, c) <==> KeepsClean(w.nodes0, w.ms[i], w.vs[j])
    requires Identity(w.ms[i], w.vs[j], c, limit)
    ensures ChildDone(w, after, avail - Ids(w.ms[i]), j, c)
  {
    IdentityMonotone(w.ms[i], w.vs[j], c, limit, w.bound);
    assert Ids(w.ms[i]) <= ChildIds(w.ms);
  }

  lemma ClaimStep(existing: map<Key, nat>, used: set<nat>, ms: seq<Mounted>, vs: seq<VNode>, j: nat)
    requires ExistingValid(existing, used, ms) && j < |vs| && Unclaimed(existing, ms, vs, j)
    ensures var k := ChildKey(vs[j], j);
            if k in existing then
              Match(ms, vs, j) == existing[k] && Unclaimed(existing - {k}, ms, vs, j + 1)
            else
              Match(ms, vs, j) == -1 && Unclaimed(existing, ms, vs, j + 1)
  {
  }

  lemma ReleaseStep(existing: map<Key, nat>, used: set<nat>, ms: seq<Mounted>, k: Key)
    requires ExistingValid(existing, used, ms) && k in existing
    ensures existing[k] < |ms| && existing[k] !in used
    ensures ExistingValid(existing - {k}, used + {existing[k]}, ms)
  {
  }

  /** Once nothing is left in `existing`, the stray host children are those no key leads to. */
  lemma SweptRest(p: Pool, nodes0: Nodes, nodes: Nodes, host0: seq<nat>, ms: seq<Mounted>)
    requires PoolValid(p, nodes0, nodes, host0, ms) && ExistingValid(map[], p.used, ms)
    requires NodeIds(ms) <= host0 && NoDup(host0)
    ensures p.rest == [] <==> host0 == NodeIds(ms) && UniqueMountedKeys(ms)
  {
    assert p.rest != [] ==> p.rest[0] in p.rest;
    if host0 == NodeIds(ms) && UniqueMountedKeys(ms) {
      forall i | 0 <= i < |ms| ensures i in p.used {
        FindLastIsLast(ms, MountedKey(ms[i], i), i);
      }
      forall x | x in host0 ensures x !in p.rest {
        var i :| 0 <= i < |ms| && host0[i] == x;
        assert ms[i].node == x;
      }
    } else {
      var x := Stray(p, nodes0, nodes, host0, ms);
    }
  }

  lemma Stray(p: Pool, nodes0: Nodes, nodes: Nodes, host0: seq<nat>, ms: seq<Mounted>) returns (x: nat)
    requires PoolValid(p, nodes0, nodes, host0, ms) && ExistingValid(map[], p.used, ms)
    requires NodeIds(ms) <= host0 && NoDup(host0)
    requires host0 == NodeIds(ms) ==> !UniqueMountedKeys(ms)
    ensures x in p.rest
  {
    hide FindLast;
    var s: nat := |ms|;
    if host0 == NodeIds(ms) {
      var i, j :| 0 <= i < j < |ms| && MountedKey(ms[i], i) == MountedKey(ms[j], j);
      FindLastIsLast(ms, MountedKey(ms[i], i), j);
      s := i;
    }
    x := host0[s];
    forall i | i in p.used && i < |ms| ensures ms[i].node != x {
      assert i != s && host0[i] == ms[i].node;
    }
  }

  lemma Untouched(nodes: Nodes)
    ensures Preserved(nodes, nodes, {})
  {
  }

  /** A node in the pool is not the node of a placed child. */
  lemma PlacedNodes(w: Job, nodes: Nodes, limit: nat, done: seq<Mounted>, avail: set<nat>, x: nat)
    requires Placed(w, nodes, limit, done, avail) && x in avail
    ensures x !in NodeIds(done)
  {
    forall a | 0 <= a < |done| ensures done[a].node != x {
      assert ChildDone(w, nodes, avail, a, done[a]);
      assert done[a].node in Ids(done[a]);
    }
  }

  lemma PatchRendered(m: Mounted, v: VNode, m': Mounted, parent: nat, nodes0: Nodes, w: Job, nodes2: Nodes,
                      nodes3: Nodes, limit: nat)
    requires m.MountedNode? && m'.MountedNode? && Retains(m, v) && Treelike(m) && Shows(nodes0, m) && m.node < limit
    requires w.nodes0 == nodes0[m.node := nodes0[m.node].(props := v.props)]
    requires w.node == m.node && w.ms == m.children && w.vs == v.children && Begun(w)
    requires ChildrenDone(w, nodes2, limit, m'.children)
    requires Preserved(nodes2, nodes3, {parent}) && parent !in Ids(m) && parent < w.bound
    requires m' == m.(props := v.props, children := m'.children)
    ensures RenderedAll(nodes3, m'.children, v.children, m.node, limit)
    ensures forall a :: 0 <= a < |m'.children| ==> (Clean(nodes2, m'.children[a]) <==> Clean(nodes3, m'.children[a]))
    ensures Rendered(nodes3, m', v)
  {
    var done := m'.children;
    forall a | 0 <= a < |done| ensures Ids(done[a]) !! {parent} {
      assert ChildDone(w, nodes2, {}, a, done[a]);
    }
    RenderedAllFrame(nodes2, nodes3, done, v.children, m.node, limit, limit, {parent});
  }

  lemma PatchIds(m: Mounted, m': Mounted, nodes2: Nodes, w: Job, limit: nat)
    requires m.MountedNode? && m'.MountedNode? && m'.node == m.node < limit && Begun(w)
    requires w.node == m.node && w.ms == m.children && ChildrenDone(w, nodes2, limit, m'.children)
    ensures forall x :: x in Ids(m') ==> x < limit && (x in Ids(m) || w.bound <= x)
  {
    var done := m'.children;
    forall x | x in Ids(m') ensures x < limit && (x in Ids(m) || w.bound <= x) {
      if x != m.node {
        assert x in ChildIds(done);
        var a :| 0 <= a < |done| && x in Ids(done[a]);
        assert ChildDone(w, nodes2, {}, a, done[a]);
      }
    }
  }

  lemma PatchKeeps(m: Mounted, v: VNode, m': Mounted, nodes0: Nodes, w: Job, nodes2: Nodes, nodes3: Nodes,
                   limit: nat, parent: nat)
    requires m.MountedNode? && m'.MountedNode? && Retains(m, v) && Treelike(m) && Shows(nodes0, m) && m.node < limit
    requires w.nodes0 == nodes0[m.node := nodes0[m.node].(props := v.props)]
    requires w.node == m.node && w.ms == m.children && w.vs == v.children && Begun(w)
    requires ChildrenDone(w, nodes2, limit, m'.children) && parent !in Ids(m) && parent < w.bound
    requires Preserved(nodes2, nodes3, {parent}) && m' == m.(props := v.props, children := m'.children)
    requires forall a :: 0 <= a < |m'.children| ==> (Clean(nodes2, m'.children[a]) <==> Clean(nodes3, m'.children[a]))
    requires Rendered(nodes3, m', v)
    ensures Clean(nodes3, m') <==> KeepsClean(nodes0, m, v)
    ensures Identity(m, v, m', w.bound)
  {
    var done := m'.children;
    forall a | 0 <= a < |done|
      ensures Clean(nodes3, done[a]) <==> ChildKeepsClean(nodes0, m.children, v.children, a)
      ensures ChildIdentity(m.children, v.children, a, done[a], w.bound)
    {
      assert ChildDone(w, nodes2, {}, a, done[a]);
      var i := Match(m.children, v.children, a);
      if i != -1 {
        RenderedIsOwned(nodes0, m.children[i]);
        FrameKeepsClean(nodes0, w.nodes0, m.children[i], v.children[a]);
      }
    }
  }

  /** A patched element, after its children are reconciled and it is moved into place. */
  lemma PatchStep(m: Mounted, v: VNode, m': Mounted, parent: nat, nodes0: Nodes, w: Job, nodes2: Nodes, nodes3: Nodes,
      limit: nat)
    requires m.MountedNode? && m'.MountedNode? && Retains(m, v) && Treelike(m) && Shows(nodes0, m) && m.node < limit
    requires w.nodes0 == nodes0[m.node := nodes0[m.node].(props := v.props)]
    requires w.node == m.node && w.ms == m.children && w.vs == v.children && Begun(w)
    requires ChildrenDone(w, nodes2, limit, m'.children)
    requires Preserved(nodes2, nodes3, {parent}) && parent !in Ids(m) && parent < w.bound
    requires m' == m.(props := v.props, children := m'.children)
    ensures Rendered(nodes3, m', v)
    ensures forall x :: x in Ids(m') ==> x < limit && (x in Ids(m) || w.bound <= x)
    ensures Clean(nodes3, m') <==> KeepsClean(nodes0, m, v)
    ensures Identity(m, v, m', w.bound)
  {
    hide Ids, ChildIds, KeepsClean, Identity, Clean, Rendered, RenderedAll;
    PatchRendered(m, v, m', parent, nodes0, w, nodes2, nodes3, limit);
    PatchIds(m, m', nodes2, w, limit);
    PatchKeeps(m, v, m', nodes0, w, nodes2, nodes3, limit, parent);
  }

  method IndexExisting(ms: seq<Mounted>) returns (existing: map<Key, nat>)
    ensures forall k :: k in existing <==> FindLast(ms, k) != -1
    ensures forall k :: k in existing ==> existing[k] == FindLast(ms, k)
  {
    existing := map[];
    for i := 0 to |ms|
      invariant forall k :: k in existing <==> FindLast(ms[..i], k) != -1
      invariant forall k :: k in existing ==> existing[k] == FindLast(ms[..i], k)
    {
      assert ms[..i + 1][..i] == ms[..i];
      existing := existing[MountedKey(ms[i], i) := i];
    }
    assert ms[..|ms|] == ms;
  }

  class Host {
    var nodes: Nodes
    var next: nat

    /** Identities from `next` on are unused. */
    ghost predicate Closed()
      reads this
    {
      && (forall x :: x in nodes ==> x < next)
      && (forall p, c :: p in nodes && nodes[p].HostElement? && c in nodes[p].children ==> c < next)
    }

    ghost predicate Container(parent: nat)
      reads this
    {
      parent in nodes && nodes[parent].HostElement? && NoDup(nodes[parent].children)
    }

    constructor ()
      ensures nodes == map[] && next == 0 && Closed()
    {
      nodes, next := map[], 0;
    }

    method CreateNode(name: string, props: Props) returns (id: nat)
      requires Closed()
      modifies this
      ensures Closed() && id == old(next) && next == id + 1
      ensures nodes == old(nodes)[id := HostElement(name, props, [])]
    {
      id := next;
      nodes, next := nodes[id := HostElement(name, props, [])], next + 1;
    }

    method CreateText(text: string) returns (id: nat)
      requires Closed()
      modifies this
      ensures Closed() && id == old(next) && next == id + 1
      ensures nodes == old(nodes)[id := HostText(text)]
    {
      id := next;
      nodes, next := nodes[id := HostText(text)], next + 1;
    }

    method UpdateNode(node: nat, props: Props)
      requires Closed() && node in nodes && nodes[node].HostElement?
      modifies this`nodes
      ensures Closed() && nodes == old(nodes)[node := old(nodes[node]).(props := props)]
    {
      nodes := nodes[node := nodes[node].(props := props)];
    }

    method SetText(node: nat, text: string)
      requires Closed() && node in nodes && nodes[node].HostText?
      modifies this`nodes
      ensures Closed() && nodes == old(nodes)[node := HostText(text)]
    {
      nodes := nodes[node := HostText(text)];
    }

    method InsertChild(parent: nat, child: nat, index: nat)
      requires Closed() && parent in nodes && nodes[parent].HostElement? && child < next
      modifies this`nodes
      ensures Closed()
      ensures nodes == old(nodes)[parent := old(nodes[parent]).(
                                    children := SpliceIn(old(nodes[parent].children), index, child))]
    {
      nodes := nodes[parent := nodes[parent].(children := SpliceIn(nodes[parent].children, index, child))];
    }

    method MoveChild(parent: nat, child: nat, index: nat)
      requires Closed() && parent in nodes && nodes[parent].HostElement? && child < next
      modifies this`nodes
      ensures Closed()
      ensures nodes == old(nodes)[parent := old(nodes[parent]).(
                                    children := SpliceIn(Without(old(nodes[parent].children), child), index, child))]
    {
      nodes := nodes[parent := nodes[parent].(children := Without(nodes[parent].children, child))];
      nodes := nodes[parent := nodes[parent].(children := SpliceIn(nodes[parent].children, index, child))];
    }

    method RemoveChild(parent: nat, child: nat)
      requires Closed() && parent in nodes && nodes[parent].HostElement?
      modifies this`nodes
      ensures Closed()
      ensures nodes
          == old(nodes)[parent := old(nodes[parent]).(children := Without(old(nodes[parent].children), child))]
    {
      nodes := nodes[parent := nodes[parent].(children := Without(nodes[parent].children, child))];
    }

    /** `mount`: `ok` is false when an unlowered component is met (the source throws). */
    method Mount(v: VNode, parent: nat, index: nat) returns (m: Mounted, ok: bool)
      requires Closed() && Container(parent)
      modifies this
      ensures ok <==> Lowered(v)
      ensures ok ==> Closed() && Container(parent) && old(next) <= next
      ensures ok ==> Preserved(old(nodes), nodes, {parent})
      ensures ok ==> nodes[parent] == old(nodes[parent]).(
                                         children := SpliceIn(old(nodes[parent].children), index, m.node))
      ensures ok ==> Rendered(nodes, m, v) && Clean(nodes, m)
      ensures ok ==> forall x :: x in Ids(m) ==> old(next) <= x < next
      decreases v
    {
      if v.Text? {
        var id := CreateText(v.text);
        SpliceInProperties(old(nodes[parent].children), index, id);
        InsertChild(parent, id, index);
        return MountedText(id, v.text), true;
      }
      if v.kind.Component? {
        return MountedText(0, ""), false;
      }
      var id := CreateNode(v.kind.name, v.props);
      SpliceInProperties(old(nodes[parent].children), index, id);
      InsertChild(parent, id, index);
      var children;
      children, ok := MountChildren(v.children, id);
      m := MountedNode(id, v.kind.name, v.key, v.props, children);
    }

    /** The `forEach` of `mount`: children of a new, still empty node. */
    method MountChildren(vs: seq<VNode>, node: nat) returns (ms: seq<Mounted>, ok: bool)
      requires Closed() && node in nodes && nodes[node].HostElement? && nodes[node].children == []
      modifies this
      ensures ok <==> forall i :: 0 <= i < |vs| ==> Lowered(vs[i])
      ensures ok ==> Closed() && old(next) <= next && |ms| == |vs|
      ensures ok ==> Preserved(old(nodes), nodes, {node})
      ensures ok ==> nodes[node] == old(nodes[node]).(children := NodeIds(ms)) && Container(node)
      ensures ok ==> RenderedAll(nodes, ms, vs, node, next)
      ensures ok ==> forall a :: 0 <= a < |ms| ==> Clean(nodes, ms[a])
      ensures ok ==> forall a, x :: 0 <= a < |ms| && x in Ids(ms[a]) ==> old(next) <= x
      decreases vs, 0
    {
      hide Rendered, RenderedAll, Clean, Ids, Lowered;
      ms, ok := [], true;
      NothingRendered(nodes, vs, node, next);
      for a := 0 to |vs|
        invariant forall i :: 0 <= i < a ==> Lowered(vs[i])
        invariant ok && Closed() && old(next) <= next && |ms| == a
        invariant Preserved(old(nodes), nodes, {node})
        invariant nodes[node] == old(nodes[node]).(children := NodeIds(ms)) && Container(node)
        invariant RenderedAll(nodes, ms, vs, node, next)
        invariant forall b :: 0 <= b < a ==> Clean(nodes, ms[b])
        invariant forall b, x :: 0 <= b < a && x in Ids(ms[b]) ==> old(next) <= x
      {
        ghost var before, limit := nodes, next;
        var m;
        m, ok := Mount(vs[a], node, a);
        if !ok { return; }
        PushRendered(before, nodes, ms, vs, node, limit, next, m);
        NodeIdsPush(ms, m);
        ms := ms + [m];
      }
    }

    /** Unmount, then mount in place: the branches of `reconcile` that keep nothing. */
    method Replace(m: Mounted, v: VNode, parent: nat, index: nat) returns (m': Mounted, ok: bool)
      requires Closed() && Container(parent) && parent !in Ids(m) && m.node in nodes[parent].children
      requires !Retains(m, v)
      modifies this
      ensures ok <==> Lowered(v)
      ensures ok ==> Closed() && Container(parent) && old(next) <= next
      ensures ok ==> Preserved(old(nodes), nodes, Ids(m) + {parent})
      ensures ok ==> nodes[parent] == old(nodes[parent]).(
                                         children := SpliceIn(Without(old(nodes[parent].children), m.node), index,
                                             m'.node))
      ensures ok ==> Rendered(nodes, m', v) && Clean(nodes, m')
      ensures ok ==> forall x :: x in Ids(m') ==> old(next) <= x < next
      decreases v, 0
    {
      WithoutProperties(nodes[parent].children, m.node);
      RemoveChild(parent, m.node);
      m', ok := Mount(v, parent, index);
    }

    /** `reconcile`. */
    method Reconcile(m: Mounted, v: VNode, parent: nat, index: nat) returns (m': Mounted, ok: bool)
      requires Closed() && Container(parent)
      requires Treelike(m) && Shows(nodes, m)
      requires parent !in Ids(m) && m.node in nodes[parent].children
      modifies this
      ensures ok <==> Lowered(v)
      ensures ok ==> Closed() && Container(parent) && old(next) <= next
      ensures ok ==> Preserved(old(nodes), nodes, Ids(m) + {parent})
      ensures ok ==> nodes[parent] == old(nodes[parent]).(
                                         children := SpliceIn(Without(old(nodes[parent].children), m.node), index,
                                             m'.node))
      ensures ok ==> Rendered(nodes, m', v)
      ensures ok ==> forall x :: x in Ids(m') ==> x < next && (x in Ids(m) || old(next) <= x)
      ensures ok ==> (Clean(nodes, m') <==> KeepsClean(old(nodes), m, v))
      ensures ok ==> Identity(m, v, m', old(next))
      decreases v, 1
    {
      if v.Text? {
        if !m.MountedText? {
          m', ok := Replace(m, v, parent, index);
          return;
        }
        if m.text != v.text {
          SetText(m.node, v.text);
        }
        WithoutProperties(nodes[parent].children, m.node);
        SpliceInProperties(Without(nodes[parent].children, m.node), index, m.node);
        MoveChild(parent, m.node, index);
        return MountedText(m.node, v.text), true;
      }
      if !m.MountedNode? || Name(m.name) != v.kind || m.key != v.key {
        m', ok := Replace(m, v, parent, index);
        return;
      }
      m', ok := Patch(m, v, parent, index);
    }

    /** The branch of `reconcile` that keeps an element and patches it. */
    method Patch(m: Mounted, v: VNode, parent: nat, index: nat) returns (m': Mounted, ok: bool)
      requires Closed() && Container(parent)
      requires Treelike(m) && Shows(nodes, m)
      requires parent !in Ids(m) && m.node in nodes[parent].children
      requires m.MountedNode? && Retains(m, v)
      modifies this
      ensures ok <==> Lowered(v)
      ensures ok ==> Closed() && Container(parent) && old(next) <= next
      ensures ok ==> Preserved(old(nodes), nodes, Ids(m) + {parent})
      ensures ok ==> nodes[parent] == old(nodes[parent]).(
                                         children := SpliceIn(Without(old(nodes[parent].children), m.node), index,
                                             m.node))
      ensures ok ==> Rendered(nodes, m', v)
      ensures ok ==> forall x :: x in Ids(m') ==> x < next && (x in Ids(m) || old(next) <= x)
      ensures ok ==> (Clean(nodes, m') <==> KeepsClean(old(nodes), m, v))
      ensures ok ==> Identity(m, v, m', old(next))
      decreases v, 0
    {
      ghost var nodes0 := nodes;
      UpdateNode(m.node, v.props);
      ghost var w := Job(nodes, m.node, m.children, v.children, next);
      forall i | 0 <= i < |m.children| ensures Shows(nodes, m.children[i]) {
        RenderedIsOwned(nodes0, m.children[i]);
        Frame(nodes0, nodes, m.children[i]);
      }
      var done;
      done, ok := ReconcileChildren(m.node, m.children, v.children);
      if !ok { return m, false; }
      ghost var nodes2 := nodes;
      WithoutProperties(nodes[parent].children, m.node);
      SpliceInProperties(Without(nodes[parent].children, m.node), index, m.node);
      MoveChild(parent, m.node, index);
      m' := m.(props := v.props, children := done);
      PatchStep(m, v, m', parent, nodes0, w, nodes2, nodes, next);
    }

    /** `reconcileChildren`, for the element `node` with mounted children `ms`. */
    method ReconcileChildren(node: nat, ms: seq<Mounted>, vs: seq<VNode>) returns (done: seq<Mounted>, ok: bool)
      requires Closed() && Begun(Job(nodes, node, ms, vs, next))
      modifies this
      ensures ok <==> forall j :: 0 <= j < |vs| ==> Lowered(vs[j])
      ensures ok ==> Closed() && old(next) <= next
      ensures ok ==> ChildrenDone(Job(old(nodes), node, ms, vs, old(next)), nodes, next, done)
      decreases vs, 3
    {
      ghost var w := Job(nodes, node, ms, vs, next);
      hide Midway, Unclaimed, Begun;
      var existing := IndexExisting(ms);
      done, ok := [], true;
      ghost var p := Begin(w, existing);
      for j := 0 to |vs|
        invariant forall i :: 0 <= i < j ==> Lowered(vs[i])
        invariant ok && |done| == j && Midway(w, done, existing, p)
        invariant Unclaimed(existing, ms, vs, j)
      {
        var c;
        c, existing, p, ok := PlaceChild(w, node, ms, vs, j, done, existing, p);
        if !ok { return; }
        done := done + [c];
      }
      p := RemoveStale(w, node, ms, done, existing, p);
      Finish(w, done, p);
    }

    /** State between two children: `done` are placed, `existing` and `p` hold what is left. */
    ghost predicate Midway(w: Job, done: seq<Mounted>, existing: map<Key, nat>, p: Pool)
      reads this
    {
      && Closed() && w.bound <= next && |done| <= |w.vs|
      && Begun(w) && Left(w, nodes, done, p) && Placed(w, nodes, next, done, p.avail)
      && ExistingValid(existing, p.used, w.ms)
    }

    lemma Begin(w: Job, existing: map<Key, nat>) returns (p: Pool)
      requires Closed() && Begun(w) && w.nodes0 == nodes && w.bound == next
      requires forall k :: k in existing <==> FindLast(w.ms, k) != -1
      requires forall k :: k in existing ==> existing[k] == FindLast(w.ms, k)
      ensures Midway(w, [], existing, p)
      ensures Unclaimed(existing, w.ms, w.vs, 0)
    {
      hide Begun, Left, ExistingValid;
      p := BeginLeft(w);
      BeginExisting(existing, w.ms);
    }

    lemma Finish(w: Job, done: seq<Mounted>, p: Pool)
      requires Midway(w, done, map[], p) && |done| == |w.vs|
      ensures Closed() && w.bound <= next && Begun(w) && ChildrenDone(w, nodes, next, done)
    {
      hide Placed, Preserved;
      SweptRest(p, w.nodes0, nodes, w.nodes0[w.node].children, w.ms);
      hide PoolValid, ExistingValid;
      assert nodes[w.node].children == NodeIds(done) <==> p.rest == [];
      assert Preserved(nodes, nodes, {}) by { Untouched(nodes); }
      PlacedKeep(w, nodes, nodes, next, next, done, p.avail, {}, {});
    }

    /** The callback of `children.forEach` in `reconcileChildren`. */
    method PlaceChild(ghost w: Job, node: nat, ms: seq<Mounted>, vs: seq<VNode>, j: nat, ghost done: seq<Mounted>,
                      existing: map<Key, nat>, ghost p: Pool)
      returns (c: Mounted, existing': map<Key, nat>, ghost p': Pool, ok: bool)
      requires Midway(w, done, existing, p) && |done| == j < |vs|
      requires w.node == node && w.ms == ms && w.vs == vs
      requires Unclaimed(existing, ms, vs, j)
      modifies this
      ensures ok <==> Lowered(vs[j])
      ensures ok ==> Midway(w, done + [c], existing', p')
      ensures ok ==> Unclaimed(existing', ms, vs, j + 1)
      decreases vs, 1
    {
      var k := ChildKey(vs[j], j);
      ClaimStep(existing, p.used, ms, vs, j);
      existing', p' := existing, p;
      if k in existing {
        ReleaseStep(existing, p.used, ms, k);
        existing' := existing - {k};
        p' := Take(p, ms, existing[k]);
        hide Midway, Unclaimed, ExistingValid;
        c, ok := PlaceMatched(w, node, ms, vs, j, existing[k], done, existing, p);
      } else {
        hide Midway, Unclaimed;
        c, ok := PlaceFresh(w, node, vs, j, done, existing, p);
      }
    }

    method PlaceMatched(ghost w: Job, node: nat, ms: seq<Mounted>, vs: seq<VNode>, j: nat, i: nat,
                        ghost done: seq<Mounted>, ghost existing: map<Key, nat>, ghost p: Pool)
      returns (c: Mounted, ok: bool)
      requires Midway(w, done, existing, p) && |done| == j < |vs|
      requires w.node == node && w.ms == ms && w.vs == vs
      requires i < |ms| && i !in p.used && Match(ms, vs, j) == i
      requires ExistingValid(existing - {ChildKey(vs[j], j)}, p.used + {i}, ms)
      modifies this
      ensures ok <==> Lowered(vs[j])
      ensures ok ==> Midway(w, done + [c], existing - {ChildKey(vs[j], j)}, Take(p, ms, i))
      decreases vs, 0
    {
      hide ExistingValid, Begun, PoolValid, Placed;
      ghost var before, limit, avail := nodes, next, p.avail - Ids(ms[i]);
      Ready(w, nodes, done, p, i, vs[j]);
      PlacedNodes(w, nodes, next, done, p.avail, ms[i].node);
      c, ok := Reconcile(ms[i], vs[j], node, j);
      if !ok { return; }
      WithoutSuffix(NodeIds(done), p.rest, ms[i].node);
      SpliceInBetween(NodeIds(done), Without(p.rest, ms[i].node), c.node);
      NodeIdsPush(done, c);
      LeftStep(w, before, nodes, done, done + [c], p, i);
      hide Left;
      MatchedDone(w, nodes, p.avail, j, i, c, limit);
      PlacedKeep(w, before, nodes, limit, limit, done, p.avail, p.avail, Ids(ms[i]) + {node});
      PlacedPush(w, nodes, limit, next, done, c, p.avail, avail);
    }

    method PlaceFresh(ghost w: Job, node: nat, vs: seq<VNode>, j: nat, ghost done: seq<Mounted>,
                      ghost existing: map<Key, nat>, ghost p: Pool)
      returns (c: Mounted, ok: bool)
      requires Midway(w, done, existing, p) && |done| == j < |vs| && w.node == node && w.vs == vs
      requires Match(w.ms, vs, j) == -1
      modifies this
      ensures ok <==> Lowered(vs[j])
      ensures ok ==> Midway(w, done + [c], existing, p)
      decreases vs, 0
    {
      hide ExistingValid, Begun, Placed;
      ghost var before, limit := nodes, next;
      c, ok := Mount(vs[j], node, j);
      if !ok { return; }
      SpliceInBetween(NodeIds(done), p.rest, c.node);
      NodeIdsPush(done, c);
      LeftFresh(w, before, nodes, done, done + [c], p, limit);
      hide Left;
      FreshDone(w, nodes, p.avail, j, c, limit);
      PlacedKeep(w, before, nodes, limit, limit, done, p.avail, p.avail, {node});
      PlacedPush(w, nodes, limit, next, done, c, p.avail, p.avail);
    }

    method RemoveOne(ghost w: Job, node: nat, ms: seq<Mounted>, ghost done: seq<Mounted>, existing: map<Key, nat>,
                     ghost p: Pool, k: Key) returns (ghost p': Pool)
      requires Midway(w, done, existing, p) && k in existing && w.node == node && w.ms == ms
      modifies this`nodes
      ensures Midway(w, done, existing - {k}, p')
    {
      ReleaseStep(existing, p.used, ms, k);
      var i := existing[k];
      hide ExistingValid, Begun, PoolValid, Placed;
      ghost var before := nodes;
      p' := Take(p, ms, i);
      Ready(w, nodes, done, p, i, Text(""));
      PlacedNodes(w, nodes, next, done, p.avail, ms[i].node);
      WithoutProperties(nodes[node].children, ms[i].node);
      WithoutSuffix(NodeIds(done), p.rest, ms[i].node);
      RemoveChild(node, ms[i].node);
      LeftStep(w, before, nodes, done, done, p, i);
      hide Left;
      PlacedKeep(w, before, nodes, next, next, done, p.avail, p'.avail, {node});
    }

    /** The last loop of `reconcileChildren`: unmount what no new child took over. */
    method RemoveStale(ghost w: Job, node: nat, ms: seq<Mounted>, ghost done: seq<Mounted>, existing: map<Key, nat>,
                       ghost p: Pool) returns (ghost p': Pool)
      requires Midway(w, done, existing, p) && w.node == node && w.ms == ms
      modifies this`nodes
      ensures Midway(w, done, map[], p')
    {
      hide Midway;
      p' := p;
      var left := existing;
      while left != map[]
        invariant Midway(w, done, left, p')
        decreases |left|
      {
        var k :| k in left;
        p' := RemoveOne(w, node, ms, done, left, p', k);
        left := left - {k};
      }
    }
  }
}
