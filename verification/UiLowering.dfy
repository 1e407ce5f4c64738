/** The lowering registry and `lowerTree`. */
module UiLowering {
  import opened Basics
  import opened UiTree

  // ----- registry -----

  /** One registration: `id` is the entry object's identity. */
  datatype Entry = Entry(id: nat, value: nat)

  /** A registration as the log of all calls remembers it. */
  datatype Registered = Registered(id: nat, kind: NodeType, target: string, value: nat)

  /** Undisposed registrations for one pair, oldest first. */
  ghost function Undisposed(log: seq<Registered>, disposed: set<nat>, kind: NodeType, target: string): (es: seq<Entry>)
    ensures forall e :: e in es ==> e.id !in disposed && exists i :: 0 <= i < |log| && log[i].id == e.id
  {
    if log == [] then []
    else
      var front, last := Undisposed(log[..|log| - 1], disposed, kind, target), log[|log| - 1];
      if last.kind == kind && last.target == target && last.id !in disposed
      then front + [Entry(last.id, last.value)] else front
  }

  /** Disposing one more registration drops just that entry. */
  lemma {:induction false} UndisposedDrop(log: seq<Registered>, disposed: set<nat>, kind: NodeType, target: string,
      id: nat)
    requires forall i, j :: 0 <= i < j < |log| ==> log[i].id != log[j].id
    ensures var es := Undisposed(log, disposed, kind, target);
            var es' := Undisposed(log, disposed + {id}, kind, target);
            es' == DropId(es, id)
  {
    if log != [] {
      var front, last := log[..|log| - 1], log[|log| - 1];
      UndisposedDrop(front, disposed, kind, target, id);
      var es := Undisposed(front, disposed, kind, target);
      if last.kind == kind && last.target == target && last.id !in disposed {
        if last.id == id {
          DropAbsent(es, id);
          DropLast(es, Entry(last.id, last.value), id);
        } else {
          DropLast(es, Entry(last.id, last.value), id);
        }
      }
    }
  }

  /** `indexOf` and `splice` on the entry with this identity. */
  function DropId(es: seq<Entry>, id: nat): seq<Entry> {
    if es == [] then [] else if es[0].id == id then es[1..] else [es[0]] + DropId(es[1..], id)
  }

  lemma {:induction false} DropAbsent(es: seq<Entry>, id: nat)
    requires forall e :: e in es ==> e.id != id
    ensures DropId(es, id) == es
  {
    if es != [] { DropAbsent(es[1..], id); }
  }

  lemma {:induction false} DropLast(es: seq<Entry>, e: Entry, id: nat)
    requires e.id == id ==> forall d :: d in es ==> d.id != id
    ensures DropId(es + [e], id) == if e.id == id then es else DropId(es, id) + [e]
  {
    if es != [] {
      assert (es + [e])[1..] == es[1..] + [e];
      DropLast(es[1..], e, id);
      if e.id == id { DropAbsent(es, id); }
    }
  }

  type Lowerings = map<NodeType, map<string, seq<Entry>>>

  function EntriesOf(table: Lowerings, kind: NodeType, target: string): seq<Entry> {
    if kind in table && target in table[kind] then table[kind][target] else []
  }

  /** Emptied lists and emptied inner maps are gone. */
  ghost predicate Tidy(table: Lowerings) {
    && (forall k, t :: k in table && t in table[k] ==> table[k][t] != [])
    && (forall k :: k in table ==> table[k] != map[])
  }

  /** Replace the list of one pair; an empty list takes its keys with it (`onEmpty`). */
  function WithEntries(table: Lowerings, kind: NodeType, target: string, entries: seq<Entry>): (r: Lowerings)
    ensures EntriesOf(r, kind, target) == entries
    ensures forall k, t :: k != kind || t != target ==> EntriesOf(r, k, t) == EntriesOf(table, k, t)
    ensures Tidy(table) ==> Tidy(r)
  {
    var byTarget := if kind in table then table[kind] else map[];
    if entries != [] then table[kind := byTarget[target := entries]]
    else if byTarget - {target} == map[] then
      assert forall t :: t != target ==> EntriesOf(table, kind, t) == [] by {
        assert forall t :: t != target ==> (t in byTarget <==> t in byTarget - {target});
      }
      table - {kind}
    else table[kind := byTarget - {target}]
  }

  /** The lists hold exactly the undisposed registrations. */
  ghost predicate Holds(table: Lowerings, log: seq<Registered>, disposed: set<nat>) {
    forall k, t :: EntriesOf(table, k, t) == Undisposed(log, disposed, k, t)
  }

  lemma RegisterStep(table: Lowerings, log: seq<Registered>, disposed: set<nat>, r: Registered)
    requires Holds(table, log, disposed) && r.id !in disposed
    ensures var entries := EntriesOf(table, r.kind, r.target) + [Entry(r.id, r.value)];
            Holds(WithEntries(table, r.kind, r.target, entries), log + [r], disposed)
  {
    hide WithEntries;
    assert (log + [r])[..|log|] == log;
  }

  lemma DisposeStep(table: Lowerings, log: seq<Registered>, disposed: set<nat>, r: Registered)
    requires Holds(table, log, disposed) && r in log
    requires forall i, j :: 0 <= i < j < |log| ==> log[i].id != log[j].id
    ensures var entries := DropId(EntriesOf(table, r.kind, r.target), r.id);
            Holds(WithEntries(table, r.kind, r.target, entries), log, disposed + {r.id})
  {
    hide WithEntries;
    var entries := DropId(EntriesOf(table, r.kind, r.target), r.id);
    var table' := WithEntries(table, r.kind, r.target, entries);
    forall k, t ensures EntriesOf(table', k, t) == Undisposed(log, disposed + {r.id}, k, t) {
      UndisposedDrop(log, disposed, k, t, r.id);
      if k != r.kind || t != r.target {
        OnlyItsPair(log, disposed, k, t, r.id);
        DropAbsent(EntriesOf(table, k, t), r.id);
      }
    }
  }

  /** `elementLowerings` and `componentLowerings` with the handles that `mapRenderTargetLowering` returns. */
  class Registry {
    var table: Lowerings
    var disposed: set<nat>
    ghost var log: seq<Registered>

    ghost predicate Valid()
      reads this
    {
      && (forall i :: 0 <= i < |log| ==> log[i].id == i)
      && (forall id :: id in disposed ==> id < |log|)
      && Holds(table, log, disposed) && Tidy(table)
    }

    constructor ()
      ensures Valid() && log == [] && disposed == {}
    {
      table, disposed, log := map[], {}, [];
    }

    /** `mapRenderTargetLowering`; `id` names the new entry. */
    method Register(kind: NodeType, target: string, value: nat, id: nat)
      requires Valid() && id == |log|
      modifies this
      ensures Valid() && disposed == old(disposed)
      ensures log == old(log) + [Registered(id, kind, target, value)]
    {
      RegisterStep(table, log, disposed, Registered(id, kind, target, value));
      hide Holds, WithEntries;
      table := WithEntries(table, kind, target, EntriesOf(table, kind, target) + [Entry(id, value)]);
      log := log + [Registered(id, kind, target, value)];
    }

    /** `dispose` of the handle for registration `id`. */
    method Dispose(id: nat, kind: NodeType, target: string)
      requires Valid() && id < |log| && log[id].kind == kind && log[id].target == target
      modifies this
      ensures Valid() && log == old(log) && disposed == old(disposed) + {id}
    {
      if id in disposed { return; }
      DisposeStep(table, log, disposed, log[id]);
      hide Holds, WithEntries;
      disposed := disposed + {id};
      table := WithEntries(table, kind, target, DropId(EntriesOf(table, kind, target), id));
    }

    /** `renderTargetLowering`: the most recent registration that is not disposed. */
    method Lookup(kind: NodeType, target: string) returns (r: Option<nat>)
      requires Valid()
      ensures r.None? ==> forall i :: 0 <= i < |log| && log[i].kind == kind && log[i].target == target ==> i in disposed
      ensures r.Some? ==> exists i ::
                0 <= i < |log| && MostRecent(log, disposed, kind, target, i)
                && log[i].value == r.value
      ensures forall t :: Serves(log, disposed, target, t) ==> r == LoweringOf(t, kind)
    {
      hide Serves, LoweringOf;
      forall t | Serves(log, disposed, target, t)
        ensures LoweringOf(t, kind) == ActiveValue(Undisposed(log, disposed, kind, target))
      {
        ServedIsActive(log, disposed, target, t, kind);
      }
      var entries := EntriesOf(table, kind, target);
      ActiveIsMostRecent(log, disposed, kind, target);
      if entries == [] { return None; }
      return Some(entries[|entries| - 1].value);
    }
  }

  ghost predicate MostRecent(log: seq<Registered>, disposed: set<nat>, kind: NodeType, target: string, i: nat)
    requires i < |log|
  {
    && log[i].kind == kind && log[i].target == target && log[i].id !in disposed
    && forall j :: i < j < |log| && log[j].kind == kind && log[j].target == target ==> log[j].id in disposed
  }

  lemma {:induction false} ActiveIsMostRecent(log: seq<Registered>, disposed: set<nat>, kind: NodeType, target: string)
    ensures var es := Undisposed(log, disposed, kind, target);
            if es == [] then
              forall i :: 0 <= i < |log| && log[i].kind == kind && log[i].target == target ==> log[i].id in disposed
            else
              exists i :: 0 <= i < |log| && MostRecent(log, disposed, kind, target, i)
                  && log[i].value == es[|es| - 1].value
  {
    if log != [] {
      var front, last := log[..|log| - 1], log[|log| - 1];
      ActiveIsMostRecent(front, disposed, kind, target);
      var es := Undisposed(front, disposed, kind, target);
      if last.kind == kind && last.target == target && last.id !in disposed {
        assert MostRecent(log, disposed, kind, target, |log| - 1);
      } else if es != [] {
        var i :| 0 <= i < |front| && MostRecent(front, disposed, kind, target, i)
            && front[i].value == es[|es| - 1].value;
        assert log[i] == front[i];
        assert MostRecent(log, disposed, kind, target, i);
      }
    }
  }

  function ActiveValue(es: seq<Entry>): Option<nat> { if es == [] then None else Some(es[|es| - 1].value) }

  function LoweringOf(t: Target, kind: NodeType): Option<nat> {
    if kind in t.lowerings then Some(t.lowerings[kind]) else None
  }

  /** The target as lowering sees it: for each type the most recent undisposed registration, and no other. */
  ghost predicate Serves(log: seq<Registered>, disposed: set<nat>, target: string, t: Target) {
    forall kind ::
      if kind in t.lowerings then
        exists i :: 0 <= i < |log| && MostRecent(log, disposed, kind, target, i) && log[i].value == t.lowerings[kind]
      else
        forall i :: 0 <= i < |log| && log[i].kind == kind && log[i].target == target ==> log[i].id in disposed
  }

  lemma ServedIsActive(log: seq<Registered>, disposed: set<nat>, target: string, t: Target, kind: NodeType)
    requires Serves(log, disposed, target, t)
    ensures LoweringOf(t, kind) == ActiveValue(Undisposed(log, disposed, kind, target))
  {
    hide Undisposed;
    ActiveIsMostRecent(log, disposed, kind, target);
  }

  lemma {:induction false} OnlyItsPair(log: seq<Registered>, disposed: set<nat>, kind: NodeType, target: string,
      id: nat)
    requires forall i :: 0 <= i < |log| && log[i].id == id ==> log[i].kind != kind || log[i].target != target
    ensures forall e :: e in Undisposed(log, disposed, kind, target) ==> e.id != id
  {
    if log != [] { OnlyItsPair(log[..|log| - 1], disposed, kind, target, id); }
  }

  // ----- lowerTree -----

  /** Running component `fn` on props and children; components are pure and return an element. */
  type Impl = (nat, Props, seq<VNode>) -> VNode

  /** A render target: its primitives (any name when none are given) and its active lowerings. */
  datatype Target = Target(primitives: Option<set<string>>, lowerings: map<NodeType, nat>)

  /** `same` tells whether the very node that went in came out. */
  datatype Outcome = Ok(tree: VNode, same: bool) | TooDeep | NoLowering(name: string) | Unfinished

  const MAX_LOWERING_DEPTH := 100

  ghost predicate ReturnsElements(run: Impl) {
    forall fn, props, children :: run(fn, props, children).Element?
  }

  function ImplOf(t: Target, kind: NodeType): Option<nat> {
    if LoweringOf(t, kind).Some? then LoweringOf(t, kind)
    else if kind.Component? then Some(kind.fn)
    else None
  }

  /** What a node is replaced by: its implementation's output, under the node's own key if it has one. */
  function Substitute(run: Impl, fn: nat, v: VNode): VNode
    requires v.Element? && ReturnsElements(run)
  {
    var composed := run(fn, v.props, v.children);
    if v.key.None? then composed else composed.(key := v.key)
  }

  /**
   * `lowerNode`. A lowering need not terminate; `fuel` bounds the calls and `Unfinished` reports it. What a
   * substitution leads to is another node than the one it started from; a primitive is copied only if a child changed.
   */
  function LowerNode(run: Impl, t: Target, v: VNode, depth: nat, fuel: nat): Outcome
    requires v.Element? && ReturnsElements(run)
    decreases fuel, 0
  {
    if depth > MAX_LOWERING_DEPTH then TooDeep
    else if fuel == 0 then Unfinished
    else
      var impl := ImplOf(t, v.kind);
      if impl.Some? then Other(LowerNode(run, t, Substitute(run, impl.value, v), depth + 1, fuel - 1))
      else if t.primitives.Some? && v.kind.name !in t.primitives.value then NoLowering(v.kind.name)
      else
        var r := LowerChildren(run, t, v.children, fuel - 1);
        if r.Failed? then r.failure else if r.changed then Ok(v.(children := r.trees), false) else Ok(v, true)
  }

  function Other(r: Outcome): Outcome { if r.Ok? then Ok(r.tree, false) else r }

  datatype ChildrenOutcome = Lowereds(trees: seq<VNode>, changed: bool) | Failed(failure: Outcome)

  function LowerChildren(run: Impl, t: Target, vs: seq<VNode>, fuel: nat): (r: ChildrenOutcome)
    requires ReturnsElements(run)
    ensures r.Failed? ==> !r.failure.Ok?
    decreases fuel, 1, |vs|
  {
    if vs == [] then Lowereds([], false)
    else if vs[0].Text? then
      var rest := LowerChildren(run, t, vs[1..], fuel);
      if rest.Lowereds? then Lowereds([vs[0]] + rest.trees, rest.changed) else rest
    else
      var first := LowerNode(run, t, vs[0], 0, fuel);
      if !first.Ok? then Failed(first)
      else
        var rest := LowerChildren(run, t, vs[1..], fuel);
        if rest.Lowereds? then Lowereds([first.tree] + rest.trees, !first.same || rest.changed) else rest
  }

  /** Every node is a primitive the target accepts and has no lowering there. */
  ghost predicate AtFloor(t: Target, v: VNode) {
    v.Element? ==>
      && v.kind.Name? && v.kind !in t.lowerings
      && (t.primitives.Some? ==> v.kind.name in t.primitives.value)
      && forall i :: 0 <= i < |v.children| ==> AtFloor(t, v.children[i])
  }

  /** Keys along one position's substitutions, as each implementation returned them. */
  ghost function ChainKeys(run: Impl, t: Target, v: VNode, depth: nat): (ks: seq<Option<Key>>)
    requires v.Element? && ReturnsElements(run)
    ensures ks != [] && ks[0] == v.key
    decreases MAX_LOWERING_DEPTH + 1 - depth
  {
    if depth > MAX_LOWERING_DEPTH || ImplOf(t, v.kind).None? then [v.key]
    else [v.key] + ChainKeys(run, t, run(ImplOf(t, v.kind).value, v.props, v.children), depth + 1)
  }

  ghost function FirstKey(ks: seq<Option<Key>>): Option<Key> {
    if ks == [] then None else if ks[0].Some? then ks[0] else FirstKey(ks[1..])
  }

  ghost function Height(v: VNode): nat {
    if v.Text? then 0 else 1 + MaxHeight(v.children)
  }

  ghost function MaxHeight(vs: seq<VNode>): (h: nat)
    ensures forall i :: 0 <= i < |vs| ==> Height(vs[i]) <= h
  {
    if vs == [] then 0
    else
      var rest := MaxHeight(vs[1..]);
      assert forall i :: 1 <= i < |vs| ==> vs[i] == vs[1..][i - 1];
      if Height(vs[0]) > rest then Height(vs[0]) else rest
  }

  /** Whenever lowering returns, only accepted primitives without a lowering are left. */
  lemma {:induction false} LoweringReachesTheFloor(run: Impl, t: Target, v: VNode, depth: nat, fuel: nat)
    requires v.Element? && ReturnsElements(run)
    requires LowerNode(run, t, v, depth, fuel).Ok?
    ensures LowerNode(run, t, v, depth, fuel).tree.Element?
    ensures AtFloor(t, LowerNode(run, t, v, depth, fuel).tree)
    decreases fuel, 0
  {
    var impl := ImplOf(t, v.kind);
    if impl.Some? {
      LoweringReachesTheFloor(run, t, Substitute(run, impl.value, v), depth + 1, fuel - 1);
    } else {
      ChildrenReachTheFloor(run, t, v.children, fuel - 1);
      UnchangedIffAtFloor(run, t, v.children, fuel - 1);
    }
  }

  lemma {:induction false} ChildrenReachTheFloor(run: Impl, t: Target, vs: seq<VNode>, fuel: nat)
    requires ReturnsElements(run) && LowerChildren(run, t, vs, fuel).Lowereds?
    ensures var us := LowerChildren(run, t, vs, fuel).trees;
            |us| == |vs| && forall i :: 0 <= i < |us| ==> AtFloor(t, us[i])
    decreases fuel, 1, |vs|
  {
    if vs != [] {
      if vs[0].Element? { LoweringReachesTheFloor(run, t, vs[0], 0, fuel); }
      ChildrenReachTheFloor(run, t, vs[1..], fuel);
    }
  }

  /** A floor tree holds no component, so the host never meets one. */
  lemma {:induction false} FloorIsLowered(t: Target, v: VNode)
    requires AtFloor(t, v)
    ensures Lowered(v)
  {
    if v.Element? {
      forall i | 0 <= i < |v.children| ensures Lowered(v.children[i]) {
        FloorIsLowered(t, v.children[i]);
      }
    }
  }

  /** The result carries the outermost key given along its substitutions. */
  lemma {:induction false} OutermostKeyWins(run: Impl, t: Target, v: VNode, depth: nat, fuel: nat)
    requires v.Element? && ReturnsElements(run)
    requires LowerNode(run, t, v, depth, fuel).Ok?
    ensures LowerNode(run, t, v, depth, fuel).tree.Element?
    ensures LowerNode(run, t, v, depth, fuel).tree.key == FirstKey(ChainKeys(run, t, v, depth))
    decreases fuel
  {
    var impl := ImplOf(t, v.kind);
    if impl.Some? {
      var composed := run(impl.value, v.props, v.children);
      var next := Substitute(run, impl.value, v);
      OutermostKeyWins(run, t, next, depth + 1, fuel - 1);
      var keys := ChainKeys(run, t, composed, depth + 1);
      assert ChainKeys(run, t, v, depth) == [v.key] + keys;
      assert ([v.key] + keys)[1..] == keys;
    }
  }

  /** A floor tree is lowered to itself, by reference, at any substitution depth. */
  lemma {:induction false} FloorIsFixed(run: Impl, t: Target, v: VNode, depth: nat, fuel: nat)
    requires v.Element? && ReturnsElements(run) && AtFloor(t, v)
    requires depth <= MAX_LOWERING_DEPTH && Height(v) <= fuel
    ensures LowerNode(run, t, v, depth, fuel) == Ok(v, true)
    decreases v, 0
  {
    FloorChildrenAreFixed(run, t, v.children, fuel - 1);
  }

  lemma {:induction false} FloorChildrenAreFixed(run: Impl, t: Target, vs: seq<VNode>, fuel: nat)
    requires ReturnsElements(run) && MaxHeight(vs) <= fuel
    requires forall i :: 0 <= i < |vs| ==> AtFloor(t, vs[i])
    ensures LowerChildren(run, t, vs, fuel) == Lowereds(vs, false)
    decreases vs, 1
  {
    if vs != [] {
      if vs[0].Element? { FloorIsFixed(run, t, vs[0], 0, fuel); }
      FloorChildrenAreFixed(run, t, vs[1..], fuel);
      assert vs == [vs[0]] + vs[1..];
    }
  }

  /** The node that went in comes out exactly when it was at the floor already. */
  lemma {:induction false} SameIffAtFloor(run: Impl, t: Target, v: VNode, depth: nat, fuel: nat)
    requires v.Element? && ReturnsElements(run) && LowerNode(run, t, v, depth, fuel).Ok?
    ensures var r := LowerNode(run, t, v, depth, fuel); (r.same <==> AtFloor(t, v)) && (r.same ==> r.tree == v)
    decreases fuel, 0
  {
    if ImplOf(t, v.kind).None? { UnchangedIffAtFloor(run, t, v.children, fuel - 1); }
  }

  lemma {:induction false} UnchangedIffAtFloor(run: Impl, t: Target, vs: seq<VNode>, fuel: nat)
    requires ReturnsElements(run) && LowerChildren(run, t, vs, fuel).Lowereds?
    ensures var r := LowerChildren(run, t, vs, fuel);
            (!r.changed <==> forall i :: 0 <= i < |vs| ==> AtFloor(t, vs[i])) && (!r.changed ==> r.trees == vs)
    decreases fuel, 1, |vs|
  {
    if vs != [] {
      if vs[0].Element? { SameIffAtFloor(run, t, vs[0], 0, fuel); }
      UnchangedIffAtFloor(run, t, vs[1..], fuel);
      assert vs == [vs[0]] + vs[1..];
    }
  }

  /** Lowering what lowering returned gives that very node back. */
  lemma LoweringIsIdempotent(run: Impl, t: Target, v: VNode, fuel: nat, fuel': nat)
    requires v.Element? && ReturnsElements(run) && LowerNode(run, t, v, 0, fuel).Ok?
    requires Height(LowerNode(run, t, v, 0, fuel).tree) <= fuel'
    ensures var u := LowerNode(run, t, v, 0, fuel).tree;
            u.Element? && LowerNode(run, t, u, 0, fuel') == Ok(u, true)
  {
    LoweringReachesTheFloor(run, t, v, 0, fuel);
    FloorIsFixed(run, t, LowerNode(run, t, v, 0, fuel).tree, 0, fuel');
  }

  /** An outcome, once reached, does not depend on how many more calls were allowed. */
  lemma {:induction false} OutcomeIsStable(run: Impl, t: Target, v: VNode, depth: nat, fuel: nat, more: nat)
    requires v.Element? && ReturnsElements(run) && fuel <= more
    requires !LowerNode(run, t, v, depth, fuel).Unfinished?
    ensures LowerNode(run, t, v, depth, more) == LowerNode(run, t, v, depth, fuel)
    decreases fuel, 0
  {
    if depth <= MAX_LOWERING_DEPTH {
      var impl := ImplOf(t, v.kind);
      if impl.Some? {
        OutcomeIsStable(run, t, Substitute(run, impl.value, v), depth + 1, fuel - 1, more - 1);
      } else if t.primitives.None? || v.kind.name in t.primitives.value {
        ChildrenOutcomeIsStable(run, t, v.children, fuel - 1, more - 1);
      }
    }
  }

  lemma {:induction false} ChildrenOutcomeIsStable(run: Impl, t: Target, vs: seq<VNode>, fuel: nat, more: nat)
    requires ReturnsElements(run) && fuel <= more
    requires LowerChildren(run, t, vs, fuel).Failed? ==> !LowerChildren(run, t, vs, fuel).failure.Unfinished?
    ensures LowerChildren(run, t, vs, more) == LowerChildren(run, t, vs, fuel)
    decreases fuel, 1, |vs|
  {
    if vs != [] {
      if vs[0].Element? { OutcomeIsStable(run, t, vs[0], 0, fuel, more); }
      if vs[0].Text? || LowerNode(run, t, vs[0], 0, fuel).Ok? {
        ChildrenOutcomeIsStable(run, t, vs[1..], fuel, more);
      }
    }
  }

  // ----- what stands for what -----

  ghost predicate Replaced(t: Target, v: VNode) { v.Element? && (v.kind in t.lowerings || v.kind.Component?) }

  /** The node `w` stands for `v`: the lowering registered for its type was run, or else the component itself. */
  ghost predicate StandsFor(run: Impl, t: Target, v: VNode, w: VNode) {
    && Replaced(t, v)
    && var out := run(if v.kind in t.lowerings then t.lowerings[v.kind] else v.kind.fn, v.props, v.children);
    && w.Element? && out.Element?
    && w.kind == out.kind && w.props == out.props && w.children == out.children
    && w.key == if v.key.Some? then v.key else out.key
  }

  /** Each node stands for the one before it. */
  ghost predicate IsChain(run: Impl, t: Target, chain: seq<VNode>) {
    && chain != [] && (forall i :: 0 <= i < |chain| ==> chain[i].Element?)
    && forall i, j :: 0 <= i < j < |chain| && j == i + 1 ==> StandsFor(run, t, chain[i], chain[j])
  }

  lemma ChainTail(run: Impl, t: Target, chain: seq<VNode>)
    requires ReturnsElements(run) && IsChain(run, t, chain) && |chain| > 1
    ensures IsChain(run, t, chain[1..]) && ImplOf(t, chain[0].kind).Some?
    ensures chain[1] == Substitute(run, ImplOf(t, chain[0].kind).value, chain[0])
  {
    assert StandsFor(run, t, chain[0], chain[1]);
  }

  /** What becomes of a primitive; `replaced` says that it stands for another node. */
  ghost predicate Settles(run: Impl, t: Target, v: VNode, replaced: bool, fuel: nat, r: Outcome)
    requires v.Element? && v.kind.Name? && ReturnsElements(run)
  {
    if t.primitives.Some? && v.kind.name !in t.primitives.value then r == NoLowering(v.kind.name)
    else
      match LowerChildren(run, t, v.children, fuel)
      case Failed(failure) => r == failure
      case Lowereds(trees, changed) =>
        r.Ok? && r.tree == VNode.Element(v.kind, v.props, trees, v.key) && (r.same <==> !replaced && !changed)
  }

  /**
   * Up to a hundred substitutions lead a node to its primitive: the lowering registered for a type goes before the
   * component's own function, and each gets the props and children of the node it stands for.
   */
  lemma {:induction false} ChainIsFollowed(run: Impl, t: Target, chain: seq<VNode>, depth: nat, fuel: nat)
    requires ReturnsElements(run) && IsChain(run, t, chain) && !Replaced(t, chain[|chain| - 1])
    requires depth + |chain| <= 101
    ensures Settles(run, t, chain[|chain| - 1], |chain| > 1, fuel,
                    LowerNode(run, t, chain[0], depth, fuel + |chain|))
    decreases |chain|
  {
    var v := chain[0];
    if |chain| == 1 {
      UnchangedStays(run, t, v.children, fuel);
    } else {
      hide Settles;
      ChainTail(run, t, chain);
      ChainIsFollowed(run, t, chain[1..], depth + 1, fuel);
      var r := LowerNode(run, t, chain[1], depth + 1, fuel + |chain| - 1);
      SettlesAgain(run, t, chain[|chain| - 1], |chain| > 2, fuel, r);
    }
  }

  lemma SettlesAgain(run: Impl, t: Target, v: VNode, replaced: bool, fuel: nat, r: Outcome)
    requires v.Element? && v.kind.Name? && ReturnsElements(run) && Settles(run, t, v, replaced, fuel, r)
    ensures Settles(run, t, v, true, fuel, Other(r))
  {
  }

  lemma UnchangedStays(run: Impl, t: Target, vs: seq<VNode>, fuel: nat)
    requires ReturnsElements(run)
    ensures var r := LowerChildren(run, t, vs, fuel); r.Lowereds? && !r.changed ==> r.trees == vs
  {
    if LowerChildren(run, t, vs, fuel).Lowereds? { UnchangedIffAtFloor(run, t, vs, fuel); }
  }

  /** One substitution more fails. */
  lemma {:induction false} LongChainFails(run: Impl, t: Target, chain: seq<VNode>, depth: nat, fuel: nat)
    requires ReturnsElements(run) && IsChain(run, t, chain) && depth + |chain| == 102 && fuel + 1 >= |chain|
    ensures LowerNode(run, t, chain[0], depth, fuel) == TooDeep
    decreases |chain|
  {
    if |chain| > 1 {
      ChainTail(run, t, chain);
      LongChainFails(run, t, chain[1..], depth + 1, fuel - 1);
    }
  }

  /** The `i`-th child is the first that cannot be lowered. */
  ghost predicate FirstFailure(run: Impl, t: Target, vs: seq<VNode>, fuel: nat, i: nat, failure: Outcome)
    requires i < |vs| && ReturnsElements(run)
  {
    && vs[i].Element? && LowerNode(run, t, vs[i], 0, fuel) == failure && !failure.Ok?
    && forall j :: 0 <= j < i && vs[j].Element? ==> LowerNode(run, t, vs[j], 0, fuel).Ok?
  }

  /** What one child becomes. */
  ghost predicate LowersTo(run: Impl, t: Target, v: VNode, fuel: nat, u: VNode)
    requires ReturnsElements(run)
  {
    if v.Text? then u == v else var r := LowerNode(run, t, v, 0, fuel); r.Ok? && r.tree == u
  }

  lemma FirstChild(run: Impl, t: Target, vs: seq<VNode>, fuel: nat)
    requires ReturnsElements(run) && vs != []
    ensures var r, rest := LowerChildren(run, t, vs, fuel), LowerChildren(run, t, vs[1..], fuel);
            if vs[0].Element? && !LowerNode(run, t, vs[0], 0, fuel).Ok? then
              r == Failed(LowerNode(run, t, vs[0], 0, fuel))
            else if rest.Failed? then r == rest
            else
              && r.Lowereds? && |r.trees| == |rest.trees| + 1 && LowersTo(run, t, vs[0], fuel, r.trees[0])
              && r.trees[1..] == rest.trees
  {
    hide LowerNode;
  }

  /** Children are lowered on their own, each at depth zero; text stays, and the first failure is the failure. */
  lemma {:induction false} ChildrenAreLoweredAlone(run: Impl, t: Target, vs: seq<VNode>, fuel: nat)
    requires ReturnsElements(run)
    ensures match LowerChildren(run, t, vs, fuel)
            case Lowereds(trees, _) =>
              |trees| == |vs| && forall i :: 0 <= i < |vs| ==> LowersTo(run, t, vs[i], fuel, trees[i])
            case Failed(failure) => exists i :: 0 <= i < |vs| && FirstFailure(run, t, vs, fuel, i, failure)
    decreases |vs|
  {
    hide LowerNode, LowersTo;
    if vs != [] {
      hide LowerChildren;
      FirstChild(run, t, vs, fuel);
      var r, rest := LowerChildren(run, t, vs, fuel), LowerChildren(run, t, vs[1..], fuel);
      if vs[0].Element? && !LowerNode(run, t, vs[0], 0, fuel).Ok? {
        assert FirstFailure(run, t, vs, fuel, 0, r.failure);
      } else {
        ChildrenAreLoweredAlone(run, t, vs[1..], fuel);
        if rest.Failed? {
          var i :| 0 <= i < |vs[1..]| && FirstFailure(run, t, vs[1..], fuel, i, rest.failure);
          FailureLater(run, t, vs, fuel, i, rest.failure);
        } else {
          forall i | 0 <= i < |vs| ensures LowersTo(run, t, vs[i], fuel, r.trees[i]) {
            if i > 0 { assert vs[i] == vs[1..][i - 1] && r.trees[i] == r.trees[1..][i - 1]; }
          }
        }
      }
    }
  }

  lemma FailureLater(run: Impl, t: Target, vs: seq<VNode>, fuel: nat, i: nat, failure: Outcome)
    requires ReturnsElements(run) && vs != [] && i < |vs[1..]| && FirstFailure(run, t, vs[1..], fuel, i, failure)
    requires vs[0].Element? ==> LowerNode(run, t, vs[0], 0, fuel).Ok?
    ensures FirstFailure(run, t, vs, fuel, i + 1, failure)
  {
    hide LowerNode;
    assert forall j :: 1 <= j < |vs| ==> vs[j] == vs[1..][j - 1];
  }
}
