/** Virtual trees of fino:ui and the keys its reconciler matches children by. */
module UiTree {
  import opened Basics
  import Decimal

  datatype Key = Str(text: string) | Num(value: int)

  /** Property values are only stored and handed on, so any integer stands for one. */
  type Props = map<string, int>

  /** `VNode.type`: a host element name, or a component function (identified by a number). */
  datatype NodeType = Name(name: string) | Component(fn: nat)

  /** A normalized child: text, or a VNode. */
  datatype VNode =
    | Text(text: string)
    | Element(kind: NodeType, props: Props, children: seq<VNode>, key: Option<Key>)

  /** No component is left in the tree. */
  predicate Lowered(v: VNode) {
    v.Element? ==> v.kind.Name? && forall i :: 0 <= i < |v.children| ==> Lowered(v.children[i])
  }

  function IndexKey(index: nat): Key { Str("#" + Decimal.Print(index)) }

  function EffectiveKey(key: Option<Key>, index: nat): Key {
    if key.Some? then key.value else IndexKey(index)
  }

  /** `childKey`: text is keyed by position, an element by its key if it has one. */
  function ChildKey(child: VNode, index: nat): Key {
    if child.Text? then IndexKey(index) else EffectiveKey(child.key, index)
  }

  /**
   * When a child with key `k` at position `a` and one with key `l` at position `b` go by the same key: with the same
   * key given, with none given at one position, or where a given key is the text "#" and the other's position.
   */
  ghost predicate SameKey(k: Option<Key>, a: nat, l: Option<Key>, b: nat) {
    match (k, l)
    case (Some(x), Some(y)) => x == y
    case (None, None) => a == b
    case (Some(x), None) => x == Str("#" + Decimal.Print(b))
    case (None, Some(y)) => y == Str("#" + Decimal.Print(a))
  }

  lemma IndexKeysDiffer(a: nat, b: nat)
    ensures IndexKey(a) == IndexKey(b) <==> a == b
  {
    if IndexKey(a) == IndexKey(b) {
      assert ("#" + Decimal.Print(a))[1..] == Decimal.Print(a);
      assert ("#" + Decimal.Print(b))[1..] == Decimal.Print(b);
      Decimal.PrintInjective(a, b);
    }
  }

  /** The effective keys are equal exactly then. */
  lemma EffectiveKeysMean(k: Option<Key>, a: nat, l: Option<Key>, b: nat)
    ensures EffectiveKey(k, a) == EffectiveKey(l, b) <==> SameKey(k, a, l, b)
  {
    hide Decimal.Print;
    IndexKeysDiffer(a, b);
  }

  /** No two children of one node share an effective key. */
  ghost predicate UniqueChildKeys(vs: seq<VNode>) {
    forall i, j :: 0 <= i < j < |vs| ==> ChildKey(vs[i], i) != ChildKey(vs[j], j)
  }

  ghost predicate UniqueKeys(v: VNode) {
    v.Element? ==>
      && UniqueChildKeys(v.children)
      && forall i :: 0 <= i < |v.children| ==> UniqueKeys(v.children[i])
  }

  ghost predicate Keyless(v: VNode) {
    v.Element? ==> v.key.None? && forall i :: 0 <= i < |v.children| ==> Keyless(v.children[i])
  }

  /** Children matched by position never clash, whatever the tree. */
  lemma {:induction false} KeylessTreesHaveUniqueKeys(v: VNode)
    requires Keyless(v)
    ensures UniqueKeys(v)
  {
    if v.Element? {
      forall i, j | 0 <= i < j < |v.children|
        ensures ChildKey(v.children[i], i) != ChildKey(v.children[j], j)
      {
        assert Keyless(v.children[i]) && Keyless(v.children[j]);
        IndexKeysDiffer(i, j);
      }
      forall i | 0 <= i < |v.children| ensures UniqueKeys(v.children[i]) {
        KeylessTreesHaveUniqueKeys(v.children[i]);
      }
    }
  }

  /** What a host shows of a tree: names, props and text, but no keys. */
  datatype Shown = ShownText(text: string) | ShownElement(name: string, props: Props, children: seq<Shown>)

  function Visible(v: VNode): Shown
    requires Lowered(v)
  {
    match v
    case Text(t) => ShownText(t)
    case Element(kind, props, children, _) =>
      ShownElement(kind.name, props, seq(|children|, i requires 0 <= i < |children| => Visible(children[i])))
  }
}
