/** The virtual DOM tree shared by the diff, the coordinate lookup and the builders.
  * `RespoNode` has three shapes: a named component wrapping a tree and its lifecycle
  * effects, an element, and a shared (`Rc`) reference whose pointer identity is `id`. */
module Node {
  import opened Strings

  /** `RespoIndexKey`: the key that identifies a child among its siblings. */
  type IndexKey = string

  /** An effect argument after its conversion to JSON, kept as an opaque comparable text. */
  datatype EffectArg = EffectArg(json: string)

  /** `RespoEffect`: its arguments and, standing in for the handler closure, a name. */
  datatype Effect = Effect(args: seq<EffectArg>, handler: string)

  /** `RespoListenerFn`: a closure, reduced to a name. */
  datatype Listener = Listener(handler: string)

  datatype EffectType = Mounted | BeforeUpdate | Updated | BeforeUnmount

  /** A DOM element: tag name, attributes, listeners by event name, inline style pairs
    * in insertion order, and keyed children. */
  datatype RespoElement = RespoElement(
    name: string,
    attrs: map<string, string>,
    events: map<string, Listener>,
    style: seq<(string, string)>,
    children: seq<(IndexKey, RespoNode)>)

  datatype RespoNode =
    | Component(name: string, effects: seq<Effect>, tree: RespoNode)
    | Element(el: RespoElement)
    | Referenced(id: nat, cell: RespoNode)

  /** `RespoIndexKey::from(usize)`: the decimal form of the index. */
  function IndexKeyFromNat(n: nat): (k: IndexKey)
    ensures IsDigits(k) && DecimalValue(k) == n
  {
    DecimalRoundTrip(n);
    NatToString(n)
  }

  /** Keys made from distinct indexes are distinct. */
  lemma IndexKeysDistinct(m: nat, n: nat)
    requires m != n
    ensures IndexKeyFromNat(m) != IndexKeyFromNat(n)
  {
    DecimalRoundTrip(m);
    DecimalRoundTrip(n);
  }

  /** Equality of effects (`PartialEq for RespoEffect`): closures are not compared, only arguments. */
  predicate EffectEq(a: Effect, b: Effect)
  {
    a.args == b.args
  }

  /** `EffectEq` ignores the handler: two effects with the same arguments are equal,
    * whatever their handlers, and effects with different arguments are not. */
  lemma EffectEqIgnoresHandler(a: Effect, h: string)
    ensures EffectEq(a, Effect(a.args, h))
    ensures forall b :: EffectEq(a, b) <==> a.args == b.args
  {
  }

  /** Equality of listeners (`PartialEq for RespoListenerFn`): always true. */
  predicate ListenerEq(a: Listener, b: Listener)
  {
    true
  }

  /** Number of nodes, a termination measure for the traversals. */
  function Size(n: RespoNode): (s: nat)
    ensures s >= 1
    decreases n
  {
    match n
    case Component(_, _, t) => 1 + Size(t)
    case Element(e) =>
      1 + Sum(seq(|e.children|, i requires 0 <= i < |e.children| => Size(e.children[i].1)))
    case Referenced(_, c) => 1 + Size(c)
  }

  function Sum(xs: seq<nat>): nat
  {
    if |xs| == 0 then 0 else Sum(xs[..|xs| - 1]) + xs[|xs| - 1]
  }

  lemma {:induction false} SumBound(xs: seq<nat>, i: nat)
    requires i < |xs|
    ensures xs[i] <= Sum(xs)
  {
    if i < |xs| - 1 {
      SumBound(xs[..|xs| - 1], i);
    }
  }

  /** Total size of a child list. */
  function ChildrenSize(cs: seq<(IndexKey, RespoNode)>): nat
  {
    Sum(seq(|cs|, i requires 0 <= i < |cs| => Size(cs[i].1)))
  }

  lemma ElementSize(e: RespoElement)
    ensures Size(Element(e)) == 1 + ChildrenSize(e.children)
  {
    var cs := e.children;
    assert seq(|cs|, i requires 0 <= i < |cs| => Size(cs[i].1))
        == seq(|e.children|, i requires 0 <= i < |e.children| => Size(e.children[i].1));
  }

  lemma ChildSizeBound(cs: seq<(IndexKey, RespoNode)>, i: nat)
    requires i < |cs|
    ensures Size(cs[i].1) <= ChildrenSize(cs)
  {
    SumBound(seq(|cs|, i requires 0 <= i < |cs| => Size(cs[i].1)), i);
  }

  /** The keys of a child list, in order. */
  function Keys(cs: seq<(IndexKey, RespoNode)>): (ks: seq<IndexKey>)
    ensures |ks| == |cs|
    ensures forall i :: 0 <= i < |cs| ==> ks[i] == cs[i].0
  {
    if |cs| == 0 then [] else Keys(cs[..|cs| - 1]) + [cs[|cs| - 1].0]
  }

  /** A node that builder calls can reach: a chain of components ending at an element
    * (builder calls on a `Referenced` node panic with `unreachable!`). */
  predicate Buildable(n: RespoNode)
  {
    match n
    case Component(_, _, t) => Buildable(t)
    case Element(_) => true
    case Referenced(_, _) => false
  }

  /** The element a builder call on `n` lands on. */
  function Target(n: RespoNode): RespoElement
    requires Buildable(n)
  {
    match n
    case Component(_, _, t) => Target(t)
    case Element(e) => e
  }

  /** `n` with its target element replaced by `e`. */
  function Rewrap(n: RespoNode, e: RespoElement): (r: RespoNode)
    requires Buildable(n)
    ensures Buildable(r) && Target(r) == e
  {
    match n
    case Component(name, effs, t) => Component(name, effs, Rewrap(t, e))
    case Element(_) => Element(e)
  }

  /** Rewrapping keeps the chain of components (names and effects) and only swaps the target. */
  lemma {:induction false} RewrapKeepsShell(n: RespoNode, e: RespoElement)
    requires Buildable(n)
    ensures n.Component? <==> Rewrap(n, e).Component?
    ensures n.Component? ==> Rewrap(n, e).name == n.name && Rewrap(n, e).effects == n.effects
    ensures Rewrap(n, Target(n)) == n
    ensures forall f :: Rewrap(Rewrap(n, e), f) == Rewrap(n, f)
  {
    if n.Component? {
      RewrapKeepsShell(n.tree, e);
    }
  }
}
