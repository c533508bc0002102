/** Node builders. `respo/src/node/element.rs` builds a `RespoElement` by value: each
  * builder returns a new element. `respo/src/respo/primes.rs` changes a `RespoNode` in
  * place and forwards every element builder through the components wrapping it to the
  * element inside; those are the methods below, proved to do what the by-value builders do
  * to that element. */
module Builders {
  import opened Wrappers
  import opened Strings
  import opened Node

  /** `named` / `new_tag`: an element with the tag name and nothing else. */
  function Named(name: string): (e: RespoElement)
    ensures e.name == name && e.attrs == map[] && e.events == map[] && e.style == [] && e.children == []
  {
    RespoElement(name, map[], map[], [], [])
  }

  /** `style`: the pairs are added after the existing ones, in order. */
  function WithStyle(e: RespoElement, more: seq<(string, string)>): (r: RespoElement)
  {
    e.(style := e.style + more)
  }

  /** `modify_style`: the style list as the builder closure leaves it. */
  function ModifyStyle(e: RespoElement, builder: seq<(string, string)> -> seq<(string, string)>): (r: RespoElement)
    ensures r.name == e.name && r.attrs == e.attrs && r.events == e.events && r.children == e.children
  {
    e.(style := builder(e.style))
  }

  /** `attribute`: one attribute inserted or overwritten. */
  function Attribute(e: RespoElement, property: string, value: string): (r: RespoElement)
  {
    e.(attrs := e.attrs[property := value])
  }

  /** `maybe_attribute`: `attribute` for `Some`, nothing for `None`. */
  function MaybeAttribute(e: RespoElement, property: string, value: Option<string>): (r: RespoElement)
  {
    match value
    case Some(v) => Attribute(e, property, v)
    case None => e
  }

  /** `on_named_event`: one listener attached under the event name. */
  function OnNamedEvent(e: RespoElement, name: string, handler: Listener): (r: RespoElement)
  {
    e.(events := e.events[name := handler])
  }

  /** The pairs `children` appends: each node keyed by its position in this call. */
  function Enumerated(more: seq<RespoNode>): (r: seq<(IndexKey, RespoNode)>)
    ensures |r| == |more|
    ensures forall i :: 0 <= i < |more| ==> r[i] == (IndexKeyFromNat(i), more[i])
  {
    seq(|more|, i requires 0 <= i < |more| => (IndexKeyFromNat(i), more[i]))
  }

  /** `children`. */
  function Children(e: RespoElement, more: seq<RespoNode>): (r: RespoElement)
  {
    e.(children := e.children + Enumerated(more))
  }

  /** `children_indexed`: the pairs appended with their own keys. */
  function ChildrenIndexed(e: RespoElement, more: seq<(IndexKey, RespoNode)>): (r: RespoElement)
  {
    e.(children := e.children + more)
  }

  /** `elements`: `children` of the elements turned into nodes. */
  function Elements(e: RespoElement, more: seq<RespoElement>): (r: RespoElement)
    ensures r == Children(e, seq(|more|, i requires 0 <= i < |more| => Element(more[i])))
  {
    ChildrenIndexed(e, seq(|more|, i requires 0 <= i < |more| => (IndexKeyFromNat(i), Element(more[i]))))
  }

  /** `class`, `maybe_class`, `toggle_class`. */
  function Class(e: RespoElement, name: string): (r: RespoElement)
    ensures r == Attribute(e, "class", name)
  {
    e.(attrs := e.attrs["class" := name])
  }

  function MaybeClass(e: RespoElement, name: Option<string>): (r: RespoElement)
    ensures r == MaybeAttribute(e, "class", name)
  {
    match name
    case Some(n) => Class(e, n)
    case None => e
  }

  function ToggleClass(e: RespoElement, name: string, on: bool): (r: RespoElement)
    ensures on ==> r == Attribute(e, "class", name)
    ensures !on ==> r == e
  {
    if on then Class(e, name) else e
  }

  /** `class_list`: the names joined by single spaces, as the "class" attribute. */
  function ClassList(e: RespoElement, names: seq<string>): (r: RespoElement)
    ensures r == Attribute(e, "class", Join(names, " "))
  {
    Attribute(e, "class", Join(names, " "))
  }

  /** `inner_text`, `inner_html` and `value` write the attributes of those names. */
  function InnerText(e: RespoElement, content: string): (r: RespoElement)
    ensures r == Attribute(e, "innerText", content)
  {
    e.(attrs := e.attrs["innerText" := content])
  }

  function InnerHtml(e: RespoElement, content: string): (r: RespoElement)
    ensures r == Attribute(e, "innerHTML", content)
  {
    e.(attrs := e.attrs["innerHTML" := content])
  }

  function Value(e: RespoElement, content: string): (r: RespoElement)
    ensures r == Attribute(e, "value", content)
  {
    e.(attrs := e.attrs["value" := content])
  }

  /** Styles accumulate: two `style` calls add both lists, in call order, and leave the
    * rest of the element alone. */
  lemma StyleAppends(e: RespoElement, a: seq<(string, string)>, b: seq<(string, string)>)
    ensures WithStyle(WithStyle(e, a), b) == WithStyle(e, a + b)
    ensures var r := WithStyle(e, a);
      r.style[..|e.style|] == e.style && r.style[|e.style|..] == a &&
      r.name == e.name && r.attrs == e.attrs && r.events == e.events && r.children == e.children
  {
  }

  /** `attribute` sets exactly one key: the last value written wins, writes to different
    * keys commute, and every other attribute and field is unchanged. */
  lemma AttributeMeaning(e: RespoElement, k: string, v: string, k': string, v': string)
    ensures var r := Attribute(e, k, v);
      k in r.attrs && r.attrs[k] == v && r.attrs.Keys == e.attrs.Keys + {k} &&
      (forall j :: j in e.attrs && j != k ==> r.attrs[j] == e.attrs[j]) &&
      r.name == e.name && r.events == e.events && r.style == e.style && r.children == e.children
    ensures Attribute(Attribute(e, k, v), k, v') == Attribute(e, k, v')
    ensures k != k' ==> Attribute(Attribute(e, k, v), k', v') == Attribute(Attribute(e, k', v'), k, v)
  {
  }

  /** `maybe_attribute` with `None` and `maybe_class` with `None` return the element as it was. */
  lemma MaybeNoneUnchanged(e: RespoElement, property: string)
    ensures MaybeAttribute(e, property, None) == e
    ensures MaybeClass(e, None) == e
    ensures forall v :: MaybeAttribute(e, property, Some(v)) == Attribute(e, property, v)
  {
  }

  /** The keys `children` gives within one call are the decimal positions "0", "1", ...,
    * all distinct; earlier children are kept in front. */
  lemma ChildrenKeys(e: RespoElement, more: seq<RespoNode>)
    ensures var r := Children(e, more);
      |r.children| == |e.children| + |more| && r.children[..|e.children|] == e.children &&
      (forall i :: 0 <= i < |more| ==>
        r.children[|e.children| + i] == (IndexKeyFromNat(i), more[i]) &&
        IsDigits(r.children[|e.children| + i].0) && DecimalValue(r.children[|e.children| + i].0) == i)
    ensures forall i, j :: 0 <= i < j < |more| ==> Enumerated(more)[i].0 != Enumerated(more)[j].0
  {
    forall i, j | 0 <= i < j < |more| ensures Enumerated(more)[i].0 != Enumerated(more)[j].0 {
      IndexKeysDistinct(i, j);
    }
  }

  /** The class names can be read back from the "class" attribute by splitting on spaces,
    * when there is at least one name and none contains a space. */
  lemma ClassListSplits(e: RespoElement, names: seq<string>)
    requires |names| >= 1 && forall i :: 0 <= i < |names| ==> ' ' !in names[i]
    ensures "class" in ClassList(e, names).attrs
    ensures Split(ClassList(e, names).attrs["class"], ' ') == names
  {
    SplitJoin(names, ' ');
  }

  /** `new_component`: a component with no effects around a tree. */
  function NewComponent(name: string, tree: RespoNode): (r: RespoNode)
    ensures r.Component? && r.name == name && r.effects == [] && r.tree == tree
  {
    Component(name, [], tree)
  }

  /** `share_with_ref`: the node shared behind a fresh pointer, here the identity `id`. */
  function ShareWithRef(n: RespoNode, id: nat): (r: RespoNode)
    ensures r.Referenced? && r.cell == n && r.id == id
  {
    Referenced(id, n)
  }

  /** In-place `style` of `RespoNode`: through the components to the element, where the
    * pairs are pushed one by one. */
  method Style(n: RespoNode, more: seq<(string, string)>) returns (n': RespoNode)
    requires Buildable(n)
    ensures n' == Rewrap(n, WithStyle(Target(n), more))
    decreases n
  {
    if n.Component? {
      var tree := Style(n.tree, more);
      n' := n.(tree := tree);
    } else {
      var style := n.el.style;
      for i := 0 to |more|
        invariant style == n.el.style + more[..i]
      {
        style := style + [more[i]];
      }
      assert more[..|more|] == more;
      n' := Element(n.el.(style := style));
    }
  }

  /** In-place `modify_style`. */
  method ModifyStyleOf(n: RespoNode, builder: seq<(string, string)> -> seq<(string, string)>) returns (n': RespoNode)
    requires Buildable(n)
    ensures n' == Rewrap(n, ModifyStyle(Target(n), builder))
    decreases n
  {
    if n.Component? {
      var tree := ModifyStyleOf(n.tree, builder);
      n' := n.(tree := tree);
    } else {
      n' := Element(n.el.(style := builder(n.el.style)));
    }
  }

  /** In-place `attribute`. */
  method AttributeOf(n: RespoNode, property: string, value: string) returns (n': RespoNode)
    requires Buildable(n)
    ensures n' == Rewrap(n, Attribute(Target(n), property, value))
    decreases n
  {
    if n.Component? {
      var tree := AttributeOf(n.tree, property, value);
      n' := n.(tree := tree);
    } else {
      n' := Element(n.el.(attrs := n.el.attrs[property := value]));
    }
  }

  /** In-place `maybe_attribute`: with `None` the node is left as it was, whatever it is
    * (the match, and its `unreachable!` on a reference, is only reached with a value). */
  method MaybeAttributeOf(n: RespoNode, property: string, value: Option<string>) returns (n': RespoNode)
    requires value.Some? ==> Buildable(n)
    ensures value.Some? ==> n' == Rewrap(n, MaybeAttribute(Target(n), property, value))
    ensures value.None? ==> n' == n
  {
    n' := n;
    if value.Some? {
      n' := AttributeOf(n, property, value.value);
    }
  }

  /** In-place `on_named_event`. */
  method OnNamedEventOf(n: RespoNode, name: string, handler: Listener) returns (n': RespoNode)
    requires Buildable(n)
    ensures n' == Rewrap(n, OnNamedEvent(Target(n), name, handler))
    decreases n
  {
    if n.Component? {
      var tree := OnNamedEventOf(n.tree, name, handler);
      n' := n.(tree := tree);
    } else {
      n' := Element(n.el.(events := n.el.events[name := handler]));
    }
  }

  /** In-place `children`: the nodes pushed one by one, keyed by their index. */
  method ChildrenOf(n: RespoNode, more: seq<RespoNode>) returns (n': RespoNode)
    requires Buildable(n)
    ensures n' == Rewrap(n, Children(Target(n), more))
    decreases n
  {
    if n.Component? {
      var tree := ChildrenOf(n.tree, more);
      n' := n.(tree := tree);
    } else {
      var children := n.el.children;
      for idx := 0 to |more|
        invariant children == n.el.children + Enumerated(more)[..idx]
      {
        children := children + [(IndexKeyFromNat(idx), more[idx])];
        assert Enumerated(more)[..idx + 1] == Enumerated(more)[..idx] + [Enumerated(more)[idx]];
      }
      assert Enumerated(more)[..|more|] == Enumerated(more);
      n' := Element(n.el.(children := children));
    }
  }

  /** In-place `children_indexed`: the pairs pushed one by one with their own keys. */
  method ChildrenIndexedOf(n: RespoNode, more: seq<(IndexKey, RespoNode)>) returns (n': RespoNode)
    requires Buildable(n)
    ensures n' == Rewrap(n, ChildrenIndexed(Target(n), more))
    decreases n
  {
    if n.Component? {
      var tree := ChildrenIndexedOf(n.tree, more);
      n' := n.(tree := tree);
    } else {
      var children := n.el.children;
      for i := 0 to |more|
        invariant children == n.el.children + more[..i]
      {
        children := children + [more[i]];
      }
      assert more[..|more|] == more;
      n' := Element(n.el.(children := children));
    }
  }

  /** In-place `class_list`: the names collected one by one, then joined into "class". */
  method ClassListOf(n: RespoNode, names: seq<string>) returns (n': RespoNode)
    requires Buildable(n)
    ensures n' == Rewrap(n, ClassList(Target(n), names))
  {
    var className: seq<string> := [];
    for i := 0 to |names|
      invariant className == names[..i]
    {
      className := className + [names[i]];
    }
    assert names[..|names|] == names;
    n' := AttributeOf(n, "class", Join(className, " "));
  }

  /** In-place `toggle_class`: with `on` false the node is left as it was, whatever it is. */
  method ToggleClassOf(n: RespoNode, name: string, on: bool) returns (n': RespoNode)
    requires on ==> Buildable(n)
    ensures on ==> n' == Rewrap(n, ToggleClass(Target(n), name, on))
    ensures !on ==> n' == n
  {
    n' := n;
    if on {
      n' := AttributeOf(n, "class", name);
    }
  }

  /** In-place `effect` and `stable_effect` (an effect with no arguments): pushed onto the
    * component's own effects; the wrapped tree is untouched. */
  method AddEffect(n: RespoNode, args: seq<EffectArg>, handler: string) returns (n': RespoNode)
    requires n.Component?
    ensures n'.Component? && n'.name == n.name && n'.tree == n.tree
    ensures n'.effects == n.effects + [Effect(args, handler)]
  {
    n' := n.(effects := n.effects + [Effect(args, handler)]);
  }

  /** In-place `effects`: the effects appended in order. */
  method AddEffects(n: RespoNode, more: seq<Effect>) returns (n': RespoNode)
    requires n.Component?
    ensures n'.Component? && n'.name == n.name && n'.tree == n.tree
    ensures n'.effects == n.effects + more
  {
    n' := n.(effects := n.effects + more);
  }

  /** An element builder called through components reaches the element and changes
    * nothing in the components: names and effects stay, and a second builder call lands
    * on the element the first one produced. */
  lemma ForwardedThroughComponents(n: RespoNode, more: seq<(string, string)>, k: string, v: string)
    requires Buildable(n)
    ensures var r := Rewrap(n, WithStyle(Target(n), more));
      Buildable(r) && (n.Component? <==> r.Component?) &&
      (n.Component? ==> r.name == n.name && r.effects == n.effects) &&
      Rewrap(r, Attribute(Target(r), k, v)) == Rewrap(n, Attribute(WithStyle(Target(n), more), k, v))
  {
    RewrapKeepsShell(n, WithStyle(Target(n), more));
  }
}
