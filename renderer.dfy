/** Render bookkeeping of the `respo` crate (`respo/src/app/renderer.rs`, and the same
  * functions over the enum-shaped node in `respo/src/respo.rs`): the "needs rerender" flag
  * and the walk that follows a coordinate from the root to the node an event came from. */
module Renderer {
  import opened Wrappers
  import opened Node
  import opened DomChange

  /** The global `NEED_TO_ERENDER` flag. */
  class RerenderFlag {
    var needRerender: bool

    constructor ()
      ensures !needRerender
    {
      needRerender := false;
    }

    /** `drain_rerender_status`: reports whether a rerender was requested and clears the request. */
    method Drain() returns (ret: bool)
      modifies this
      ensures ret == old(needRerender)
      ensures !needRerender
    {
      ret := needRerender;
      if ret {
        needRerender := false;
      }
    }

    /** `mark_need_rerender`: requests a rerender; a flag already set is left as it is. */
    method Mark()
      modifies this
      ensures needRerender
      ensures old(needRerender) ==> unchanged(this)
    {
      var ret := needRerender;
      if !ret {
        needRerender := true;
      }
    }
  }

  /** One render tick: any number of requests between two drains is seen exactly once. */
  method MarkTwiceThenDrainTwice(flag: RerenderFlag) returns (first: bool, second: bool)
    modifies flag
    ensures first && !second && !flag.needRerender
  {
    flag.Mark();
    flag.Mark();
    first := flag.Drain();
    second := flag.Drain();
  }

  // ---------------------------------------------------------------------------
  // Following a coordinate.

  /** `children.iter().position(|(k, _)| k == key)`, from position `from` on. */
  function Position(cs: seq<(IndexKey, RespoNode)>, key: IndexKey, from: nat): (r: Option<nat>)
    requires from <= |cs|
    ensures r.Some? ==>
      from <= r.value < |cs| && cs[r.value].0 == key && forall j :: from <= j < r.value ==> cs[j].0 != key
    ensures r.None? ==> forall j :: from <= j < |cs| ==> cs[j].0 != key
    decreases |cs| - from
  {
    if from == |cs| then None
    else if cs[from].0 == key then Some(from)
    else Position(cs, key, from + 1)
  }

  /** Whether `n` is `t` or one of its descendants (through components, children and references). */
  predicate Contains(t: RespoNode, n: RespoNode)
    decreases t
  {
    n == t ||
    match t
    case Component(_, _, tree) => Contains(tree, n)
    case Element(e) => exists i :: 0 <= i < |e.children| && Contains(e.children[i].1, n)
    case Referenced(_, c) => Contains(c, n)
  }

  lemma {:induction false} ContainsSize(t: RespoNode, n: RespoNode)
    requires Contains(t, n)
    ensures Size(n) <= Size(t)
    decreases t
  {
    if n != t {
      match t {
        case Component(_, _, tree) => ContainsSize(tree, n);
        case Element(e) =>
          var i :| 0 <= i < |e.children| && Contains(e.children[i].1, n);
          ContainsSize(e.children[i].1, n);
          ChildSizeBound(e.children, i);
          ElementSize(e);
        case Referenced(_, c) => ContainsSize(c, n);
      }
    }
  }

  /** Everything inside a descendant of `t` is inside `t`. */
  lemma {:induction false} ContainsTrans(t: RespoNode, m: RespoNode, n: RespoNode)
    requires Contains(t, m) && Contains(m, n)
    ensures Contains(t, n)
    decreases t
  {
    if m != t {
      match t {
        case Component(_, _, tree) => ContainsTrans(tree, m, n);
        case Element(e) =>
          var i :| 0 <= i < |e.children| && Contains(e.children[i].1, m);
          ContainsTrans(e.children[i].1, m, n);
        case Referenced(_, c) => ContainsTrans(c, m, n);
      }
    }
  }

  /** `load_coord_target_tree`. At the end of the coordinate one `Referenced` layer is
    * unwrapped; on the way, a reference is looked through with the same coordinate. */
  function LoadCoordTargetTree(t: RespoNode, coord: seq<Coord>): (r: Result<RespoNode>)
    ensures |coord| == 0 ==> r == Ok(if t.Referenced? then t.cell else t)
    ensures |coord| > 0 && t.Component? && coord[0].Key? ==> r.Err?
    ensures |coord| > 0 && t.Element? && coord[0].Comp? ==> r.Err?
    ensures |coord| > 0 && t.Component? && coord[0].Comp? && coord[0].name != t.name ==> r.Err?
    ensures r.Ok? ==> Contains(t, r.value)
    decreases |coord|, t
  {
    if |coord| == 0 then
      if t.Referenced? then Ok(t.cell) else Ok(t)
    else
      match t
      case Component(name, _, tree) =>
        (match coord[0]
         case Comp(target) =>
           if name == target then LoadCoordTargetTree(tree, coord[1..])
           else Err("Mismatch in expected component name: expected " + target + ", found " + name)
         case Key(_) => Err("Type mismatch: expected a DOM element, but found a component"))
      case Element(e) =>
        (match coord[0]
         case Key(k) =>
           (match Position(e.children, k, 0)
            case Some(i) =>
              var r := LoadCoordTargetTree(e.children[i].1, coord[1..]);
              assert r.Ok? ==> Contains(e.children[i].1, r.value);
              r
            case None => Err("no child at index key " + k))
         case Comp(_) => Err("expected component, found target being an element"))
      case Referenced(_, cell) => LoadCoordTargetTree(cell, coord)
  }

  /** The coordinate read as a path: `Comp` steps name the component passed, `Key` steps
    * name some child carrying that key, and references are transparent. */
  predicate Reaches(t: RespoNode, coord: seq<Coord>, n: RespoNode)
    decreases |coord|, t
  {
    if |coord| == 0 then n == (if t.Referenced? then t.cell else t)
    else if t.Referenced? then Reaches(t.cell, coord, n)
    else match coord[0]
      case Comp(c) => t.Component? && t.name == c && Reaches(t.tree, coord[1..], n)
      case Key(k) =>
        t.Element? &&
        exists i :: 0 <= i < |t.el.children| && t.el.children[i].0 == k && Reaches(t.el.children[i].1, coord[1..], n)
  }

  /** Sibling keys are distinct, at every level. */
  predicate UniqueKeys(t: RespoNode)
    decreases t
  {
    match t
    case Component(_, _, tree) => UniqueKeys(tree)
    case Element(e) =>
      (forall i, j :: 0 <= i < j < |e.children| ==> e.children[i].0 != e.children[j].0) &&
      forall i :: 0 <= i < |e.children| ==> UniqueKeys(e.children[i].1)
    case Referenced(_, c) => UniqueKeys(c)
  }

  /** What the lookup finds lies along the coordinate. */
  lemma {:induction false} LoadSound(t: RespoNode, coord: seq<Coord>)
    ensures LoadCoordTargetTree(t, coord).Ok? ==> Reaches(t, coord, LoadCoordTargetTree(t, coord).value)
    decreases |coord|, t
  {
    if |coord| > 0 && LoadCoordTargetTree(t, coord).Ok? {
      match t {
        case Component(_, _, tree) => LoadSound(tree, coord[1..]);
        case Element(e) =>
          var i := Position(e.children, coord[0].key, 0).value;
          LoadSound(e.children[i].1, coord[1..]);
        case Referenced(_, cell) => LoadSound(cell, coord);
      }
    }
  }

  /** With distinct sibling keys, whatever lies along the coordinate is what the lookup finds. */
  lemma {:induction false} LoadComplete(t: RespoNode, coord: seq<Coord>, n: RespoNode)
    requires UniqueKeys(t) && Reaches(t, coord, n)
    ensures LoadCoordTargetTree(t, coord) == Ok(n)
    decreases |coord|, t
  {
    if |coord| > 0 {
      match t {
        case Component(_, _, tree) => LoadComplete(tree, coord[1..], n);
        case Element(e) =>
          var i :| 0 <= i < |e.children| && e.children[i].0 == coord[0].key && Reaches(e.children[i].1, coord[1..], n);
          var p := Position(e.children, coord[0].key, 0);
          assert p == Some(i);
          LoadComplete(e.children[i].1, coord[1..], n);
        case Referenced(_, cell) => LoadComplete(cell, coord, n);
      }
    }
  }

  /** Looking up `c1 + c2` is looking up `c1`, then `c2` from there; a lookup that fails on
    * the way fails whatever follows. */
  lemma {:induction false} LoadCompose(t: RespoNode, c1: seq<Coord>, c2: seq<Coord>)
    requires |c2| > 0
    ensures LoadCoordTargetTree(t, c1).Ok? ==>
      LoadCoordTargetTree(t, c1 + c2) == LoadCoordTargetTree(LoadCoordTargetTree(t, c1).value, c2)
    ensures LoadCoordTargetTree(t, c1).Err? ==> LoadCoordTargetTree(t, c1 + c2).Err?
    decreases |c1|, t
  {
    if |c1| == 0 {
      assert c1 + c2 == c2;
    } else {
      assert (c1 + c2)[0] == c1[0];
      assert (c1 + c2)[1..] == c1[1..] + c2;
      match t {
        case Component(name, _, tree) =>
          if c1[0].Comp? && c1[0].name == name {
            LoadCompose(tree, c1[1..], c2);
          }
        case Element(e) =>
          if c1[0].Key? && Position(e.children, c1[0].key, 0).Some? {
            LoadCompose(e.children[Position(e.children, c1[0].key, 0).value].1, c1[1..], c2);
          }
        case Referenced(_, cell) => LoadCompose(cell, c1, c2);
      }
    }
  }

  /** Every node inside a descendant of `t` is inside `t`. */
  lemma ContainsTransAll(t: RespoNode, m: RespoNode)
    requires Contains(t, m)
    ensures forall n :: Contains(m, n) ==> Contains(t, n)
  {
    forall n | Contains(m, n) ensures Contains(t, n) {
      ContainsTrans(t, m, n);
    }
  }

  /** `request_for_target_handler`: the listener for `eventName` on the element the
    * coordinate leads to. A target that is itself a reference is searched again from the
    * referenced node with the same coordinate. */
  function RequestForTargetHandler(t: RespoNode, eventName: string, coord: seq<Coord>): (r: Result<Listener>)
    ensures r.Ok? ==> exists e :: Contains(t, Element(e)) && eventName in e.events && e.events[eventName] == r.value
    decreases Size(t)
  {
    match LoadCoordTargetTree(t, coord)
    case Err(msg) => Err(msg)
    case Ok(target) =>
      match target
      case Component(name, _, _) => Err("expected element, found target being a component: " + name)
      case Element(e) =>
        if eventName in e.events then Ok(e.events[eventName])
        else Err("No event handler found for event '" + eventName + "' on element '" + e.name + "'")
      case Referenced(_, cell) =>
        ContainsSize(t, target);
        assert Contains(target, cell);
        ContainsTrans(t, target, cell);
        ContainsTransAll(t, cell);
        RequestForTargetHandler(cell, eventName, coord)
  }

  /** With distinct sibling keys, an element along the coordinate that listens to the event
    * yields that listener, and a component along the coordinate yields an error. */
  lemma HandlerFound(t: RespoNode, eventName: string, coord: seq<Coord>, n: RespoNode)
    requires UniqueKeys(t) && Reaches(t, coord, n)
    ensures n.Element? && eventName in n.el.events ==> RequestForTargetHandler(t, eventName, coord) == Ok(n.el.events[eventName])
    ensures n.Element? && eventName !in n.el.events ==> RequestForTargetHandler(t, eventName, coord).Err?
    ensures n.Component? ==> RequestForTargetHandler(t, eventName, coord).Err?
  {
    LoadComplete(t, coord, n);
  }
}
