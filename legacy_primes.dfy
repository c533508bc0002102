/** The node and change types of the first generation (`src/respo/primes.rs`): a node is a
  * component or an element whose style is a map, coordinates hold child indexes, and a
  * change is located by the indexes alone (`DigitCoord`). The builders update a node in
  * place and forward through components to the element they wrap. */
module LegacyPrimes {
  import Node

  datatype LNode =
    | Component(name: string, effects: seq<Node.Effect>, tree: LNode)
    | Element(tag: string, attrs: map<string, string>, events: map<string, Node.Listener>,
              style: map<string, string>, children: seq<(Node.IndexKey, LNode)>)

  /** One step of a coordinate: a child position or a component name. */
  datatype Coord = Idx(index: nat) | Comp(name: string)

  datatype ChildDomOp = InsertAfter(index: nat, node: LNode) | RemoveAt(index: nat) | Append(node: LNode)

  datatype DomChange =
    | ReplaceElement(digitCoord: seq<nat>, node: LNode)
    | ModifyChildren(digitCoord: seq<nat>, operations: seq<ChildDomOp>)
    | ModifyAttrs(digitCoord: seq<nat>, setDict: map<string, string>, unset: set<string>)
    | ModifyStyle(digitCoord: seq<nat>, setDict: map<string, string>, unset: set<string>)
    | ModifyEvent(digitCoord: seq<nat>, respoCoord: seq<Coord>, add: set<string>, remove: set<string>)

  /** Number of nodes, a termination measure for the traversals. */
  function Size(n: LNode): (s: nat)
    ensures s >= 1
  {
    match n
    case Component(_, _, t) => 1 + Size(t)
    case Element(_, _, _, _, cs) => 1 + Node.Sum(seq(|cs|, i requires 0 <= i < |cs| => Size(cs[i].1)))
  }

  function ChildrenSize(cs: seq<(Node.IndexKey, LNode)>): nat
  {
    Node.Sum(seq(|cs|, i requires 0 <= i < |cs| => Size(cs[i].1)))
  }

  lemma ElementSize(n: LNode)
    requires n.Element?
    ensures Size(n) == 1 + ChildrenSize(n.children)
  {
    var cs := n.children;
    assert seq(|cs|, i requires 0 <= i < |cs| => Size(cs[i].1))
        == seq(|n.children|, i requires 0 <= i < |n.children| => Size(n.children[i].1));
  }

  lemma ChildSizeBound(cs: seq<(Node.IndexKey, LNode)>, i: nat)
    requires i < |cs|
    ensures Size(cs[i].1) <= ChildrenSize(cs)
  {
    Node.SumBound(seq(|cs|, i requires 0 <= i < |cs| => Size(cs[i].1)), i);
  }

  // ---------------------------------------------------------------------------
  // Digit coordinates.

  /** The indexes of a coordinate, in order; component names are skipped. */
  function Digits(coord: seq<Coord>): seq<nat>
  {
    if |coord| == 0 then []
    else Digits(coord[..|coord| - 1]) + (match coord[|coord| - 1] case Idx(i) => [i] case Comp(_) => [])
  }

  /** `DigitCoord::from`: the loop over the coordinate. */
  method DigitCoordFrom(coord: seq<Coord>) returns (res: seq<nat>)
    ensures res == Digits(coord)
  {
    res := [];
    for i := 0 to |coord|
      invariant res == Digits(coord[..i])
    {
      assert coord[..i + 1][..i] == coord[..i];
      match coord[i] {
        case Idx(idx) => res := res + [idx];
        case Comp(_) =>
      }
    }
    assert coord[..|coord|] == coord;
  }

  /** `DigitCoord::extend`: a new coordinate with one more index; the original is a value and stays as it was. */
  function Extend(digits: seq<nat>, idx: nat): (r: seq<nat>)
    ensures |r| == |digits| + 1 && r[..|digits|] == digits && r[|digits|] == idx
  {
    digits + [idx]
  }

  /** The digits keep every `Idx` of the coordinate, in order, and nothing else. */
  lemma {:induction false} DigitsKeepIndexes(coord: seq<Coord>)
    ensures |Digits(coord)| <= |coord|
    ensures (forall c :: c in coord ==> c.Idx?) ==> |Digits(coord)| == |coord|
    ensures (forall c :: c in coord ==> c.Comp?) ==> Digits(coord) == []
  {
    if |coord| > 0 {
      var init := coord[..|coord| - 1];
      var last := coord[|coord| - 1];
      assert coord == init + [last];
      assert last in coord;
      assert forall c :: c in init ==> c in coord;
      DigitsKeepIndexes(init);
    }
  }

  /** Digits distribute over concatenation, so extending a coordinate by a step extends its digits by at most that index. */
  lemma {:induction false} DigitsAppend(a: seq<Coord>, b: seq<Coord>)
    ensures Digits(a + b) == Digits(a) + Digits(b)
    decreases |b|
  {
    if |b| > 0 {
      assert (a + b)[..|a + b| - 1] == a + b[..|b| - 1];
      DigitsAppend(a, b[..|b| - 1]);
    } else {
      assert a + b == a;
    }
  }

  /** Descending into a child extends the digit coordinate exactly as `extend` does; a
    * component step leaves it as it is. */
  lemma DigitsOfStep(coord: seq<Coord>, idx: nat, name: string)
    ensures Digits(coord + [Idx(idx)]) == Extend(Digits(coord), idx)
    ensures Digits(coord + [Comp(name)]) == Digits(coord)
  {
    DigitsAppend(coord, [Idx(idx)]);
    DigitsAppend(coord, [Comp(name)]);
    assert [Idx(idx)][..0] == [];
    assert [Comp(name)][..0] == [];
  }

  /** `DomChange::get_coord`. */
  function GetCoord(c: DomChange): (r: seq<nat>)
    ensures r == c.digitCoord
  {
    match c
    case ReplaceElement(d, _) => d
    case ModifyChildren(d, _) => d
    case ModifyAttrs(d, _, _) => d
    case ModifyStyle(d, _, _) => d
    case ModifyEvent(d, _, _, _) => d
  }

  // ---------------------------------------------------------------------------
  // In-place builders. Each method takes the node and returns it updated, which is what
  // `&mut self` on a uniquely owned (`Box`) tree amounts to.

  /** The element a builder call reaches: components are passed through. */
  function Inner(n: LNode): (e: LNode)
    ensures e.Element?
  {
    match n
    case Component(_, _, t) => Inner(t)
    case Element(_, _, _, _, _) => n
  }

  /** The node with its inner element replaced by `e`, components kept as they are. */
  function Rebuild(n: LNode, e: LNode): (r: LNode)
    requires e.Element?
    ensures Inner(r) == e
  {
    match n
    case Component(name, effs, t) => Component(name, effs, Rebuild(t, e))
    case Element(_, _, _, _, _) => e
  }

  /** The components wrapping the inner element, outermost first. */
  function Shell(n: LNode): seq<(string, seq<Node.Effect>)>
  {
    match n
    case Component(name, effs, t) => [(name, effs)] + Shell(t)
    case Element(_, _, _, _, _) => []
  }

  /** Rebuilding keeps the component chain: builders change the inner element only. */
  lemma {:induction false} RebuildKeepsShell(n: LNode, e: LNode)
    requires e.Element?
    ensures Shell(Rebuild(n, e)) == Shell(n)
  {
    match n {
      case Component(_, _, t) => RebuildKeepsShell(t, e);
      case Element(_, _, _, _, _) =>
    }
  }

  /** Inserts the pairs one after another: a later pair overwrites an earlier one. */
  function InsertAll<V>(m: map<string, V>, pairs: seq<(string, V)>): map<string, V>
    decreases |pairs|
  {
    if |pairs| == 0 then m else InsertAll(m[pairs[0].0 := pairs[0].1], pairs[1..])
  }

  /** Keys that no pair names keep their presence and value. */
  lemma {:induction false} InsertAllUntouched<V>(m: map<string, V>, pairs: seq<(string, V)>, k: string)
    requires forall i :: 0 <= i < |pairs| ==> pairs[i].0 != k
    ensures k in InsertAll(m, pairs) <==> k in m
    ensures k in m ==> InsertAll(m, pairs)[k] == m[k]
    decreases |pairs|
  {
    if |pairs| > 0 {
      assert pairs[0].0 != k;
      forall i | 0 <= i < |pairs[1..]| ensures pairs[1..][i].0 != k {
        assert pairs[1..][i] == pairs[i + 1];
      }
      InsertAllUntouched(m[pairs[0].0 := pairs[0].1], pairs[1..], k);
    }
  }

  /** A key is set by the last pair that names it: a later pair overwrites an earlier one. */
  lemma {:induction false} InsertAllLast<V>(m: map<string, V>, pairs: seq<(string, V)>, i: nat)
    requires i < |pairs|
    requires forall j :: i < j < |pairs| ==> pairs[j].0 != pairs[i].0
    ensures pairs[i].0 in InsertAll(m, pairs) && InsertAll(m, pairs)[pairs[i].0] == pairs[i].1
    decreases |pairs|
  {
    var k := pairs[i].0;
    var m' := m[pairs[0].0 := pairs[0].1];
    if i > 0 {
      assert pairs[1..][i - 1] == pairs[i];
      forall j | i - 1 < j < |pairs[1..]| ensures pairs[1..][j].0 != k {
        assert pairs[1..][j] == pairs[j + 1];
      }
      InsertAllLast(m', pairs[1..], i - 1);
    } else {
      forall j | 0 <= j < |pairs[1..]| ensures pairs[1..][j].0 != k {
        assert pairs[1..][j] == pairs[j + 1];
      }
      InsertAllUntouched(m', pairs[1..], k);
    }
  }

  /** `add_style`: every entry of `more` is written into the inner element's style map. */
  function WithStyle(n: LNode, more: map<string, string>): (r: LNode)
    ensures Shell(r) == Shell(n)
    ensures Inner(r).style == Inner(n).style + more
    ensures Inner(r) == Inner(n).(style := Inner(n).style + more)
  {
    var e := Inner(n);
    RebuildKeepsShell(n, e.(style := e.style + more));
    Rebuild(n, e.(style := e.style + more))
  }

  /** `add_attrs`: the pairs are inserted in order into the inner element's attributes. */
  function WithAttrs(n: LNode, more: seq<(string, string)>): (r: LNode)
    ensures Shell(r) == Shell(n)
    ensures Inner(r).attrs == InsertAll(Inner(n).attrs, more)
    ensures Inner(r) == Inner(n).(attrs := InsertAll(Inner(n).attrs, more))
  {
    var e := Inner(n);
    RebuildKeepsShell(n, e.(attrs := InsertAll(e.attrs, more)));
    Rebuild(n, e.(attrs := InsertAll(e.attrs, more)))
  }

  /** `add_event`: the listeners are inserted in order under their event names. */
  function WithEvents(n: LNode, more: seq<(string, Node.Listener)>): (r: LNode)
    ensures Shell(r) == Shell(n)
    ensures Inner(r).events == InsertAll(Inner(n).events, more)
    ensures Inner(r) == Inner(n).(events := InsertAll(Inner(n).events, more))
  {
    var e := Inner(n);
    RebuildKeepsShell(n, e.(events := InsertAll(e.events, more)));
    Rebuild(n, e.(events := InsertAll(e.events, more)))
  }

  /** The items of one `add_children` call keyed by their position in that call. */
  function Enumerated(more: seq<LNode>): (r: seq<(Node.IndexKey, LNode)>)
    ensures |r| == |more|
    ensures forall i :: 0 <= i < |more| ==> r[i] == (Node.IndexKeyFromNat(i), more[i])
  {
    seq(|more|, i requires 0 <= i < |more| => (Node.IndexKeyFromNat(i), more[i]))
  }

  /** `add_children`: the new children follow the existing ones. */
  function WithChildren(n: LNode, more: seq<LNode>): (r: LNode)
    ensures Shell(r) == Shell(n)
    ensures Inner(r).children == Inner(n).children + Enumerated(more)
    ensures Inner(r) == Inner(n).(children := Inner(n).children + Enumerated(more))
  {
    var e := Inner(n);
    RebuildKeepsShell(n, e.(children := e.children + Enumerated(more)));
    Rebuild(n, e.(children := e.children + Enumerated(more)))
  }

  /** `add_style`, which always succeeds: the loop over the entries of `more`. */
  method AddStyle(n: LNode, more: map<string, string>) returns (n': LNode)
    ensures n' == WithStyle(n, more)
    decreases n
  {
    match n {
      case Component(name, effs, t) =>
        var t' := AddStyle(t, more);
        n' := Component(name, effs, t');
      case Element(tag, attrs, events, style, children) =>
        var s := style;
        var todo := more.Keys;
        while todo != {}
          invariant todo <= more.Keys
          invariant s == style + map k | k in more.Keys - todo :: more[k]
          decreases |todo|
        {
          var k :| k in todo;
          s := s[k := more[k]];
          todo := todo - {k};
        }
        assert s == style + more;
        n' := Element(tag, attrs, events, s, children);
    }
  }

  /** `add_attrs`. */
  method AddAttrs(n: LNode, more: seq<(string, string)>) returns (n': LNode)
    ensures n' == WithAttrs(n, more)
    decreases n
  {
    match n {
      case Component(name, effs, t) =>
        var t' := AddAttrs(t, more);
        n' := Component(name, effs, t');
      case Element(tag, attrs, events, style, children) =>
        var a := attrs;
        for i := 0 to |more|
          invariant InsertAll(a, more[i..]) == InsertAll(attrs, more)
        {
          assert more[i..][1..] == more[i + 1..];
          a := a[more[i].0 := more[i].1];
        }
        assert more[|more|..] == [];
        n' := Element(tag, a, events, style, children);
    }
  }

  /** `add_event`. */
  method AddEvent(n: LNode, more: seq<(string, Node.Listener)>) returns (n': LNode)
    ensures n' == WithEvents(n, more)
    decreases n
  {
    match n {
      case Component(name, effs, t) =>
        var t' := AddEvent(t, more);
        n' := Component(name, effs, t');
      case Element(tag, attrs, events, style, children) =>
        var ev := events;
        for i := 0 to |more|
          invariant InsertAll(ev, more[i..]) == InsertAll(events, more)
        {
          assert more[i..][1..] == more[i + 1..];
          ev := ev[more[i].0 := more[i].1];
        }
        assert more[|more|..] == [];
        n' := Element(tag, attrs, ev, style, children);
    }
  }

  /** `add_children`. */
  method AddChildren(n: LNode, more: seq<LNode>) returns (n': LNode)
    ensures n' == WithChildren(n, more)
    decreases n
  {
    match n {
      case Component(name, effs, t) =>
        var t' := AddChildren(t, more);
        n' := Component(name, effs, t');
      case Element(tag, attrs, events, style, children) =>
        var cs := children;
        for idx := 0 to |more|
          invariant cs == children + Enumerated(more[..idx])
        {
          assert more[..idx + 1] == more[..idx] + [more[idx]];
          cs := cs + [(Node.IndexKeyFromNat(idx), more[idx])];
        }
        assert more[..|more|] == more;
        n' := Element(tag, attrs, events, style, cs);
    }
  }
}
