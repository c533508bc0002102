/** Change records produced by the diff (`DomChange`, `ChildDomOp`, `RespoCoord`),
  * their accessors, their serialisation to Cirru (a tree of leaves and lists) and
  * the meaning of a child operation on the list of children it patches. */
module DomChange {
  import opened Wrappers
  import opened Strings
  import opened Node

  /** One step of a coordinate: a child key or a component name. */
  datatype Coord = Key(key: IndexKey) | Comp(name: string)

  datatype ChildDomOp =
    | InsertAfter(index: nat, key: IndexKey, node: RespoNode)
    | RemoveAt(index: nat)
    | Append(key: IndexKey, node: RespoNode)
    | Prepend(key: IndexKey, node: RespoNode)
    | NestedEffect(nestedCoord: seq<Coord>, nestedDomPath: seq<nat>, effectType: EffectType, skipIndexes: set<nat>)

  datatype DomChange =
    | ReplaceElement(coord: seq<Coord>, domPath: seq<nat>, node: RespoNode)
    | ModifyChildren(coord: seq<Coord>, domPath: seq<nat>, operations: seq<ChildDomOp>)
    | ModifyAttrs(coord: seq<Coord>, domPath: seq<nat>, setDict: map<string, string>, unset: set<string>)
    | ModifyStyle(coord: seq<Coord>, domPath: seq<nat>, setDict: map<string, string>, unset: set<string>)
    | ModifyEvent(coord: seq<Coord>, domPath: seq<nat>, add: set<string>, remove: set<string>)
    | Effect(coord: seq<Coord>, domPath: seq<nat>, effectType: EffectType, skipIndexes: set<nat>)

  /** `DomChange::get_coord`. */
  function GetCoord(c: DomChange): (r: seq<Coord>)
    ensures r == c.coord
  {
    match c
    case ReplaceElement(coord, _, _) => coord
    case ModifyChildren(coord, _, _) => coord
    case ModifyAttrs(coord, _, _, _) => coord
    case ModifyStyle(coord, _, _, _) => coord
    case ModifyEvent(coord, _, _, _) => coord
    case Effect(coord, _, _, _) => coord
  }

  /** `DomChange::get_dom_path`. */
  function GetDomPath(c: DomChange): (r: seq<nat>)
    ensures r == c.domPath
  {
    match c
    case ReplaceElement(_, p, _) => p
    case ModifyChildren(_, p, _) => p
    case ModifyAttrs(_, p, _, _) => p
    case ModifyStyle(_, p, _, _) => p
    case ModifyEvent(_, p, _, _) => p
    case Effect(_, p, _, _) => p
  }

  // ---------------------------------------------------------------------------
  // Meaning of a child operation (the abstract effect of patching a child list),
  // stated on the keys of the children.

  /** Applies one child operation to the keys of a child list; `None` is the patch's error. */
  function ApplyChildOp(op: ChildDomOp, keys: seq<IndexKey>): (r: Option<seq<IndexKey>>)
    ensures r.Some? ==> |r.value| == |keys| + InsertCount(op) - RemoveCount(op)
  {
    match op
    case Append(k, _) => Some(keys + [k])
    case Prepend(k, _) => Some([k] + keys)
    case RemoveAt(i) => if i < |keys| then Some(keys[..i] + keys[i + 1..]) else None
    case InsertAfter(i, k, _) => if i < |keys| then Some(keys[..i + 1] + [k] + keys[i + 1..]) else None
    case NestedEffect(_, _, _, _) => Some(keys)
  }

  /** Applies the operations one after another, stopping at the first error. */
  function ApplyChildOps(ops: seq<ChildDomOp>, keys: seq<IndexKey>): Option<seq<IndexKey>>
  {
    if |ops| == 0 then Some(keys)
    else match ApplyChildOp(ops[0], keys)
      case None => None
      case Some(ks) => ApplyChildOps(ops[1..], ks)
  }

  function InsertCount(op: ChildDomOp): nat
  {
    if op.Append? || op.Prepend? || op.InsertAfter? then 1 else 0
  }

  function RemoveCount(op: ChildDomOp): nat
  {
    if op.RemoveAt? then 1 else 0
  }

  function Inserts(ops: seq<ChildDomOp>): nat
  {
    if |ops| == 0 then 0 else InsertCount(ops[0]) + Inserts(ops[1..])
  }

  function Removes(ops: seq<ChildDomOp>): nat
  {
    if |ops| == 0 then 0 else RemoveCount(ops[0]) + Removes(ops[1..])
  }

  /** A successful patch changes the number of children by the inserts minus the removals. */
  lemma {:induction false} ApplyChildOpsLength(ops: seq<ChildDomOp>, keys: seq<IndexKey>)
    requires ApplyChildOps(ops, keys).Some?
    ensures |ApplyChildOps(ops, keys).value| == |keys| + Inserts(ops) - Removes(ops)
  {
    if |ops| > 0 {
      var ks := ApplyChildOp(ops[0], keys).value;
      ApplyChildOpsLength(ops[1..], ks);
    }
  }

  /** Applying `a + b` is applying `a` and then `b`. */
  lemma {:induction false} ApplyChildOpsAppend(a: seq<ChildDomOp>, b: seq<ChildDomOp>, keys: seq<IndexKey>)
    ensures ApplyChildOps(a + b, keys)
         == (match ApplyChildOps(a, keys) case None => None case Some(ks) => ApplyChildOps(b, ks))
  {
    if |a| > 0 {
      assert (a + b)[0] == a[0];
      assert (a + b)[1..] == a[1..] + b;
      match ApplyChildOp(a[0], keys) {
        case None =>
        case Some(ks) => ApplyChildOpsAppend(a[1..], b, ks);
      }
    } else {
      assert a + b == b;
    }
  }

  predicate AllNested(ops: seq<ChildDomOp>)
  {
    forall i :: 0 <= i < |ops| ==> ops[i].NestedEffect?
  }

  /** Effect operations leave the child list alone. */
  lemma {:induction false} ApplyNestedOnly(ops: seq<ChildDomOp>, keys: seq<IndexKey>)
    requires AllNested(ops)
    ensures ApplyChildOps(ops, keys) == Some(keys)
  {
    if |ops| > 0 {
      ApplyNestedOnly(ops[1..], keys);
    }
  }

  // ---------------------------------------------------------------------------
  // Cirru serialisation.

  datatype Cirru = Leaf(text: string) | List(items: seq<Cirru>)

  function EffectTypeCirru(t: EffectType): Cirru
  {
    match t
    case Mounted => Leaf("::mounted")
    case BeforeUpdate => Leaf("::before-update")
    case Updated => Leaf("::updated")
    case BeforeUnmount => Leaf("::before-unmount")
  }

  /** `From<RespoCoord> for Cirru`: a key is its text, a component is `["::Comp", name]`. */
  function CoordCirru(c: Coord): Cirru
  {
    match c
    case Key(k) => Leaf(k)
    case Comp(n) => List([Leaf("::Comp"), Leaf(n)])
  }

  /** Reference form of `coord_path_to_cirru`. */
  function CoordPathCirru(coord: seq<Coord>): (r: Cirru)
    ensures r.List? && |r.items| == |coord| + 1 && r.items[0] == Leaf("::coord")
    ensures forall i :: 0 <= i < |coord| ==> r.items[i + 1] == CoordCirru(coord[i])
  {
    List([Leaf("::coord")] + seq(|coord|, i requires 0 <= i < |coord| => CoordCirru(coord[i])))
  }

  /** Reference form of `dom_path_to_cirru`. */
  function DomPathCirru(path: seq<nat>): (r: Cirru)
    ensures r.List? && |r.items| == |path| + 1 && r.items[0] == Leaf("::dom-path")
    ensures forall i :: 0 <= i < |path| ==> r.items[i + 1] == Leaf(NatToString(path[i]))
  {
    List([Leaf("::dom-path")] + seq(|path|, i requires 0 <= i < |path| => Leaf(NatToString(path[i]))))
  }

  /** `From<RespoNode> for Cirru`: a component is `["::Component", name, tree]`, an element
    * is its name followed by one `[key, child]` pair per child, and a reference is its target. */
  function NodeCirru(n: RespoNode): Cirru
    decreases n
  {
    match n
    case Component(name, _, t) => List([Leaf("::Component"), Leaf(name), NodeCirru(t)])
    case Element(e) =>
      List([Leaf(e.name)]
        + seq(|e.children|, i requires 0 <= i < |e.children| =>
                List([Leaf(e.children[i].0), NodeCirru(e.children[i].1)])))
    case Referenced(_, c) => NodeCirru(c)
  }

  /** The node form ignores attributes, listeners and style, and sees through references. */
  lemma NodeCirruIgnoresDecoration(e: RespoElement, f: RespoElement, id: nat)
    requires e.name == f.name && e.children == f.children
    ensures NodeCirru(Element(e)) == NodeCirru(Element(f))
    ensures NodeCirru(Referenced(id, Element(e))) == NodeCirru(Element(e))
  {
  }

  /** Reads a coordinate step back from its Cirru form. */
  function DecodeCoord(c: Cirru): Option<Coord>
  {
    match c
    case Leaf(k) => Some(Key(k))
    case List(xs) =>
      if |xs| == 2 && xs[0] == Leaf("::Comp") && xs[1].Leaf? then Some(Comp(xs[1].text)) else None
  }

  /** Reads coordinate steps back from a list of Cirru items. */
  function DecodeCoords(xs: seq<Cirru>): Option<seq<Coord>>
  {
    if |xs| == 0 then Some([])
    else match (DecodeCoord(xs[0]), DecodeCoords(xs[1..]))
      case (Some(c), Some(cs)) => Some([c] + cs)
      case _ => None
  }

  /** Reads a coordinate back from its Cirru form. */
  function DecodeCoordPath(c: Cirru): Option<seq<Coord>>
  {
    if c.List? && |c.items| >= 1 && c.items[0] == Leaf("::coord") then DecodeCoords(c.items[1..]) else None
  }

  lemma {:induction false} DecodeCoordsRoundTrip(coord: seq<Coord>)
    ensures DecodeCoords(seq(|coord|, i requires 0 <= i < |coord| => CoordCirru(coord[i]))) == Some(coord)
  {
    var xs := seq(|coord|, i requires 0 <= i < |coord| => CoordCirru(coord[i]));
    if |coord| > 0 {
      assert xs[1..] == seq(|coord[1..]|, i requires 0 <= i < |coord[1..]| => CoordCirru(coord[1..][i]));
      DecodeCoordsRoundTrip(coord[1..]);
      assert [coord[0]] + coord[1..] == coord;
    }
  }

  /** The coordinate form loses nothing: decoding gives the coordinate back. */
  lemma CoordPathRoundTrip(coord: seq<Coord>)
    ensures DecodeCoordPath(CoordPathCirru(coord)) == Some(coord)
  {
    var c := CoordPathCirru(coord);
    assert c.items[1..] == seq(|coord|, i requires 0 <= i < |coord| => CoordCirru(coord[i]));
    DecodeCoordsRoundTrip(coord);
  }

  /** Reads indexes back from a list of decimal leaves. */
  function DecodeIndexes(xs: seq<Cirru>): Option<seq<nat>>
  {
    if |xs| == 0 then Some([])
    else if xs[0].Leaf? && IsDigits(xs[0].text) then
      match DecodeIndexes(xs[1..])
      case Some(ns) => Some([DecimalValue(xs[0].text)] + ns)
      case None => None
    else None
  }

  /** Reads a DOM path back from its Cirru form. */
  function DecodeDomPath(c: Cirru): Option<seq<nat>>
  {
    if c.List? && |c.items| >= 1 && c.items[0] == Leaf("::dom-path") then DecodeIndexes(c.items[1..]) else None
  }

  lemma {:induction false} DecodeIndexesRoundTrip(path: seq<nat>)
    ensures DecodeIndexes(seq(|path|, i requires 0 <= i < |path| => Leaf(NatToString(path[i])))) == Some(path)
  {
    var xs := seq(|path|, i requires 0 <= i < |path| => Leaf(NatToString(path[i])));
    if |path| > 0 {
      assert xs[1..] == seq(|path[1..]|, i requires 0 <= i < |path[1..]| => Leaf(NatToString(path[1..][i])));
      DecodeIndexesRoundTrip(path[1..]);
      DecimalRoundTrip(path[0]);
      assert [path[0]] + path[1..] == path;
    }
  }

  /** The DOM path form loses nothing: decoding gives the path back. */
  lemma DomPathRoundTrip(path: seq<nat>)
    ensures DecodeDomPath(DomPathCirru(path)) == Some(path)
  {
    var c := DomPathCirru(path);
    assert c.items[1..] == seq(|path|, i requires 0 <= i < |path| => Leaf(NatToString(path[i])));
    DecodeIndexesRoundTrip(path);
  }

  /** `coord_path_to_cirru`: `"::coord"` followed by one item per step, in order. */
  method CoordPathToCirru(coord: seq<Coord>) returns (r: Cirru)
    ensures r == CoordPathCirru(coord)
  {
    var xs := [Leaf("::coord")];
    var i := 0;
    while i < |coord|
      invariant 0 <= i <= |coord|
      invariant |xs| == i + 1 && xs[0] == Leaf("::coord")
      invariant forall j :: 0 <= j < i ==> xs[j + 1] == CoordCirru(coord[j])
    {
      xs := xs + [CoordCirru(coord[i])];
      i := i + 1;
    }
    r := List(xs);
  }

  /** `dom_path_to_cirru`: `"::dom-path"` followed by each index in decimal, in order. */
  method DomPathToCirru(path: seq<nat>) returns (r: Cirru)
    ensures r == DomPathCirru(path)
  {
    var xs := [Leaf("::dom-path")];
    var i := 0;
    while i < |path|
      invariant 0 <= i <= |path|
      invariant |xs| == i + 1 && xs[0] == Leaf("::dom-path")
      invariant forall j :: 0 <= j < i ==> xs[j + 1] == Leaf(NatToString(path[j]))
    {
      xs := xs + [Leaf(NatToString(path[i]))];
      i := i + 1;
    }
    r := List(xs);
  }

  /** `c` lists the strings of `s` as leaves, each once, in some order
    * (a hash set is iterated in an unspecified order). */
  ghost predicate ListsSet(c: Cirru, s: set<string>)
  {
    c.List? && |c.items| == |s| && forall x :: x in s <==> Leaf(x) in c.items
  }

  /** `c` lists the entries of `d` as `[key, value]` pairs, each once, in some order. */
  ghost predicate ListsDict(c: Cirru, d: map<string, string>)
  {
    c.List? && |c.items| == |d|
    && forall x :: x in c.items <==> exists k :: k in d && x == List([Leaf(k), Leaf(d[k])])
  }

  function SkipStrings(skip: set<nat>): set<string>
  {
    set i | i in skip :: NatToString(i)
  }

  /** Lists a set of strings as leaves, in whatever order the set yields them. */
  method SetToCirru(s: set<string>) returns (r: Cirru)
    ensures ListsSet(r, s)
  {
    var xs: seq<Cirru> := [];
    var rest := s;
    while rest != {}
      invariant rest <= s
      invariant |xs| + |rest| == |s|
      invariant forall x :: x in s - rest <==> Leaf(x) in xs
      decreases |rest|
    {
      var x :| x in rest;
      xs := xs + [Leaf(x)];
      rest := rest - {x};
    }
    r := List(xs);
  }

  /** The strings of a set of indexes: decimal forms of distinct numbers are distinct. */
  lemma SkipStringsSize(skip: set<nat>)
    ensures |SkipStrings(skip)| == |skip|
    decreases |skip|
  {
    if skip != {} {
      var i :| i in skip;
      var rest := skip - {i};
      SkipStringsSize(rest);
      assert SkipStrings(skip) == SkipStrings(rest) + {NatToString(i)};
      if NatToString(i) in SkipStrings(rest) {
        var j :| j in rest && NatToString(j) == NatToString(i);
        NatToStringInjective(i, j);
      }
    }
  }

  /** `str_dict_to_cirrus_dict`: one `[key, value]` list per entry, in map order. */
  method StrDictToCirru(d: map<string, string>) returns (r: Cirru)
    ensures ListsDict(r, d)
  {
    var xs: seq<Cirru> := [];
    var rest := d.Keys;
    while rest != {}
      invariant rest <= d.Keys
      invariant |xs| + |rest| == |d|
      invariant forall x :: x in xs <==> exists k :: k in d.Keys - rest && x == List([Leaf(k), Leaf(d[k])])
      decreases |rest|
    {
      var k :| k in rest;
      xs := xs + [List([Leaf(k), Leaf(d[k])])];
      rest := rest - {k};
    }
    r := List(xs);
  }

  /** Whether `c` is a Cirru form of the child operation `op`. */
  ghost predicate IsChildOpCirru(c: Cirru, op: ChildDomOp)
  {
    match op
    case InsertAfter(i, k, n) => c == List([Leaf("::insert-after"), Leaf(NatToString(i)), Leaf(k), NodeCirru(n)])
    case RemoveAt(i) => c == List([Leaf("::remove-at"), Leaf(NatToString(i))])
    case Append(k, n) => c == List([Leaf("::append"), Leaf(k), NodeCirru(n)])
    case Prepend(k, n) => c == List([Leaf("::prepend"), Leaf(k), NodeCirru(n)])
    case NestedEffect(coord, path, t, skip) =>
      c.List? && |c.items| == 5
      && c.items[0] == Leaf("::effect") && c.items[1] == EffectTypeCirru(t)
      && c.items[2] == CoordPathCirru(coord)
      && c.items[3] == List(seq(|path|, i requires 0 <= i < |path| => Leaf(NatToString(path[i]))))
      && ListsSet(c.items[4], SkipStrings(skip))
  }

  /** `From<ChildDomOp> for Cirru`. */
  method ChildOpToCirru(op: ChildDomOp) returns (r: Cirru)
    ensures IsChildOpCirru(r, op)
  {
    match op {
      case InsertAfter(i, k, n) =>
        r := List([Leaf("::insert-after"), Leaf(NatToString(i)), Leaf(k), NodeCirru(n)]);
      case RemoveAt(i) =>
        r := List([Leaf("::remove-at"), Leaf(NatToString(i))]);
      case Append(k, n) =>
        r := List([Leaf("::append"), Leaf(k), NodeCirru(n)]);
      case Prepend(k, n) =>
        r := List([Leaf("::prepend"), Leaf(k), NodeCirru(n)]);
      case NestedEffect(coord, path, t, skip) =>
        var coordC := CoordPathToCirru(coord);
        var skipC := SetToCirru(SkipStrings(skip));
        var pathC := List(seq(|path|, i requires 0 <= i < |path| => Leaf(NatToString(path[i]))));
        r := List([Leaf("::effect"), EffectTypeCirru(t), coordC, pathC, skipC]);
    }
  }

  /** Whether `c` is a Cirru form of the change `ch`. */
  ghost predicate IsChangeCirru(c: Cirru, ch: DomChange)
  {
    c.List? && |c.items| >= 3
    && c.items[0] == Leaf(ChangeTag(ch))
    && match ch
       case Effect(coord, path, t, skip) =>
         |c.items| == 5 && c.items[1] == EffectTypeCirru(t) && c.items[2] == CoordPathCirru(coord)
         && c.items[3] == DomPathCirru(path) && ListsSet(c.items[4], SkipStrings(skip))
       case ReplaceElement(coord, path, n) =>
         c.items == [Leaf("::replace-element"), CoordPathCirru(coord), DomPathCirru(path), NodeCirru(n)]
       case ModifyChildren(coord, path, ops) =>
         |c.items| == 4 && c.items[1] == CoordPathCirru(coord) && c.items[2] == DomPathCirru(path)
         && c.items[3].List? && |c.items[3].items| == |ops| + 1 && c.items[3].items[0] == Leaf("::operations")
         && forall i :: 0 <= i < |ops| ==> IsChildOpCirru(c.items[3].items[i + 1], ops[i])
       case ModifyAttrs(coord, path, d, unset) =>
         |c.items| == 5 && c.items[1] == CoordPathCirru(coord) && c.items[2] == DomPathCirru(path)
         && ListsDict(c.items[3], d) && ListsSet(c.items[4], unset)
       case ModifyStyle(coord, path, d, unset) =>
         |c.items| == 5 && c.items[1] == CoordPathCirru(coord) && c.items[2] == DomPathCirru(path)
         && ListsDict(c.items[3], d) && ListsSet(c.items[4], unset)
       case ModifyEvent(coord, path, add, remove) =>
         |c.items| == 5 && c.items[1] == CoordPathCirru(coord) && c.items[2] == DomPathCirru(path)
         && ListsSet(c.items[3], add) && ListsSet(c.items[4], remove)
  }

  /** The leading tag of each variant's Cirru form. */
  function ChangeTag(ch: DomChange): string
  {
    match ch
    case Effect(_, _, _, _) => "::effect"
    case ReplaceElement(_, _, _) => "::replace-element"
    case ModifyChildren(_, _, _) => "::modify-children"
    case ModifyAttrs(_, _, _, _) => "::modify-attrs"
    case ModifyStyle(_, _, _, _) => "::modify-style"
    case ModifyEvent(_, _, _, _) => "::modify-event"
  }

  /** Two changes are built by the same constructor. */
  predicate SameVariant(a: DomChange, b: DomChange)
  {
    (a.Effect? <==> b.Effect?) && (a.ReplaceElement? <==> b.ReplaceElement?)
    && (a.ModifyChildren? <==> b.ModifyChildren?) && (a.ModifyAttrs? <==> b.ModifyAttrs?)
    && (a.ModifyStyle? <==> b.ModifyStyle?) && (a.ModifyEvent? <==> b.ModifyEvent?)
  }

  /** The six tags are pairwise different, so a tag names exactly one variant. */
  lemma ChangeTagInjective(a: DomChange, b: DomChange)
    ensures ChangeTag(a) == ChangeTag(b) <==> SameVariant(a, b)
  {
    assert |"::effect"| == 8 && |"::replace-element"| == 17 && |"::modify-children"| == 17;
    assert |"::modify-attrs"| == 14 && |"::modify-style"| == 14 && |"::modify-event"| == 14;
    assert "::replace-element"[2] == 'r' && "::modify-children"[2] == 'm';
    assert "::modify-attrs"[9] == 'a' && "::modify-style"[9] == 's' && "::modify-event"[9] == 'e';
  }

  /** The tag tells the variant apart: every change with this Cirru form is built by the same
    * constructor. The second or third item gives the coordinate back. */
  lemma ChangeCirruIdentifies(c: Cirru, ch: DomChange)
    requires IsChangeCirru(c, ch)
    ensures forall other: DomChange :: IsChangeCirru(c, other) ==> SameVariant(other, ch)
    ensures ch.Effect? ==> DecodeCoordPath(c.items[2]) == Some(ch.coord)
    ensures !ch.Effect? ==> DecodeCoordPath(c.items[1]) == Some(ch.coord)
    ensures DecodeDomPath(c.items[if ch.Effect? then 3 else 2]) == Some(ch.domPath)
  {
    forall other: DomChange | IsChangeCirru(c, other)
      ensures SameVariant(other, ch)
    {
      ChangeTagInjective(other, ch);
    }
    CoordPathRoundTrip(ch.coord);
    DomPathRoundTrip(ch.domPath);
  }

  /** The operation list of a `ModifyChildren`: `"::operations"` followed by each operation. */
  method ChildOpsToCirru(ops: seq<ChildDomOp>) returns (ys: seq<Cirru>)
    ensures |ys| == |ops| + 1 && ys[0] == Leaf("::operations")
    ensures forall j :: 0 <= j < |ops| ==> IsChildOpCirru(ys[j + 1], ops[j])
  {
    var items: seq<Cirru> := [];
    var i := 0;
    while i < |ops|
      invariant 0 <= i <= |ops|
      invariant |items| == i
      invariant forall j :: 0 <= j < i ==> IsChildOpCirru(items[j], ops[j])
    {
      var y := ChildOpToCirru(ops[i]);
      items := items + [y];
      i := i + 1;
    }
    ys := [Leaf("::operations")] + items;
  }

  /** `From<DomChange> for Cirru`. */
  method ChangeToCirru(ch: DomChange) returns (r: Cirru)
    ensures IsChangeCirru(r, ch)
  {
    var coordC := CoordPathToCirru(ch.coord);
    var pathC := DomPathToCirru(ch.domPath);
    match ch {
      case Effect(_, _, t, skip) =>
        var skipC := SetToCirru(SkipStrings(skip));
        r := List([Leaf("::effect"), EffectTypeCirru(t), coordC, pathC, skipC]);
      case ReplaceElement(_, _, n) =>
        r := List([Leaf("::replace-element"), coordC, pathC, NodeCirru(n)]);
      case ModifyChildren(_, _, ops) =>
        var ys := ChildOpsToCirru(ops);
        r := List([Leaf("::modify-children"), coordC, pathC, List(ys)]);
      case ModifyAttrs(_, _, d, unset) =>
        var dictC := StrDictToCirru(d);
        var unsetC := SetToCirru(unset);
        r := List([Leaf("::modify-attrs"), coordC, pathC, dictC, unsetC]);
      case ModifyStyle(_, _, d, unset) =>
        var dictC := StrDictToCirru(d);
        var unsetC := SetToCirru(unset);
        r := List([Leaf("::modify-style"), coordC, pathC, dictC, unsetC]);
      case ModifyEvent(_, _, add, remove) =>
        var addC := SetToCirru(add);
        var removeC := SetToCirru(remove);
        r := List([Leaf("::modify-event"), coordC, pathC, addC, removeC]);
    }
  }

  /** `changes_to_cirru`: `"::changes"` followed by each change, in order. */
  method ChangesToCirru(changes: seq<DomChange>) returns (r: Cirru)
    ensures r.List? && |r.items| == |changes| + 1 && r.items[0] == Leaf("::changes")
    ensures forall i :: 0 <= i < |changes| ==> IsChangeCirru(r.items[i + 1], changes[i])
  {
    var xs := [Leaf("::changes")];
    var i := 0;
    while i < |changes|
      invariant 0 <= i <= |changes|
      invariant |xs| == i + 1 && xs[0] == Leaf("::changes")
      invariant forall j :: 0 <= j < i ==> IsChangeCirru(xs[j + 1], changes[j])
    {
      var x := ChangeToCirru(changes[i]);
      xs := xs + [x];
      i := i + 1;
    }
    r := List(xs);
  }
}
