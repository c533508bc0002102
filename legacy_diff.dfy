/** The virtual DOM diff of the first generation (`src/respo/diff.rs`). Coordinates hold
  * child positions, change records carry the coordinate only, and the child list walk
  * emits `Append` / `RemoveAt` / `InsertAfter` without keys. Modelled as written; two of
  * its placements disagree with what the operations mean when applied (see the lemmas at
  * the end of the file). */
module LegacyDiff {
  import opened Wrappers
  import opened LegacyPrimes
  import Node
  import Diff

  /** A change record as `diff.rs` builds it. */
  datatype Change =
    | ReplaceElement(coord: seq<Coord>, node: LNode)
    | ModifyChildren(coord: seq<Coord>, operations: seq<ChildDomOp>)
    | ModifyAttrs(coord: seq<Coord>, setDict: map<string, string>, unset: set<string>)
    | ModifyStyle(coord: seq<Coord>, setDict: map<string, string>, unset: set<string>)
    | ModifyEvent(coord: seq<Coord>, add: set<string>, remove: set<string>)
    | Effect(coord: seq<Coord>, effectType: Node.EffectType, skipIndexes: set<nat>)

  // ---------------------------------------------------------------------------
  // Attributes, style and listeners.

  function AttrsChange(next: map<string, string>, prev: map<string, string>, coord: seq<Coord>): seq<Change>
  {
    var s := Diff.SetPart(next, prev);
    var u := Diff.UnsetPart(next, prev);
    if s != map[] || u != {} then [Change.ModifyAttrs(coord, s, u)] else []
  }

  function StyleChange(next: map<string, string>, prev: map<string, string>, coord: seq<Coord>): seq<Change>
  {
    var s := Diff.SetPart(next, prev);
    var u := Diff.UnsetPart(next, prev);
    if s != map[] || u != {} then [Change.ModifyStyle(coord, s, u)] else []
  }

  function EventChange(next: set<string>, prev: set<string>, coord: seq<Coord>): seq<Change>
  {
    if next != prev then [Change.ModifyEvent(coord, next - prev, prev - next)] else []
  }

  /** `diff_attrs`: one `ModifyAttrs` exactly when the maps differ, and applying it to the
    * old attributes gives the new ones. */
  method DiffAttrs(next: map<string, string>, prev: map<string, string>, coord: seq<Coord>, changes: seq<Change>)
    returns (changes': seq<Change>)
    ensures next == prev ==> changes' == changes
    ensures next != prev ==>
      |changes'| == |changes| + 1 && changes'[..|changes|] == changes && changes'[|changes|].ModifyAttrs? &&
      Diff.PatchMap(prev, changes'[|changes|].setDict, changes'[|changes|].unset) == next
    ensures changes' == changes + AttrsChange(next, prev, coord)
  {
    var added, removed := Diff.MapDelta(next, prev);
    Diff.MapDeltaEmptyIff(next, prev);
    Diff.MapDeltaPatches(next, prev);
    changes' := changes;
    if added != map[] || removed != {} {
      changes' := changes' + [Change.ModifyAttrs(coord, added, removed)];
    }
  }

  /** `diff_style`, on the style maps: the same rule as `DiffAttrs`. */
  method DiffStyle(next: map<string, string>, prev: map<string, string>, coord: seq<Coord>, changes: seq<Change>)
    returns (changes': seq<Change>)
    ensures next == prev ==> changes' == changes
    ensures next != prev ==>
      |changes'| == |changes| + 1 && changes'[..|changes|] == changes && changes'[|changes|].ModifyStyle? &&
      Diff.PatchMap(prev, changes'[|changes|].setDict, changes'[|changes|].unset) == next
    ensures changes' == changes + StyleChange(next, prev, coord)
  {
    var added, removed := Diff.MapDelta(next, prev);
    Diff.MapDeltaEmptyIff(next, prev);
    Diff.MapDeltaPatches(next, prev);
    changes' := changes;
    if added != map[] || removed != {} {
      changes' := changes' + [Change.ModifyStyle(coord, added, removed)];
    }
  }

  /** `diff_event`: compares the event names only. */
  method DiffEvent(next: map<string, Node.Listener>, prev: map<string, Node.Listener>, coord: seq<Coord>,
                   changes: seq<Change>)
    returns (changes': seq<Change>)
    ensures next.Keys == prev.Keys ==> changes' == changes
    ensures next.Keys != prev.Keys ==>
      |changes'| == |changes| + 1 && changes'[..|changes|] == changes &&
      var c := changes'[|changes|];
      c.ModifyEvent? && (prev.Keys - c.remove) + c.add == next.Keys && c.add !! prev.Keys && c.remove <= prev.Keys
    ensures changes' == changes + EventChange(next.Keys, prev.Keys, coord)
  {
    var newKeys := next.Keys;
    var oldKeys := prev.Keys;
    changes' := changes;
    if newKeys != oldKeys {
      changes' := changes' + [Change.ModifyEvent(coord, newKeys - oldKeys, oldKeys - newKeys)];
    }
  }

  // ---------------------------------------------------------------------------
  // Lifecycle effects of a whole subtree.

  /** Records of `collect_effects_outside_in_as`: one record per component, whether it has
    * effects or not, the component's before its subtree's. */
  function OutsideIn(t: LNode, coord: seq<Coord>, et: Node.EffectType): seq<Change>
    decreases t, 1
  {
    match t
    case Component(name, _, tree) => [Effect(coord, et, {})] + OutsideIn(tree, coord + [Comp(name)], et)
    case Element(_, _, _, _, children) => ChildrenOutsideIn(t, |children|, coord, et)
  }

  /** The records of the first `k` children of an element, child `idx` at `coord + [Idx(idx)]`. */
  function ChildrenOutsideIn(t: LNode, k: nat, coord: seq<Coord>, et: Node.EffectType): seq<Change>
    requires t.Element? && k <= |t.children|
    decreases t, 0, k
  {
    if k == 0 then [] else
      ChildrenOutsideIn(t, k - 1, coord, et) + OutsideIn(t.children[k - 1].1, coord + [Idx(k - 1)], et)
  }

  /** Records of `collect_effects_inside_out_as`: a component's subtree is collected with
    * the outside-in walk and its own record comes last; an element's children are collected
    * with the outside-in walk too. */
  function InsideOut(t: LNode, coord: seq<Coord>, et: Node.EffectType): seq<Change>
  {
    match t
    case Component(name, _, tree) => OutsideIn(tree, coord + [Comp(name)], et) + [Effect(coord, et, {})]
    case Element(_, _, _, _, children) => ChildrenOutsideIn(t, |children|, coord, et)
  }

  function Components(t: LNode): nat
    decreases t, 1
  {
    match t
    case Component(_, _, tree) => 1 + Components(tree)
    case Element(_, _, _, _, children) => ChildrenComponents(t, |children|)
  }

  function ChildrenComponents(t: LNode, k: nat): nat
    requires t.Element? && k <= |t.children|
    decreases t, 0, k
  {
    if k == 0 then 0 else ChildrenComponents(t, k - 1) + Components(t.children[k - 1].1)
  }

  /** The walk yields one `Effect` record of the requested type per component, with no
    * skipped indexes, and nothing else. */
  lemma {:induction false} OutsideInRecords(t: LNode, coord: seq<Coord>, et: Node.EffectType)
    ensures |OutsideIn(t, coord, et)| == Components(t)
    ensures forall c :: c in OutsideIn(t, coord, et) ==> c.Effect? && c.effectType == et && c.skipIndexes == {}
    decreases t, 1
  {
    match t {
      case Component(name, _, tree) => OutsideInRecords(tree, coord + [Comp(name)], et);
      case Element(_, _, _, _, children) => ChildrenRecords(t, |children|, coord, et);
    }
  }

  lemma {:induction false} ChildrenRecords(t: LNode, k: nat, coord: seq<Coord>, et: Node.EffectType)
    requires t.Element? && k <= |t.children|
    ensures |ChildrenOutsideIn(t, k, coord, et)| == ChildrenComponents(t, k)
    ensures forall c :: c in ChildrenOutsideIn(t, k, coord, et) ==> c.Effect? && c.effectType == et && c.skipIndexes == {}
    decreases t, 0, k
  {
    if k > 0 {
      ChildrenRecords(t, k - 1, coord, et);
      OutsideInRecords(t.children[k - 1].1, coord + [Idx(k - 1)], et);
    }
  }

  /** The inside-out walk yields the same records as the outside-in one, in another order,
    * with a component's own record last. */
  lemma InsideOutRecords(t: LNode, coord: seq<Coord>, et: Node.EffectType)
    ensures multiset(InsideOut(t, coord, et)) == multiset(OutsideIn(t, coord, et))
    ensures |InsideOut(t, coord, et)| == Components(t)
    ensures t.Component? ==> InsideOut(t, coord, et)[|InsideOut(t, coord, et)| - 1] == Effect(coord, et, {})
  {
    OutsideInRecords(t, coord, et);
  }

  /** `collect_effects_outside_in_as`. */
  method CollectEffectsOutsideIn(t: LNode, coord: seq<Coord>, et: Node.EffectType, changes: seq<Change>)
    returns (changes': seq<Change>)
    ensures changes' == changes + OutsideIn(t, coord, et)
    decreases t
  {
    match t {
      case Component(name, _, tree) =>
        changes' := changes + [Effect(coord, et, {})];
        changes' := CollectEffectsOutsideIn(tree, coord + [Comp(name)], et, changes');
      case Element(_, _, _, _, children) =>
        changes' := changes;
        for idx := 0 to |children|
          invariant changes' == changes + ChildrenOutsideIn(t, idx, coord, et)
        {
          changes' := CollectEffectsOutsideIn(children[idx].1, coord + [Idx(idx)], et, changes');
        }
    }
  }

  /** `collect_effects_inside_out_as`. */
  method CollectEffectsInsideOut(t: LNode, coord: seq<Coord>, et: Node.EffectType, changes: seq<Change>)
    returns (changes': seq<Change>)
    ensures changes' == changes + InsideOut(t, coord, et)
  {
    match t {
      case Component(name, _, tree) =>
        changes' := CollectEffectsOutsideIn(tree, coord + [Comp(name)], et, changes);
        changes' := changes' + [Effect(coord, et, {})];
      case Element(_, _, _, _, children) =>
        changes' := changes;
        for idx := 0 to |children|
          invariant changes' == changes + ChildrenOutsideIn(t, idx, coord, et)
        {
          changes' := CollectEffectsOutsideIn(children[idx].1, coord + [Idx(idx)], et, changes');
        }
    }
  }

  // ---------------------------------------------------------------------------
  // The tree diff, as reference functions in the accumulator style of the source: each
  // takes the list so far and gives the list the source leaves behind.

  /** The effect records of a kept component: two records, sharing the unchanged indexes,
    * when some effect's arguments changed. */
  function EffectUpdates(effs: seq<Node.Effect>, prevEffs: seq<Node.Effect>, coord: seq<Coord>): seq<Change>
  {
    var skipped := Diff.SkippedIndexes(effs, prevEffs);
    if |skipped| < |effs| then [Effect(coord, Node.BeforeUpdate, skipped), Effect(coord, Node.Updated, skipped)] else []
  }

  /** `diff_tree`, arm by arm. Every replacement carries the OLD node. */
  function DiffTreeSpec(next: LNode, prev: LNode, coord: seq<Coord>, changes: seq<Change>): seq<Change>
    decreases Size(next) + Size(prev), 0, 0
  {
    if next.Component? && prev.Component? then
      if next.name == prev.name then
        DiffTreeSpec(next.tree, prev.tree, coord + [Comp(next.name)], changes)
          + EffectUpdates(next.effects, prev.effects, coord)
      else
        changes + OutsideIn(prev, coord, Node.BeforeUnmount) + [Change.ReplaceElement(coord, prev.tree)]
          + OutsideIn(next, coord, Node.Mounted)
    else if next.Component? then
      changes + [Change.ReplaceElement(coord, prev)] + OutsideIn(next, coord, Node.Mounted)
    else if prev.Component? then
      changes + OutsideIn(prev, coord, Node.BeforeUnmount) + [Change.ReplaceElement(coord, prev)]
    else if next.tag != prev.tag then
      changes + [Change.ReplaceElement(coord, prev)]
    else
      ElementSize(next);
      ElementSize(prev);
      DiffElementsSpec(next, prev, coord, changes)
  }

  /** Two elements with the same tag: attributes, style, listeners, then children. */
  function DiffElementsSpec(next: LNode, prev: LNode, coord: seq<Coord>, changes: seq<Change>): seq<Change>
    requires next.Element? && prev.Element?
    decreases ChildrenSize(next.children) + ChildrenSize(prev.children), 3, 0
  {
    var own := changes + AttrsChange(next.attrs, prev.attrs, coord) + StyleChange(next.style, prev.style, coord)
      + EventChange(next.events.Keys, prev.events.Keys, coord);
    DiffChildrenSpec(next.children, prev.children, coord, own)
  }

  /** `diff_children`. */
  function DiffChildrenSpec(next: seq<(Node.IndexKey, LNode)>, prev: seq<(Node.IndexKey, LNode)>, coord: seq<Coord>,
                            changes: seq<Change>): seq<Change>
    decreases ChildrenSize(next) + ChildrenSize(prev), 2, 0
  {
    var r := ChildrenLoop(next, prev, coord, 0, 0, 0, changes, []);
    r.0 + (if |r.1| > 0 then [Change.ModifyChildren(coord, r.1)] else [])
  }

  /** Whether `key` is among the three entries after position `p`. */
  predicate LookAhead(key: Node.IndexKey, cs: seq<(Node.IndexKey, LNode)>, p: nat)
  {
    (p + 1 < |cs| && cs[p + 1].0 == key) || (p + 2 < |cs| && cs[p + 2].0 == key)
      || (p + 3 < |cs| && cs[p + 3].0 == key)
  }

  /** The loop of `diff_children` from the pointers `np`, `pp` and DOM position `cursor`,
    * with `changes` and `ops` collected so far. */
  function ChildrenLoop(next: seq<(Node.IndexKey, LNode)>, prev: seq<(Node.IndexKey, LNode)>, coord: seq<Coord>,
                        np: nat, pp: nat, cursor: nat, changes: seq<Change>, ops: seq<ChildDomOp>)
    : (seq<Change>, seq<ChildDomOp>)
    requires np <= |next| && pp <= |prev|
    decreases ChildrenSize(next) + ChildrenSize(prev), 1, |next| - np + |prev| - pp
  {
    if np >= |next| then
      if pp >= |prev| then (changes, ops)
      else ChildrenLoop(next, prev, coord, np, pp + 1, cursor, changes, ops + [RemoveAt(cursor)])
    else if pp >= |prev| then
      ChildrenLoop(next, prev, coord, np + 1, pp, cursor, changes, ops + [Append(next[np].1)])
    else if next[np].0 == prev[pp].0 then
      ChildSizeBound(next, np);
      ChildSizeBound(prev, pp);
      var changes' := DiffTreeSpec(next[np].1, prev[pp].1, coord + [Idx(cursor)], changes);
      ChildrenLoop(next, prev, coord, np + 1, pp + 1, cursor + 1, changes', ops)
    else if LookAhead(next[np].0, prev, pp) then
      ChildrenLoop(next, prev, coord, np, pp + 1, cursor, changes, ops + [RemoveAt(cursor)])
    else if LookAhead(prev[pp].0, next, np) then
      ChildrenLoop(next, prev, coord, np + 1, pp, cursor + 1, changes, ops + [Append(next[np].1)])
    else
      ChildrenLoop(next, prev, coord, np + 1, pp + 1, cursor + 1, changes,
                   ops + [RemoveAt(cursor), InsertAfter(cursor, next[np].1)])
  }

  // ---------------------------------------------------------------------------
  // The methods.

  /** The `skipped` loop and the two records of a kept component. */
  method ComponentEffects(effs: seq<Node.Effect>, prevEffs: seq<Node.Effect>, coord: seq<Coord>, changes: seq<Change>)
    returns (changes': seq<Change>)
    ensures changes' == changes + EffectUpdates(effs, prevEffs, coord)
  {
    var skipped := Diff.SkipUnchanged(effs, prevEffs);
    changes' := changes;
    if |skipped| < |effs| {
      changes' := changes' + [Effect(coord, Node.BeforeUpdate, skipped)];
      changes' := changes' + [Effect(coord, Node.Updated, skipped)];
    }
  }

  /** `diff_tree`. */
  method DiffTree(next: LNode, prev: LNode, coord: seq<Coord>, changes: seq<Change>) returns (changes': seq<Change>)
    ensures changes' == DiffTreeSpec(next, prev, coord, changes)
    decreases Size(next) + Size(prev), 0
  {
    if next.Component? && prev.Component? {
      if next.name == prev.name {
        changes' := DiffTree(next.tree, prev.tree, coord + [Comp(next.name)], changes);
        changes' := ComponentEffects(next.effects, prev.effects, coord, changes');
      } else {
        changes' := CollectEffectsOutsideIn(prev, coord, Node.BeforeUnmount, changes);
        changes' := changes' + [Change.ReplaceElement(coord, prev.tree)];
        changes' := CollectEffectsOutsideIn(next, coord, Node.Mounted, changes');
      }
    } else if next.Component? {
      changes' := changes + [Change.ReplaceElement(coord, prev)];
      changes' := CollectEffectsOutsideIn(next, coord, Node.Mounted, changes');
    } else if prev.Component? {
      changes' := CollectEffectsOutsideIn(prev, coord, Node.BeforeUnmount, changes);
      changes' := changes' + [Change.ReplaceElement(coord, prev)];
    } else if next.tag != prev.tag {
      changes' := changes + [Change.ReplaceElement(coord, prev)];
    } else {
      ElementSize(next);
      ElementSize(prev);
      changes' := DiffElements(next, prev, coord, changes);
    }
  }

  /** The arm of `diff_tree` for two elements with the same tag. */
  method DiffElements(next: LNode, prev: LNode, coord: seq<Coord>, changes: seq<Change>) returns (changes': seq<Change>)
    requires next.Element? && prev.Element?
    ensures changes' == DiffElementsSpec(next, prev, coord, changes)
    decreases ChildrenSize(next.children) + ChildrenSize(prev.children), 2
  {
    changes' := DiffAttrs(next.attrs, prev.attrs, coord, changes);
    changes' := DiffStyle(next.style, prev.style, coord, changes');
    changes' := DiffEvent(next.events, prev.events, coord, changes');
    changes' := DiffChildren(next.children, prev.children, coord, changes');
  }

  /** `diff_children`: the two-pointer walk. */
  method DiffChildren(next: seq<(Node.IndexKey, LNode)>, prev: seq<(Node.IndexKey, LNode)>, coord: seq<Coord>,
                      changes: seq<Change>)
    returns (changes': seq<Change>)
    ensures changes' == DiffChildrenSpec(next, prev, coord, changes)
    decreases ChildrenSize(next) + ChildrenSize(prev), 1
  {
    ghost var all := ChildrenLoop(next, prev, coord, 0, 0, 0, changes, []);
    var cursor: nat := 0;
    var operations: seq<ChildDomOp> := [];
    var np: nat := 0;
    var pp: nat := 0;
    changes' := changes;
    while true
      invariant np <= |next| && pp <= |prev|
      invariant ChildrenLoop(next, prev, coord, np, pp, cursor, changes', operations) == all
      decreases |next| - np + |prev| - pp
    {
      if np >= |next| {
        if pp >= |prev| {
          if |operations| > 0 {
            changes' := changes' + [Change.ModifyChildren(coord, operations)];
          }
          return;
        } else {
          operations := operations + [RemoveAt(cursor)];
          pp := pp + 1;
        }
      } else if pp >= |prev| {
        operations := operations + [Append(next[np].1)];
        np := np + 1;
      } else if next[np].0 == prev[pp].0 {
        ChildSizeBound(next, np);
        ChildSizeBound(prev, pp);
        changes' := DiffTree(next[np].1, prev[pp].1, coord + [Idx(cursor)], changes');
        cursor := cursor + 1;
        np := np + 1;
        pp := pp + 1;
      } else if LookAhead(next[np].0, prev, pp) {
        operations := operations + [RemoveAt(cursor)];
        pp := pp + 1;
      } else if LookAhead(prev[pp].0, next, np) {
        operations := operations + [Append(next[np].1)];
        cursor := cursor + 1;
        np := np + 1;
      } else {
        operations := operations + [RemoveAt(cursor), InsertAfter(cursor, next[np].1)];
        cursor := cursor + 1;
        np := np + 1;
        pp := pp + 1;
      }
    }
  }

  // ---------------------------------------------------------------------------
  // What the child operations do to an element's child list, as the DOM patcher applies
  // them: `RemoveAt(i)` and `InsertAfter(i, _)` need a child at `i`; `Append` always applies.

  function ApplyOp(op: ChildDomOp, nodes: seq<LNode>): Option<seq<LNode>>
  {
    match op
    case Append(n) => Some(nodes + [n])
    case RemoveAt(i) => if i < |nodes| then Some(nodes[..i] + nodes[i + 1..]) else None
    case InsertAfter(i, n) => if i < |nodes| then Some(nodes[..i + 1] + [n] + nodes[i + 1..]) else None
  }

  function ApplyOps(ops: seq<ChildDomOp>, nodes: seq<LNode>): Option<seq<LNode>>
  {
    if |ops| == 0 then Some(nodes)
    else match ApplyOp(ops[0], nodes)
      case None => None
      case Some(ns) => ApplyOps(ops[1..], ns)
  }

  /** How many children the operations add, net of those they remove. */
  function Delta(ops: seq<ChildDomOp>): int
  {
    if |ops| == 0 then 0 else (if ops[0].RemoveAt? then -1 else 1) + Delta(ops[1..])
  }

  lemma {:induction false} DeltaAppend(a: seq<ChildDomOp>, b: seq<ChildDomOp>)
    ensures Delta(a + b) == Delta(a) + Delta(b)
  {
    if |a| == 0 {
      assert a + b == b;
    } else {
      assert (a + b)[1..] == a[1..] + b;
      DeltaAppend(a[1..], b);
    }
  }

  /** Applied successfully, the operations change the number of children by `Delta`. */
  lemma {:induction false} ApplyOpsLength(ops: seq<ChildDomOp>, nodes: seq<LNode>)
    ensures ApplyOps(ops, nodes).Some? ==> |ApplyOps(ops, nodes).value| == |nodes| + Delta(ops)
  {
    if |ops| > 0 && ApplyOp(ops[0], nodes).Some? {
      ApplyOpsLength(ops[1..], ApplyOp(ops[0], nodes).value);
    }
  }

  /** The walk balances the child count: from any point, the operations still to come add
    * what is left of the new list and remove what is left of the old one. */
  lemma {:induction false} LoopBalance(next: seq<(Node.IndexKey, LNode)>, prev: seq<(Node.IndexKey, LNode)>,
                                       coord: seq<Coord>, np: nat, pp: nat, cursor: nat,
                                       changes: seq<Change>, ops: seq<ChildDomOp>)
    requires np <= |next| && pp <= |prev|
    ensures Delta(ChildrenLoop(next, prev, coord, np, pp, cursor, changes, ops).1)
      == Delta(ops) + (|next| - np) - (|prev| - pp)
    decreases |next| - np + |prev| - pp
  {
    if np >= |next| {
      if pp < |prev| {
        DeltaAppend(ops, [RemoveAt(cursor)]);
        LoopBalance(next, prev, coord, np, pp + 1, cursor, changes, ops + [RemoveAt(cursor)]);
      }
    } else if pp >= |prev| {
      DeltaAppend(ops, [Append(next[np].1)]);
      LoopBalance(next, prev, coord, np + 1, pp, cursor, changes, ops + [Append(next[np].1)]);
    } else if next[np].0 == prev[pp].0 {
      ChildSizeBound(next, np);
      ChildSizeBound(prev, pp);
      var changes' := DiffTreeSpec(next[np].1, prev[pp].1, coord + [Idx(cursor)], changes);
      LoopBalance(next, prev, coord, np + 1, pp + 1, cursor + 1, changes', ops);
    } else if LookAhead(next[np].0, prev, pp) {
      DeltaAppend(ops, [RemoveAt(cursor)]);
      LoopBalance(next, prev, coord, np, pp + 1, cursor, changes, ops + [RemoveAt(cursor)]);
    } else if LookAhead(prev[pp].0, next, np) {
      DeltaAppend(ops, [Append(next[np].1)]);
      LoopBalance(next, prev, coord, np + 1, pp, cursor + 1, changes, ops + [Append(next[np].1)]);
    } else {
      var pair := [RemoveAt(cursor), InsertAfter(cursor, next[np].1)];
      DeltaAppend(ops, pair);
      assert Delta(pair) == 0 by {
        var tail := [InsertAfter(cursor, next[np].1)];
        assert pair[1..] == tail;
        assert tail[1..] == [];
        calc {
          Delta(pair);
          -1 + Delta(tail);
          -1 + (1 + Delta(tail[1..]));
          0;
        }
      }
      LoopBalance(next, prev, coord, np + 1, pp + 1, cursor + 1, changes, ops + pair);
    }
  }

  /** Once the new list is exhausted, each remaining old child is removed at the same,
    * unchanged cursor. */
  lemma {:induction false} ExhaustedRemovesAtCursor(next: seq<(Node.IndexKey, LNode)>, prev: seq<(Node.IndexKey, LNode)>,
                                                    coord: seq<Coord>, pp: nat, cursor: nat,
                                                    changes: seq<Change>, ops: seq<ChildDomOp>)
    requires pp <= |prev|
    ensures ChildrenLoop(next, prev, coord, |next|, pp, cursor, changes, ops)
      == (changes, ops + seq(|prev| - pp, _ => RemoveAt(cursor)))
    decreases |prev| - pp
  {
    if pp < |prev| {
      ExhaustedRemovesAtCursor(next, prev, coord, pp + 1, cursor, changes, ops + [RemoveAt(cursor)]);
      assert [RemoveAt(cursor)] + seq(|prev| - (pp + 1), _ => RemoveAt(cursor)) == seq(|prev| - pp, _ => RemoveAt(cursor));
      assert ops + [RemoveAt(cursor)] + seq(|prev| - (pp + 1), _ => RemoveAt(cursor))
          == ops + ([RemoveAt(cursor)] + seq(|prev| - (pp + 1), _ => RemoveAt(cursor)));
    } else {
      assert ops + seq(0, _ => RemoveAt(cursor)) == ops;
    }
  }

  /** The child operations of one element get the number of children right: once applied,
    * the element has as many children as the new list. */
  lemma ChildCountBalanced(next: seq<(Node.IndexKey, LNode)>, prev: seq<(Node.IndexKey, LNode)>,
                           coord: seq<Coord>, changes: seq<Change>, nodes: seq<LNode>)
    requires |nodes| == |prev|
    ensures var ops := ChildrenLoop(next, prev, coord, 0, 0, 0, changes, []).1;
      ApplyOps(ops, nodes).Some? ==> |ApplyOps(ops, nodes).value| == |next|
  {
    LoopBalance(next, prev, coord, 0, 0, 0, changes, []);
    ApplyOpsLength(ChildrenLoop(next, prev, coord, 0, 0, 0, changes, []).1, nodes);
  }

  // ---------------------------------------------------------------------------
  // Diffing a tree against itself.

  /** A tree compared with itself yields no change. */
  lemma {:induction false} DiffTreeIdentity(t: LNode, coord: seq<Coord>, changes: seq<Change>)
    ensures DiffTreeSpec(t, t, coord, changes) == changes
    decreases Size(t) + Size(t), 0, 0
  {
    match t {
      case Component(name, effs, tree) =>
        DiffTreeIdentity(tree, coord + [Comp(name)], changes);
        Diff.EffectUpdatesIff(effs, effs, [], []);
        assert Diff.EffectUpdates(effs, effs, [], []) == [];
        assert EffectUpdates(effs, effs, coord) == [];
      case Element(_, attrs, events, style, children) =>
        ElementSize(t);
        Diff.MapDeltaEmptyIff(attrs, attrs);
        Diff.MapDeltaEmptyIff(style, style);
        assert AttrsChange(attrs, attrs, coord) == [];
        assert StyleChange(style, style, coord) == [];
        assert EventChange(events.Keys, events.Keys, coord) == [];
        ChildrenIdentity(children, coord, 0, changes, []);
        assert DiffChildrenSpec(children, children, coord, changes) == changes;
        assert DiffElementsSpec(t, t, coord, changes) == changes;
    }
  }

  lemma {:induction false} ChildrenIdentity(cs: seq<(Node.IndexKey, LNode)>, coord: seq<Coord>, i: nat,
                                            changes: seq<Change>, ops: seq<ChildDomOp>)
    requires i <= |cs|
    ensures ChildrenLoop(cs, cs, coord, i, i, i, changes, ops) == (changes, ops)
    decreases ChildrenSize(cs) + ChildrenSize(cs), 1, |cs| - i
  {
    if i < |cs| {
      ChildSizeBound(cs, i);
      DiffTreeIdentity(cs[i].1, coord + [Idx(i)], changes);
      ChildrenIdentity(cs, coord, i + 1, changes, ops);
    }
  }

  // ---------------------------------------------------------------------------
  // Where the operations disagree with the new list.

  function Leaf(tag: string): LNode
  {
    Element(tag, map[], map[], map[], [])
  }

  /** A child inserted before a kept one is appended after it: with old children `[a]` and
    * new children `[b, a]` the walk emits `Append(b)`, and the element ends up with `[a, b]`. */
  lemma LookAheadInsertAppends()
    ensures var a := Leaf("x"); var b := Leaf("y");
      var next := [("b", b), ("a", a)];
      var prev := [("a", a)];
      DiffChildrenSpec(next, prev, [], []) == [Change.ModifyChildren([], [Append(b)])]
      && ApplyOps([Append(b)], [a]) == Some([a, b]) && [a, b] != [b, a]
  {
    var a := Leaf("x");
    var b := Leaf("y");
    var next := [("b", b), ("a", a)];
    var prev := [("a", a)];
    assert next[0].0 != prev[0].0 by { assert next[0].0[0] != prev[0].0[0]; }
    assert !LookAhead("b", prev, 0);
    assert LookAhead("a", next, 0);
    assert [] + [Append(b)] == [Append(b)];
    assert ChildrenLoop(next, prev, [], 0, 0, 0, [], []) == ChildrenLoop(next, prev, [], 1, 0, 1, [], [Append(b)]);
    DiffTreeIdentity(a, [Idx(1)], []);
    assert ChildrenLoop(next, prev, [], 1, 0, 1, [], [Append(b)]) == ChildrenLoop(next, prev, [], 2, 1, 2, [], [Append(b)]);
    assert ChildrenLoop(next, prev, [], 2, 1, 2, [], [Append(b)]) == ([], [Append(b)]);
    assert DiffChildrenSpec(next, prev, [], []) == [] + [Change.ModifyChildren([], [Append(b)])];
    assert [Append(b)][1..] == [];
    assert [a] + [b] == [a, b];
    assert ApplyOp(Append(b), [a]) == Some([a, b]);
    assert ApplyOps([Append(b)], [a]) == ApplyOps([], [a, b]);
  }

  /** A replaced child lands one place too far: with old children `[a, c]` and new children
    * `[b, c]` the walk emits `RemoveAt(0), InsertAfter(0, b)`, and the element ends up with `[c, b]`. */
  lemma ReplacedChildMisplaced()
    ensures var a := Leaf("x"); var b := Leaf("y"); var c := Leaf("z");
      var next := [("b", b), ("c", c)];
      var prev := [("a", a), ("c", c)];
      var ops := [RemoveAt(0), InsertAfter(0, b)];
      DiffChildrenSpec(next, prev, [], []) == [Change.ModifyChildren([], ops)]
      && ApplyOps(ops, [a, c]) == Some([c, b]) && [c, b] != [b, c]
  {
    var a := Leaf("x");
    var b := Leaf("y");
    var c := Leaf("z");
    var next := [("b", b), ("c", c)];
    var prev := [("a", a), ("c", c)];
    var ops := [RemoveAt(0), InsertAfter(0, b)];
    assert next[0].0 != prev[0].0 by { assert next[0].0[0] != prev[0].0[0]; }
    assert !LookAhead("b", prev, 0);
    assert !LookAhead("a", next, 0) by { assert next[1].0[0] != prev[0].0[0]; }
    assert [] + ops == ops;
    assert ChildrenLoop(next, prev, [], 0, 0, 0, [], []) == ChildrenLoop(next, prev, [], 1, 1, 1, [], ops);
    DiffTreeIdentity(c, [Idx(1)], []);
    assert ChildrenLoop(next, prev, [], 1, 1, 1, [], ops) == ChildrenLoop(next, prev, [], 2, 2, 2, [], ops);
    assert DiffChildrenSpec(next, prev, [], []) == [] + [Change.ModifyChildren([], ops)];
    assert [a, c][..0] + [a, c][1..] == [c];
    assert ApplyOp(RemoveAt(0), [a, c]) == Some([c]);
    assert [c][..1] + [b] + [c][1..] == [c, b];
    assert ApplyOp(InsertAfter(0, b), [c]) == Some([c, b]);
    assert ops[1..] == [InsertAfter(0, b)];
    assert ops[1..][1..] == [];
    assert ApplyOps(ops, [a, c]) == ApplyOps([InsertAfter(0, b)], [c]);
    assert ApplyOps([InsertAfter(0, b)], [c]) == ApplyOps([], [c, b]);
  }

  /** Two elements with different tags are replaced by the OLD element: the record that
    * should install the new node re-installs the one already there. */
  lemma ReplaceKeepsOldNode(next: LNode, prev: LNode, coord: seq<Coord>, changes: seq<Change>)
    requires next.Element? && prev.Element? && next.tag != prev.tag
    ensures DiffTreeSpec(next, prev, coord, changes) == changes + [Change.ReplaceElement(coord, prev)]
    ensures forall c :: c in DiffTreeSpec(next, prev, coord, changes)[|changes|..] ==> c.ReplaceElement? && c.node != next
  {
    assert DiffTreeSpec(next, prev, coord, changes)[|changes|..] == [Change.ReplaceElement(coord, prev)];
  }
}
