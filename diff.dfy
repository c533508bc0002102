/** The virtual DOM diff of the `respo` crate: compares a new tree with the old one and
  * appends change records to a caller-owned list. Each operation is a method taking the
  * list so far and returning it extended; its `ensures` ties the extension to a
  * reference function of the inputs, and the lemmas state what those functions promise. */
module Diff {
  import opened Wrappers
  import opened Node
  import opened DomChange

  // ---------------------------------------------------------------------------
  // Map and set differences (attributes, style, listeners).

  /** Entries to write: the new keys that are absent from `prev` or hold another value there. */
  function SetPart(next: map<string, string>, prev: map<string, string>): map<string, string>
  {
    map k | k in next && (k !in prev || prev[k] != next[k]) :: next[k]
  }

  /** Keys to delete: the old keys absent from `next`. */
  function UnsetPart(next: map<string, string>, prev: map<string, string>): set<string>
  {
    set k | k in prev && k !in next
  }

  /** The change to the old map the patch performs: remove `unset`, then write `set`. */
  function PatchMap(prev: map<string, string>, setDict: map<string, string>, unset: set<string>): map<string, string>
  {
    (prev - unset) + setDict
  }

  /** The two parts of a map difference are exactly what turns `prev` into `next`. */
  lemma MapDeltaPatches(next: map<string, string>, prev: map<string, string>)
    ensures PatchMap(prev, SetPart(next, prev), UnsetPart(next, prev)) == next
  {
    var p := PatchMap(prev, SetPart(next, prev), UnsetPart(next, prev));
    assert p.Keys == next.Keys;
    forall k | k in next
      ensures p[k] == next[k]
    {
    }
  }

  /** The difference is empty exactly when the maps are equal. */
  lemma MapDeltaEmptyIff(next: map<string, string>, prev: map<string, string>)
    ensures (SetPart(next, prev) == map[] && UnsetPart(next, prev) == {}) <==> next == prev
  {
    if SetPart(next, prev) == map[] && UnsetPart(next, prev) == {} {
      MapDeltaPatches(next, prev);
      assert PatchMap(prev, map[], {}) == prev;
    }
  }

  /** The loops of `diff_attrs` / `diff_style`: collect the entries to write and the keys to delete. */
  method MapDelta(next: map<string, string>, prev: map<string, string>)
    returns (added: map<string, string>, removed: set<string>)
    ensures added == SetPart(next, prev)
    ensures removed == UnsetPart(next, prev)
  {
    added := CollectAdded(next, prev);
    removed := CollectRemoved(next, prev);
  }

  /** The first loop: every new entry that is absent from `prev` or differs there. */
  method CollectAdded(next: map<string, string>, prev: map<string, string>) returns (added: map<string, string>)
    ensures added == SetPart(next, prev)
  {
    added := map[];
    var todo := next.Keys;
    while todo != {}
      invariant todo <= next.Keys
      invariant forall k :: k in added <==> k in next && k !in todo && (k !in prev || prev[k] != next[k])
      invariant forall k :: k in added ==> added[k] == next[k]
      decreases |todo|
    {
      var key :| key in todo;
      if key in prev {
        if prev[key] != next[key] {
          added := added[key := next[key]];
        }
      } else {
        added := added[key := next[key]];
      }
      todo := todo - {key};
    }
    assert added.Keys == SetPart(next, prev).Keys;
  }

  /** The second loop: every old key absent from `next`. */
  method CollectRemoved(next: map<string, string>, prev: map<string, string>) returns (removed: set<string>)
    ensures removed == UnsetPart(next, prev)
  {
    removed := {};
    var todo := prev.Keys;
    while todo != {}
      invariant todo <= prev.Keys
      invariant forall k :: k in removed <==> k in prev && k !in todo && k !in next
      decreases |todo|
    {
      var key :| key in todo;
      if key !in next {
        removed := removed + {key};
      }
      todo := todo - {key};
    }
  }


  function AttrsChange(next: map<string, string>, prev: map<string, string>, coord: seq<Coord>, domPath: seq<nat>): seq<DomChange>
  {
    var s := SetPart(next, prev);
    var u := UnsetPart(next, prev);
    if s != map[] || u != {} then [ModifyAttrs(coord, domPath, s, u)] else []
  }

  function StyleChange(next: map<string, string>, prev: map<string, string>, coord: seq<Coord>, domPath: seq<nat>): seq<DomChange>
  {
    var s := SetPart(next, prev);
    var u := UnsetPart(next, prev);
    if s != map[] || u != {} then [ModifyStyle(coord, domPath, s, u)] else []
  }

  /** `diff_attrs`: appends one `ModifyAttrs` holding the entries to write and the keys to
    * delete, and only when one of them is non-empty. */
  method DiffAttrs(next: map<string, string>, prev: map<string, string>, coord: seq<Coord>, domPath: seq<nat>,
                   changes: seq<DomChange>)
    returns (changes': seq<DomChange>)
    ensures next == prev ==> changes' == changes
    ensures next != prev ==> changes' == changes + [ModifyAttrs(coord, domPath, SetPart(next, prev), UnsetPart(next, prev))]
    ensures changes' == changes + AttrsChange(next, prev, coord, domPath)
  {
    var added, removed := MapDelta(next, prev);
    MapDeltaEmptyIff(next, prev);
    changes' := changes;
    if added != map[] || removed != {} {
      changes' := changes' + [ModifyAttrs(coord, domPath, added, removed)];
    }
  }

  /** `diff_style`, on the maps built from the style lists: the same rule as `DiffAttrs`. */
  method DiffStyle(next: map<string, string>, prev: map<string, string>, coord: seq<Coord>, domPath: seq<nat>,
                   changes: seq<DomChange>)
    returns (changes': seq<DomChange>)
    ensures next == prev ==> changes' == changes
    ensures next != prev ==> changes' == changes + [ModifyStyle(coord, domPath, SetPart(next, prev), UnsetPart(next, prev))]
    ensures changes' == changes + StyleChange(next, prev, coord, domPath)
  {
    var added, removed := MapDelta(next, prev);
    MapDeltaEmptyIff(next, prev);
    changes' := changes;
    if added != map[] || removed != {} {
      changes' := changes' + [ModifyStyle(coord, domPath, added, removed)];
    }
  }

  /** `HashMap::from_iter` over a style list: later pairs overwrite earlier ones. */
  function StyleMap(style: seq<(string, string)>): map<string, string>
  {
    if |style| == 0 then map[]
    else StyleMap(style[..|style| - 1])[style[|style| - 1].0 := style[|style| - 1].1]
  }

  /** A property is in the style map iff some pair names it, and its value is that of the last such pair. */
  lemma StyleMapLookup(style: seq<(string, string)>, k: string)
    ensures k in StyleMap(style) <==> exists i :: 0 <= i < |style| && style[i].0 == k
    ensures k in StyleMap(style) ==>
      exists i :: 0 <= i < |style| && style[i].0 == k && StyleMap(style)[k] == style[i].1
        && forall j :: i < j < |style| ==> style[j].0 != k
  {
    StyleMapHas(style, k);
    if k in StyleMap(style) {
      StyleMapLast(style, k);
    }
  }

  lemma {:induction false} StyleMapHas(style: seq<(string, string)>, k: string)
    ensures k in StyleMap(style) <==> exists i :: 0 <= i < |style| && style[i].0 == k
  {
    if |style| > 0 {
      var init, last := style[..|style| - 1], style[|style| - 1];
      StyleMapHas(init, k);
      assert StyleMap(style) == StyleMap(init)[last.0 := last.1];
      if last.0 == k {
        assert style[|style| - 1].0 == k;
      } else {
        if exists i :: 0 <= i < |init| && init[i].0 == k {
          var i :| 0 <= i < |init| && init[i].0 == k;
          assert style[i] == init[i];
        }
        if exists i :: 0 <= i < |style| && style[i].0 == k {
          var i :| 0 <= i < |style| && style[i].0 == k;
          assert init[i] == style[i];
        }
      }
    }
  }

  lemma {:induction false} StyleMapLast(style: seq<(string, string)>, k: string)
    requires k in StyleMap(style)
    ensures exists i ::
      0 <= i < |style| && style[i].0 == k && StyleMap(style)[k] == style[i].1
      && forall j :: i < j < |style| ==> style[j].0 != k
  {
    if |style| > 0 {
      var init, last := style[..|style| - 1], style[|style| - 1];
      assert StyleMap(style) == StyleMap(init)[last.0 := last.1];
      if last.0 == k {
        var i := |style| - 1;
        assert style[i].0 == k && StyleMap(style)[k] == style[i].1;
      } else {
        StyleMapLast(init, k);
        var i :| 0 <= i < |init| && init[i].0 == k && StyleMap(init)[k] == init[i].1
          && forall j :: i < j < |init| ==> init[j].0 != k;
        assert style[i] == init[i];
        forall j | i < j < |style|
          ensures style[j].0 != k
        {
          if j < |init| {
            assert style[j] == init[j];
          }
        }
      }
    }
  }

  function EventChange(next: set<string>, prev: set<string>, coord: seq<Coord>, domPath: seq<nat>): seq<DomChange>
  {
    if next != prev then [ModifyEvent(coord, domPath, next - prev, prev - next)] else []
  }

  /** `diff_event`: compares the listened event names only; when they differ it appends one
    * `ModifyEvent` whose `add` and `remove` turn the old names into the new ones. */
  method DiffEvent(next: map<string, Listener>, prev: map<string, Listener>, coord: seq<Coord>, domPath: seq<nat>,
                   changes: seq<DomChange>)
    returns (changes': seq<DomChange>)
    ensures next.Keys == prev.Keys ==> changes' == changes
    ensures next.Keys != prev.Keys ==> |changes'| == |changes| + 1 && changes'[..|changes|] == changes
    ensures next.Keys != prev.Keys ==>
      var c := changes'[|changes|];
      c.ModifyEvent? && (prev.Keys - c.remove) + c.add == next.Keys && c.add !! prev.Keys && c.remove <= prev.Keys
    ensures changes' == changes + EventChange(next.Keys, prev.Keys, coord, domPath)
  {
    var newKeys := next.Keys;
    var oldKeys := prev.Keys;
    changes' := changes;
    if newKeys != oldKeys {
      changes' := changes' + [ModifyEvent(coord, domPath, newKeys - oldKeys, oldKeys - newKeys)];
    }
  }

  // ---------------------------------------------------------------------------
  // Lifecycle effects of a whole subtree.

  /** Records of `collect_effects_outside_in_as`: a component's own record precedes those
    * of its subtree; components with no effects contribute none. */
  function OutsideIn(t: RespoNode, coord: seq<Coord>, domPath: seq<nat>, et: EffectType): seq<DomChange>
    decreases t, 0
  {
    match t
    case Component(name, effs, tree) =>
      (if |effs| > 0 then [DomChange.Effect(coord, domPath, et, {})] else [])
        + OutsideIn(tree, coord + [Comp(name)], domPath, et)
    case Element(e) => ChildrenOutsideIn(e, |e.children|, coord, domPath, et)
    case Referenced(_, cell) => OutsideIn(cell, coord, domPath, et)
  }

  /** The records of the first `k` children, the `i`-th under `Key(key)` and DOM index `i`. */
  function ChildrenOutsideIn(e: RespoElement, k: nat, coord: seq<Coord>, domPath: seq<nat>, et: EffectType): seq<DomChange>
    requires k <= |e.children|
    decreases e, k
  {
    if k == 0 then [] else
      ChildrenOutsideIn(e, k - 1, coord, domPath, et)
      + OutsideIn(e.children[k - 1].1, coord + [Key(e.children[k - 1].0)], domPath + [k - 1], et)
  }

  /** Records of `collect_effects_inside_out_as`: a component's own record follows those of its subtree. */
  function InsideOut(t: RespoNode, coord: seq<Coord>, domPath: seq<nat>, et: EffectType): seq<DomChange>
    decreases t, 0
  {
    match t
    case Component(name, effs, tree) =>
      InsideOut(tree, coord + [Comp(name)], domPath, et)
        + (if |effs| > 0 then [DomChange.Effect(coord, domPath, et, {})] else [])
    case Element(e) => ChildrenInsideOut(e, |e.children|, coord, domPath, et)
    case Referenced(_, cell) => InsideOut(cell, coord, domPath, et)
  }

  function ChildrenInsideOut(e: RespoElement, k: nat, coord: seq<Coord>, domPath: seq<nat>, et: EffectType): seq<DomChange>
    requires k <= |e.children|
    decreases e, k
  {
    if k == 0 then [] else
      ChildrenInsideOut(e, k - 1, coord, domPath, et)
      + InsideOut(e.children[k - 1].1, coord + [Key(e.children[k - 1].0)], domPath + [k - 1], et)
  }

  /** Number of components with a non-empty effect list, seen through references. */
  function EffectfulComponents(t: RespoNode): nat
    decreases t, 0
  {
    match t
    case Component(_, effs, tree) => (if |effs| > 0 then 1 else 0) + EffectfulComponents(tree)
    case Element(e) => ChildrenEffectful(e, |e.children|)
    case Referenced(_, cell) => EffectfulComponents(cell)
  }

  function ChildrenEffectful(e: RespoElement, k: nat): nat
    requires k <= |e.children|
    decreases e, k
  {
    if k == 0 then 0 else ChildrenEffectful(e, k - 1) + EffectfulComponents(e.children[k - 1].1)
  }

  /** Mounting and unmounting visit the same components: the two orders produce the same
    * records, only arranged differently. */
  lemma {:induction false} OutsideInInsideOutSameRecords(t: RespoNode, coord: seq<Coord>, domPath: seq<nat>, et: EffectType)
    ensures multiset(OutsideIn(t, coord, domPath, et)) == multiset(InsideOut(t, coord, domPath, et))
    decreases t, 0, 0
  {
    match t {
      case Component(name, effs, tree) =>
        OutsideInInsideOutSameRecords(tree, coord + [Comp(name)], domPath, et);
      case Element(e) =>
        ChildrenSameRecords(e, |e.children|, coord, domPath, et);
      case Referenced(_, cell) =>
        OutsideInInsideOutSameRecords(cell, coord, domPath, et);
    }
  }

  lemma {:induction false} ChildrenSameRecords(e: RespoElement, k: nat, coord: seq<Coord>, domPath: seq<nat>, et: EffectType)
    requires k <= |e.children|
    ensures multiset(ChildrenOutsideIn(e, k, coord, domPath, et)) == multiset(ChildrenInsideOut(e, k, coord, domPath, et))
    decreases e, k, 1
  {
    if k > 0 {
      ChildrenSameRecords(e, k - 1, coord, domPath, et);
      ChildSameRecords(e, k, coord, domPath, et);
    }
  }

  lemma {:induction false} ChildSameRecords(e: RespoElement, k: nat, coord: seq<Coord>, domPath: seq<nat>, et: EffectType)
    requires 0 < k <= |e.children|
    requires multiset(ChildrenOutsideIn(e, k - 1, coord, domPath, et)) == multiset(ChildrenInsideOut(e, k - 1, coord, domPath, et))
    ensures multiset(ChildrenOutsideIn(e, k, coord, domPath, et)) == multiset(ChildrenInsideOut(e, k, coord, domPath, et))
    decreases e, k, 0
  {
    var c := e.children[k - 1];
    OutsideInInsideOutSameRecords(c.1, coord + [Key(c.0)], domPath + [k - 1], et);
    ChildrenSameRecordsStep(e, k, coord, domPath, et);
  }

  /** Adding the `k`-th child keeps the two walks' records equal as multisets. */
  lemma ChildrenSameRecordsStep(e: RespoElement, k: nat, coord: seq<Coord>, domPath: seq<nat>, et: EffectType)
    requires 0 < k <= |e.children|
    requires multiset(ChildrenOutsideIn(e, k - 1, coord, domPath, et)) == multiset(ChildrenInsideOut(e, k - 1, coord, domPath, et))
    requires var c := e.children[k - 1];
      multiset(OutsideIn(c.1, coord + [Key(c.0)], domPath + [k - 1], et))
        == multiset(InsideOut(c.1, coord + [Key(c.0)], domPath + [k - 1], et))
    ensures multiset(ChildrenOutsideIn(e, k, coord, domPath, et)) == multiset(ChildrenInsideOut(e, k, coord, domPath, et))
  {
    var c := e.children[k - 1];
    SameMultisetConcat(ChildrenOutsideIn(e, k - 1, coord, domPath, et), OutsideIn(c.1, coord + [Key(c.0)], domPath + [k - 1], et),
                       ChildrenInsideOut(e, k - 1, coord, domPath, et), InsideOut(c.1, coord + [Key(c.0)], domPath + [k - 1], et));
  }

  lemma SameMultisetConcat<T>(a: seq<T>, b: seq<T>, a': seq<T>, b': seq<T>)
    requires multiset(a) == multiset(a') && multiset(b) == multiset(b')
    ensures multiset(a + b) == multiset(a' + b')
  {
    calc {
      multiset(a + b);
      multiset(a) + multiset(b);
      multiset(a') + multiset(b');
      multiset(a' + b');
    }
  }

  /** Both walks give one record per component with a non-empty effect list. */
  lemma {:induction false} OutsideInCount(t: RespoNode, coord: seq<Coord>, domPath: seq<nat>, et: EffectType)
    ensures |OutsideIn(t, coord, domPath, et)| == EffectfulComponents(t)
    ensures |InsideOut(t, coord, domPath, et)| == EffectfulComponents(t)
    decreases t, 0
  {
    match t {
      case Component(name, effs, tree) =>
        OutsideInCount(tree, coord + [Comp(name)], domPath, et);
      case Element(e) =>
        ChildrenCount(e, |e.children|, coord, domPath, et);
      case Referenced(_, cell) =>
        OutsideInCount(cell, coord, domPath, et);
    }
  }

  lemma {:induction false} ChildrenCount(e: RespoElement, k: nat, coord: seq<Coord>, domPath: seq<nat>, et: EffectType)
    requires k <= |e.children|
    ensures |ChildrenOutsideIn(e, k, coord, domPath, et)| == ChildrenEffectful(e, k)
    ensures |ChildrenInsideOut(e, k, coord, domPath, et)| == ChildrenEffectful(e, k)
    decreases e, k
  {
    if k > 0 {
      ChildrenCount(e, k - 1, coord, domPath, et);
      OutsideInCount(e.children[k - 1].1, coord + [Key(e.children[k - 1].0)], domPath + [k - 1], et);
    }
  }

  /** Every record of the two walks is an `Effect` of the requested type, with no skipped
    * index, located inside the walked subtree. */
  lemma {:induction false} RecordsInside(t: RespoNode, coord: seq<Coord>, domPath: seq<nat>, et: EffectType)
    ensures forall c :: c in OutsideIn(t, coord, domPath, et) ==>
      c.Effect? && c.effectType == et && c.skipIndexes == {} && coord <= c.coord && domPath <= c.domPath
    ensures forall c :: c in InsideOut(t, coord, domPath, et) ==>
      c.Effect? && c.effectType == et && c.skipIndexes == {} && coord <= c.coord && domPath <= c.domPath
    decreases t, 0
  {
    match t {
      case Component(name, effs, tree) =>
        RecordsInside(tree, coord + [Comp(name)], domPath, et);
      case Element(e) =>
        ChildrenRecordsInside(e, |e.children|, coord, domPath, et);
      case Referenced(_, cell) =>
        RecordsInside(cell, coord, domPath, et);
    }
  }

  lemma {:induction false} ChildrenRecordsInside(e: RespoElement, k: nat, coord: seq<Coord>, domPath: seq<nat>, et: EffectType)
    requires k <= |e.children|
    ensures forall c :: c in ChildrenOutsideIn(e, k, coord, domPath, et) ==>
      c.Effect? && c.effectType == et && c.skipIndexes == {} && coord <= c.coord && domPath <= c.domPath
    ensures forall c :: c in ChildrenInsideOut(e, k, coord, domPath, et) ==>
      c.Effect? && c.effectType == et && c.skipIndexes == {} && coord <= c.coord && domPath <= c.domPath
    decreases e, k
  {
    if k > 0 {
      ChildrenRecordsInside(e, k - 1, coord, domPath, et);
      var key := e.children[k - 1].0;
      RecordsInside(e.children[k - 1].1, coord + [Key(key)], domPath + [k - 1], et);
    }
  }

  /** A component with effects comes first when mounting and last when unmounting: every
    * other record of its walk lies strictly deeper. */
  lemma ParentOrder(name: string, effs: seq<Effect>, tree: RespoNode, coord: seq<Coord>, domPath: seq<nat>, et: EffectType)
    requires |effs| > 0
    ensures var xs := OutsideIn(Component(name, effs, tree), coord, domPath, et);
      |xs| > 0 && xs[0] == DomChange.Effect(coord, domPath, et, {}) &&
      forall i :: 1 <= i < |xs| ==> |xs[i].coord| > |coord|
    ensures var ys := InsideOut(Component(name, effs, tree), coord, domPath, et);
      |ys| > 0 && ys[|ys| - 1] == DomChange.Effect(coord, domPath, et, {}) &&
      forall i :: 0 <= i < |ys| - 1 ==> |ys[i].coord| > |coord|
  {
    var inner := coord + [Comp(name)];
    RecordsInside(tree, inner, domPath, et);
    var xs := OutsideIn(Component(name, effs, tree), coord, domPath, et);
    forall i | 1 <= i < |xs| ensures |xs[i].coord| > |coord| {
      assert xs[i] in OutsideIn(tree, inner, domPath, et);
    }
    var ys := InsideOut(Component(name, effs, tree), coord, domPath, et);
    forall i | 0 <= i < |ys| - 1 ensures |ys[i].coord| > |coord| {
      assert ys[i] in InsideOut(tree, inner, domPath, et);
    }
  }

  /** `collect_effects_outside_in_as`. */
  method CollectEffectsOutsideIn(t: RespoNode, coord: seq<Coord>, domPath: seq<nat>, et: EffectType, changes: seq<DomChange>)
    returns (changes': seq<DomChange>)
    ensures changes' == changes + OutsideIn(t, coord, domPath, et)
    decreases t
  {
    match t {
      case Component(name, effs, tree) =>
        changes' := changes;
        if |effs| > 0 {
          changes' := changes' + [DomChange.Effect(coord, domPath, et, {})];
        }
        changes' := CollectEffectsOutsideIn(tree, coord + [Comp(name)], domPath, et, changes');
      case Element(e) =>
        changes' := changes;
        for idx := 0 to |e.children|
          invariant changes' == changes + ChildrenOutsideIn(e, idx, coord, domPath, et)
        {
          var (k, child) := e.children[idx];
          changes' := CollectEffectsOutsideIn(child, coord + [Key(k)], domPath + [idx], et, changes');
        }
      case Referenced(_, cell) =>
        changes' := CollectEffectsOutsideIn(cell, coord, domPath, et, changes);
    }
  }

  /** `collect_effects_inside_out_as`. */
  method CollectEffectsInsideOut(t: RespoNode, coord: seq<Coord>, domPath: seq<nat>, et: EffectType, changes: seq<DomChange>)
    returns (changes': seq<DomChange>)
    ensures changes' == changes + InsideOut(t, coord, domPath, et)
    decreases t
  {
    match t {
      case Component(name, effs, tree) =>
        changes' := CollectEffectsInsideOut(tree, coord + [Comp(name)], domPath, et, changes);
        if |effs| > 0 {
          changes' := changes' + [DomChange.Effect(coord, domPath, et, {})];
        }
      case Element(e) =>
        changes' := changes;
        for idx := 0 to |e.children|
          invariant changes' == changes + ChildrenInsideOut(e, idx, coord, domPath, et)
        {
          var (k, child) := e.children[idx];
          changes' := CollectEffectsInsideOut(child, coord + [Key(k)], domPath + [idx], et, changes');
        }
      case Referenced(_, cell) =>
        changes' := CollectEffectsInsideOut(cell, coord, domPath, et, changes);
    }
  }

  // ---------------------------------------------------------------------------
  // Lifecycle effects nested inside a child-list patch: the DOM path is the child's and
  // is not extended below it.

  function NestedOutsideIn(t: RespoNode, coord: seq<Coord>, domPath: seq<nat>, et: EffectType): seq<ChildDomOp>
    decreases t, 0
  {
    match t
    case Component(name, effs, tree) =>
      (if |effs| > 0 then [NestedEffect(coord, domPath, et, {})] else [])
        + NestedOutsideIn(tree, coord + [Comp(name)], domPath, et)
    case Element(e) => ChildrenNestedOutsideIn(e, |e.children|, coord, domPath, et)
    case Referenced(_, cell) => NestedOutsideIn(cell, coord, domPath, et)
  }

  function ChildrenNestedOutsideIn(e: RespoElement, k: nat, coord: seq<Coord>, domPath: seq<nat>, et: EffectType): seq<ChildDomOp>
    requires k <= |e.children|
    decreases e, k
  {
    if k == 0 then [] else
      ChildrenNestedOutsideIn(e, k - 1, coord, domPath, et)
      + NestedOutsideIn(e.children[k - 1].1, coord + [Key(e.children[k - 1].0)], domPath, et)
  }

  function NestedInsideOut(t: RespoNode, coord: seq<Coord>, domPath: seq<nat>, et: EffectType): seq<ChildDomOp>
    decreases t, 0
  {
    match t
    case Component(name, effs, tree) =>
      NestedInsideOut(tree, coord + [Comp(name)], domPath, et)
        + (if |effs| > 0 then [NestedEffect(coord, domPath, et, {})] else [])
    case Element(e) => ChildrenNestedInsideOut(e, |e.children|, coord, domPath, et)
    case Referenced(_, cell) => NestedInsideOut(cell, coord, domPath, et)
  }

  function ChildrenNestedInsideOut(e: RespoElement, k: nat, coord: seq<Coord>, domPath: seq<nat>, et: EffectType): seq<ChildDomOp>
    requires k <= |e.children|
    decreases e, k
  {
    if k == 0 then [] else
      ChildrenNestedInsideOut(e, k - 1, coord, domPath, et)
      + NestedInsideOut(e.children[k - 1].1, coord + [Key(e.children[k - 1].0)], domPath, et)
  }

  /** Nested effect operations never touch the child list, and every one of them carries
    * the DOM path of the child being mounted or unmounted. */
  lemma {:induction false} NestedAreEffects(t: RespoNode, coord: seq<Coord>, domPath: seq<nat>, et: EffectType)
    ensures AllNested(NestedOutsideIn(t, coord, domPath, et)) && AllNested(NestedInsideOut(t, coord, domPath, et))
    ensures forall i :: 0 <= i < |NestedOutsideIn(t, coord, domPath, et)| ==> NestedOutsideIn(t, coord, domPath, et)[i].nestedDomPath == domPath
    ensures forall i :: 0 <= i < |NestedInsideOut(t, coord, domPath, et)| ==> NestedInsideOut(t, coord, domPath, et)[i].nestedDomPath == domPath
    decreases t, 0
  {
    match t {
      case Component(name, effs, tree) =>
        NestedAreEffects(tree, coord + [Comp(name)], domPath, et);
      case Element(e) =>
        ChildrenNestedAreEffects(e, |e.children|, coord, domPath, et);
      case Referenced(_, cell) =>
        NestedAreEffects(cell, coord, domPath, et);
    }
  }

  lemma {:induction false} ChildrenNestedAreEffects(e: RespoElement, k: nat, coord: seq<Coord>, domPath: seq<nat>, et: EffectType)
    requires k <= |e.children|
    ensures AllNested(ChildrenNestedOutsideIn(e, k, coord, domPath, et)) && AllNested(ChildrenNestedInsideOut(e, k, coord, domPath, et))
    ensures forall i :: 0 <= i < |ChildrenNestedOutsideIn(e, k, coord, domPath, et)| ==> ChildrenNestedOutsideIn(e, k, coord, domPath, et)[i].nestedDomPath == domPath
    ensures forall i :: 0 <= i < |ChildrenNestedInsideOut(e, k, coord, domPath, et)| ==> ChildrenNestedInsideOut(e, k, coord, domPath, et)[i].nestedDomPath == domPath
    decreases e, k
  {
    if k > 0 {
      ChildrenNestedAreEffects(e, k - 1, coord, domPath, et);
      NestedAreEffects(e.children[k - 1].1, coord + [Key(e.children[k - 1].0)], domPath, et);
    }
  }

  /** Both nested walks give one operation per component with a non-empty effect list. */
  lemma {:induction false} NestedCount(t: RespoNode, coord: seq<Coord>, domPath: seq<nat>, et: EffectType)
    ensures |NestedOutsideIn(t, coord, domPath, et)| == EffectfulComponents(t)
    ensures |NestedInsideOut(t, coord, domPath, et)| == EffectfulComponents(t)
    decreases t, 0
  {
    match t {
      case Component(name, effs, tree) =>
        NestedCount(tree, coord + [Comp(name)], domPath, et);
      case Element(e) =>
        ChildrenNestedCount(e, |e.children|, coord, domPath, et);
      case Referenced(_, cell) =>
        NestedCount(cell, coord, domPath, et);
    }
  }

  lemma {:induction false} ChildrenNestedCount(e: RespoElement, k: nat, coord: seq<Coord>, domPath: seq<nat>, et: EffectType)
    requires k <= |e.children|
    ensures |ChildrenNestedOutsideIn(e, k, coord, domPath, et)| == ChildrenEffectful(e, k)
    ensures |ChildrenNestedInsideOut(e, k, coord, domPath, et)| == ChildrenEffectful(e, k)
    decreases e, k
  {
    if k > 0 {
      ChildrenNestedCount(e, k - 1, coord, domPath, et);
      NestedCount(e.children[k - 1].1, coord + [Key(e.children[k - 1].0)], domPath, et);
    }
  }

  /** The two nested walks emit the same operations, only in opposite orders. */
  lemma {:induction false} NestedSameOps(t: RespoNode, coord: seq<Coord>, domPath: seq<nat>, et: EffectType)
    ensures multiset(NestedOutsideIn(t, coord, domPath, et)) == multiset(NestedInsideOut(t, coord, domPath, et))
    decreases t, 0, 0
  {
    match t {
      case Component(name, effs, tree) =>
        NestedSameOps(tree, coord + [Comp(name)], domPath, et);
      case Element(e) =>
        ChildrenNestedSameOps(e, |e.children|, coord, domPath, et);
      case Referenced(_, cell) =>
        NestedSameOps(cell, coord, domPath, et);
    }
  }

  lemma {:induction false} ChildrenNestedSameOps(e: RespoElement, k: nat, coord: seq<Coord>, domPath: seq<nat>, et: EffectType)
    requires k <= |e.children|
    ensures multiset(ChildrenNestedOutsideIn(e, k, coord, domPath, et)) == multiset(ChildrenNestedInsideOut(e, k, coord, domPath, et))
    decreases e, k, 1
  {
    if k > 0 {
      ChildrenNestedSameOps(e, k - 1, coord, domPath, et);
      var c := e.children[k - 1];
      NestedSameOps(c.1, coord + [Key(c.0)], domPath, et);
      SameMultisetConcat(ChildrenNestedOutsideIn(e, k - 1, coord, domPath, et), NestedOutsideIn(c.1, coord + [Key(c.0)], domPath, et),
                         ChildrenNestedInsideOut(e, k - 1, coord, domPath, et), NestedInsideOut(c.1, coord + [Key(c.0)], domPath, et));
    }
  }

  /** `nested_effects_outside_in_as`. */
  method NestedEffectsOutsideIn(t: RespoNode, coord: seq<Coord>, domPath: seq<nat>, et: EffectType, ops: seq<ChildDomOp>)
    returns (ops': seq<ChildDomOp>)
    ensures ops' == ops + NestedOutsideIn(t, coord, domPath, et)
    decreases t
  {
    match t {
      case Component(name, effs, tree) =>
        ops' := ops;
        if |effs| > 0 {
          ops' := ops' + [NestedEffect(coord, domPath, et, {})];
        }
        ops' := NestedEffectsOutsideIn(tree, coord + [Comp(name)], domPath, et, ops');
      case Element(e) =>
        ops' := ops;
        for idx := 0 to |e.children|
          invariant ops' == ops + ChildrenNestedOutsideIn(e, idx, coord, domPath, et)
        {
          var (k, child) := e.children[idx];
          ops' := NestedEffectsOutsideIn(child, coord + [Key(k)], domPath, et, ops');
        }
      case Referenced(_, cell) =>
        ops' := NestedEffectsOutsideIn(cell, coord, domPath, et, ops);
    }
  }

  /** `nested_effects_inside_out_as`. */
  method NestedEffectsInsideOut(t: RespoNode, coord: seq<Coord>, domPath: seq<nat>, et: EffectType, ops: seq<ChildDomOp>)
    returns (ops': seq<ChildDomOp>)
    ensures ops' == ops + NestedInsideOut(t, coord, domPath, et)
    decreases t
  {
    match t {
      case Component(name, effs, tree) =>
        ops' := NestedEffectsInsideOut(tree, coord + [Comp(name)], domPath, et, ops);
        if |effs| > 0 {
          ops' := ops' + [NestedEffect(coord, domPath, et, {})];
        }
      case Element(e) =>
        ops' := ops;
        for idx := 0 to |e.children|
          invariant ops' == ops + ChildrenNestedInsideOut(e, idx, coord, domPath, et)
        {
          var (k, child) := e.children[idx];
          ops' := NestedEffectsInsideOut(child, coord + [Key(k)], domPath, et, ops');
        }
      case Referenced(_, cell) =>
        ops' := NestedEffectsInsideOut(cell, coord, domPath, et, ops);
    }
  }

  // ---------------------------------------------------------------------------
  // Effects of a component kept across renders.

  /** Indexes of the effects whose arguments did not change (`skip_indexes`). */
  function SkippedIndexes(effs: seq<Effect>, prevEffs: seq<Effect>): set<nat>
  {
    set i: nat | i < |effs| && i < |prevEffs| && EffectEq(effs[i], prevEffs[i])
  }

  /** `BeforeUpdate` and then `Updated`, both skipping the unchanged effects, unless every effect is unchanged. */
  function EffectUpdates(effs: seq<Effect>, prevEffs: seq<Effect>, coord: seq<Coord>, domPath: seq<nat>): seq<DomChange>
  {
    var skipped := SkippedIndexes(effs, prevEffs);
    if |skipped| < |effs| then
      [DomChange.Effect(coord, domPath, BeforeUpdate, skipped), DomChange.Effect(coord, domPath, Updated, skipped)]
    else []
  }

  function Range(n: nat): (r: set<nat>)
    ensures forall i: nat :: i in r <==> i < n
  {
    if n == 0 then {} else Range(n - 1) + {n - 1}
  }

  lemma {:induction false} RangeSize(n: nat)
    ensures |Range(n)| == n
  {
    if n > 0 {
      RangeSize(n - 1);
    }
  }

  lemma {:induction false} SubsetSize(a: set<nat>, b: set<nat>)
    requires a <= b
    ensures |a| <= |b|
    decreases |b|
  {
    if a != {} {
      var x :| x in a;
      SubsetSize(a - {x}, b - {x});
    }
  }

  /** Every effect has a counterpart at the same index with equal arguments. */
  predicate AllUnchanged(effs: seq<Effect>, prevEffs: seq<Effect>)
  {
    forall i {:trigger effs[i]} :: 0 <= i < |effs| ==> i < |prevEffs| && EffectEq(effs[i], prevEffs[i])
  }

  lemma AllSkipped(effs: seq<Effect>, prevEffs: seq<Effect>)
    requires AllUnchanged(effs, prevEffs)
    ensures SkippedIndexes(effs, prevEffs) == Range(|effs|)
  {
    forall i: nat | i < |effs|
      ensures i in SkippedIndexes(effs, prevEffs)
    {
      assert AllUnchanged(effs, prevEffs);
      var e := effs[i];
      assert i < |prevEffs|;
      assert EffectEq(effs[i], prevEffs[i]);
    }
  }

  /** Update effects are emitted exactly when some effect is new or has other arguments. */
  lemma EffectUpdatesIff(effs: seq<Effect>, prevEffs: seq<Effect>, coord: seq<Coord>, domPath: seq<nat>)
    ensures EffectUpdates(effs, prevEffs, coord, domPath) == [] <==> AllUnchanged(effs, prevEffs)
  {
    var skipped := SkippedIndexes(effs, prevEffs);
    RangeSize(|effs|);
    if AllUnchanged(effs, prevEffs) {
      AllSkipped(effs, prevEffs);
    } else {
      var i :| 0 <= i < |effs| && !(i < |prevEffs| && EffectEq(effs[i], prevEffs[i]));
      SubsetSize(skipped, Range(|effs|) - {i});
      assert |Range(|effs|) - {i}| == |effs| - 1;
    }
  }

  // ---------------------------------------------------------------------------
  // Tree diff.

  /** A replaced subtree: unmount the old one from the inside out, replace the DOM node,
    * then mount the new one from the outside in. */
  function Replace(next: RespoNode, prev: RespoNode, node: RespoNode, coord: seq<Coord>, domPath: seq<nat>): seq<DomChange>
  {
    InsideOut(prev, coord, domPath, BeforeUnmount) + [ReplaceElement(coord, domPath, node)]
      + OutsideIn(next, coord, domPath, Mounted)
  }

  /** The list `diff_tree` leaves behind when called with `changes`, arm by arm in the order
    * the source matches them. Two references to the same shared cell (same `id`) are not
    * compared at all. */
  function DiffTreeSpec(next: RespoNode, prev: RespoNode, coord: seq<Coord>, domPath: seq<nat>, changes: seq<DomChange>)
    : seq<DomChange>
    decreases Size(next) + Size(prev), 0, 0
  {
    if next.Component? && prev.Component? then
      if next.name == prev.name then
        DiffTreeSpec(next.tree, prev.tree, coord + [Comp(next.name)], domPath, changes)
          + EffectUpdates(next.effects, prev.effects, coord, domPath)
      else changes + Replace(next, prev, next.tree, coord, domPath)
    else if next.Component? || prev.Component? then
      changes + Replace(next, prev, next, coord, domPath)
    else if next.Element? && prev.Element? then
      if next.el.name != prev.el.name then
        changes + Replace(next, prev, next, coord, domPath)
      else
        ElementSize(next.el);
        ElementSize(prev.el);
        DiffElementsSpec(next.el, prev.el, coord, domPath, changes)
    else if next.Referenced? && prev.Referenced? then
      if next.id == prev.id then changes else DiffTreeSpec(next.cell, prev.cell, coord, domPath, changes)
    else if next.Referenced? then
      DiffTreeSpec(next.cell, prev, coord, domPath, changes)
    else
      DiffTreeSpec(next, prev.cell, coord, domPath, changes)
  }

  /** Two elements with the same tag: attributes, style, listeners, then children. */
  function DiffElementsSpec(next: RespoElement, prev: RespoElement, coord: seq<Coord>, domPath: seq<nat>,
                            changes: seq<DomChange>): seq<DomChange>
    decreases ChildrenSize(next.children) + ChildrenSize(prev.children), 3, 0
  {
    var own := changes + AttrsChange(next.attrs, prev.attrs, coord, domPath)
      + StyleChange(StyleMap(next.style), StyleMap(prev.style), coord, domPath)
      + EventChange(next.events.Keys, prev.events.Keys, coord, domPath);
    DiffChildrenSpec(next.children, prev.children, coord, domPath, own)
  }

  /** `diff_children`: the changes of the kept children, then one `ModifyChildren` if the
    * child list itself needs patching. */
  function DiffChildrenSpec(next: seq<(IndexKey, RespoNode)>, prev: seq<(IndexKey, RespoNode)>,
                            coord: seq<Coord>, domPath: seq<nat>, changes: seq<DomChange>): seq<DomChange>
    decreases ChildrenSize(next) + ChildrenSize(prev), 2, 0
  {
    var r := ChildrenLoop(next, prev, coord, domPath, 0, 0, 0, changes, []);
    r.0 + (if |r.1| > 0 then [ModifyChildren(coord, domPath, r.1)] else [])
  }

  /** Whether `key` is among the three entries after position `p` (the source's look-ahead). */
  predicate LookAhead(key: IndexKey, cs: seq<(IndexKey, RespoNode)>, p: nat)
  {
    (p + 1 < |cs| && cs[p + 1].0 == key) || (p + 2 < |cs| && cs[p + 2].0 == key)
      || (p + 3 < |cs| && cs[p + 3].0 == key)
  }

  /** Unmount effects of an old child, then its removal at `cursor`. */
  function Unmount(entry: (IndexKey, RespoNode), cursor: nat): seq<ChildDomOp>
  {
    NestedInsideOut(entry.1, [Key(entry.0)], [cursor], BeforeUnmount) + [RemoveAt(cursor)]
  }

  /** Insertion of a new child at DOM position `cursor`. */
  function InsertAt(entry: (IndexKey, RespoNode), cursor: nat): ChildDomOp
  {
    if cursor == 0 then Prepend(entry.0, entry.1) else InsertAfter(cursor - 1, entry.0, entry.1)
  }

  /** Mount effects of a new child placed at `cursor`. */
  function Mount(entry: (IndexKey, RespoNode), cursor: nat): seq<ChildDomOp>
  {
    NestedOutsideIn(entry.1, [Key(entry.0)], [cursor], Mounted)
  }

  /** The loop of `diff_children` from the pointers `np`, `pp` into the new and old lists and
    * DOM position `cursor`, with `changes` and `ops` collected so far: the two lists it ends with. */
  function ChildrenLoop(next: seq<(IndexKey, RespoNode)>, prev: seq<(IndexKey, RespoNode)>,
                        coord: seq<Coord>, domPath: seq<nat>, np: nat, pp: nat, cursor: nat,
                        changes: seq<DomChange>, ops: seq<ChildDomOp>)
    : (seq<DomChange>, seq<ChildDomOp>)
    requires np <= |next| && pp <= |prev|
    decreases ChildrenSize(next) + ChildrenSize(prev), 1, |next| - np + |prev| - pp
  {
    if np >= |next| then
      if pp >= |prev| then (changes, ops)
      else ChildrenLoop(next, prev, coord, domPath, np, pp + 1, cursor, changes, ops + Unmount(prev[pp], cursor))
    else if pp >= |prev| then
      ChildrenLoop(next, prev, coord, domPath, np + 1, pp, cursor, changes,
                   ops + [Append(next[np].0, next[np].1)] + Mount(next[np], cursor))
    else if next[np].0 == prev[pp].0 then
      ChildSizeBound(next, np);
      ChildSizeBound(prev, pp);
      var changes' := DiffTreeSpec(next[np].1, prev[pp].1, coord + [Key(next[np].0)], domPath + [cursor], changes);
      ChildrenLoop(next, prev, coord, domPath, np + 1, pp + 1, cursor + 1, changes', ops)
    else if LookAhead(next[np].0, prev, pp) then
      ChildrenLoop(next, prev, coord, domPath, np, pp + 1, cursor, changes, ops + Unmount(prev[pp], cursor))
    else if LookAhead(prev[pp].0, next, np) then
      ChildrenLoop(next, prev, coord, domPath, np + 1, pp, cursor + 1, changes,
                   ops + [InsertAt(next[np], cursor)] + Mount(next[np], cursor))
    else
      ChildrenLoop(next, prev, coord, domPath, np + 1, pp + 1, cursor + 1, changes,
                   ops + Unmount(prev[pp], cursor) + [InsertAt(next[np], cursor)] + Mount(next[np], cursor))
  }

  /** The `skipped` loop of `diff_tree`. */
  method SkipUnchanged(effs: seq<Effect>, prevEffs: seq<Effect>) returns (skipped: set<nat>)
    ensures skipped == SkippedIndexes(effs, prevEffs)
  {
    skipped := {};
    for idx := 0 to |effs|
      invariant skipped == set i: nat | i < idx && i < |prevEffs| && EffectEq(effs[i], prevEffs[i])
    {
      if idx < |prevEffs| {
        if effs[idx].args == prevEffs[idx].args {
          skipped := skipped + {idx};
        }
      }
    }
  }

  /** The replacement arms of `diff_tree`. */
  method ReplaceTree(next: RespoNode, prev: RespoNode, node: RespoNode, coord: seq<Coord>, domPath: seq<nat>,
                     changes: seq<DomChange>)
    returns (changes': seq<DomChange>)
    ensures changes' == changes + Replace(next, prev, node, coord, domPath)
  {
    changes' := CollectEffectsInsideOut(prev, coord, domPath, BeforeUnmount, changes);
    changes' := changes' + [ReplaceElement(coord, domPath, node)];
    changes' := CollectEffectsOutsideIn(next, coord, domPath, Mounted, changes');
  }

  /** `diff_tree`. */
  method DiffTree(next: RespoNode, prev: RespoNode, coord: seq<Coord>, domPath: seq<nat>, changes: seq<DomChange>)
    returns (changes': seq<DomChange>)
    ensures changes' == DiffTreeSpec(next, prev, coord, domPath, changes)
    decreases Size(next) + Size(prev), 0
  {
    if next.Component? && prev.Component? {
      if next.name == prev.name {
        changes' := DiffTree(next.tree, prev.tree, coord + [Comp(next.name)], domPath, changes);
        var skipped := SkipUnchanged(next.effects, prev.effects);
        if |skipped| < |next.effects| {
          changes' := changes' + [DomChange.Effect(coord, domPath, BeforeUpdate, skipped)];
          changes' := changes' + [DomChange.Effect(coord, domPath, Updated, skipped)];
        }
      } else {
        changes' := ReplaceTree(next, prev, next.tree, coord, domPath, changes);
      }
    } else if next.Component? || prev.Component? {
      changes' := ReplaceTree(next, prev, next, coord, domPath, changes);
    } else if next.Element? && prev.Element? {
      if next.el.name != prev.el.name {
        changes' := ReplaceTree(next, prev, next, coord, domPath, changes);
      } else {
        ElementSize(next.el);
        ElementSize(prev.el);
        changes' := DiffElements(next.el, prev.el, coord, domPath, changes);
      }
    } else if next.Referenced? && prev.Referenced? {
      if next.id == prev.id {
        changes' := changes;
      } else {
        changes' := DiffTree(next.cell, prev.cell, coord, domPath, changes);
      }
    } else if next.Referenced? {
      changes' := DiffTree(next.cell, prev, coord, domPath, changes);
    } else {
      changes' := DiffTree(next, prev.cell, coord, domPath, changes);
    }
  }

  /** The arm of `diff_tree` for two elements with the same tag name. */
  method DiffElements(next: RespoElement, prev: RespoElement, coord: seq<Coord>, domPath: seq<nat>, changes: seq<DomChange>)
    returns (changes': seq<DomChange>)
    ensures changes' == DiffElementsSpec(next, prev, coord, domPath, changes)
    decreases ChildrenSize(next.children) + ChildrenSize(prev.children), 2
  {
    changes' := DiffAttrs(next.attrs, prev.attrs, coord, domPath, changes);
    changes' := DiffStyle(StyleMap(next.style), StyleMap(prev.style), coord, domPath, changes');
    changes' := DiffEvent(next.events, prev.events, coord, domPath, changes');
    changes' := DiffChildren(next.children, prev.children, coord, domPath, changes');
  }

  method UnmountChild(entry: (IndexKey, RespoNode), cursor: nat, ops: seq<ChildDomOp>) returns (ops': seq<ChildDomOp>)
    ensures ops' == ops + Unmount(entry, cursor)
  {
    ops' := NestedEffectsInsideOut(entry.1, [Key(entry.0)], [cursor], BeforeUnmount, ops);
    ops' := ops' + [RemoveAt(cursor)];
  }

  method InsertChild(entry: (IndexKey, RespoNode), cursor: nat, ops: seq<ChildDomOp>) returns (ops': seq<ChildDomOp>)
    ensures ops' == ops + [InsertAt(entry, cursor)] + Mount(entry, cursor)
  {
    if cursor == 0 {
      ops' := ops + [Prepend(entry.0, entry.1)];
    } else {
      ops' := ops + [InsertAfter(cursor - 1, entry.0, entry.1)];
    }
    ops' := NestedEffectsOutsideIn(entry.1, [Key(entry.0)], [cursor], Mounted, ops');
  }

  /** `diff_children`: the two-pointer walk over the new and old child lists. */
  method DiffChildren(next: seq<(IndexKey, RespoNode)>, prev: seq<(IndexKey, RespoNode)>,
                      coord: seq<Coord>, domPath: seq<nat>, changes: seq<DomChange>)
    returns (changes': seq<DomChange>)
    ensures changes' == DiffChildrenSpec(next, prev, coord, domPath, changes)
    decreases ChildrenSize(next) + ChildrenSize(prev), 1
  {
    ghost var all := ChildrenLoop(next, prev, coord, domPath, 0, 0, 0, changes, []);
    var cursor: nat := 0;
    var operations: seq<ChildDomOp> := [];
    var np: nat := 0;
    var pp: nat := 0;
    changes' := changes;
    while true
      invariant np <= |next| && pp <= |prev|
      invariant ChildrenLoop(next, prev, coord, domPath, np, pp, cursor, changes', operations) == all
      decreases |next| - np + |prev| - pp
    {
      if np >= |next| {
        if pp >= |prev| {
          if |operations| > 0 {
            changes' := changes' + [ModifyChildren(coord, domPath, operations)];
          }
          return;
        } else {
          operations := UnmountChild(prev[pp], cursor, operations);
          pp := pp + 1;
        }
      } else if pp >= |prev| {
        var (key, child) := next[np];
        operations := operations + [Append(key, child)];
        operations := NestedEffectsOutsideIn(child, [Key(key)], [cursor], Mounted, operations);
        np := np + 1;
      } else if next[np].0 == prev[pp].0 {
        ChildSizeBound(next, np);
        ChildSizeBound(prev, pp);
        changes' := DiffTree(next[np].1, prev[pp].1, coord + [Key(next[np].0)], domPath + [cursor], changes');
        cursor := cursor + 1;
        np := np + 1;
        pp := pp + 1;
      } else if LookAhead(next[np].0, prev, pp) {
        operations := UnmountChild(prev[pp], cursor, operations);
        pp := pp + 1;
      } else if LookAhead(prev[pp].0, next, np) {
        operations := InsertChild(next[np], cursor, operations);
        cursor := cursor + 1;
        np := np + 1;
      } else {
        operations := UnmountChild(prev[pp], cursor, operations);
        operations := InsertChild(next[np], cursor, operations);
        cursor := cursor + 1;
        np := np + 1;
        pp := pp + 1;
      }
    }
  }

  // ---------------------------------------------------------------------------
  // What the child operations do to the DOM's child list.

  lemma ApplyAfter(ops: seq<ChildDomOp>, more: seq<ChildDomOp>, keys: seq<IndexKey>, mid: seq<IndexKey>)
    requires ApplyChildOps(ops, keys) == Some(mid)
    ensures ApplyChildOps(ops + more, keys) == ApplyChildOps(more, mid)
  {
    ApplyChildOpsAppend(ops, more, keys);
  }

  lemma ApplySingle(op: ChildDomOp, keys: seq<IndexKey>)
    ensures ApplyChildOps([op], keys) == ApplyChildOp(op, keys)
  {
    assert [op][1..] == [];
  }

  lemma ApplyUnmount(entry: (IndexKey, RespoNode), cursor: nat, keys: seq<IndexKey>)
    ensures ApplyChildOps(Unmount(entry, cursor), keys) == ApplyChildOp(RemoveAt(cursor), keys)
  {
    var nested := NestedInsideOut(entry.1, [Key(entry.0)], [cursor], BeforeUnmount);
    NestedAreEffects(entry.1, [Key(entry.0)], [cursor], BeforeUnmount);
    ApplyNestedOnly(nested, keys);
    ApplyAfter(nested, [RemoveAt(cursor)], keys, keys);
    ApplySingle(RemoveAt(cursor), keys);
  }

  lemma ApplyMount(entry: (IndexKey, RespoNode), cursor: nat, keys: seq<IndexKey>)
    ensures ApplyChildOps(Mount(entry, cursor), keys) == Some(keys)
  {
    NestedAreEffects(entry.1, [Key(entry.0)], [cursor], Mounted);
    ApplyNestedOnly(Mount(entry, cursor), keys);
  }

  /** Each step of the loop, as a patch on the child list it has reached. */
  lemma ApplyStep(ops: seq<ChildDomOp>, op: ChildDomOp, entry: (IndexKey, RespoNode), cursor: nat,
                  keys: seq<IndexKey>, mid: seq<IndexKey>, after: seq<IndexKey>)
    requires ApplyChildOps(ops, keys) == Some(mid)
    requires ApplyChildOp(op, mid) == Some(after)
    ensures ApplyChildOps(ops + [op] + Mount(entry, cursor), keys) == Some(after)
  {
    ApplyAfter(ops, [op], keys, mid);
    ApplySingle(op, mid);
    ApplyAfter(ops + [op], Mount(entry, cursor), keys, after);
    ApplyMount(entry, cursor, after);
  }

  lemma ApplyRemoveStep(ops: seq<ChildDomOp>, entry: (IndexKey, RespoNode), cursor: nat,
                        keys: seq<IndexKey>, mid: seq<IndexKey>)
    requires ApplyChildOps(ops, keys) == Some(mid)
    requires cursor < |mid|
    ensures ApplyChildOps(ops + Unmount(entry, cursor), keys) == Some(mid[..cursor] + mid[cursor + 1..])
  {
    ApplyAfter(ops, Unmount(entry, cursor), keys, mid);
    ApplyUnmount(entry, cursor, mid);
  }

  lemma InsertAtPlaces(entry: (IndexKey, RespoNode), cursor: nat, mid: seq<IndexKey>)
    requires cursor <= |mid|
    ensures ApplyChildOp(InsertAt(entry, cursor), mid) == Some(mid[..cursor] + [entry.0] + mid[cursor..])
  {
    if cursor > 0 {
      assert mid[..cursor - 1 + 1] == mid[..cursor];
      assert mid[cursor - 1 + 1..] == mid[cursor..];
    } else {
      assert mid[..0] + [entry.0] + mid[0..] == [entry.0] + mid;
    }
  }

  /** Removing the old child at `pp`, which sits at DOM position `cursor == np`. */
  lemma StepRemove(next: seq<(IndexKey, RespoNode)>, prev: seq<(IndexKey, RespoNode)>, np: nat, pp: nat,
                   ops: seq<ChildDomOp>)
    requires np <= |next| && pp < |prev|
    requires ApplyChildOps(ops, Keys(prev)) == Some(Keys(next)[..np] + Keys(prev)[pp..])
    ensures ApplyChildOps(ops + Unmount(prev[pp], np), Keys(prev)) == Some(Keys(next)[..np] + Keys(prev)[pp + 1..])
  {
    var nk, pk := Keys(next), Keys(prev);
    var mid := nk[..np] + pk[pp..];
    ApplyRemoveStep(ops, prev[pp], np, pk, mid);
    assert mid[..np] == nk[..np];
    assert mid[np + 1..] == pk[pp + 1..];
  }

  /** Appending the new child at `np` once the old list is used up. */
  lemma StepAppend(next: seq<(IndexKey, RespoNode)>, prev: seq<(IndexKey, RespoNode)>, np: nat, pp: nat, cursor: nat,
                   ops: seq<ChildDomOp>)
    requires np < |next| && pp == |prev|
    requires ApplyChildOps(ops, Keys(prev)) == Some(Keys(next)[..np] + Keys(prev)[pp..])
    ensures ApplyChildOps(ops + [Append(next[np].0, next[np].1)] + Mount(next[np], cursor), Keys(prev))
         == Some(Keys(next)[..np + 1] + Keys(prev)[pp..])
  {
    var nk, pk := Keys(next), Keys(prev);
    var mid := nk[..np] + pk[pp..];
    assert mid == nk[..np];
    assert nk[..np + 1] == nk[..np] + [next[np].0];
    assert nk[..np + 1] + pk[pp..] == nk[..np + 1];
    ApplyStep(ops, Append(next[np].0, next[np].1), next[np], cursor, pk, mid, nk[..np + 1]);
  }

  /** Inserting the new child at `np` at DOM position `cursor == np`. */
  lemma StepInsert(next: seq<(IndexKey, RespoNode)>, prev: seq<(IndexKey, RespoNode)>, np: nat, pp: nat,
                   ops: seq<ChildDomOp>)
    requires np < |next| && pp <= |prev|
    requires ApplyChildOps(ops, Keys(prev)) == Some(Keys(next)[..np] + Keys(prev)[pp..])
    ensures ApplyChildOps(ops + [InsertAt(next[np], np)] + Mount(next[np], np), Keys(prev))
         == Some(Keys(next)[..np + 1] + Keys(prev)[pp..])
  {
    var nk, pk := Keys(next), Keys(prev);
    var mid := nk[..np] + pk[pp..];
    InsertAtPlaces(next[np], np, mid);
    assert mid[..np] == nk[..np];
    assert mid[np..] == pk[pp..];
    assert nk[..np + 1] == nk[..np] + [next[np].0];
    assert mid[..np] + [next[np].0] + mid[np..] == nk[..np + 1] + pk[pp..];
    ApplyStep(ops, InsertAt(next[np], np), next[np], np, pk, mid, nk[..np + 1] + pk[pp..]);
  }

  /** The state the loop of `diff_children` keeps: the operations collected so far turn the
    * old keys into the first `np` new keys followed by the old keys from `pp` on, and while
    * old children remain the DOM position is the number of new children placed. */
  predicate Reached(next: seq<(IndexKey, RespoNode)>, prev: seq<(IndexKey, RespoNode)>, np: nat, pp: nat, cursor: nat,
                    ops: seq<ChildDomOp>)
  {
    np <= |next| && pp <= |prev| && (pp < |prev| ==> cursor == np)
      && ApplyChildOps(ops, Keys(prev)) == Some(Keys(next)[..np] + Keys(prev)[pp..])
  }

  /** The invariant of the loop of `diff_children`: from any state it keeps, the finished
    * operation list turns the old keys into exactly the new keys. */
  lemma {:induction false} ChildrenLoopPatches(next: seq<(IndexKey, RespoNode)>, prev: seq<(IndexKey, RespoNode)>,
                                               coord: seq<Coord>, domPath: seq<nat>, np: nat, pp: nat, cursor: nat,
                                               changes: seq<DomChange>, ops: seq<ChildDomOp>)
    requires Reached(next, prev, np, pp, cursor, ops)
    ensures ApplyChildOps(ChildrenLoop(next, prev, coord, domPath, np, pp, cursor, changes, ops).1, Keys(prev)) == Some(Keys(next))
    decreases |next| - np + |prev| - pp, 1
  {
    if np >= |next| && pp >= |prev| {
      assert Keys(next)[..np] + Keys(prev)[pp..] == Keys(next);
    } else if np >= |next| || pp >= |prev| {
      PatchesAtEnd(next, prev, coord, domPath, np, pp, cursor, changes, ops);
    } else if next[np].0 == prev[pp].0 {
      PatchesSameKey(next, prev, coord, domPath, np, pp, cursor, changes, ops);
    } else {
      PatchesMismatch(next, prev, coord, domPath, np, pp, cursor, changes, ops);
    }
  }

  lemma {:induction false} PatchesAtEnd(next: seq<(IndexKey, RespoNode)>, prev: seq<(IndexKey, RespoNode)>,
                                        coord: seq<Coord>, domPath: seq<nat>, np: nat, pp: nat, cursor: nat,
                                        changes: seq<DomChange>, ops: seq<ChildDomOp>)
    requires Reached(next, prev, np, pp, cursor, ops)
    requires (np >= |next|) != (pp >= |prev|)
    ensures ApplyChildOps(ChildrenLoop(next, prev, coord, domPath, np, pp, cursor, changes, ops).1, Keys(prev)) == Some(Keys(next))
    decreases |next| - np + |prev| - pp, 0
  {
    if np >= |next| {
      var ops' := ops + Unmount(prev[pp], cursor);
      assert ChildrenLoop(next, prev, coord, domPath, np, pp, cursor, changes, ops)
          == ChildrenLoop(next, prev, coord, domPath, np, pp + 1, cursor, changes, ops');
      StepRemove(next, prev, np, pp, ops);
      ChildrenLoopPatches(next, prev, coord, domPath, np, pp + 1, cursor, changes, ops');
    } else {
      var ops' := ops + [Append(next[np].0, next[np].1)] + Mount(next[np], cursor);
      assert ChildrenLoop(next, prev, coord, domPath, np, pp, cursor, changes, ops)
          == ChildrenLoop(next, prev, coord, domPath, np + 1, pp, cursor, changes, ops');
      StepAppend(next, prev, np, pp, cursor, ops);
      ChildrenLoopPatches(next, prev, coord, domPath, np + 1, pp, cursor, changes, ops');
    }
  }

  lemma {:induction false} PatchesSameKey(next: seq<(IndexKey, RespoNode)>, prev: seq<(IndexKey, RespoNode)>,
                                          coord: seq<Coord>, domPath: seq<nat>, np: nat, pp: nat, cursor: nat,
                                          changes: seq<DomChange>, ops: seq<ChildDomOp>)
    requires Reached(next, prev, np, pp, cursor, ops)
    requires np < |next| && pp < |prev| && next[np].0 == prev[pp].0
    ensures ApplyChildOps(ChildrenLoop(next, prev, coord, domPath, np, pp, cursor, changes, ops).1, Keys(prev)) == Some(Keys(next))
    decreases |next| - np + |prev| - pp, 0
  {
    ChildSizeBound(next, np);
    ChildSizeBound(prev, pp);
    var changes' := DiffTreeSpec(next[np].1, prev[pp].1, coord + [Key(next[np].0)], domPath + [cursor], changes);
    assert ChildrenLoop(next, prev, coord, domPath, np, pp, cursor, changes, ops)
        == ChildrenLoop(next, prev, coord, domPath, np + 1, pp + 1, cursor + 1, changes', ops);
    var nk, pk := Keys(next), Keys(prev);
    assert nk[..np + 1] == nk[..np] + [next[np].0];
    assert pk[pp..] == [prev[pp].0] + pk[pp + 1..];
    assert nk[..np] + pk[pp..] == nk[..np + 1] + pk[pp + 1..];
    ChildrenLoopPatches(next, prev, coord, domPath, np + 1, pp + 1, cursor + 1, changes', ops);
  }

  lemma {:induction false} PatchesMismatch(next: seq<(IndexKey, RespoNode)>, prev: seq<(IndexKey, RespoNode)>,
                                           coord: seq<Coord>, domPath: seq<nat>, np: nat, pp: nat, cursor: nat,
                                           changes: seq<DomChange>, ops: seq<ChildDomOp>)
    requires Reached(next, prev, np, pp, cursor, ops)
    requires np < |next| && pp < |prev| && next[np].0 != prev[pp].0
    ensures ApplyChildOps(ChildrenLoop(next, prev, coord, domPath, np, pp, cursor, changes, ops).1, Keys(prev)) == Some(Keys(next))
    decreases |next| - np + |prev| - pp, 0
  {
    var here := ChildrenLoop(next, prev, coord, domPath, np, pp, cursor, changes, ops);
    if LookAhead(next[np].0, prev, pp) {
      var ops' := ops + Unmount(prev[pp], cursor);
      assert here == ChildrenLoop(next, prev, coord, domPath, np, pp + 1, cursor, changes, ops');
      StepRemove(next, prev, np, pp, ops);
      ChildrenLoopPatches(next, prev, coord, domPath, np, pp + 1, cursor, changes, ops');
    } else if LookAhead(prev[pp].0, next, np) {
      var ops' := ops + [InsertAt(next[np], cursor)] + Mount(next[np], cursor);
      assert here == ChildrenLoop(next, prev, coord, domPath, np + 1, pp, cursor + 1, changes, ops');
      StepInsert(next, prev, np, pp, ops);
      ChildrenLoopPatches(next, prev, coord, domPath, np + 1, pp, cursor + 1, changes, ops');
    } else {
      var ops1 := ops + Unmount(prev[pp], cursor);
      var ops' := ops1 + [InsertAt(next[np], cursor)] + Mount(next[np], cursor);
      assert here == ChildrenLoop(next, prev, coord, domPath, np + 1, pp + 1, cursor + 1, changes, ops');
      StepRemove(next, prev, np, pp, ops);
      StepInsert(next, prev, np, pp + 1, ops1);
      ChildrenLoopPatches(next, prev, coord, domPath, np + 1, pp + 1, cursor + 1, changes, ops');
    }
  }

  /** The operations `diff_children` collects turn the old child keys into the new ones, and
    * change the number of children by the insertions minus the removals. */
  lemma ChildOpsPatch(next: seq<(IndexKey, RespoNode)>, prev: seq<(IndexKey, RespoNode)>,
                        coord: seq<Coord>, domPath: seq<nat>, changes: seq<DomChange>)
    ensures var ops := ChildrenLoop(next, prev, coord, domPath, 0, 0, 0, changes, []).1;
      ApplyChildOps(ops, Keys(prev)) == Some(Keys(next))
      && |next| == |prev| + Inserts(ops) - Removes(ops)
  {
    assert Keys(next)[..0] + Keys(prev)[0..] == Keys(prev);
    assert Reached(next, prev, 0, 0, 0, []);
    ChildrenLoopPatches(next, prev, coord, domPath, 0, 0, 0, changes, []);
    ApplyChildOpsLength(ChildrenLoop(next, prev, coord, domPath, 0, 0, 0, changes, []).1, Keys(prev));
  }

  /** Keys that agree from position `i` on produce no child operations from there. */
  lemma {:induction false} SameKeysNoOps(next: seq<(IndexKey, RespoNode)>, prev: seq<(IndexKey, RespoNode)>,
                                         coord: seq<Coord>, domPath: seq<nat>, i: nat, cursor: nat,
                                         changes: seq<DomChange>, ops: seq<ChildDomOp>)
    requires Keys(next) == Keys(prev) && i <= |next|
    ensures ChildrenLoop(next, prev, coord, domPath, i, i, cursor, changes, ops).1 == ops
    decreases |next| - i
  {
    if i < |next| {
      assert next[i].0 == Keys(next)[i] == prev[i].0;
      ChildSizeBound(next, i);
      ChildSizeBound(prev, i);
      var changes' := DiffTreeSpec(next[i].1, prev[i].1, coord + [Key(next[i].0)], domPath + [cursor], changes);
      assert ChildrenLoop(next, prev, coord, domPath, i, i, cursor, changes, ops)
          == ChildrenLoop(next, prev, coord, domPath, i + 1, i + 1, cursor + 1, changes', ops);
      SameKeysNoOps(next, prev, coord, domPath, i + 1, cursor + 1, changes', ops);
    }
  }

  /** `diff_children` emits a `ModifyChildren` exactly when the key sequences differ. */
  lemma ChildOpsEmptyIff(next: seq<(IndexKey, RespoNode)>, prev: seq<(IndexKey, RespoNode)>,
                         coord: seq<Coord>, domPath: seq<nat>, changes: seq<DomChange>)
    ensures ChildrenLoop(next, prev, coord, domPath, 0, 0, 0, changes, []).1 == [] <==> Keys(next) == Keys(prev)
  {
    ChildOpsPatch(next, prev, coord, domPath, changes);
    if Keys(next) == Keys(prev) {
      SameKeysNoOps(next, prev, coord, domPath, 0, 0, changes, []);
    }
  }

  // ---------------------------------------------------------------------------
  // Diffing a tree against itself.

  /** A tree compared with itself yields no change at all. */
  lemma {:induction false} DiffTreeIdentity(t: RespoNode, coord: seq<Coord>, domPath: seq<nat>, changes: seq<DomChange>)
    ensures DiffTreeSpec(t, t, coord, domPath, changes) == changes
    decreases Size(t) + Size(t), 0, 0
  {
    match t {
      case Component(name, effs, tree) =>
        DiffTreeIdentity(tree, coord + [Comp(name)], domPath, changes);
        EffectUpdatesIff(effs, effs, coord, domPath);
      case Element(e) =>
        ElementSize(e);
        MapDeltaEmptyIff(e.attrs, e.attrs);
        MapDeltaEmptyIff(StyleMap(e.style), StyleMap(e.style));
        assert AttrsChange(e.attrs, e.attrs, coord, domPath) == [];
        assert StyleChange(StyleMap(e.style), StyleMap(e.style), coord, domPath) == [];
        assert EventChange(e.events.Keys, e.events.Keys, coord, domPath) == [];
        ChildrenIdentity(e.children, coord, domPath, 0, changes, []);
        assert DiffChildrenSpec(e.children, e.children, coord, domPath, changes) == changes;
        assert DiffElementsSpec(e, e, coord, domPath, changes) == changes;
      case Referenced(_, _) =>
    }
  }

  lemma {:induction false} ChildrenIdentity(cs: seq<(IndexKey, RespoNode)>, coord: seq<Coord>, domPath: seq<nat>, i: nat,
                                            changes: seq<DomChange>, ops: seq<ChildDomOp>)
    requires i <= |cs|
    ensures ChildrenLoop(cs, cs, coord, domPath, i, i, i, changes, ops) == (changes, ops)
    decreases ChildrenSize(cs) + ChildrenSize(cs), 1, |cs| - i
  {
    if i < |cs| {
      ChildSizeBound(cs, i);
      DiffTreeIdentity(cs[i].1, coord + [Key(cs[i].0)], domPath + [i], changes);
      ChildrenIdentity(cs, coord, domPath, i + 1, changes, ops);
    }
  }

  // ---------------------------------------------------------------------------
  // The diff only appends to the list it is given.

  /** `diff_tree` never touches the changes already in the list: it appends, and what it
    * appends does not depend on them. */
  lemma {:induction false} DiffTreeAppends(next: RespoNode, prev: RespoNode, coord: seq<Coord>, domPath: seq<nat>,
                                           changes: seq<DomChange>)
    ensures DiffTreeSpec(next, prev, coord, domPath, changes) == changes + DiffTreeSpec(next, prev, coord, domPath, [])
    decreases Size(next) + Size(prev), 1, 0
  {
    if next.Component? && prev.Component? {
      if next.name == prev.name {
        DiffTreeAppends(next.tree, prev.tree, coord + [Comp(next.name)], domPath, changes);
      }
    } else if next.Component? || prev.Component? {
    } else if next.Element? && prev.Element? {
      if next.el.name == prev.el.name {
        ElementSize(next.el);
        ElementSize(prev.el);
        ElementsAppend(next.el, prev.el, coord, domPath, changes);
      }
    } else if next.Referenced? && prev.Referenced? {
      if next.id != prev.id {
        DiffTreeAppends(next.cell, prev.cell, coord, domPath, changes);
      }
    } else if next.Referenced? {
      DiffTreeAppends(next.cell, prev, coord, domPath, changes);
    } else {
      DiffTreeAppends(next, prev.cell, coord, domPath, changes);
    }
  }

  /** The element arm of `DiffTreeAppends`: attributes, style, events, then the children. */
  lemma {:induction false} ElementsAppend(next: RespoElement, prev: RespoElement, coord: seq<Coord>, domPath: seq<nat>,
                                          changes: seq<DomChange>)
    ensures DiffElementsSpec(next, prev, coord, domPath, changes) == changes + DiffElementsSpec(next, prev, coord, domPath, [])
    decreases ChildrenSize(next.children) + ChildrenSize(prev.children), 3, 0
  {
    var a := AttrsChange(next.attrs, prev.attrs, coord, domPath);
    var st := StyleChange(StyleMap(next.style), StyleMap(prev.style), coord, domPath);
    var ev := EventChange(next.events.Keys, prev.events.Keys, coord, domPath);
    var own := a + st + ev;
    var tail := DiffChildrenSpec(next.children, prev.children, coord, domPath, []);
    calc {
      DiffElementsSpec(next, prev, coord, domPath, changes);
      DiffChildrenSpec(next.children, prev.children, coord, domPath, changes + a + st + ev);
      { assert changes + a + st + ev == changes + own; }
      DiffChildrenSpec(next.children, prev.children, coord, domPath, changes + own);
      { DiffChildrenAppends(next.children, prev.children, coord, domPath, changes + own); }
      (changes + own) + tail;
      changes + (own + tail);
      { DiffChildrenAppends(next.children, prev.children, coord, domPath, own); }
      changes + DiffChildrenSpec(next.children, prev.children, coord, domPath, own);
      { assert [] + a + st + ev == own; }
      changes + DiffChildrenSpec(next.children, prev.children, coord, domPath, [] + a + st + ev);
      changes + DiffElementsSpec(next, prev, coord, domPath, []);
    }
  }

  lemma {:induction false} DiffChildrenAppends(next: seq<(IndexKey, RespoNode)>, prev: seq<(IndexKey, RespoNode)>,
                                               coord: seq<Coord>, domPath: seq<nat>, changes: seq<DomChange>)
    ensures DiffChildrenSpec(next, prev, coord, domPath, changes) == changes + DiffChildrenSpec(next, prev, coord, domPath, [])
    decreases ChildrenSize(next) + ChildrenSize(prev), 2, 0
  {
    LoopAppends(next, prev, coord, domPath, 0, 0, 0, changes, []);
  }

  lemma {:induction false} LoopAppends(next: seq<(IndexKey, RespoNode)>, prev: seq<(IndexKey, RespoNode)>,
                                       coord: seq<Coord>, domPath: seq<nat>, np: nat, pp: nat, cursor: nat,
                                       changes: seq<DomChange>, ops: seq<ChildDomOp>)
    requires np <= |next| && pp <= |prev|
    ensures var r := ChildrenLoop(next, prev, coord, domPath, np, pp, cursor, [], ops);
      ChildrenLoop(next, prev, coord, domPath, np, pp, cursor, changes, ops) == (changes + r.0, r.1)
    decreases ChildrenSize(next) + ChildrenSize(prev), 1, |next| - np + |prev| - pp
  {
    if np >= |next| && pp >= |prev| {
      assert changes + [] == changes;
    } else if np < |next| && pp < |prev| && next[np].0 == prev[pp].0 {
      LoopAppendsSameKey(next, prev, coord, domPath, np, pp, cursor, changes, ops);
    } else {
      LoopAppendsOpsOnly(next, prev, coord, domPath, np, pp, cursor, changes, ops);
    }
  }

  lemma {:induction false} LoopAppendsSameKey(next: seq<(IndexKey, RespoNode)>, prev: seq<(IndexKey, RespoNode)>,
                                              coord: seq<Coord>, domPath: seq<nat>, np: nat, pp: nat, cursor: nat,
                                              changes: seq<DomChange>, ops: seq<ChildDomOp>)
    requires np < |next| && pp < |prev| && next[np].0 == prev[pp].0
    ensures var r := ChildrenLoop(next, prev, coord, domPath, np, pp, cursor, [], ops);
      ChildrenLoop(next, prev, coord, domPath, np, pp, cursor, changes, ops) == (changes + r.0, r.1)
    decreases ChildrenSize(next) + ChildrenSize(prev), 1, |next| - np + |prev| - pp, 0
  {
    ChildSizeBound(next, np);
    ChildSizeBound(prev, pp);
    var childCoord, childPath := coord + [Key(next[np].0)], domPath + [cursor];
    var sub := DiffTreeSpec(next[np].1, prev[pp].1, childCoord, childPath, []);
    DiffTreeAppends(next[np].1, prev[pp].1, childCoord, childPath, changes);
    var rest := ChildrenLoop(next, prev, coord, domPath, np + 1, pp + 1, cursor + 1, [], ops);
    assert ChildrenLoop(next, prev, coord, domPath, np, pp, cursor, changes, ops)
        == ChildrenLoop(next, prev, coord, domPath, np + 1, pp + 1, cursor + 1, changes + sub, ops);
    assert ChildrenLoop(next, prev, coord, domPath, np, pp, cursor, [], ops)
        == ChildrenLoop(next, prev, coord, domPath, np + 1, pp + 1, cursor + 1, sub, ops);
    LoopAppends(next, prev, coord, domPath, np + 1, pp + 1, cursor + 1, changes + sub, ops);
    LoopAppends(next, prev, coord, domPath, np + 1, pp + 1, cursor + 1, sub, ops);
    assert changes + sub + rest.0 == changes + (sub + rest.0);
  }

  lemma {:induction false} LoopAppendsOpsOnly(next: seq<(IndexKey, RespoNode)>, prev: seq<(IndexKey, RespoNode)>,
                                              coord: seq<Coord>, domPath: seq<nat>, np: nat, pp: nat, cursor: nat,
                                              changes: seq<DomChange>, ops: seq<ChildDomOp>)
    requires np <= |next| && pp <= |prev|
    requires np < |next| || pp < |prev|
    requires np < |next| && pp < |prev| ==> next[np].0 != prev[pp].0
    ensures var r := ChildrenLoop(next, prev, coord, domPath, np, pp, cursor, [], ops);
      ChildrenLoop(next, prev, coord, domPath, np, pp, cursor, changes, ops) == (changes + r.0, r.1)
    decreases ChildrenSize(next) + ChildrenSize(prev), 1, |next| - np + |prev| - pp, 0
  {
    if np >= |next| || (pp < |prev| && LookAhead(next[np].0, prev, pp)) {
      LoopAppends(next, prev, coord, domPath, np, pp + 1, cursor, changes, ops + Unmount(prev[pp], cursor));
    } else if pp >= |prev| {
      LoopAppends(next, prev, coord, domPath, np + 1, pp, cursor, changes,
                  ops + [Append(next[np].0, next[np].1)] + Mount(next[np], cursor));
    } else if LookAhead(prev[pp].0, next, np) {
      LoopAppends(next, prev, coord, domPath, np + 1, pp, cursor + 1, changes,
                  ops + [InsertAt(next[np], cursor)] + Mount(next[np], cursor));
    } else {
      LoopAppends(next, prev, coord, domPath, np + 1, pp + 1, cursor + 1, changes,
                  ops + Unmount(prev[pp], cursor) + [InsertAt(next[np], cursor)] + Mount(next[np], cursor));
    }
  }

  // ---------------------------------------------------------------------------
  // Replacing an element.

  /** Two elements with different tags: the old subtree is unmounted, then one
    * `ReplaceElement` installs the NEW element, then the new subtree is mounted. */
  lemma ReplaceCarriesNew(next: RespoNode, prev: RespoNode, coord: seq<Coord>, domPath: seq<nat>,
                          changes: seq<DomChange>)
    requires next.Element? && prev.Element? && next.el.name != prev.el.name
    ensures var r := DiffTreeSpec(next, prev, coord, domPath, changes);
      r[..|changes|] == changes && ReplaceElement(coord, domPath, next) in r[|changes|..] &&
      forall c :: c in r[|changes|..] && c.ReplaceElement? ==> c.node == next
  {
    RecordsInside(prev, coord, domPath, BeforeUnmount);
    RecordsInside(next, coord, domPath, Mounted);
    var r := DiffTreeSpec(next, prev, coord, domPath, changes);
    assert r[|changes|..] == Replace(next, prev, next, coord, domPath);
  }
}
