/** The persistent states tree of the older generation (`src/respo/states_tree.rs`):
  * `set_in` builds a new tree and never touches the old one. A local state is an
  * `Rc<dyn RespoCacheable>` compared by pointer; here each allocation is a number. */
module LegacyStatesTree {
  import opened Wrappers

  /** `LocalState`: no state, or the identity of the shared allocation holding it. */
  type LocalState = Option<nat>

  /** `PartialEq for LocalState`: both absent, or both present and the same allocation. */
  predicate LocalStateEq(a: LocalState, b: LocalState)
  {
    match (a, b)
    case (None, None) => true
    case (Some(x), Some(y)) => x == y
    case _ => false
  }

  /** Absent states are equal, absent and present differ, present states are equal exactly
    * when they share the allocation. */
  lemma LocalStateEqIsIdentity(a: LocalState, b: LocalState)
    ensures LocalStateEq(None, None)
    ensures a.None? != b.None? ==> !LocalStateEq(a, b)
    ensures a.Some? && b.Some? ==> (LocalStateEq(a, b) <==> a.value == b.value)
  {
  }

  datatype Tree = Tree(data: LocalState, cursor: seq<string>, branches: map<string, Tree>)

  /** `load`: the state of this node. */
  function Load(t: Tree): (r: LocalState)
    ensures t.data.None? ==> r.None?
    ensures LocalStateEq(r, t.data)
  {
    t.data
  }

  /** `pick`: an empty node one level down; the branch already stored under `name`, if
    * any, is not looked at. */
  function Pick(t: Tree, name: string): (r: Tree)
    ensures r.cursor == t.cursor + [name] && r.data.None? && r.branches == map[]
  {
    Tree(None, t.cursor + [name], map[])
  }

  /** The node at the end of a path of branch keys. */
  function Get(t: Tree, path: seq<string>): Option<Tree>
    decreases |path|
  {
    if |path| == 0 then Some(t)
    else if path[0] in t.branches then Get(t.branches[path[0]], path[1..])
    else None
  }

  /** `set_in` as written: when the head of the path has no branch yet, an empty picked
    * branch is inserted and the new state is not stored anywhere. */
  function SetIn(t: Tree, path: seq<string>, newState: LocalState): Tree
    decreases |path|
  {
    if |path| == 0 then Tree(newState, t.cursor, t.branches)
    else if path[0] in t.branches then
      t.(branches := t.branches[path[0] := SetIn(t.branches[path[0]], path[1..], newState)])
    else t.(branches := t.branches[path[0] := Pick(t, path[0])])
  }

  /** `set_in` as intended: a missing branch is picked and the update continues into it. */
  function SetInFixed(t: Tree, path: seq<string>, newState: LocalState): Tree
    decreases |path|
  {
    if |path| == 0 then Tree(newState, t.cursor, t.branches)
    else
      var branch := if path[0] in t.branches then t.branches[path[0]] else Pick(t, path[0]);
      t.(branches := t.branches[path[0] := SetInFixed(branch, path[1..], newState)])
  }

  /** Both versions: an empty path gives the new state with the same cursor and branches; a
    * non-empty one keeps this node's data and cursor and every branch off the path. */
  lemma SetInFrame(t: Tree, path: seq<string>, s: LocalState)
    ensures |path| == 0 ==> SetIn(t, path, s) == Tree(s, t.cursor, t.branches) == SetInFixed(t, path, s)
    ensures |path| > 0 ==>
      var r, f := SetIn(t, path, s), SetInFixed(t, path, s);
      r.data == t.data == f.data && r.cursor == t.cursor == f.cursor &&
      r.branches.Keys == t.branches.Keys + {path[0]} == f.branches.Keys &&
      forall k :: k in t.branches && k != path[0] ==> r.branches[k] == t.branches[k] == f.branches[k]
  {
  }

  /** Where every branch on the path already exists, `set_in` as written does what the
    * corrected version does. */
  lemma {:induction false} SetInAgreesOnExistingPath(t: Tree, path: seq<string>, s: LocalState)
    requires forall i :: 0 < i <= |path| ==> Get(t, path[..i]).Some?
    ensures SetIn(t, path, s) == SetInFixed(t, path, s)
    decreases |path|
  {
    if |path| > 0 {
      assert path[..1] == [path[0]];
      assert path[0] in t.branches;
      forall i | 0 < i <= |path[1..]| ensures Get(t.branches[path[0]], path[1..][..i]).Some? {
        assert path[..i + 1][1..] == path[1..][..i];
        assert path[..i + 1][0] == path[0];
      }
      SetInAgreesOnExistingPath(t.branches[path[0]], path[1..], s);
    }
  }

  /** The corrected `set_in` stores the new state at the end of the path, however much of
    * the path existed before. */
  lemma {:induction false} SetInFixedReaches(t: Tree, path: seq<string>, s: LocalState)
    ensures Get(SetInFixed(t, path, s), path).Some?
    ensures Get(SetInFixed(t, path, s), path).value.data == s
    decreases |path|
  {
    if |path| > 0 {
      var branch := if path[0] in t.branches then t.branches[path[0]] else Pick(t, path[0]);
      SetInFixedReaches(branch, path[1..], s);
    }
  }

  /** The state set on a fresh component is lost: on an empty tree, setting state `1` at
    * path `["a"]` leaves an empty branch `"a"`, while the corrected version stores it. */
  lemma FirstStateDropped()
    ensures var t := Tree(None, [], map[]);
      Get(SetIn(t, ["a"], Some(1)), ["a"]) == Some(Tree(None, ["a"], map[]))
    ensures var t := Tree(None, [], map[]);
      Get(SetInFixed(t, ["a"], Some(1)), ["a"]) == Some(Tree(Some(1), ["a"], map[]))
  {
    var t := Tree(None, [], map[]);
    assert ["a"][1..] == [];
    assert [] + ["a"] == ["a"];
    assert SetIn(t, ["a"], Some(1)).branches["a"] == Tree(None, ["a"], map[]);
    assert SetInFixed(t, ["a"], Some(1)).branches["a"] == SetInFixed(Tree(None, ["a"], map[]), [], Some(1));
  }
}
