/** The states tree of the `respo` crate (`respo/src/respo/states_tree.rs`, and the same tree
  * with the update bundled in a record in `respo/src/states_tree.rs`): component states
  * stored by path, each node knowing its own path (`cursor`), with a JSON backup that
  * equality ignores. */
module StatesTree {
  import opened Wrappers

  /** A state behind `Rc<dyn DynEq>`: the name of its Rust type and its value, opaque. */
  datatype StateValue = StateValue(typeName: string, repr: string)

  /** A `serde_json::Value` backup, opaque. */
  type Json = string

  /** `MaybeState` / `Option<RespoStateBranch>`. */
  type MaybeState = Option<StateValue>

  /** `DynEq::do_eq`: equal when the other value has the same type and compares equal. */
  predicate DoEq(a: StateValue, b: StateValue)
  {
    a.typeName == b.typeName && a.repr == b.repr
  }

  /** `PartialEq for MaybeState`. */
  predicate MaybeStateEq(a: MaybeState, b: MaybeState)
  {
    match (a, b)
    case (None, None) => true
    case (Some(x), Some(y)) => DoEq(x, y)
    case _ => false
  }

  /** Two absent states are equal, an absent state differs from a present one, and present
    * states compare by value: the relation is plain equality. */
  lemma MaybeStateEqIsEquality(a: MaybeState, b: MaybeState)
    ensures MaybeStateEq(None, None)
    ensures a.None? != b.None? ==> !MaybeStateEq(a, b)
    ensures MaybeStateEq(a, b) <==> a == b
  {
  }

  /** `MaybeState::cast_or_default`: the stored state when it has the requested type, an
    * error when it has another, and the type's default when there is none. */
  function CastOrDefault(m: MaybeState, typeName: string, default: StateValue): (r: Result<StateValue>)
    requires default.typeName == typeName
    ensures m.None? ==> r == Ok(default)
    ensures r.Ok? ==> r.value.typeName == typeName
    ensures m.Some? ==> (r.Ok? <==> m.value.typeName == typeName) && (r.Ok? ==> r.value == m.value)
  {
    match m
    case Some(v) => if v.typeName == typeName then Ok(v) else Err("failed to cast state to " + typeName)
    case None => Ok(default)
  }

  datatype Tree = Tree(data: MaybeState, backup: Option<Json>, cursor: seq<string>, branches: map<string, Tree>)

  /** `PartialEq for StatesTree`: cursor, data and branches, recursively; backups are ignored. */
  predicate TreeEq(a: Tree, b: Tree)
    decreases a
  {
    a.cursor == b.cursor && MaybeStateEq(a.data, b.data) && a.branches.Keys == b.branches.Keys &&
    forall k :: k in a.branches ==> TreeEq(a.branches[k], b.branches[k])
  }

  /** The tree with every backup dropped. */
  function Strip(t: Tree): Tree
    decreases t
  {
    Tree(t.data, None, t.cursor, map k | k in t.branches :: Strip(t.branches[k]))
  }

  /** Tree equality is equality once the backups are dropped. */
  lemma {:induction false} TreeEqIffStrip(a: Tree, b: Tree)
    ensures TreeEq(a, b) <==> Strip(a) == Strip(b)
    decreases a
  {
    forall k | k in a.branches && k in b.branches {
      TreeEqIffStrip(a.branches[k], b.branches[k]);
    }
    if Strip(a) == Strip(b) {
      assert a.branches.Keys == Strip(a).branches.Keys;
      assert b.branches.Keys == Strip(b).branches.Keys;
      forall k | k in a.branches ensures Strip(a.branches[k]) == Strip(b.branches[k]) {
        assert Strip(a).branches[k] == Strip(b).branches[k];
      }
    }
    if TreeEq(a, b) {
      assert Strip(a).branches == Strip(b).branches;
    }
  }

  /** Changing backups anywhere leaves a tree equal to what it was. */
  lemma TreeEqIgnoresBackup(t: Tree, backup: Option<Json>)
    ensures TreeEq(t, t.(backup := backup))
  {
    TreeEqIffStrip(t, t.(backup := backup));
  }

  /** Every branch sits under its parent's cursor extended by its own key. */
  predicate WellFormed(t: Tree)
    decreases t
  {
    forall k :: k in t.branches ==> t.branches[k].cursor == t.cursor + [k] && WellFormed(t.branches[k])
  }

  /** `path`: the cursor of the node. */
  function Path(t: Tree): (r: seq<string>)
    ensures WellFormed(t) ==> forall k :: k in t.branches ==> Path(t.branches[k]) == r + [k]
  {
    t.cursor
  }

  /** `pick`: the view of child `name`, at the cursor extended by `name`; a copy of the
    * branch when there is one, an empty node when there is none. */
  function Pick(t: Tree, name: string): (r: Tree)
    ensures r.cursor == t.cursor + [name]
    ensures name in t.branches ==>
      r.data == t.branches[name].data && r.backup == t.branches[name].backup && r.branches == t.branches[name].branches
    ensures name !in t.branches ==> r.data == None && r.backup == None && r.branches == map[]
  {
    if name in t.branches then
      var prev := t.branches[name];
      Tree(prev.data, prev.backup, t.cursor + [name], prev.branches)
    else Tree(None, None, t.cursor + [name], map[])
  }

  /** In a well-formed tree, picking an existing child gives that child itself, and the pick
    * is itself well-formed. */
  lemma PickWellFormed(t: Tree, name: string)
    requires WellFormed(t)
    ensures name in t.branches ==> Pick(t, name) == t.branches[name]
    ensures WellFormed(Pick(t, name))
  {
  }

  /** `set_in_mut`, as the tree it leaves behind: at the end of the path the data and backup
    * are replaced; on the way, a missing branch is first created by `pick`. */
  function SetIn(t: Tree, path: seq<string>, data: MaybeState, backup: Option<Json>): Tree
    decreases |path|
  {
    if |path| == 0 then t.(data := data, backup := backup)
    else
      var branch := if path[0] in t.branches then t.branches[path[0]] else Pick(t, path[0]);
      t.(branches := t.branches[path[0] := SetIn(branch, path[1..], data, backup)])
  }

  /** The node at the end of a path of branch keys. */
  function Get(t: Tree, path: seq<string>): Option<Tree>
    decreases |path|
  {
    if |path| == 0 then Some(t)
    else if path[0] in t.branches then Get(t.branches[path[0]], path[1..])
    else None
  }

  /** `set_in_mut` on a uniquely owned tree: the recursion of the source, on the tree value. */
  method SetInMut(t: Tree, path: seq<string>, newState: MaybeState, val: Option<Json>) returns (t': Tree)
    ensures t' == SetIn(t, path, newState, val)
    decreases |path|
  {
    if |path| == 0 {
      t' := t.(data := newState, backup := val);
    } else {
      var p0 := path[0];
      if p0 in t.branches {
        var branch := SetInMut(t.branches[p0], path[1..], newState, val);
        t' := t.(branches := t.branches[p0 := branch]);
      } else {
        var branch := Pick(t, p0);
        branch := SetInMut(branch, path[1..], newState, val);
        t' := t.(branches := t.branches[p0 := branch]);
      }
    }
  }

  /** `RespoUpdateState`: the path to the state, its data and its backup. */
  datatype UpdateState = UpdateState(cursor: seq<string>, data: MaybeState, backup: Option<Json>)

  /** `set_in_mut(change)` of `RespoStatesTree`. */
  method SetInMutChange(t: Tree, change: UpdateState) returns (t': Tree)
    ensures t' == SetIn(t, change.cursor, change.data, change.backup)
  {
    t' := SetInMut(t, change.cursor, change.data, change.backup);
  }

  /** After the update the path leads to a node holding the new data and backup. */
  lemma {:induction false} SetInReaches(t: Tree, path: seq<string>, data: MaybeState, backup: Option<Json>)
    ensures Get(SetIn(t, path, data, backup), path).Some?
    ensures Get(SetIn(t, path, data, backup), path).value.data == data
    ensures Get(SetIn(t, path, data, backup), path).value.backup == backup
    decreases |path|
  {
    if |path| > 0 {
      var branch := if path[0] in t.branches then t.branches[path[0]] else Pick(t, path[0]);
      SetInReaches(branch, path[1..], data, backup);
    }
  }

  /** An empty path replaces this node's data and backup and keeps its cursor and
    * branches; a non-empty one keeps this node's own fields and every other branch. */
  lemma SetInFrame(t: Tree, path: seq<string>, data: MaybeState, backup: Option<Json>)
    ensures var r := SetIn(t, path, data, backup);
      r.cursor == t.cursor && (|path| == 0 ==> r.branches == t.branches && r.data == data && r.backup == backup)
    ensures var r := SetIn(t, path, data, backup);
      |path| > 0 ==>
        r.data == t.data && r.backup == t.backup && r.branches.Keys == t.branches.Keys + {path[0]} &&
        forall k :: k in t.branches && k != path[0] ==> r.branches[k] == t.branches[k]
  {
  }

  /** The update keeps every cursor where it belongs: branches it creates sit at their
    * parent's cursor extended by their key. */
  lemma {:induction false} SetInWellFormed(t: Tree, path: seq<string>, data: MaybeState, backup: Option<Json>)
    requires WellFormed(t)
    ensures WellFormed(SetIn(t, path, data, backup))
    ensures SetIn(t, path, data, backup).cursor == t.cursor
    decreases |path|
  {
    if |path| > 0 {
      var branch := if path[0] in t.branches then t.branches[path[0]] else Pick(t, path[0]);
      PickWellFormed(t, path[0]);
      SetInWellFormed(branch, path[1..], data, backup);
    }
  }

  /** Paths that leave the updated path somewhere reach what they reached before. */
  lemma {:induction false} SetInOtherPaths(t: Tree, path: seq<string>, q: seq<string>, data: MaybeState,
                                           backup: Option<Json>, i: nat)
    requires i < |path| && i < |q| && path[..i] == q[..i] && path[i] != q[i]
    requires Get(t, q[..i]).Some?
    ensures Get(SetIn(t, path, data, backup), q) == Get(t, q)
    decreases i
  {
    if i > 0 {
      assert path[1..][..i - 1] == path[..i][1..];
      assert q[1..][..i - 1] == q[..i][1..];
      assert q[..i][0] == q[0];
      assert path[0] in t.branches by {
        assert q[..i][0] == path[..i][0];
      }
      SetInOtherPaths(t.branches[path[0]], path[1..], q[1..], data, backup, i - 1);
    }
  }

  /** `RespoStatesTree::cast_branch`: the stored state when it has the requested type;
    * otherwise the default restored from the backup when there is one (`restore` gives
    * the value `restore_from` leaves behind, failed or not), else the default. */
  function CastBranch(t: Tree, typeName: string, default: StateValue, restore: Json -> StateValue): (r: StateValue)
    ensures t.data.Some? && t.data.value.typeName == typeName ==> r == t.data.value
    ensures !(t.data.Some? && t.data.value.typeName == typeName) ==>
      r == (if t.backup.Some? then restore(t.backup.value) else default)
  {
    if t.data.Some? && t.data.value.typeName == typeName then t.data.value
    else match t.backup
      case Some(v) => restore(v)
      case None => default
  }

  /** A node without stored state and without backup gives the default. */
  lemma CastBranchEmpty(t: Tree, typeName: string, default: StateValue, restore: Json -> StateValue)
    requires t.data.None? && t.backup.None?
    ensures CastBranch(t, typeName, default, restore) == default
  {
  }

  /** `RespoStatesTreeCasted<T>`: a node whose state is already cast to `T`. */
  datatype Casted = Casted(data: StateValue, backup: Option<Json>, cursor: seq<string>, branches: map<string, Tree>)

  /** `PartialEq for RespoStatesTreeCasted`: cursor, data and branches; the backup is ignored. */
  predicate CastedEq(a: Casted, b: Casted)
  {
    a.cursor == b.cursor && a.data == b.data && a.branches.Keys == b.branches.Keys &&
    forall k :: k in a.branches ==> TreeEq(a.branches[k], b.branches[k])
  }

  /** Casted equality does not look at the backup. */
  lemma CastedEqIgnoresBackup(c: Casted, backup: Option<Json>)
    ensures CastedEq(c, c.(backup := backup))
  {
    forall k | k in c.branches ensures TreeEq(c.branches[k], c.branches[k]) {
      TreeEqIffStrip(c.branches[k], c.branches[k]);
    }
  }

  /** `pick_to`: the child `name` cast to the requested type, at the extended cursor; a
    * missing child gives the type's default with no backup and no branches. */
  function PickTo(c: Casted, name: string, typeName: string, default: StateValue,
                  restore: Json -> StateValue): (r: Result<Casted>)
    ensures r.Ok? && r.value.cursor == c.cursor + [name]
    ensures name !in c.branches ==> r.value.data == default && r.value.backup == None && r.value.branches == map[]
    ensures name in c.branches ==>
      r.value.backup == c.branches[name].backup && r.value.branches == c.branches[name].branches
  {
    var nextCursor := c.cursor + [name];
    if name in c.branches then
      var prev := c.branches[name];
      Ok(Casted(CastBranch(prev, typeName, default, restore), prev.backup, nextCursor, prev.branches))
    else Ok(Casted(default, None, nextCursor, map[]))
  }

  /** `pick_to` is `pick` followed by `cast_branch` on the picked node. */
  lemma PickToIsPickThenCast(c: Casted, name: string, typeName: string, default: StateValue,
                             restore: Json -> StateValue)
    ensures var p := Pick(Tree(None, c.backup, c.cursor, c.branches), name);
      PickTo(c, name, typeName, default, restore) == Ok(Casted(CastBranch(p, typeName, default, restore), p.backup, p.cursor, p.branches))
  {
    var p := Pick(Tree(None, c.backup, c.cursor, c.branches), name);
    if name !in c.branches {
      CastBranchEmpty(p, typeName, default, restore);
    }
  }
}
