/** The demo stores: a counter, a task list and the states tree, updated in place by one
  * action at a time. Three generations share the task logic: `demo_respo/src/store.rs`,
  * `demo_respo/src/app/store.rs` and the older `src/app/data_types.rs`. */
module Store {
  import opened Wrappers
  import StatesTree
  import LegacyStatesTree

  /** `Task`; `time` is an `f32` the reducers only ever set to zero. */
  datatype Task = Task(id: string, done: bool, content: string, time: real)

  /** The task created by `AddTask`: not done, at time zero. */
  function NewTask(id: string, content: string): (t: Task)
    ensures t.id == id && t.content == content && !t.done && t.time == 0.0
  {
    Task(id, false, content, 0.0)
  }

  predicate HasId(tasks: seq<Task>, id: string)
  {
    exists i :: 0 <= i < |tasks| && tasks[i].id == id
  }

  /** The error both `UpdateTask` and `ToggleTask` return when no task has the id. */
  function NotFound(id: string): string
  {
    "task " + id + " not found"
  }

  /** The tasks after `UpdateTask(id, content)`: every task with the id gets the content. */
  function WithContent(tasks: seq<Task>, id: string, content: string): (r: seq<Task>)
  {
    seq(|tasks|, i requires 0 <= i < |tasks| => if tasks[i].id == id then tasks[i].(content := content) else tasks[i])
  }

  /** The tasks after `ToggleTask(id)`: every task with the id has `done` negated. */
  function Toggled(tasks: seq<Task>, id: string): (r: seq<Task>)
  {
    seq(|tasks|, i requires 0 <= i < |tasks| => if tasks[i].id == id then tasks[i].(done := !tasks[i].done) else tasks[i])
  }

  /** `retain(|task| task.id != id)`. */
  function WithoutId(tasks: seq<Task>, id: string): (r: seq<Task>)
    ensures |r| <= |tasks|
    ensures forall i :: 0 <= i < |r| ==> r[i].id != id
    ensures forall t :: t in r ==> t in tasks
  {
    if |tasks| == 0 then []
    else (if tasks[0].id == id then [] else [tasks[0]]) + WithoutId(tasks[1..], id)
  }

  /** Setting the content changes nothing but the content of the tasks with the id, and
    * changes nothing at all when no task has it. */
  lemma WithContentMeaning(tasks: seq<Task>, id: string, content: string)
    ensures var r := WithContent(tasks, id, content);
      |r| == |tasks| &&
      (forall i :: 0 <= i < |r| ==>
        r[i].id == tasks[i].id && r[i].done == tasks[i].done && r[i].time == tasks[i].time &&
        r[i].content == (if tasks[i].id == id then content else tasks[i].content))
    ensures !HasId(tasks, id) ==> WithContent(tasks, id, content) == tasks
    ensures WithContent(WithContent(tasks, id, content), id, content) == WithContent(tasks, id, content)
  {
  }

  /** Toggling changes only `done` of the tasks with the id, and toggling twice restores
    * the list. */
  lemma ToggledMeaning(tasks: seq<Task>, id: string)
    ensures var r := Toggled(tasks, id);
      |r| == |tasks| &&
      (forall i :: 0 <= i < |r| ==>
        r[i].id == tasks[i].id && r[i].content == tasks[i].content && r[i].time == tasks[i].time &&
        r[i].done == (if tasks[i].id == id then !tasks[i].done else tasks[i].done))
    ensures !HasId(tasks, id) ==> Toggled(tasks, id) == tasks
    ensures Toggled(Toggled(tasks, id), id) == tasks
  {
  }

  /** Removing tasks keeps the others in order: it distributes over concatenation, and
    * leaves a list without the id as it is. */
  lemma {:induction false} WithoutIdAppend(a: seq<Task>, b: seq<Task>, id: string)
    ensures WithoutId(a + b, id) == WithoutId(a, id) + WithoutId(b, id)
    decreases |a|
  {
    if |a| == 0 {
      assert a + b == b;
    } else {
      assert (a + b)[1..] == a[1..] + b;
      WithoutIdAppend(a[1..], b, id);
    }
  }

  lemma {:induction false} WithoutIdAbsent(tasks: seq<Task>, id: string)
    requires !HasId(tasks, id)
    ensures WithoutId(tasks, id) == tasks
    decreases |tasks|
  {
    if |tasks| > 0 {
      assert tasks[0].id != id;
      assert !HasId(tasks[1..], id) by {
        forall i | 0 <= i < |tasks[1..]| ensures tasks[1..][i].id != id {
          assert tasks[1..][i] == tasks[i + 1];
        }
      }
      WithoutIdAbsent(tasks[1..], id);
      assert tasks == [tasks[0]] + tasks[1..];
    }
  }

  /** The loop `for task in &mut tasks { if task.id == id { content := ..; found = true } }`. */
  method SetContentOfMatches(tasks: seq<Task>, id: string, content: string) returns (tasks': seq<Task>, found: bool)
    ensures tasks' == WithContent(tasks, id, content)
    ensures found <==> HasId(tasks, id)
  {
    tasks' := tasks;
    found := false;
    for i := 0 to |tasks|
      invariant |tasks'| == |tasks|
      invariant forall j :: 0 <= j < i ==> tasks'[j] == WithContent(tasks, id, content)[j]
      invariant forall j :: i <= j < |tasks| ==> tasks'[j] == tasks[j]
      invariant found <==> exists j :: 0 <= j < i && tasks[j].id == id
    {
      if tasks'[i].id == id {
        tasks' := tasks'[i := tasks'[i].(content := content)];
        found := true;
      }
    }
  }

  /** The loop `for task in &mut tasks { if task.id == id { done = !done; found = true } }`. */
  method ToggleMatches(tasks: seq<Task>, id: string) returns (tasks': seq<Task>, found: bool)
    ensures tasks' == Toggled(tasks, id)
    ensures found <==> HasId(tasks, id)
  {
    tasks' := tasks;
    found := false;
    for i := 0 to |tasks|
      invariant |tasks'| == |tasks|
      invariant forall j :: 0 <= j < i ==> tasks'[j] == Toggled(tasks, id)[j]
      invariant forall j :: i <= j < |tasks| ==> tasks'[j] == tasks[j]
      invariant found <==> exists j :: 0 <= j < i && tasks[j].id == id
    {
      if tasks'[i].id == id {
        tasks' := tasks'[i := tasks'[i].(done := !tasks'[i].done)];
        found := true;
      }
    }
  }

  /** `ActionOp` of `demo_respo/src/store.rs`. */
  datatype DemoAction =
    | Noop
    | Increment
    | Decrement
    | StatesChange(change: StatesTree.UpdateState)
    | AddTask(id: string, content: string)
    | RemoveTask(id: string)
    | UpdateTask(id: string, content: string)
    | ToggleTask(id: string)

  /** `states_action`: the framework's state update wrapped as an action. */
  function DemoStatesAction(a: StatesTree.UpdateState): (r: DemoAction)
    ensures r.StatesChange? && r.change == a
  {
    DemoAction.StatesChange(a)
  }

  /** `Store` of `demo_respo/src/store.rs`; `counted` is an `i32`. */
  class DemoStore {
    var counted: int
    var tasks: seq<Task>
    var states: StatesTree.Tree

    constructor()
      ensures counted == 0 && tasks == [] && states == StatesTree.Tree(None, None, [], map[])
    {
      counted := 0;
      tasks := [];
      states := StatesTree.Tree(None, None, [], map[]);
    }

    /** `update`: one action applied in place; `UpdateTask` and `ToggleTask` fail, changing
      * nothing, when no task has the id. */
    method Update(op: DemoAction) returns (r: Result<()>)
      modifies this
      ensures op.UpdateTask? || op.ToggleTask? ==> (r.Err? <==> !HasId(old(tasks), op.id))
      ensures r.Err? ==> (op.UpdateTask? || op.ToggleTask?) && r.error == NotFound(op.id) && tasks == old(tasks)
      ensures !(op.UpdateTask? || op.ToggleTask?) ==> r.Ok?
      ensures counted == old(counted) + (if op.Increment? then 1 else if op.Decrement? then -1 else 0)
      ensures states == (if op.StatesChange? then
                           StatesTree.SetIn(old(states), op.change.cursor, op.change.data, op.change.backup)
                         else old(states))
      ensures tasks == match op
        case AddTask(id, content) => old(tasks) + [NewTask(id, content)]
        case RemoveTask(id) => WithoutId(old(tasks), id)
        case UpdateTask(id, content) => WithContent(old(tasks), id, content)
        case ToggleTask(id) => Toggled(old(tasks), id)
        case _ => old(tasks)
    {
      r := Ok(());
      match op {
        case Noop =>
        case Increment =>
          counted := counted + 1;
        case Decrement =>
          counted := counted - 1;
        case StatesChange(change) =>
          states := StatesTree.SetInMut(states, change.cursor, change.data, change.backup);
        case AddTask(id, content) =>
          tasks := tasks + [NewTask(id, content)];
        case RemoveTask(id) =>
          tasks := WithoutId(tasks, id);
        case UpdateTask(id, content) =>
          var found;
          tasks, found := SetContentOfMatches(tasks, id, content);
          if !found {
            WithContentMeaning(old(tasks), id, content);
            return Err(NotFound(id));
          }
        case ToggleTask(id) =>
          var found;
          tasks, found := ToggleMatches(tasks, id);
          if !found {
            ToggledMeaning(old(tasks), id);
            return Err(NotFound(id));
          }
      }
    }
  }

  /** `ActionOp` of `demo_respo/src/app/store.rs`. */
  datatype AppAction =
    | Increment
    | Decrement
    | StatesChange(path: seq<string>, state: StatesTree.MaybeState)
    | AddTask(id: string, content: string)
    | RemoveTask(id: string)
    | UpdateTask(id: string, content: string)
    | ToggleTask(id: string)

  /** `wrap_states_action`: a state at a cursor wrapped as an action. */
  function WrapStatesAction(cursor: seq<string>, a: StatesTree.MaybeState): (r: AppAction)
    ensures r.StatesChange? && r.path == cursor && r.state == a
  {
    AppAction.StatesChange(cursor, a)
  }

  /** `Store` of `demo_respo/src/app/store.rs`. */
  class AppStore {
    var counted: int
    var tasks: seq<Task>
    var states: StatesTree.Tree

    constructor()
      ensures counted == 0 && tasks == [] && states == StatesTree.Tree(None, None, [], map[])
    {
      counted := 0;
      tasks := [];
      states := StatesTree.Tree(None, None, [], map[]);
    }

    /** `get_states`: a copy of the states tree. */
    function GetStates(): (r: StatesTree.Tree)
      reads this
      ensures r == states
    {
      states
    }

    /** `update`, as in the demo store without `Noop`; the state update carries no backup. */
    method Update(op: AppAction) returns (r: Result<()>)
      modifies this
      ensures op.UpdateTask? || op.ToggleTask? ==> (r.Err? <==> !HasId(old(tasks), op.id))
      ensures r.Err? ==> (op.UpdateTask? || op.ToggleTask?) && r.error == NotFound(op.id) && tasks == old(tasks)
      ensures !(op.UpdateTask? || op.ToggleTask?) ==> r.Ok?
      ensures counted == old(counted) + (if op.Increment? then 1 else if op.Decrement? then -1 else 0)
      ensures states == (if op.StatesChange? then StatesTree.SetIn(old(states), op.path, op.state, None)
                         else old(states))
      ensures tasks == match op
        case AddTask(id, content) => old(tasks) + [NewTask(id, content)]
        case RemoveTask(id) => WithoutId(old(tasks), id)
        case UpdateTask(id, content) => WithContent(old(tasks), id, content)
        case ToggleTask(id) => Toggled(old(tasks), id)
        case _ => old(tasks)
    {
      r := Ok(());
      match op {
        case Increment =>
          counted := counted + 1;
        case Decrement =>
          counted := counted - 1;
        case StatesChange(path, newState) =>
          states := StatesTree.SetInMut(states, path, newState, None);
        case AddTask(id, content) =>
          tasks := tasks + [NewTask(id, content)];
        case RemoveTask(id) =>
          tasks := WithoutId(tasks, id);
        case UpdateTask(id, content) =>
          var found;
          tasks, found := SetContentOfMatches(tasks, id, content);
          if !found {
            WithContentMeaning(old(tasks), id, content);
            return Err(NotFound(id));
          }
        case ToggleTask(id) =>
          var found;
          tasks, found := ToggleMatches(tasks, id);
          if !found {
            ToggledMeaning(old(tasks), id);
            return Err(NotFound(id));
          }
      }
    }
  }

  /** Dispatching a wrapped state makes it the state found at the cursor. */
  lemma WrappedStateLands(t: StatesTree.Tree, cursor: seq<string>, a: StatesTree.MaybeState)
    ensures var op := WrapStatesAction(cursor, a);
      StatesTree.Get(StatesTree.SetIn(t, op.path, op.state, None), cursor).Some? &&
      StatesTree.Get(StatesTree.SetIn(t, op.path, op.state, None), cursor).value.data == a
  {
    StatesTree.SetInReaches(t, cursor, a, None);
  }

  /** `ActionOp` of `src/app/data_types.rs`. */
  datatype LegacyAction =
    | Increment
    | Decrement
    | StatesChange(path: seq<string>, state: LegacyStatesTree.LocalState)
    | AddTask(id: string, content: string)
    | RemoveTask(id: string)
    | UpdateTask(id: string, content: string)
    | ToggleTask(id: string)

  /** `wrap_state_change`: a state at a cursor wrapped as an action. */
  function WrapStateChange(cursor: seq<string>, a: LegacyStatesTree.LocalState): (r: LegacyAction)
    ensures r.StatesChange? && r.path == cursor && r.state == a
  {
    LegacyAction.StatesChange(cursor, a)
  }

  /** `Store` of `src/app/data_types.rs`. */
  class LegacyStore {
    var counted: int
    var tasks: seq<Task>
    var states: LegacyStatesTree.Tree

    constructor()
      ensures counted == 0 && tasks == [] && states == LegacyStatesTree.Tree(None, [], map[])
    {
      counted := 0;
      tasks := [];
      states := LegacyStatesTree.Tree(None, [], map[]);
    }

    /** `apply_action`; the state update is the corrected persistent `set_in`. */
    method ApplyAction(op: LegacyAction) returns (r: Result<()>)
      modifies this
      ensures op.UpdateTask? || op.ToggleTask? ==> (r.Err? <==> !HasId(old(tasks), op.id))
      ensures r.Err? ==> (op.UpdateTask? || op.ToggleTask?) && r.error == NotFound(op.id) && tasks == old(tasks)
      ensures !(op.UpdateTask? || op.ToggleTask?) ==> r.Ok?
      ensures counted == old(counted) + (if op.Increment? then 1 else if op.Decrement? then -1 else 0)
      ensures states == (if op.StatesChange? then LegacyStatesTree.SetInFixed(old(states), op.path, op.state)
                         else old(states))
      ensures tasks == match op
        case AddTask(id, content) => old(tasks) + [NewTask(id, content)]
        case RemoveTask(id) => WithoutId(old(tasks), id)
        case UpdateTask(id, content) => WithContent(old(tasks), id, content)
        case ToggleTask(id) => Toggled(old(tasks), id)
        case _ => old(tasks)
    {
      r := Ok(());
      match op {
        case Increment =>
          counted := counted + 1;
        case Decrement =>
          counted := counted - 1;
        case StatesChange(path, newState) =>
          states := LegacyStatesTree.SetInFixed(states, path, newState);
        case AddTask(id, content) =>
          tasks := tasks + [NewTask(id, content)];
        case RemoveTask(id) =>
          tasks := WithoutId(tasks, id);
        case UpdateTask(id, content) =>
          var found;
          tasks, found := SetContentOfMatches(tasks, id, content);
          if !found {
            WithContentMeaning(old(tasks), id, content);
            return Err(NotFound(id));
          }
        case ToggleTask(id) =>
          var found;
          tasks, found := ToggleMatches(tasks, id);
          if !found {
            ToggledMeaning(old(tasks), id);
            return Err(NotFound(id));
          }
      }
    }
  }

  /** Dispatching a wrapped state in the older store stores it at the cursor. */
  lemma WrappedLegacyStateLands(t: LegacyStatesTree.Tree, cursor: seq<string>, a: LegacyStatesTree.LocalState)
    ensures var op := WrapStateChange(cursor, a);
      LegacyStatesTree.Get(LegacyStatesTree.SetInFixed(t, op.path, op.state), cursor).Some? &&
      LegacyStatesTree.Get(LegacyStatesTree.SetInFixed(t, op.path, op.state), cursor).value.data == a
  {
    LegacyStatesTree.SetInFixedReaches(t, cursor, a);
  }
}
