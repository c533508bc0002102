# Respo in Dafny

A model of the core of Respo, a virtual-DOM web framework written in Rust. The repository
holds two generations of the framework:

- the current `respo` crate (`respo/src/...`);
- the older crate under `src/...`.

The model covers both generations:

- **Node tree** (`node.dfy`, `legacy_primes.dfy`). Components wrap a tree and carry effects; elements carry a tag, attributes, listeners, inline style and keyed children; a shared reference points at another node.
- **Node builders** (`builders.dfy`, `legacy_primes.dfy`). The by-value builders of `RespoElement`, and the in-place builders on `RespoNode`. The in-place builders forward through every component to the element it wraps.
- **Diff** (`diff.dfy`, `legacy_diff.dfy`). The diff compares a new tree with the old one and appends change records to a list: attribute, style and listener deltas, keyed child operations, and effect records.
  - Effect records go outside-in on mount and inside-out on unmount.
  - For the current diff, the child operations are proved to turn the old key sequence into the new one.
- **Change records** (`dom_change.dfy`). Coordinates, DOM paths and their Cirru (S-expression) serialisation, with decoders proving the coordinate and path forms lossless.
- **Rendering bookkeeping** (`renderer.dfy`, `legacy_respo.dfy`):
  - the "needs rerender" flag;
  - the event queue;
  - the walk from the root along a coordinate to the node an event targets, and the lookup of its listener.
- **States tree** (`states_tree.dfy`, `legacy_states_tree.dfy`). Component state stored by path, with `pick`, `set_in` / `set_in_mut`, typed casts and the casted view.
- **Memo cache** (`memo.dfy`). The per-function, per-key cache of `memo1_call_by`.
- **Demo stores** (`store.dfy`). The counter, task-list and states reducers of the demo apps.
- **CSS helpers** (`css.dfy`, `legacy_css.dfy`):
  - style lists and their text;
  - `border` / `outline`;
  - keyword enums;
  - the static style registry;
  - `css_name_from_path`;
  - the older map-based style with `get_pair`.

Shared support: `wrappers.dfy` (Option, Result) and `strings.dfy` (decimal and hexadecimal text, split/join, `replace`, `strip_prefix` / `strip_suffix`).

How the source's forms are modelled:

- Functions that build values become Dafny functions.
- Loops become methods with invariants, proved equal to a specification function.
- Global cells (the rerender flag, the event queue, the style registry, the memo cache) and structs updated through `&mut self` (stores, in-place style builders) become classes.
- `&mut Vec` out-parameters become a value passed in and returned.
- Box-owned trees changed in place (`set_in_mut`, the node builders) are methods that take the tree and return the new one. A `Box` cannot be aliased, so nothing is lost.

## Model

| member | source | states |
|---|---|---|
| Node.IndexKeyFromNat | respo/src/respo/primes.rs:77-81 | the key of a child index is its decimal text, which reads back as the index |
| Node.IndexKeysDistinct | respo/src/respo/primes.rs:77-81 | distinct indexes give distinct keys |
| Node.EffectEqIgnoresHandler | respo/src/respo/primes.rs:537-542 | effects are equal exactly when their arguments are equal; the handler is ignored |
| Node.Keys | respo/src/respo/primes.rs:22-41 | the keys of a child list, in order, one per child |
| Node.Rewrap | respo/src/respo/primes.rs:129-144 | replacing the element a builder lands on gives a node whose target is the new element |
| Node.RewrapKeepsShell | respo/src/respo/primes.rs:129-144 | forwarding keeps every component's name and effects; rewrapping with the same element is the identity; a second rewrap overrides the first |
| DomChange.GetCoord | respo/src/respo/primes/dom_change.rs:62-71 | every change reports the coordinate it was created with |
| DomChange.GetDomPath | respo/src/respo/primes/dom_change.rs:72-81 | every change reports the DOM path it was created with |
| DomChange.ApplyChildOp | respo/src/respo/patch.rs:167-227 | applying a child operation to the key list changes its length by inserts minus removals, or fails for an index out of range |
| DomChange.ApplyChildOpsLength | respo/src/respo/patch.rs:167-227 | a successful sequence of child operations changes the child count by the inserts minus the removals |
| DomChange.ApplyChildOpsAppend | respo/src/respo/patch.rs:161-252 | applying `a + b` is applying `a` and then `b`, stopping at the first failure |
| DomChange.ApplyNestedOnly | respo/src/respo/patch.rs:228-251 | nested effect operations leave the child list unchanged |
| DomChange.CoordPathCirru | respo/src/respo/primes/dom_change.rs:269-275 | the coordinate form is "::coord" followed by one item per step, in order |
| DomChange.DomPathCirru | respo/src/respo/primes/dom_change.rs:277-283 | the DOM path form is "::dom-path" followed by each index in decimal, in order |
| DomChange.NodeCirruIgnoresDecoration | respo/src/respo/primes.rs:43-62 | the Cirru form of a node ignores attributes, listeners and style, and sees through references |
| DomChange.CoordPathRoundTrip | respo/src/respo/primes/dom_change.rs:254-275 | decoding the coordinate form gives the coordinate back |
| DomChange.DomPathRoundTrip | respo/src/respo/primes/dom_change.rs:277-283 | decoding the DOM path form gives the path back |
| DomChange.CoordPathToCirru | respo/src/respo/primes/dom_change.rs:269-275 | the loop builds the coordinate form |
| DomChange.DomPathToCirru | respo/src/respo/primes/dom_change.rs:277-283 | the loop builds the DOM path form |
| DomChange.SetToCirru | respo/src/respo/primes/dom_change.rs:88-173 | a set of strings is listed as leaves, each exactly once, in the set's order |
| DomChange.SkipStringsSize | respo/src/respo/primes/dom_change.rs:88-173 | listing skipped effect indexes as text loses none of them |
| DomChange.StrDictToCirru | respo/src/respo/primes.rs:427-433 | a map is listed as one `[key, value]` pair per entry, each exactly once |
| DomChange.ChildOpToCirru | respo/src/respo/primes/dom_change.rs:211-249 | each child operation gets its tagged Cirru form |
| DomChange.ChangeTagInjective | respo/src/respo/primes/dom_change.rs:88-173 | two changes get the same tag exactly when they are the same variant |
| DomChange.ChangeCirruIdentifies | respo/src/respo/primes/dom_change.rs:88-173 | every change with the same Cirru form is the same variant, and the coordinate and DOM path decode back from it |
| DomChange.ChildOpsToCirru | respo/src/respo/primes/dom_change.rs:120-124 | the operation list is the `::operations` tag followed by each operation's Cirru form, in order |
| DomChange.ChangeToCirru | respo/src/respo/primes/dom_change.rs:88-173 | each change gets its tagged Cirru form |
| DomChange.ChangesToCirru | respo/src/respo/primes/dom_change.rs:176-185 | "::changes" followed by each change's form, in order |
| Diff.MapDeltaPatches | respo/src/respo/diff.rs:133-168 | removing the unset keys and writing the set entries turns the old map into the new one |
| Diff.MapDeltaEmptyIff | respo/src/respo/diff.rs:160-167 | the delta is empty exactly when the maps are equal |
| Diff.MapDelta | respo/src/respo/diff.rs:141-159 | the loops collect exactly the entries to write and the keys to delete |
| Diff.DiffAttrs | respo/src/respo/diff.rs:133-168 | equal attribute maps append nothing; otherwise one `ModifyAttrs` carrying the delta is appended |
| Diff.DiffStyle | respo/src/respo/diff.rs:170-205 | the same rule for the style maps |
| Diff.StyleMapLookup | respo/src/respo/diff.rs:102-104 | building a map from a style list keeps, for each property, the value of its last pair |
| Diff.DiffEvent | respo/src/respo/diff.rs:207-227 | equal event-name sets append nothing; otherwise one `ModifyEvent` whose add and remove sets turn the old names into the new ones |
| Diff.OutsideInInsideOutSameRecords | respo/src/respo/diff.rs:366-450 | mounting and unmounting visit the same components: the two orders give the same records, only arranged differently |
| Diff.OutsideInCount | respo/src/respo/diff.rs:366-450 | both walks give exactly one record per component with a non-empty effect list, references seen through |
| Diff.RecordsInside | respo/src/respo/diff.rs:366-450 | every record is an effect record of the requested type, with no skipped indexes, located under the starting coordinate and path |
| Diff.ParentOrder | respo/src/respo/diff.rs:366-450 | a component's own record comes first when mounting (outside-in) and last when unmounting (inside-out) |
| Diff.CollectEffectsOutsideIn | respo/src/respo/diff.rs:366-406 | the walk appends the outside-in records to the list |
| Diff.CollectEffectsInsideOut | respo/src/respo/diff.rs:409-450 | the walk appends the inside-out records to the list |
| Diff.NestedAreEffects | respo/src/respo/diff.rs:453-532 | nested effect operations are all effect operations at the given DOM path |
| Diff.NestedCount | respo/src/respo/diff.rs:453-532 | both nested walks give exactly one operation per component with a non-empty effect list, references seen through |
| Diff.NestedSameOps | respo/src/respo/diff.rs:453-532 | the outside-in and inside-out nested walks emit the same operations as multisets, differing only in order |
| Diff.NestedEffectsOutsideIn | respo/src/respo/diff.rs:453-491 | the walk appends the nested outside-in operations |
| Diff.NestedEffectsInsideOut | respo/src/respo/diff.rs:494-532 | the walk appends the nested inside-out operations |
| Diff.EffectUpdatesIff | respo/src/respo/diff.rs:25-46 | `BeforeUpdate` and `Updated` records are emitted exactly when some effect is new or has changed arguments |
| Diff.SkipUnchanged | respo/src/respo/diff.rs:25-32 | the loop collects the indexes of the effects whose arguments did not change |
| Diff.ReplaceTree | respo/src/respo/diff.rs:58-75 | a replacement appends the inside-out unmount records, one `ReplaceElement`, then the outside-in mount records |
| Diff.DiffTree | respo/src/respo/diff.rs:9-131 | `diff_tree` leaves the list described arm by arm by the specification function |
| Diff.DiffElements | respo/src/respo/diff.rs:100-112 | elements with the same tag: attributes, style, listeners, then children |
| Diff.DiffChildren | respo/src/respo/diff.rs:229-363 | the two-pointer loop leaves the list given by the specification of the walk |
| Diff.ChildOpsPatch | respo/src/respo/diff.rs:229-363 | the child operations turn the old key sequence into the new one |
| Diff.ChildOpsEmptyIff | respo/src/respo/diff.rs:229-363 | a `ModifyChildren` is emitted exactly when the key sequences differ |
| Diff.DiffTreeIdentity | respo/src/respo/diff.rs:9-131 | a tree compared with itself yields no change |
| Diff.DiffTreeAppends | respo/src/respo/diff.rs:9-131 | the diff only appends: the earlier changes are kept as they were |
| Diff.ReplaceCarriesNew | respo/src/respo/diff.rs:92-99 | a tag change replaces the DOM node with the new element, after unmounting the old one |
| LegacyPrimes.DigitCoordFrom | src/respo/primes.rs:205-220 | the digit coordinate keeps the child indexes of a coordinate and drops component names |
| LegacyPrimes.Extend | src/respo/primes.rs:222-228 | extending adds one index at the end |
| LegacyPrimes.DigitsKeepIndexes | src/respo/primes.rs:205-220 | the digits are no longer than the coordinate: all of it when it holds only indexes, nothing when it holds only components |
| LegacyPrimes.DigitsOfStep | src/respo/primes.rs:205-228 | stepping into a child extends the digits by its index; stepping into a component leaves them unchanged |
| LegacyPrimes.GetCoord | src/respo/primes.rs:261-274 | each change reports its digit coordinate |
| LegacyPrimes.WithStyle | src/respo/primes.rs:45-57 | `add_style` merges the entries into the style map of the wrapped element, overwriting; nothing else changes |
| LegacyPrimes.WithAttrs | src/respo/primes.rs:58-75 | `add_attrs` inserts every pair, so later pairs overwrite earlier ones; nothing else changes |
| LegacyPrimes.WithEvents | src/respo/primes.rs:76-92 | `add_event` inserts every listener; nothing else changes |
| LegacyPrimes.WithChildren | src/respo/primes.rs:93-108 | `add_children` appends the children keyed by their index; nothing else changes |
| LegacyPrimes.InsertAllLast | src/respo/primes.rs:58-75 | after inserting a list of pairs, a key holds the value of its last pair |
| LegacyPrimes.AddStyle | src/respo/primes.rs:45-57 | the loop does what `WithStyle` says |
| LegacyPrimes.AddAttrs | src/respo/primes.rs:58-75 | the loop does what `WithAttrs` says |
| LegacyPrimes.AddEvent | src/respo/primes.rs:76-92 | the loop does what `WithEvents` says |
| LegacyPrimes.AddChildren | src/respo/primes.rs:93-108 | the loop does what `WithChildren` says |
| LegacyDiff.DiffAttrs | src/respo/diff.rs:100-133 | equal maps append nothing; otherwise one `ModifyAttrs` whose delta patches the old map into the new one |
| LegacyDiff.DiffStyle | src/respo/diff.rs:135-168 | the same rule for the style maps |
| LegacyDiff.DiffEvent | src/respo/diff.rs:170-188 | equal event-name sets append nothing; otherwise one `ModifyEvent` that turns the old names into the new ones |
| LegacyDiff.OutsideInRecords | src/respo/diff.rs:256-286 | one effect record of the requested type per component, with no skipped indexes |
| LegacyDiff.InsideOutRecords | src/respo/diff.rs:289-319 | the same records as outside-in; for a component its own record comes last |
| LegacyDiff.CollectEffectsOutsideIn | src/respo/diff.rs:256-286 | the walk appends the outside-in records |
| LegacyDiff.CollectEffectsInsideOut | src/respo/diff.rs:289-319 | the walk appends the inside-out records |
| LegacyDiff.ComponentEffects | src/respo/diff.rs:23-42 | the skipped-index loop and the update records of a kept component |
| LegacyDiff.DiffTree | src/respo/diff.rs:8-98 | `diff_tree` leaves the list described by the specification function |
| LegacyDiff.DiffElements | src/respo/diff.rs:87-93 | elements with the same tag: attributes, style, listeners, children |
| LegacyDiff.DiffChildren | src/respo/diff.rs:190-253 | the loop leaves the list given by the specification of the walk |
| LegacyDiff.LoopBalance | src/respo/diff.rs:204-252 | the operations insert one node per new child and remove one per old child |
| LegacyDiff.ChildCountBalanced | src/respo/diff.rs:190-253 | if the operations apply, the result has as many children as the new list |
| LegacyDiff.ExhaustedRemovesAtCursor | src/respo/diff.rs:205-215 | once the new list is used up, every remaining old child is removed at the cursor |
| LegacyDiff.DiffTreeIdentity | src/respo/diff.rs:8-98 | a tree compared with itself yields no change |
| LegacyDiff.LookAheadInsertAppends | src/respo/diff.rs:236-242 | a new child found by the look-ahead is appended at the end rather than inserted at the cursor |
| LegacyDiff.ReplacedChildMisplaced | src/respo/diff.rs:243-250 | the remove-then-insert-after pair puts the new child after its right-hand neighbour |
| LegacyDiff.ReplaceKeepsOldNode | src/respo/diff.rs:82-86 | a tag change emits a `ReplaceElement` carrying the old element |
| Renderer.RerenderFlag.Drain | respo/src/app/renderer.rs:25-33 | draining returns the flag and clears it |
| Renderer.RerenderFlag.Mark | respo/src/app/renderer.rs:35-42 | marking sets the flag, and does nothing if it is already set |
| Renderer.MarkTwiceThenDrainTwice | respo/src/app/renderer.rs:25-42 | two marks are drained once: the first drain sees the flag, the second does not |
| Renderer.Position | respo/src/app/renderer.rs:152-195 | the first child with the key at or after a position, or none if no such child exists |
| Renderer.LoadCoordTargetTree | respo/src/app/renderer.rs:152-195 | the empty coordinate gives the node itself, seen through a reference; a mismatching step is an error; a found node lies inside the tree |
| Renderer.LoadSound | respo/src/app/renderer.rs:152-195 | a found node is reached by following the coordinate |
| Renderer.LoadComplete | respo/src/app/renderer.rs:152-195 | a node reached by the coordinate (with keys unique among siblings) is the one found |
| Renderer.LoadCompose | respo/src/app/renderer.rs:152-195 | loading along `c1 + c2` is loading along `c1` and then along `c2` |
| Renderer.RequestForTargetHandler | respo/src/app/renderer.rs:197-216 | a returned listener belongs to an element of the tree and is registered there under the event name |
| Renderer.HandlerFound | respo/src/app/renderer.rs:197-216 | the listener is returned exactly when the target is an element listening to that event |
| LegacyRespo.EventQueue.LoadUserEvents | src/respo.rs:29-36 | draining returns the queued events in order and leaves the queue empty |
| LegacyRespo.EventQueue.TrackDelegatedEvent | src/respo.rs:180-187 | an event mark is appended to the queue |
| LegacyRespo.TrackTwiceThenLoad | src/respo.rs:29-36 | two tracked events are loaded back in the order they were tracked |
| LegacyRespo.RequestForTargetHandlerFixed | src/respo.rs:99-129 | each mismatching coordinate step is an error |
| LegacyRespo.FixedFindsHandler | src/respo.rs:99-129 | with the event name kept apart from component names, the lookup returns exactly the listener of the element reached by the coordinate |
| LegacyRespo.ShadowedEventName | src/respo.rs:114-116 | the lookup below a component searches for the component's name instead of the event name |
| StatesTree.MaybeStateEqIsEquality | respo/src/respo/states_tree.rs:105-113 | two empty states are equal; empty and present differ; otherwise equal exactly when the values are |
| StatesTree.CastOrDefault | respo/src/respo/states_tree.rs:133-144 | no state gives the default; a state of the requested type is returned; one of another type is an error |
| StatesTree.TreeEqIffStrip | respo/src/respo/states_tree.rs:38-44 | tree equality is equality of data, cursor and branches with every backup ignored |
| StatesTree.TreeEqIgnoresBackup | respo/src/respo/states_tree.rs:38-44 | changing the backup keeps the tree equal |
| StatesTree.Path | respo/src/respo/states_tree.rs:49-51 | in a well-formed tree, each branch's path is its parent's path plus its key |
| StatesTree.Pick | respo/src/respo/states_tree.rs:54-78 | picking gives the existing branch, or an empty tree whose cursor is the parent cursor plus the name |
| StatesTree.PickWellFormed | respo/src/respo/states_tree.rs:54-78 | picking an existing branch of a well-formed tree returns that branch |
| StatesTree.SetInMut | respo/src/respo/states_tree.rs:81-98 | the in-place recursion builds the tree the specification function describes |
| StatesTree.SetInMutChange | respo/src/states_tree.rs:116-139 | the version taking a `RespoUpdateState` record does the same with the record's fields |
| StatesTree.SetInReaches | respo/src/respo/states_tree.rs:81-98 | after setting, the node at the path exists and holds the new state and backup |
| StatesTree.SetInFrame | respo/src/respo/states_tree.rs:81-98 | the root keeps its cursor; the only branch touched is the path's first key |
| StatesTree.SetInWellFormed | respo/src/respo/states_tree.rs:54-98 | setting keeps every cursor equal to its path |
| StatesTree.SetInOtherPaths | respo/src/respo/states_tree.rs:81-98 | nodes on paths diverging from the set path are unchanged |
| StatesTree.CastBranch | respo/src/states_tree.rs:64-86 | a state of the right type is returned; otherwise the backup is restored, or the default is used |
| StatesTree.CastBranchEmpty | respo/src/states_tree.rs:64-86 | a branch with neither state nor backup gives the default |
| StatesTree.CastedEqIgnoresBackup | respo/src/states_tree/casted.rs:36-45 | casted-view equality ignores the backup |
| StatesTree.PickTo | respo/src/states_tree/casted.rs:58-86 | the branch's cursor, backup and branches are carried over; a missing branch gives the default state |
| StatesTree.PickToIsPickThenCast | respo/src/states_tree/casted.rs:58-86 | `pick_to` is `pick` followed by `cast_branch` |
| LegacyStatesTree.LocalStateEqIsIdentity | src/respo/states_tree.rs:77-89 | local states are equal when both are empty or both point to the same allocation |
| LegacyStatesTree.Load | src/respo/states_tree.rs:20-22 | `load` returns the node's own state |
| LegacyStatesTree.Pick | src/respo/states_tree.rs:29-37 | `pick` always gives an empty tree at the parent cursor plus the name |
| LegacyStatesTree.SetInFrame | src/respo/states_tree.rs:40-63 | the root keeps its data and cursor, and gains at most the path's first key |
| LegacyStatesTree.SetInAgreesOnExistingPath | src/respo/states_tree.rs:47-56 | along an existing path, the source and the corrected version agree |
| LegacyStatesTree.SetInFixedReaches | src/respo/states_tree.rs:40-63 | the corrected `set_in` stores the state at the path even where branches were missing |
| LegacyStatesTree.FirstStateDropped | src/respo/states_tree.rs:57-61 | setting a state under a missing branch stores an empty picked branch and loses the state |
| Memo.CallResult | src/memof1.rs:9-30 | same arguments return the cached value without calling; otherwise the function's result is returned and the function is called |
| Memo.OthersUntouched | src/memof1.rs:14-15 | a call touches only its own (address, key) entry, and registers the address |
| Memo.EntryAfter | src/memof1.rs:17-29 | a miss that succeeds records the arguments and value; a hit or an error leaves the entry as it was |
| Memo.RepeatIsHit | src/memof1.rs:17-19 | repeating a call with the same arguments is a hit returning the first value and changes nothing |
| Memo.MemoCache.CallBy | src/memof1.rs:9-30 | the call returns the result above and leaves the cache as described |
| Store.NewTask | demo_respo/src/store.rs:71-76 | a new task has the given id and content, not done, time zero |
| Store.WithoutId | demo_respo/src/store.rs:77-79 | `retain` keeps only tasks with another id, and only tasks of the list |
| Store.WithContentMeaning | demo_respo/src/store.rs:80-91 | only matching tasks get the content; an absent id changes nothing; repeating changes nothing more |
| Store.ToggledMeaning | demo_respo/src/store.rs:92-104 | only matching tasks flip `done`; an absent id changes nothing; toggling twice restores the list |
| Store.WithoutIdAppend | demo_respo/src/store.rs:77-79 | `retain` works piecewise over concatenation |
| Store.WithoutIdAbsent | demo_respo/src/store.rs:77-79 | removing an absent id keeps the list |
| Store.SetContentOfMatches | demo_respo/src/store.rs:81-87 | the loop updates matching tasks and reports whether one was found |
| Store.ToggleMatches | demo_respo/src/store.rs:93-100 | the loop flips matching tasks and reports whether one was found |
| Store.DemoStatesAction | demo_respo/src/store.rs:48-52 | a states update is wrapped unchanged into the action |
| Store.DemoStore.Update | demo_respo/src/store.rs:57-107 | task updates fail exactly for an absent id, with "task … not found" and the tasks unchanged; the counter, tasks and states change as each action says |
| Store.WrapStatesAction | demo_respo/src/app/store.rs:31-35 | the cursor and state are wrapped unchanged |
| Store.AppStore.GetStates | demo_respo/src/app/store.rs:40-42 | the store exposes its states tree |
| Store.AppStore.Update | demo_respo/src/app/store.rs:43-90 | the same reducer rules |
| Store.WrappedStateLands | demo_respo/src/app/store.rs:51-53 | a wrapped state, once applied, is found at its cursor |
| Store.WrapStateChange | src/app/data_types.rs:31-35 | the cursor and state are wrapped unchanged |
| Store.LegacyStore.ApplyAction | src/app/data_types.rs:37-84 | the same reducer rules for the older store |
| Store.WrappedLegacyStateLands | src/app/data_types.rs:31-35 | a wrapped state, once applied, is found at its cursor |
| Builders.Named | respo/src/node/element.rs:38-46 | a new element has the tag and nothing else |
| Builders.ModifyStyle | respo/src/node/element.rs:72-80 | the style builder may change only the style |
| Builders.Enumerated | respo/src/node/element.rs:152-162 | children are keyed by their position in decimal |
| Builders.Elements | respo/src/node/element.rs:177-187 | `elements` is `children` over the elements wrapped as nodes |
| Builders.Class | respo/src/node/element.rs:190-195 | `class` sets the "class" attribute |
| Builders.MaybeClass | respo/src/node/element.rs:197-205 | `maybe_class` sets the "class" attribute when a name is given |
| Builders.ToggleClass | respo/src/node/element.rs:207-216 | `toggle_class` sets the class when on and changes nothing when off |
| Builders.ClassList | respo/src/node/element.rs:218-227 | `class_list` sets "class" to the names joined by spaces |
| Builders.InnerText | respo/src/node/element.rs:229-234 | sets the "innerText" attribute |
| Builders.InnerHtml | respo/src/node/element.rs:236-241 | sets the "innerHTML" attribute |
| Builders.Value | respo/src/node/element.rs:243-248 | sets the "value" attribute |
| Builders.StyleAppends | respo/src/node/element.rs:56-63 | `style` appends the pairs after the existing ones in order, nothing else changes, and two calls equal one with both lists |
| Builders.AttributeMeaning | respo/src/node/element.rs:82-91 | `attribute` sets one key, keeps the others and changes nothing else; the last value written wins |
| Builders.MaybeNoneUnchanged | respo/src/node/element.rs:93-106 | `maybe_attribute` and `maybe_class` with no value change nothing; with a value they are `attribute` |
| Builders.ChildrenKeys | respo/src/node/element.rs:152-162 | `children` keeps the old children and appends the new ones under decimal index keys |
| Builders.ClassListSplits | respo/src/node/element.rs:218-227 | splitting the class attribute at spaces gives the names back when no name contains a space |
| Builders.NewComponent | respo/src/respo/primes.rs:122-124 | a new component has the name, no effects and the tree |
| Builders.ShareWithRef | respo/src/respo/primes.rs:420-422 | a shared reference points at the node |
| Builders.Style | respo/src/respo/primes.rs:129-144 | the in-place `style` does to the wrapped element what the by-value `style` does |
| Builders.ModifyStyleOf | respo/src/respo/primes.rs:153-169 | the in-place `modify_style` forwards to the wrapped element |
| Builders.AttributeOf | respo/src/respo/primes.rs:171-188 | the in-place `attribute` forwards to the wrapped element |
| Builders.MaybeAttributeOf | respo/src/respo/primes.rs:190-209 | with a value, the in-place `maybe_attribute` forwards to the wrapped element; with no value, any node, a reference included, is returned unchanged |
| Builders.OnNamedEventOf | respo/src/respo/primes.rs:249-265 | the in-place `on_named_event` registers the listener on the wrapped element |
| Builders.ChildrenOf | respo/src/respo/primes.rs:268-286 | the in-place `children` appends under index keys on the wrapped element |
| Builders.ChildrenIndexedOf | respo/src/respo/primes.rs:288-306 | the in-place `children_indexed` appends the keyed children |
| Builders.ClassListOf | respo/src/respo/primes.rs:384-394 | the in-place `class_list` sets the joined class |
| Builders.ToggleClassOf | respo/src/respo/primes.rs:374-382 | on, the in-place `toggle_class` sets "class" on the wrapped element; off, any node is returned unchanged |
| Builders.AddEffect | respo/src/respo/primes.rs:308-323 | `effect` appends one effect to the component and keeps its name and tree |
| Builders.AddEffects | respo/src/respo/primes.rs:341-355 | `effects` appends the effects in order |
| Builders.ForwardedThroughComponents | respo/src/respo/primes.rs:129-188 | forwarded builders keep the component shell, and chained calls compose on the element inside |
| Strings.DecimalRoundTrip | respo/src/respo/primes.rs:77-81 | the decimal text of a number reads back as the number |
| Strings.SplitJoin | respo/src/node/element.rs:218-227 | joining names with a separator they do not contain, then splitting, gives the names back |
| Strings.ReplaceColonsRemovesAll | respo/src/node/css.rs:790-799 | replacing "::" with "_" leaves no "::" |
| Css.Insert | respo/src/node/css.rs:54-58 | `insert` appends one pair at the end and keeps the earlier ones |
| Css.Len | respo/src/node/css.rs:69-75 | the length is zero exactly for the empty style |
| Css.StyleTextAppend | respo/src/node/css.rs:78-85 | the text of a style is the texts of its parts in order |
| Css.InsertText | respo/src/node/css.rs:54-58 | inserting a pair adds exactly "key: value;\n" at the end of the text |
| Css.DisplayStyle | respo/src/node/css.rs:78-85 | the loop writes each pair as "key: value;\n", in insertion order |
| Css.RenderRules | respo/src/node/css.rs:60-67 | the loop writes "query {\n", the declarations and "\n}" for each rule, in order |
| Css.RulesTextAppend | respo/src/node/css.rs:60-67 | rendering rules distributes over concatenation |
| Css.LinePairs | respo/src/node/css.rs:112-135 | no line means width "0px", style "none", colour "transparent"; a line means its width in px, style and colour |
| Css.Border | respo/src/node/css.rs:112-123 | `border` keeps the old pairs and appends the three border pairs |
| Css.Outline | respo/src/node/css.rs:124-135 | `outline` keeps the old pairs and appends the three outline pairs |
| Css.TransformOriginMisspelt | respo/src/node/css.rs:244-246 | as written the pair is stored under "tranform-origin"; the corrected builder uses "transform-origin" |
| Css.CssSizeText | respo/src/respo/css.rs:298-309 | `Auto` renders "auto" and `Custom(v)` renders `v` verbatim |
| Css.FontWeightText | respo/src/node/css.rs:667-683 | a numeric weight renders as its decimal text |
| Css.KeywordsDistinct | respo/src/node/css.rs:275-607 | each of the fifteen keyword enums (position, display, wrap, direction, justify, align, timing, font style, vertical align, overflow, text overflow, box sizing, text align, text decoration, border style) renders distinct variants as distinct keywords |
| Css.FontWeightDistinct | respo/src/node/css.rs:667-683 | distinct font weights render differently |
| Css.CssNameIsIdentifier | respo/src/node/css.rs:790-799 | a generated name contains no "::", "/" or "." |
| Css.CssNameExample | respo/src/node/css.rs:790-799 | "src/a/b.rs" becomes "a_b" |
| Css.SelectorExamples | respo/src/node/css.rs:717-727 | "&" and "$0" both become "." followed by the class name |
| Css.StyleRegistry.DeclareStaticStyle | respo/src/node/css.rs:699-737 | returns the name; the first call writes one "def__" style tag with each rule's selector, declarations and "}\n"; later calls for the name change nothing |
| Css.StyleBuilder.Push | respo/src/respo/css.rs:24-27 | the in-place `insert` pushes one pair |
| Css.StyleBuilder.PushBorder | respo/src/respo/css.rs:81-95 | the in-place `border` pushes what the by-value `border` appends |
| Css.StyleBuilder.PushOutline | respo/src/respo/css.rs:96-110 | the in-place `outline` pushes what the by-value `outline` appends |
| LegacyCss.SizeText | src/respo/css.rs:160-171 | `Auto` renders "auto" and `Custom(v)` renders `v` verbatim |
| LegacyCss.ColorText | src/respo/css.rs:216-239 | `Hex(h)` renders "#" followed by the two-digit lowercase hex of `h` |
| LegacyCss.HexColorShape | src/respo/css.rs:225 | a hex colour is "#" and two lowercase hex digits |
| LegacyCss.JustifyContentText | src/respo/css.rs:363-372 | the older justify-content keywords are those of the current crate |
| LegacyCss.GetPair | src/respo/css.rs:93-146 | each rule sets its fixed property; the value is the rule's text, except the max-size and text-shadow values |
| LegacyCss.GetPairFixed | src/respo/css.rs:93-146 | the corrected pairs give max-width and max-height the size text that width uses |
| LegacyCss.MaxWidthDoubleUnit | src/respo/css.rs:111-112 | as written `MaxWidth(Px(10))` gives "10pxpx" and `MaxWidth(Auto)` gives "autopx" |
| LegacyCss.TextShadowColorUnit | src/respo/css.rs:122 | as written the text shadow ends with the colour followed by "px" |
| LegacyCss.ZIndexDecimal | src/respo/css.rs:136 | `z-index` is the index in decimal |
| LegacyCss.RuleText | src/respo/css.rs:83-90 | a rule displays as its property followed directly by its value |
| LegacyCss.EntriesTextEnds | src/respo/css.rs:25-32 | each entry text ends with ";" |
| LegacyCss.DisplayStyle | src/respo/css.rs:25-32 | every entry is written once as "key:value;", in an iteration order that lists each key exactly once |
| LegacyCss.StyleMap.Insert | src/respo/css.rs:19-22 | `insert` sets the property, overwriting |
| LegacyCss.StyleMap.Add | src/respo/css.rs:14-18 | `add` inserts exactly the rule's pair |
| LegacyCss.AddRule | src/respo/css.rs:14-18 | after `add`, the rule's property holds its value and the other properties are kept |
| LegacyCss.LaterRuleWins | src/respo/css.rs:14-18 | of two rules for the same property only the later is kept |
| LegacyCss.DistinctRulesCommute | src/respo/css.rs:14-18 | rules for different properties can be added in either order |

## Left out

- I/O and the browser: creating and patching DOM nodes, `query_select_node`, `build_dom_tree`, `render_node`'s loop and timers, and the JS event objects. DOM writes are abstract; the style registry records the tags it would write.
- Patch semantics: `ApplyChildOp` borrows the effect on the child key list from `respo/src/respo/patch.rs`, which is context rather than core. Only the key sequence is tracked, not DOM nodes.
- Closures: listeners, effect handlers and `DispatchFn` are opaque names. Listener equality is always true; effect equality compares arguments only.
- Shared ownership: `Rc` identity is a number, both for `Referenced` nodes and for the older `LocalState`. Two references with the same number are not compared, mirroring `Rc::ptr_eq`.
- Hash iteration order is unspecified. The map and set serialisers (`SetToCirru`, `StrDictToCirru`, `LegacyCss.DisplayStyle`) choose an order and state that it lists each entry exactly once.
- Floats: `f32` values (px, em, degrees, opacity, durations, `Task.time`) are kept as their already formatted text, or as a real that is only ever set to zero. Colour conversion (`Hsla`, `Hsluv`, the `hsluv` crate), `css_size.rs`, box-shadow and transform strings of the current crate are out.
- Only the property builders named here are modelled. The many one-property style builders (`width`, `margin`, `font_size`, …) are single inserts, like `Css.Insert`.
- The `on_click` / `on_input` / `on_keydown` / `on_focus` / `on_change` builders are `on_named_event` with a fixed name and are covered by `Builders.OnNamedEventOf`.
- `to_node` only wraps an element, so it is covered by `Element`.
- `stable_effect` is `effect` with no arguments (`Builders.AddEffect`).
- Store counters: `counted` is an unbounded integer. `Store.DemoStore.Update`, `Store.AppStore.Update` and `Store.LegacyStore.ApplyAction` do not model the `i32` overflow of `+= 1` / `-= 1` (demo_respo/src/app/store.rs:7, 46, 49 and src/app/data_types.rs:7, 40, 43), which panics in debug builds and wraps in release builds.
- Memo.CallResult and `Memo.MemoCache.CallBy`: the memoised function `f` is passed in as its ready-made result, so the model assumes `f` does not touch the cache. In src/memof1.rs:14-26 the `RefMut` of `caches.borrow_mut()` stays alive while `f()` runs, and the macros at src/memof1.rs:59 and :73 hand the same cache to the memoised function; a memoised call nested inside another one on the same cache therefore panics with "already borrowed" in the source, which the model does not capture.
- Error texts: the `Err` strings of `Renderer.LoadCoordTargetTree`, `Renderer.RequestForTargetHandler` and their legacy counterparts in `legacy_respo.dfy` are shortened. The `{:?}` parts interpolated by respo/src/app/renderer.rs:177, 180, 190 and 207-212 (the child index, the coordinate, the list of available event names) are dropped; the texts are only logged, and no contract depends on their wording.
- The states tree's `restore_from` is a parameter `restore` of the cast. Serde (de)serialisation of backups is opaque text.
- `cast_or_default` (`respo/src/respo/states_tree.rs:133`) returns `Result<Rc<T>, String>` from an `Rc` downcast, and `pick_to` (`respo/src/states_tree/casted.rs:67`) applies `?` to `cast_branch`, which in `respo/src/states_tree.rs:64` returns a plain `Rc<T>`. The model returns states by value, with the error as a `Result`.
- `demo_respo/src/app/store.rs` calls `set_in_mut` with two arguments. This does not match the three-argument `set_in_mut` of `respo/src/respo/states_tree.rs`, so the model passes no backup (`None`).
- `demo_respo/src/store.rs` destructures `RespoUpdateState` as a tuple. This does not match the record in `respo/src/states_tree.rs`, so the model uses the record's fields.
- `src/app/data_types.rs` calls `set_in_mut` on the older tree, which only has the persistent `set_in`. `Store.LegacyStore.ApplyAction` uses the corrected `set_in` (`LegacyStatesTree.SetInFixed`).
- `src/respo/patch.rs` matches keyed child operations (`Append(k, node)`, `Prepend`, `NestedEffect`) that the `ChildDomOp` of `src/respo/primes.rs` does not have. The older child operations are applied with the meaning of their names: `Append` at the end, `RemoveAt(i)` at `i`, `InsertAfter(i, n)` after position `i`.
- In the current diff, two references to one shared cell are not compared at all. A reference against an element is compared through the cell; against a component it is replaced, as the component arms come first.
- `src/respo/diff.rs` builds `DomChange { coord, .. }` records and `DomChange::Effect`, while the `DomChange` of `src/respo/primes.rs:233-260` has a `digit_coord` field and no `Effect` variant. `LegacyDiff.Change` follows `src/respo/diff.rs`.
- `declare_contained_style` (the variant wrapping rules in an `@media`-style block) is not part of this model. Only `declare_static_style` is.
- The `Display` of the older `RespoStyle` writes entries in hash order. The model exposes that order as an output rather than fixing it.
- Macros (`memo1_call_by!`, `static_styles!`, `util::log!`) and derive macros are not part of this model. The memo cache is modelled through `internal_memof1_call_by`.

## Findings

| source | as written | input that shows it | evidently intended | confidence | as-written member | corrected member |
|---|---|---|---|---|---|---|
| src/respo/diff.rs:236-242 | a new child found by the look-ahead is emitted as `Append`, which the patch puts at the end of the list | new keys `[b, a]`, old keys `[a]`: the patch gives `[a, b]` | insert the new child at the cursor | high (not executed) | LegacyDiff.LookAheadInsertAppends | Diff.ChildOpsPatch |
| src/respo/diff.rs:243-250 | a replaced child is emitted as `RemoveAt(cursor)` then `InsertAfter(cursor, node)`, so it lands one place too far right | new keys `[b, c]`, old keys `[a, c]`: the patch gives `[c, b]` | insert at the cursor after removing | high (not executed) | LegacyDiff.ReplacedChildMisplaced | Diff.ChildOpsPatch |
| src/respo/diff.rs:82-86 | a tag change emits `ReplaceElement` carrying the old element `b` | new `<span>`, old `<div>`: the DOM keeps the `<div>` | carry the new element | high (not executed) | LegacyDiff.ReplaceKeepsOldNode | Diff.ReplaceCarriesNew |
| src/respo.rs:114-116 | the component arm binds `name` to the component's name, which then stands for the event name in the recursive lookup | component "app" around a div listening to "click", coordinate `[Comp("app")]`: no handler is found | keep searching for the event name | high (not executed) | LegacyRespo.ShadowedEventName | LegacyRespo.FixedFindsHandler |
| src/respo/states_tree.rs:57-61 | setting a state under a missing branch inserts an empty picked branch and drops the state and the rest of the path | empty tree, path `["a"]`, state 1: the branch "a" holds no state | recurse into the picked branch | high (not executed) | LegacyStatesTree.FirstStateDropped | LegacyStatesTree.SetInFixedReaches |
| respo/src/node/css.rs:244-246 | `transform_origin` inserts the property "tranform-origin" | any origin: the browser ignores the property | "transform-origin" | high (not executed) | Css.TransformOriginMisspelt | Css.TransformOriginFixed |
| src/respo/css.rs:111-112 | `MaxWidth` / `MaxHeight` format a size that already carries its unit with a further "px" | `MaxWidth(Px(10))` gives "10pxpx", `MaxWidth(Auto)` gives "autopx" | the size text, as for `Width` | high (not executed) | LegacyCss.MaxWidthDoubleUnit | LegacyCss.GetPairFixed |
| src/respo/css.rs:122 | `TextShadow` appends "px" after the colour | `TextShadow(1, 2, 3, Red)` gives "1px 2px 3px redpx" | no unit after the colour | high (not executed) | LegacyCss.TextShadowColorUnit | LegacyCss.GetPairFixed |
