/** Event bookkeeping of the first generation (`src/respo.rs`): a queue of event marks that
  * the render loop drains, and the positional lookup of the listener an event targets. */
module LegacyRespo {
  import opened Wrappers
  import opened LegacyPrimes
  import Node

  /** `RespoEventMark`: the event name, where it happened, and the browser event (opaque). */
  datatype EventMark<E> = EventMark(name: string, coord: seq<Coord>, eventInfo: E)

  /** The global `EVENTS_QUEUE`. */
  class EventQueue<E> {
    var queue: seq<EventMark<E>>

    constructor ()
      ensures queue == []
    {
      queue := [];
    }

    /** `load_user_events`: every queued mark, oldest first; the queue is left empty. */
    method LoadUserEvents() returns (events: seq<EventMark<E>>)
      modifies this
      ensures events == old(queue)
      ensures queue == []
    {
      events := [];
      var drained := queue;
      queue := [];
      for i := 0 to |drained|
        invariant events == drained[..i]
      {
        assert drained[..i + 1] == drained[..i] + [drained[i]];
        events := events + [drained[i]];
      }
      assert drained[..|drained|] == drained;
    }

    /** `track_delegated_event`: one more mark at the back of the queue. */
    method TrackDelegatedEvent(coord: seq<Coord>, name: string, event: E)
      modifies this
      ensures queue == old(queue) + [EventMark(name, coord, event)]
    {
      queue := queue + [EventMark(name, coord, event)];
    }
  }

  /** Marks come out of the queue in the order they went in. */
  method TrackTwiceThenLoad<E>(q: EventQueue<E>, a: EventMark<E>, b: EventMark<E>) returns (events: seq<EventMark<E>>)
    modifies q
    requires q.queue == []
    ensures events == [a, b] && q.queue == []
  {
    q.TrackDelegatedEvent(a.coord, a.name, a.eventInfo);
    q.TrackDelegatedEvent(b.coord, b.name, b.eventInfo);
    events := q.LoadUserEvents();
  }

  // ---------------------------------------------------------------------------
  // The listener an event targets.

  /** `request_for_target_handler` as written: `Idx` steps select children by position.
    * Past a `Comp` step the recursion passes the component's name where the event name
    * belongs (the match binding `name` shadows the parameter). */
  function RequestForTargetHandler(t: LNode, name: string, coord: seq<Coord>): Result<Node.Listener>
    decreases |coord|
  {
    if |coord| == 0 then
      match t
      case Component(cname, _, _) => Err("expected element, found target being a component: " + cname)
      case Element(tag, _, events, _, _) =>
        if name in events then Ok(events[name]) else Err("no handler for event " + name + " on " + tag)
    else
      match t
      case Component(cname, _, tree) =>
        (match coord[0]
         case Comp(target) =>
           if cname == target then RequestForTargetHandler(tree, cname, coord[1..])
           else Err("expected component " + cname + " to be " + target)
         case Idx(_) => Err("expected element, found target being a component"))
      case Element(_, _, _, _, children) =>
        (match coord[0]
         case Idx(i) =>
           if i < |children| then RequestForTargetHandler(children[i].1, name, coord[1..])
           else Err("no child at index")
         case Comp(_) => Err("expected component, found target being an element"))
  }

  /** The same walk keeping the event name it was given. */
  function RequestForTargetHandlerFixed(t: LNode, name: string, coord: seq<Coord>): (r: Result<Node.Listener>)
    ensures |coord| > 0 && t.Component? && coord[0].Idx? ==> r.Err?
    ensures |coord| > 0 && t.Element? && coord[0].Comp? ==> r.Err?
    ensures |coord| > 0 && t.Element? && coord[0].Idx? && coord[0].index >= |t.children| ==> r.Err?
    decreases |coord|
  {
    if |coord| == 0 then
      match t
      case Component(cname, _, _) => Err("expected element, found target being a component: " + cname)
      case Element(tag, _, events, _, _) =>
        if name in events then Ok(events[name]) else Err("no handler for event " + name + " on " + tag)
    else
      match t
      case Component(cname, _, tree) =>
        (match coord[0]
         case Comp(target) =>
           if cname == target then RequestForTargetHandlerFixed(tree, name, coord[1..])
           else Err("expected component " + cname + " to be " + target)
         case Idx(_) => Err("expected element, found target being a component"))
      case Element(_, _, _, _, children) =>
        (match coord[0]
         case Idx(i) =>
           if i < |children| then RequestForTargetHandlerFixed(children[i].1, name, coord[1..])
           else Err("no child at index")
         case Comp(_) => Err("expected component, found target being an element"))
  }

  /** The coordinate read as a path: `Comp` steps name the component passed, `Idx(i)` steps
    * go to the `i`-th child. */
  predicate Reaches(t: LNode, coord: seq<Coord>, n: LNode)
    decreases |coord|
  {
    if |coord| == 0 then n == t
    else match coord[0]
      case Comp(c) => t.Component? && t.name == c && Reaches(t.tree, coord[1..], n)
      case Idx(i) => t.Element? && i < |t.children| && Reaches(t.children[i].1, coord[1..], n)
  }

  /** The lookup finds exactly the listeners of the element the coordinate leads to. */
  lemma {:induction false} FixedFindsHandler(t: LNode, name: string, coord: seq<Coord>)
    ensures RequestForTargetHandlerFixed(t, name, coord).Ok? ==>
      exists n :: Reaches(t, coord, n) && n.Element? && name in n.events &&
        n.events[name] == RequestForTargetHandlerFixed(t, name, coord).value
    ensures forall n :: Reaches(t, coord, n) && n.Element? && name in n.events ==>
      RequestForTargetHandlerFixed(t, name, coord) == Ok(n.events[name])
    ensures forall n :: Reaches(t, coord, n) && n.Component? ==> RequestForTargetHandlerFixed(t, name, coord).Err?
    decreases |coord|
  {
    if |coord| > 0 {
      match t {
        case Component(_, _, tree) => FixedFindsHandler(tree, name, coord[1..]);
        case Element(_, _, _, _, children) =>
          if coord[0].Idx? && coord[0].index < |children| {
            FixedFindsHandler(children[coord[0].index].1, name, coord[1..]);
          }
      }
    } else {
      if RequestForTargetHandlerFixed(t, name, coord).Ok? {
        assert Reaches(t, coord, t);
      }
    }
  }

  /** A click inside a component is not found: past `Comp("app")` the walk looks for a
    * listener named "app" instead of "click". */
  lemma ShadowedEventName()
    ensures var div := Element("div", map[], map["click" := Node.Listener("on-click")], map[], []);
      var t := Component("app", [], div);
      RequestForTargetHandler(t, "click", [Comp("app")]).Err? &&
      RequestForTargetHandlerFixed(t, "click", [Comp("app")]) == Ok(Node.Listener("on-click"))
  {
    var div := Element("div", map[], map["click" := Node.Listener("on-click")], map[], []);
    assert "app" !in div.events by {
      assert "app" != "click" by { assert "app"[0] != "click"[0]; }
    }
    assert [Comp("app")][1..] == [];
  }
}
