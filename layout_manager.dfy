/** `CLayoutManager` (src/utils/LayoutManager.mjs): follows the store's
    `layout` field and keeps the page's top-level layout in step with it.

    Layout instances are abstract: each has the kind it was created as and
    a status, and every lifecycle call the manager makes on one is recorded.
    `#onChange` runs to completion in one step: the `await` on the layout
    module is taken as atomic, with the outcome of the dynamic `import()`
    given as a parameter. */
module LayoutManager {
  import opened Js
  import opened StoreTree
  import Store

  /** The layout classes `#getLayout` can construct. */
  datatype Kind = MainLayout

  /** `Rendered(n)`: mounted, refreshed by `update()` n times since. */
  datatype Status = Rendered(updates: nat) | Exterminated

  datatype Instance = Instance(kind: Kind, status: Status)

  /** A lifecycle call on the instance with the given index. */
  datatype LifecycleCall = Render(id: nat) | Update(id: nat) | Exterminate(id: nat)

  /** The manager's state: `#active` (`None` is `undefined`), `#layout` as an
      index into `instances` (`None` is `undefined`), every instance created
      so far, and every lifecycle call issued so far. */
  datatype Manager = Manager(
    active: Option<Tree>,
    layout: Option<nat>,
    instances: seq<Instance>,
    calls: seq<LifecycleCall>)

  /** The outcome of one `#onChange`: the new state, and what it threw. */
  datatype Step = Step(next: Manager, error: Option<Error>)

  const Fresh: Manager := Manager(None, None, [], [])

  predicate WellFormed(m: Manager)
  {
    m.layout.Some? ==> m.layout.value < |m.instances|
  }

  /** Every instance other than the current one has been exterminated, so at
      most one layout is mounted. */
  predicate Valid(m: Manager)
  {
    && WellFormed(m)
    && forall i :: 0 <= i < |m.instances| && m.instances[i].status.Rendered? ==> m.layout == Some(i)
  }

  /** Under `Valid`, no two layouts are mounted at once. */
  lemma AtMostOneMounted(m: Manager, i: nat, j: nat)
    requires Valid(m)
    requires i < |m.instances| && m.instances[i].status.Rendered?
    requires j < |m.instances| && m.instances[j].status.Rendered?
    ensures i == j && m.layout == Some(i)
  {
  }

  /** `#getLayout`: the layout class for a name. */
  function GetLayout(name: Option<Tree>): Option<Kind>
  {
    if name == Some(Leaf(Str("main"))) then Some(MainLayout) else None
  }

  /** `update()` on an instance: one more refresh of a mounted layout. */
  function Refreshed(inst: Instance): (r: Instance)
    ensures r.kind == inst.kind
    ensures r.status.Rendered? <==> inst.status.Rendered?
  {
    match inst.status
    case Rendered(n) => inst.(status := Rendered(n + 1))
    case Exterminated => inst
  }

  /** `#onChange(name)`. */
  function Change(m: Manager, name: Option<Tree>, importOk: bool): (s: Step)
    requires WellFormed(m)
    ensures WellFormed(s.next)
    ensures Valid(m) ==> Valid(s.next)
  {
    if name == m.active then
      match m.layout
      case None => Step(m, Some(TypeError))
      case Some(i) =>
        Step(m.(instances := m.instances[i := Refreshed(m.instances[i])], calls := m.calls + [Update(i)]), None)
    else
      var torn :=
        match m.layout
        case None => m.(active := name)
        case Some(i) =>
          m.(active := name,
             instances := m.instances[i := m.instances[i].(status := Exterminated)],
             calls := m.calls + [Exterminate(i)]);
      match GetLayout(name)
      case None => Step(torn.(layout := None), None)
      case Some(k) =>
        if !importOk then Step(torn, Some(LoadFailure))
        else
          var id := |torn.instances|;
          Step(torn.(layout := Some(id), instances := torn.instances + [Instance(k, Rendered(0))],
                     calls := torn.calls + [Render(id)]), None)
  }

  /** A repeated name with a layout refreshes that layout: one `update()`,
      nothing exterminated, nothing created. */
  lemma SameNameRefreshes(m: Manager, name: Option<Tree>, importOk: bool)
    requires Valid(m) && name == m.active && m.layout.Some?
    ensures var s := Change(m, name, importOk);
      && s.error == None
      && s.next.active == m.active && s.next.layout == m.layout
      && |s.next.instances| == |m.instances|
      && s.next.calls == m.calls + [Update(m.layout.value)]
      && (forall i :: 0 <= i < |m.instances| && i != m.layout.value ==> s.next.instances[i] == m.instances[i])
      && s.next.instances[m.layout.value].kind == m.instances[m.layout.value].kind
      && (s.next.instances[m.layout.value].status.Rendered? <==> m.instances[m.layout.value].status.Rendered?)
  {
  }

  /** A repeated name without a layout (`''` the second time) calls
      `update()` on `undefined`: a TypeError, and nothing changes. */
  lemma SameNameWithoutLayoutThrows(m: Manager, name: Option<Tree>, importOk: bool)
    requires WellFormed(m) && name == m.active && m.layout.None?
    ensures Change(m, name, importOk) == Step(m, Some(TypeError))
  {
  }

  /** A new name is recorded, the old layout is exterminated, and the
      resolved layout, if any, is created and rendered. */
  lemma NewNameSwaps(m: Manager, name: Option<Tree>)
    requires Valid(m) && name != m.active
    ensures var s := Change(m, name, true);
      && s.error == None
      && s.next.active == name
      && (forall i :: 0 <= i < |m.instances| ==> s.next.instances[i].status == Exterminated)
      && (GetLayout(name).None? ==> s.next.layout == None && |s.next.instances| == |m.instances|)
      && (GetLayout(name).Some? ==>
            && |s.next.instances| == |m.instances| + 1
            && s.next.layout == Some(|m.instances|)
            && s.next.instances[|m.instances|] == Instance(GetLayout(name).value, Rendered(0)))
      && s.next.calls == m.calls
           + (if m.layout.Some? then [Exterminate(m.layout.value)] else [])
           + (if GetLayout(name).Some? then [Render(|m.instances|)] else [])
  {
  }

  /** Only `'main'` mounts a layout, a `MainLayout`; any other new name
      leaves none mounted, yet is still recorded as active. */
  lemma OnlyMainMounts(m: Manager, name: Option<Tree>)
    requires Valid(m) && name != m.active
    ensures var s := Change(m, name, true);
      && s.next.active == name
      && (s.next.layout.Some? <==> name == Some(Leaf(Str("main"))))
      && (s.next.layout.Some? ==> s.next.instances[s.next.layout.value] == Instance(MainLayout, Rendered(0)))
      && (s.next.layout.None? ==> s.next.calls == m.calls + (if m.layout.Some? then [Exterminate(m.layout.value)] else []))
  {
  }

  /** When loading the layout module fails, the new name is already recorded
      and the old layout already exterminated; `#layout` still refers to it. */
  lemma NewNameLoadFails(m: Manager, name: Option<Tree>)
    requires Valid(m) && name != m.active && GetLayout(name).Some?
    ensures var s := Change(m, name, false);
      && s.error == Some(LoadFailure)
      && s.next.active == name
      && s.next.layout == m.layout
      && |s.next.instances| == |m.instances|
      && (forall i :: 0 <= i < |m.instances| ==> s.next.instances[i].status == Exterminated)
  {
  }

  /** The layout that should be mounted for the current name is: a rendered
      instance of the resolved kind, or none when the name resolves to none. */
  predicate MountedFor(m: Manager)
    requires WellFormed(m)
  {
    match GetLayout(m.active)
    case None => m.layout == None
    case Some(k) =>
      && m.layout.Some?
      && m.instances[m.layout.value].kind == k
      && m.instances[m.layout.value].status.Rendered?
  }

  /** One value the `layout` field took, with whether the layout module it
      needs, if any, loaded. */
  datatype Event = Event(name: Option<Tree>, importOk: bool)

  /** The state after each of `events` in turn, each change settled before
      the next one. */
  function Run(m: Manager, events: seq<Event>): (r: Manager)
    requires WellFormed(m)
    ensures WellFormed(r)
    ensures Valid(m) ==> Valid(r)
    decreases |events|
  {
    if events == [] then m
    else
      var e := events[|events| - 1];
      Change(Run(m, events[..|events| - 1]), e.name, e.importOk).next
  }

  /** Every layout module needed along the way loaded. */
  predicate Loaded(events: seq<Event>)
  {
    forall k :: 0 <= k < |events| ==> events[k].importOk
  }

  /** One settled change keeps the mounted layout in step with the name. */
  lemma ChangeMounts(m: Manager, name: Option<Tree>)
    requires Valid(m) && MountedFor(m)
    ensures Valid(Change(m, name, true).next)
    ensures Change(m, name, true).next.active == name
    ensures MountedFor(Change(m, name, true).next)
  {
  }

  /** Whatever loads and whatever fails, the last value is the active name. */
  lemma {:induction false} RunRecordsLast(m: Manager, events: seq<Event>)
    requires WellFormed(m) && events != []
    ensures Run(m, events).active == events[|events| - 1].name
  {
  }

  /** After any sequence of `layout` values, repeated ones included, in which
      every layout module loads, at most one layout is mounted, and it is the
      one the last value names. */
  lemma {:induction false} RunMountsLast(events: seq<Event>)
    requires events != [] && Loaded(events)
    ensures Valid(Run(Fresh, events))
    ensures Run(Fresh, events).active == events[|events| - 1].name
    ensures MountedFor(Run(Fresh, events))
  {
    RunKeepsMounted(events);
    RunRecordsLast(Fresh, events);
  }

  lemma {:induction false} RunKeepsMounted(events: seq<Event>)
    requires Loaded(events)
    ensures Valid(Run(Fresh, events)) && MountedFor(Run(Fresh, events))
    decreases |events|
  {
    if events != [] {
      var init := events[..|events| - 1];
      assert Loaded(init) by {
        forall k | 0 <= k < |init| ensures init[k].importOk { assert init[k] == events[k]; }
      }
      RunKeepsMounted(init);
      ChangeMounts(Run(Fresh, init), events[|events| - 1].name);
    }
  }

  /** A failed load is not retried: when the same name comes again, the
      `update()` branch is taken, so nothing is mounted until a different
      name arrives. With no earlier layout, the repeat throws a TypeError. */
  lemma FailedLoadNotRetried(m: Manager, name: Option<Tree>, importOk: bool)
    requires Valid(m) && name != m.active && GetLayout(name).Some?
    ensures var failed := Change(m, name, false).next;
      var again := Change(failed, name, importOk);
      && again.next.active == name
      && |again.next.instances| == |m.instances|
      && (forall i :: 0 <= i < |again.next.instances| ==> again.next.instances[i].status == Exterminated)
      && !MountedFor(again.next)
      && (again.error == Some(TypeError) <==> m.layout.None?)
  {
  }

  class CLayoutManager {
    var active: Option<Tree>
    var layout: Option<nat>
    var instances: seq<Instance>
    var calls: seq<LifecycleCall>

    function State(): Manager
      reads this
    {
      Manager(active, layout, instances, calls)
    }

    /** Subscribes `#onChange` (the callback `self`) to `'layout'` and
        processes the field's current value at once. */
    constructor (store: Store.CStore, self: Store.CallbackId, importOk: bool)
      requires store.Valid()
      modifies store`listeners
      ensures store.Valid()
      ensures store.listeners == old(store.listeners)["layout" := Store.Added(Store.Listeners(old(store.listeners), "layout"), self)]
      ensures Valid(State())
      ensures State() == Change(Fresh, Some(store.data.fields["layout"]), importOk).next
    {
      active := None;
      layout := None;
      instances := [];
      calls := [];
      new;
      store.Subscribe("layout", self);
      var current := store.Get("layout");
      Store.FieldLookup(store.data, "layout");
      var _ := OnChange(current.value, importOk);
    }

    /** `#onChange(name)`; returns what it threw. */
    method OnChange(name: Option<Tree>, importOk: bool) returns (error: Option<Error>)
      requires Valid(State())
      modifies this
      ensures Valid(State())
      ensures Step(State(), error) == Change(old(State()), name, importOk)
    {
      if name == active {
        if layout.None? {
          return Some(TypeError);
        }
        var i := layout.value;
        instances := instances[i := Refreshed(instances[i])];
        calls := calls + [Update(i)];
        return None;
      }
      active := name;
      if layout.Some? {
        var i := layout.value;
        instances := instances[i := instances[i].(status := Exterminated)];
        calls := calls + [Exterminate(i)];
      }
      var kind := GetLayout(name);
      if kind.None? {
        layout := None;
        return None;
      }
      if !importOk {
        return Some(LoadFailure);
      }
      var id := |instances|;
      instances := instances + [Instance(kind.value, Rendered(0))];
      layout := Some(id);
      calls := calls + [Render(id)];
      error := None;
    }
  }
}
