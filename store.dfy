/** `CStore` (src/core/Store.mjs): the process-wide state tree addressed by
    dotted field names, with a registry of callbacks per field name. */
module Store {
  import opened Js
  import opened Paths
  import opened StoreTree

  /** A callback passed to `subscribe`, identified by the function value. */
  type CallbackId = nat

  /** One callback invocation `cb(newValue)` made by `#notify`. */
  datatype Notification = Notification(callback: CallbackId, value: Tree)

  /** The fields `data` is created with, and the only ones it ever has. */
  const Fields: set<string> := {"selectedBudgetId", "budgets", "layout"}

  /** `data` as the store is created. */
  function InitialData(): (d: Tree)
    ensures d.Node? && d.fields.Keys == Fields
  {
    Node(map["selectedBudgetId" := Leaf(Num(-1)), "budgets" := List([]), "layout" := Leaf(Str(""))])
  }

  /** Where `get` and `has` start: the store object, seen through its
      `data` property. */
  function Root(data: Tree): Tree
  {
    Node(map["data" := data])
  }

  /** What `get(field)` and `has(field)` walk: the pieces of
      `"data." + field` from the store object. */
  function Lookup(data: Tree, field: string): Result<Option<Tree>>
  {
    Resolve(Root(data), Split("data." + field))
  }

  predicate NoDuplicates(s: seq<CallbackId>)
  {
    forall i, j :: 0 <= i < j < |s| ==> s[i] != s[j]
  }

  lemma NoDuplicatesCons(x: CallbackId, s: seq<CallbackId>)
    ensures NoDuplicates([x] + s) <==> x !in s && NoDuplicates(s)
  {
    var t := [x] + s;
    if x !in s && NoDuplicates(s) {
      forall i, j | 0 <= i < j < |t| ensures t[i] != t[j] {
        if i > 0 { assert t[i] == s[i - 1] && t[j] == s[j - 1]; } else { assert t[j] == s[j - 1]; }
      }
    }
    if NoDuplicates(t) {
      forall i, j | 0 <= i < j < |s| ensures s[i] != s[j] { assert s[i] == t[i + 1] && s[j] == t[j + 1]; }
      forall i | 0 <= i < |s| ensures s[i] != x { assert t[0] == x && s[i] == t[i + 1]; }
    }
  }

  /** The callbacks registered under `field`, in insertion order. */
  function Listeners(registry: map<string, seq<CallbackId>>, field: string): seq<CallbackId>
  {
    if field in registry then registry[field] else []
  }

  /** `set.add(cb)` on an insertion-ordered set. */
  function Added(s: seq<CallbackId>, cb: CallbackId): (r: seq<CallbackId>)
    ensures cb in r
    ensures forall x :: x in r <==> x in s || x == cb
    ensures |s| <= |r| <= |s| + 1 && r[..|s|] == s
    ensures NoDuplicates(s) ==> NoDuplicates(r)
  {
    if cb in s then s else s + [cb]
  }

  /** `set.delete(cb)`. */
  function Removed(s: seq<CallbackId>, cb: CallbackId): (r: seq<CallbackId>)
    ensures forall x :: x in r <==> x in s && x != cb
    ensures NoDuplicates(s) ==> NoDuplicates(r)
    ensures cb !in s ==> r == s
  {
    if s == [] then []
    else
      assert s == [s[0]] + s[1..];
      NoDuplicatesCons(s[0], s[1..]);
      NoDuplicatesCons(s[0], Removed(s[1..], cb));
      if s[0] == cb then Removed(s[1..], cb)
      else [s[0]] + Removed(s[1..], cb)
  }

  /** The calls `#notify` makes: each callback in turn, with the new value. */
  function Notifications(callbacks: seq<CallbackId>, value: Tree): seq<Notification>
  {
    seq(|callbacks|, i requires 0 <= i < |callbacks| => Notification(callbacks[i], value))
  }

  /** In a duplicate-free sequence an element occurs once. */
  lemma {:induction false} OccursOnce(s: seq<CallbackId>, cb: CallbackId)
    requires NoDuplicates(s)
    ensures multiset(s)[cb] == if cb in s then 1 else 0
  {
    if s != [] {
      assert s == [s[0]] + s[1..];
      OccursOnce(s[1..], cb);
      assert s[0] !in s[1..];
    }
  }

  /** Subscribing the same callback twice leaves one entry for it. */
  lemma SubscribeTwice(s: seq<CallbackId>, cb: CallbackId)
    requires NoDuplicates(s)
    ensures Added(Added(s, cb), cb) == Added(s, cb)
    ensures multiset(Added(Added(s, cb), cb))[cb] == 1
  {
    OccursOnce(Added(s, cb), cb);
  }

  /** Distinct new callbacks are kept in the order they were added. */
  lemma SubscribeInOrder(s: seq<CallbackId>, a: CallbackId, b: CallbackId)
    requires a !in s && b !in s && a != b
    ensures Added(Added(s, a), b) == s + [a, b]
  {
  }

  /** Deleting a registered callback removes its one entry and keeps the
      others in order. */
  lemma {:induction false} RemovedAt(s: seq<CallbackId>, k: nat)
    requires NoDuplicates(s) && k < |s|
    ensures Removed(s, s[k]) == s[..k] + s[k + 1..]
  {
    if k == 0 {
      assert s[0] !in s[1..];
    } else {
      RemovedAt(s[1..], k - 1);
      assert s[1..][k - 1] == s[k];
      assert s[1..][..k - 1] == s[1..k];
      assert s[1..][k..] == s[k + 1..];
      assert [s[0]] + s[1..k] == s[..k];
    }
  }

  /** Unsubscribing a callback undoes subscribing it. */
  lemma {:induction false} UnsubscribeUndoesSubscribe(s: seq<CallbackId>, cb: CallbackId)
    requires cb !in s
    ensures Removed(Added(s, cb), cb) == s
  {
    if s != [] {
      assert (s + [cb])[0] == s[0];
      assert (s + [cb])[1..] == s[1..] + [cb];
      UnsubscribeUndoesSubscribe(s[1..], cb);
      assert [s[0]] + s[1..] == s;
    } else {
      assert Removed([cb], cb) == Removed([cb][1..], cb);
    }
  }

  /** Each callback occurs in the notifications as often as it is registered. */
  lemma {:induction false} NotifiedOnce(callbacks: seq<CallbackId>, value: Tree, cb: CallbackId)
    requires NoDuplicates(callbacks)
    ensures multiset(Notifications(callbacks, value))[Notification(cb, value)] == if cb in callbacks then 1 else 0
  {
    if callbacks != [] {
      var rest := callbacks[1..];
      assert callbacks == [callbacks[0]] + rest;
      NoDuplicatesCons(callbacks[0], rest);
      NotifiedOnce(rest, value, cb);
      assert Notifications(callbacks, value) == [Notification(callbacks[0], value)] + Notifications(rest, value);
    }
  }

  /** `#notify` calls every registered callback exactly once, each with the
      new value, in registration order, and nothing else. */
  lemma NotifyOnceEach(callbacks: seq<CallbackId>, value: Tree)
    requires NoDuplicates(callbacks)
    ensures forall i :: 0 <= i < |callbacks| ==> Notifications(callbacks, value)[i].callback == callbacks[i]
    ensures forall n :: n in Notifications(callbacks, value) ==> n.value == value && n.callback in callbacks
    ensures forall cb :: multiset(Notifications(callbacks, value))[Notification(cb, value)] == if cb in callbacks then 1 else 0
  {
    forall cb ensures multiset(Notifications(callbacks, value))[Notification(cb, value)] == if cb in callbacks then 1 else 0 {
      NotifiedOnce(callbacks, value, cb);
    }
  }

  /** A callback removed before a `set` is not called by it. */
  lemma RemovedNotNotified(callbacks: seq<CallbackId>, cb: CallbackId, value: Tree)
    ensures forall n :: n in Notifications(Removed(callbacks, cb), value) ==> n.callback != cb
  {
  }

  /** `get` and `has` walk `field`'s pieces from `data`. */
  lemma LookupFromData(data: Tree, field: string)
    ensures Lookup(data, field) == Resolve(data, Split(field))
  {
    SplitConcat("data", field);
    SplitNoDot("data");
    assert "data" + "." + field == "data." + field;
    assert Split("data." + field)[1..] == Split(field);
  }

  /** A name without dots looks up a field of `data` directly. */
  lemma FieldLookup(data: Tree, field: string)
    requires data.Node? && '.' !in field
    ensures Lookup(data, field) == if field in data.fields then Ok(Some(data.fields[field])) else Ok(None)
  {
    LookupFromData(data, field);
    SplitNoDot(field);
    assert [field][1..] == [];
  }

  /** The initial tree has exactly the three declared fields, so `has` holds
      for each of them, and the empty name resolves to nothing. */
  lemma InitialShape()
    ensures Lookup(InitialData(), "selectedBudgetId") == Ok(Some(Leaf(Num(-1))))
    ensures Lookup(InitialData(), "budgets") == Ok(Some(List([])))
    ensures Lookup(InitialData(), "layout") == Ok(Some(Leaf(Str(""))))
    ensures InitialData().Node? && InitialData().fields.Keys == Fields
  {
    FieldLookup(InitialData(), "selectedBudgetId");
    FieldLookup(InitialData(), "budgets");
    FieldLookup(InitialData(), "layout");
  }

  /** With `data` holding exactly the declared fields, `""` resolves to
      nothing: `has("")` is false. */
  lemma EmptyNameAbsent(data: Tree)
    requires data.Node? && data.fields.Keys == Fields
    ensures Lookup(data, "") == Ok(None)
  {
    FieldLookup(data, "");
  }

  /** `get(\`budgets.${id}\`)` reads element `id` of the budgets array. */
  lemma BudgetAt(data: Tree, id: nat)
    requires data.Node? && "budgets" in data.fields
    requires data.fields["budgets"].List? && id < |data.fields["budgets"].items|
    ensures Lookup(data, "budgets." + IndexString(id)) == Ok(Some(data.fields["budgets"].items[id]))
  {
    var key := IndexString(id);
    LookupFromData(data, "budgets." + key);
    assert "budgets." + key == "budgets" + "." + key;
    SplitConcat("budgets", key);
    SplitNoDot("budgets");
    SplitNoDot(key);
    ParseIndexString(id);
    var path := ["budgets", key];
    assert Split("budgets." + key) == path;
    var budgets := data.fields["budgets"];
    assert Child(data, "budgets") == Ok(Some(budgets));
    assert Child(budgets, key) == Ok(Some(budgets.items[id]));
    assert path[1..] == [key] && [key][1..] == [];
    assert Resolve(budgets, [key]) == Ok(Some(budgets.items[id]));
  }

  /** After a successful `set(field, v)`, `get(field)` is `v`. */
  lemma SetThenGet(data: Tree, field: string, v: Tree)
    requires Found(Lookup(data, field))
    ensures Found(Resolve(data, Split(field)))
    ensures Lookup(Write(data, Split(field), v), field) == Ok(Some(v))
  {
    LookupFromData(data, field);
    LookupFromData(Write(data, Split(field), v), field);
    WriteThenRead(data, Split(field), v);
  }

  /** After a successful `set(field, v)`, a name below `field` reads from `v`. */
  lemma SetThenGetBelow(data: Tree, field: string, rest: string, v: Tree)
    requires Found(Lookup(data, field))
    ensures Found(Resolve(data, Split(field)))
    ensures Lookup(Write(data, Split(field), v), field + "." + rest) == Resolve(v, Split(rest))
  {
    LookupFromData(data, field);
    LookupFromData(Write(data, Split(field), v), field + "." + rest);
    SplitConcat(field, rest);
    WriteBelow(data, Split(field), Split(rest), v);
  }

  /** A successful `set(field, v)` leaves every name that is neither on the
      way to `field` nor below it reading as before. */
  lemma SetLeavesOthers(data: Tree, field: string, other: string, v: Tree)
    requires Found(Lookup(data, field))
    requires !(Split(field) <= Split(other)) && !(Split(other) <= Split(field))
    ensures Found(Resolve(data, Split(field)))
    ensures Lookup(Write(data, Split(field), v), other) == Lookup(data, other)
  {
    LookupFromData(data, field);
    LookupFromData(data, other);
    LookupFromData(Write(data, Split(field), v), other);
    WriteElsewhere(data, Split(field), Split(other), v);
  }

  class CStore {
    var data: Tree
    /** `#listeners`: field name to its callbacks, in insertion order. */
    var listeners: map<string, seq<CallbackId>>
    /** Every callback invocation made so far, in order. */
    var log: seq<Notification>

    ghost predicate Valid()
      reads this
    {
      && data.Node? && data.fields.Keys == Fields
      && forall f :: f in listeners ==> NoDuplicates(listeners[f])
    }

    constructor ()
      ensures Valid()
      ensures data == InitialData() && listeners == map[] && log == []
    {
      data := InitialData();
      listeners := map[];
      log := [];
    }

    method Subscribe(field: string, callback: CallbackId)
      requires Valid()
      modifies this`listeners
      ensures Valid()
      ensures listeners == old(listeners)[field := Added(Listeners(old(listeners), field), callback)]
    {
      if field !in listeners {
        listeners := listeners[field := []];
      }
      listeners := listeners[field := Added(listeners[field], callback)];
    }

    method Unsubscribe(field: string, callback: CallbackId)
      requires Valid()
      modifies this`listeners
      ensures Valid()
      ensures field in old(listeners) ==> listeners == old(listeners)[field := Removed(old(listeners)[field], callback)]
      ensures field !in old(listeners) ==> listeners == old(listeners)
      ensures callback !in Listeners(old(listeners), field) ==> listeners == old(listeners)
    {
      if field in listeners {
        listeners := listeners[field := Removed(listeners[field], callback)];
      }
    }

    /** `#notify`: calls the callbacks registered under exactly `field`. */
    method Notify(field: string, value: Tree)
      modifies this`log
      ensures log == old(log) + Notifications(Listeners(listeners, field), value)
    {
      if field in listeners {
        var callbacks := listeners[field];
        var i := 0;
        while i < |callbacks|
          invariant 0 <= i <= |callbacks|
          invariant log == old(log) + Notifications(callbacks[..i], value)
        {
          assert Notifications(callbacks[..i + 1], value) == Notifications(callbacks[..i], value) + [Notification(callbacks[i], value)];
          log := log + [Notification(callbacks[i], value)];
          i := i + 1;
        }
        assert callbacks[..i] == callbacks;
      }
    }

    method Get(field: string) returns (r: Result<Option<Tree>>)
      ensures r == Lookup(data, field)
    {
      var accessors := Split("data." + field);
      var value := Root(data);
      var index := 0;
      while index < |accessors|
        invariant 0 <= index <= |accessors|
        invariant Resolve(value, accessors[index..]) == Lookup(data, field)
      {
        assert accessors[index..][1..] == accessors[index + 1..];
        var step := Child(value, accessors[index]);
        if step.Throw? {
          return step;
        }
        if step.value.None? {
          return Ok(None);
        }
        value := step.value.value;
        index := index + 1;
      }
      r := Ok(Some(value));
    }

    method Has(field: string) returns (r: Result<bool>)
      ensures r == Ok(true) <==> Found(Lookup(data, field))
      ensures r == Ok(false) <==> Lookup(data, field) == Ok(None)
      ensures r == Throw(TypeError) <==> Lookup(data, field) == Throw(TypeError)
    {
      var value := Root(data);
      var accessors := Split("data." + field);
      var index := 0;
      while index < |accessors|
        invariant 0 <= index <= |accessors|
        invariant Resolve(value, accessors[index..]) == Lookup(data, field)
      {
        assert accessors[index..][1..] == accessors[index + 1..];
        var step := Child(value, accessors[index]);
        if step.Throw? {
          return Throw(step.error);
        }
        if step.value.None? {
          return Ok(false);
        }
        value := step.value.value;
        index := index + 1;
      }
      r := Ok(true);
    }

    /** Writes `value` at `field` only if the whole path already exists, then
        notifies the callbacks of `field`. */
    method Set(field: string, value: Tree) returns (r: Result<()>)
      requires Valid()
      modifies this`data, this`log
      ensures Valid()
      ensures r.Throw? <==> Lookup(old(data), field).Throw?
      ensures r.Throw? ==> r.error == TypeError
      ensures !Found(Lookup(old(data), field)) ==> data == old(data) && log == old(log)
      ensures Found(Lookup(old(data), field)) ==>
                Found(Resolve(old(data), Split(field))) &&
                data == Write(old(data), Split(field), value) &&
                log == old(log) + Notifications(Listeners(listeners, field), value)
    {
      var present := Has(field);
      if present.Throw? {
        return Throw(present.error);
      }
      if present.value {
        LookupFromData(data, field);
        var accessors := Split(field);
        var last := accessors[|accessors| - 1];
        var parents := accessors[..|accessors| - 1];
        assert accessors == parents + [last];
        ResolveAppend(data, parents, [last]);
        if |parents| > 0 {
          var parent := Get(Join(parents));
          assert forall i :: 0 <= i < |parents| ==> parents[i] == accessors[i];
          SplitJoin(parents);
          LookupFromData(data, Join(parents));
          assert Resolve(parent.value.value, [last]) == Child(parent.value.value, last);
          WriteAtParent(data, parents, last, value);
          data := Write(data, parents, Assign(parent.value.value, last, value));
        } else {
          assert Resolve(data, [last]) == Child(data, last);
          assert Write(data, [last], value) == Assign(data, last, Write(data.fields[last], [], value));
          data := Assign(data, last, value);
        }
        Notify(field, value);
      }
      r := Ok(());
    }
  }
}
