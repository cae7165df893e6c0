/** The store's state tree: the JSON-like value held in `Store.data`, the
    one-segment step that `get` and `has` repeat (`Reflect.has` followed by
    a property read), and the in-place assignment `set` performs. */
module StoreTree {
  import opened Js
  import opened Paths

  /** The primitive values the application keeps in the store. */
  datatype Prim = Num(n: int) | Str(s: string) | Bool(b: bool) | Null

  /** A value held in the tree: a primitive, a plain object, or an array. */
  datatype Tree = Leaf(prim: Prim) | Node(fields: map<string, Tree>) | List(items: seq<Tree>)

  predicate Found(r: Result<Option<Tree>>) { r.Ok? && r.value.Some? }

  /** One step of the walk: `Reflect.has(value, key)` and, when it holds,
      `value[key]`. `Reflect.has` throws a TypeError on a primitive; an
      array has the keys that spell one of its indices. */
  function Child(t: Tree, key: string): (r: Result<Option<Tree>>)
    ensures r.Throw? <==> t.Leaf?
    ensures r.Throw? ==> r.error == TypeError
    ensures t.List? && Found(r) ==>
      exists i :: 0 <= i < |t.items| && key == IndexString(i) && r.value.value == t.items[i]
  {
    match t
    case Leaf(_) => Throw(TypeError)
    case Node(fields) => if key in fields then Ok(Some(fields[key])) else Ok(None)
    case List(items) =>
      match ParseIndex(key)
      case Some(i) =>
        IndexStringOfValue(key);
        if i < |items| then Ok(Some(items[i])) else Ok(None)
      case None => Ok(None)
  }

  /** Walks `path` one segment at a time from `t`: the value found, `None`
      at the first segment that is missing, or the TypeError of the first
      step taken from a primitive. */
  function Resolve(t: Tree, path: seq<string>): (r: Result<Option<Tree>>)
    ensures path == [] ==> r == Ok(Some(t))
    ensures r.Throw? ==> r.error == TypeError && path != []
    decreases |path|
  {
    if path == [] then Ok(Some(t))
    else
      var c := Child(t, path[0]);
      if Found(c) then Resolve(c.value.value, path[1..]) else c
  }

  /** Segment `i` of `path` resolves: the walk reaches an object or array
      after `i` segments and that value has key `path[i]`. */
  predicate SegmentResolves(t: Tree, path: seq<string>, i: nat)
    requires i < |path|
  {
    var r := Resolve(t, path[..i]);
    Found(r) && Found(Child(r.value.value, path[i]))
  }

  /** `parent[key] = v` on an object or array that already has `key`. */
  function Assign(t: Tree, key: string, v: Tree): (r: Tree)
    requires Found(Child(t, key))
    ensures SameShape(t, r)
  {
    match t
    case Node(fields) => Node(fields[key := v])
    case List(items) => List(items[ParseIndex(key).value := v])
  }

  /** Same kind of value with the same keys: assignment never adds or
      removes a property. */
  predicate SameShape(a: Tree, b: Tree)
  {
    match a
    case Leaf(_) => b == a
    case Node(fields) => b.Node? && b.fields.Keys == fields.Keys
    case List(items) => b.List? && |b.items| == |items|
  }

  /** The tree after assigning `v` at the existing `path`. */
  function Write(t: Tree, path: seq<string>, v: Tree): (r: Tree)
    requires Found(Resolve(t, path))
    ensures path != [] ==> SameShape(t, r)
    decreases |path|
  {
    if path == [] then v
    else
      var c := Child(t, path[0]).value.value;
      Assign(t, path[0], Write(c, path[1..], v))
  }

  /** Assignment changes the assigned key and no other. */
  lemma AssignChild(t: Tree, key: string, v: Tree)
    requires Found(Child(t, key))
    ensures Child(Assign(t, key, v), key) == Ok(Some(v))
    ensures forall k :: k != key ==> Child(Assign(t, key, v), k) == Child(t, k)
  {
    if t.List? {
      forall k | k != key ensures Child(Assign(t, key, v), k) == Child(t, k) {
        if ParseIndex(k) == ParseIndex(key) {
          ParseIndexInjective(key, k);
        }
      }
    }
  }

  /** Walking `p + q` is walking `p`, then `q` from where `p` led. */
  lemma {:induction false} ResolveAppend(t: Tree, p: seq<string>, q: seq<string>)
    ensures Resolve(t, p + q) ==
            if Found(Resolve(t, p)) then Resolve(Resolve(t, p).value.value, q) else Resolve(t, p)
    decreases |p|
  {
    if p == [] {
      assert p + q == q;
    } else {
      assert (p + q)[0] == p[0];
      assert (p + q)[1..] == p[1..] + q;
      var c := Child(t, p[0]);
      if Found(c) {
        ResolveAppend(c.value.value, p[1..], q);
      }
    }
  }

  /** The walk through `path` ends at a value exactly when every one of its
      segments resolves in turn. */
  lemma {:induction false} ResolveEverySegment(t: Tree, path: seq<string>)
    ensures Found(Resolve(t, path)) <==>
            forall i :: 0 <= i < |path| ==> SegmentResolves(t, path, i)
    decreases |path|
  {
    if path != [] {
      var n := |path| - 1;
      var init := path[..n];
      assert path == init + [path[n]];
      ResolveAppend(t, init, [path[n]]);
      ResolveEverySegment(t, init);
      forall i | 0 <= i < n ensures SegmentResolves(t, path, i) == SegmentResolves(t, init, i) {
        assert init[..i] == path[..i];
        assert init[i] == path[i];
      }
      var r := Resolve(t, init);
      assert path[..n] == init;
      if Found(r) {
        var c := Child(r.value.value, path[n]);
        assert Resolve(r.value.value, [path[n]]) == c by {
          if Found(c) { assert Resolve(c.value.value, [path[n]][1..]) == Ok(Some(c.value.value)); }
        }
        assert Resolve(t, path) == c;
        assert SegmentResolves(t, path, n) == Found(c);
      } else {
        assert Resolve(t, path) == r;
        assert !SegmentResolves(t, path, n);
      }
    }
  }

  /** After assigning `v` at `p`, reading `p` gives `v`. */
  lemma {:induction false} WriteThenRead(t: Tree, p: seq<string>, v: Tree)
    requires Found(Resolve(t, p))
    ensures Resolve(Write(t, p, v), p) == Ok(Some(v))
    decreases |p|
  {
    if p != [] {
      var c := Child(t, p[0]).value.value;
      AssignChild(t, p[0], Write(c, p[1..], v));
      WriteThenRead(c, p[1..], v);
    }
  }

  /** After assigning `v` at `p`, every path below `p` reads from `v`. */
  lemma WriteBelow(t: Tree, p: seq<string>, r: seq<string>, v: Tree)
    requires Found(Resolve(t, p))
    ensures Resolve(Write(t, p, v), p + r) == Resolve(v, r)
  {
    WriteThenRead(t, p, v);
    ResolveAppend(Write(t, p, v), p, r);
  }

  /** Paths that neither lie on `p` nor below it read as before. */
  lemma {:induction false} WriteElsewhere(t: Tree, p: seq<string>, q: seq<string>, v: Tree)
    requires Found(Resolve(t, p))
    requires !(p <= q) && !(q <= p)
    ensures Resolve(Write(t, p, v), q) == Resolve(t, q)
    decreases |p|
  {
    var c := Child(t, p[0]).value.value;
    var w := Write(c, p[1..], v);
    AssignChild(t, p[0], w);
    if q[0] == p[0] {
      WriteElsewhere(c, p[1..], q[1..], v);
    }
  }

  /** After assigning `v` at `p`, each value on the way to `p` holds the
      updated subtree. */
  lemma {:induction false} WriteAbove(t: Tree, p: seq<string>, q: seq<string>, v: Tree)
    requires Found(Resolve(t, p))
    requires q <= p
    ensures Found(Resolve(t, q))
    ensures Found(Resolve(Resolve(t, q).value.value, p[|q|..]))
    ensures Resolve(Write(t, p, v), q) == Ok(Some(Write(Resolve(t, q).value.value, p[|q|..], v)))
    decreases |q|
  {
    assert p == q + p[|q|..];
    ResolveAppend(t, q, p[|q|..]);
    if q != [] {
      var c := Child(t, p[0]).value.value;
      AssignChild(t, p[0], Write(c, p[1..], v));
      assert q[1..] <= p[1..];
      WriteAbove(c, p[1..], q[1..], v);
      assert p[1..][|q[1..]|..] == p[|q|..];
    }
  }

  /** Assigning into the object found at `parents` is assigning at
      `parents + [last]`: the two-step form `set` uses. */
  lemma {:induction false} WriteAtParent(t: Tree, parents: seq<string>, last: string, v: Tree)
    requires Found(Resolve(t, parents))
    requires Found(Child(Resolve(t, parents).value.value, last))
    ensures Found(Resolve(t, parents + [last]))
    ensures Write(t, parents + [last], v) == Write(t, parents, Assign(Resolve(t, parents).value.value, last, v))
    decreases |parents|
  {
    ResolveAppend(t, parents, [last]);
    var s := Resolve(t, parents).value.value;
    assert Resolve(s, [last]) == Child(s, last) by {
      assert Resolve(Child(s, last).value.value, [last][1..]) == Child(s, last);
    }
    if parents != [] {
      var c := Child(t, parents[0]).value.value;
      assert (parents + [last])[0] == parents[0];
      assert (parents + [last])[1..] == parents[1..] + [last];
      WriteAtParent(c, parents[1..], last, v);
    }
  }
}
