/** `mergeDeep` on objects in the heap: it writes into the target and only reads its sources. */
module DeepMerge {
  import opened MergeSpec

  /** A property value: a plain object, or anything else. */
  datatype Value = Other(truthy: bool, id: int) | Ref(obj: JsObject)

  class JsObject {
    var props: map<Key, Value>
    ghost var kids: map<Key, Tree>  // what the properties stand for
    ghost var repr: set<JsObject>      // the objects reachable from here, and no fewer

    /** The properties form a finite acyclic structure that stands for `kids`. */
    ghost predicate Acyclic()
      reads this, repr
      decreases repr
    {
      && this in repr && props.Keys == kids.Keys
      && forall k :: k in props ==>
           match props[k]
           case Other(truthy, id) => kids[k] == Leaf(truthy, id)
           case Ref(o) => o in repr && o.repr <= repr && this !in o.repr && o.Acyclic() && kids[k] == Node(o.kids)
    }

    /** No object is reachable in two ways. */
    ghost predicate Separate()
      reads this, repr
      requires Acyclic()
      decreases repr
    {
      && (forall k :: k in props && props[k].Ref? ==> props[k].obj.Separate())
      && (forall j, k :: j in props && k in props && j != k && props[j].Ref? && props[k].Ref? ==>
            props[j].obj.repr !! props[k].obj.repr)
    }

    constructor ()
      ensures props == map[] && kids == map[] && repr == {this}
      ensures Acyclic() && Separate()
    {
      props, kids, repr := map[], map[], {this};
    }
  }

  ghost function View(v: Value): Tree
    reads if v.Ref? then {v.obj} else {}
  {
    match v
    case Other(truthy, id) => Leaf(truthy, id)
    case Ref(o) => Node(o.kids)
  }

  ghost function Views(vs: seq<Value>): (r: seq<Tree>)
    reads set v | v in vs && v.Ref? :: v.obj
    ensures |r| == |vs|
  {
    if vs == [] then [] else [View(vs[0])] + Views(vs[1..])
  }

  ghost function Footprint(v: Value): set<JsObject>
    reads if v.Ref? then {v.obj} else {}
  {
    if v.Ref? then v.obj.repr else {}
  }

  ghost function Footprints(vs: seq<Value>): (r: set<JsObject>)
    reads set v | v in vs && v.Ref? :: v.obj
  {
    set v, o | v in vs && o in Footprint(v) :: o
  }

  ghost predicate Readable(v: Value)
    reads if v.Ref? then {v.obj} + v.obj.repr else {}
  {
    v.Ref? ==> v.obj.Acyclic()
  }

  ghost predicate Writable(v: Value)
    reads if v.Ref? then {v.obj} + v.obj.repr else {}
  {
    v.Ref? ==> v.obj.Acyclic() && v.obj.Separate()
  }

  /** Values that were not touched stand for what they stood for. */
  twostate lemma SameViews(vs: seq<Value>)
    requires forall v :: v in vs ==> View(v) == old(View(v))
    ensures Views(vs) == old(Views(vs))
  {
    if vs != [] {
      SameViews(vs[1..]);
    }
  }

  predicate IsTruthy(v: Value) {
    v.Ref? || v.truthy
  }

  /** Puts an empty object, so far unreachable, at a key. */
  method AddObject(target: JsObject, k: Key, o: JsObject)
    requires target.Acyclic() && target.Separate()
    requires o !in target.repr && o.props == map[] && o.kids == map[] && o.repr == {o} && o.Acyclic() && o.Separate()
    modifies target
    ensures target.Acyclic() && target.Separate() && target.repr == old(target.repr) + {o}
    ensures target.kids == old(target.kids)[k := Node(map[])]
  {
    target.props := target.props[k := Ref(o)];
    target.kids := target.kids[k := Node(map[])];
    target.repr := target.repr + {o};
  }

  /** Makes room for an object at a key at which nothing truthy is seen, own or inherited. */
  method EnsureObject(target: JsObject, k: Key)
    requires target.Acyclic() && target.Separate()
    modifies target
    ensures target.Acyclic() && target.Separate()
    ensures fresh(target.repr - old(target.repr)) && old(target.repr) <= target.repr
    ensures target.kids == if k !in old(target.kids) && k in INHERITED then old(target.kids)
                           else old(target.kids)[k := Base(old(target.kids), k)]
  {
    var seen := if k in target.props then IsTruthy(target.props[k]) else k in INHERITED;
    if !seen {
      var o := new JsObject();
      AddObject(target, k, o);
    }
  }

  method MergeDeep(target: Value, sources: seq<Value>) returns (r: Value)
    requires Writable(target)
    requires forall v :: v in sources ==> Readable(v) && Footprint(v) !! Footprint(target)
    modifies Footprint(target)
    ensures r == target && Writable(target)
    ensures View(target) == MergeAll(old(View(target)), old(Views(sources)))
    ensures fresh(Footprint(target) - old(Footprint(target)))
    ensures forall v :: v in sources ==> Readable(v) && Footprint(v) == old(Footprint(v)) && View(v) == old(View(v))
    ensures forall v :: v in sources ==> Footprint(v) !! Footprint(target)
    decreases Footprints(sources), |sources|
  {
    if |sources| == 0 {
      return target;
    }
    var source := sources[0];
    assert source in sources;
    if target.Ref? && source.Ref? {
      MergeInto(target.obj, source.obj);
    }
    forall v | v in sources
      ensures Readable(v) && Footprint(v) == old(Footprint(v)) && View(v) == old(View(v))
      ensures Footprint(v) !! Footprint(target)
    {
      assert old(Readable(v) && Footprint(v) !! Footprint(target));
    }
    assert Footprints(sources[1..]) <= old(Footprints(sources));
    SameViews(sources[1..]);
    r := MergeDeep(target, sources[1..]);
  }

  /** The loop over the keys of one source. */
  method MergeInto(target: JsObject, source: JsObject)
    requires target.Acyclic() && target.Separate() && source.Acyclic() && source.repr !! target.repr
    modifies target.repr
    ensures target.Acyclic() && target.Separate()
    ensures Node(target.kids) == Merge(Node(old(target.kids)), Node(source.kids))
    ensures fresh(target.repr - old(target.repr))
    decreases source.repr, 0, 1
  {
    var keys := source.props.Keys;
    ghost var before, s := target.kids, Node(source.kids);
    assert MergeSome(before, s, {}) == before;
    while keys != {}
      invariant keys <= source.props.Keys && s == Node(source.kids)
      invariant source.Acyclic() && source.repr == old(source.repr) && source.repr !! target.repr
      invariant target.Acyclic() && target.Separate()
      invariant fresh(target.repr - old(target.repr))
      invariant target.kids == MergeSome(before, s, s.kids.Keys - keys)
      decreases keys
    {
      var key :| key in keys;
      MergeOneMore(before, s, s.kids.Keys - keys, key);
      assert s.kids.Keys - (keys - {key}) == s.kids.Keys - keys + {key};
      keys := keys - {key};
      KidOf(source, key);
      MergeKey(target, key, source.props[key]);
    }
    assert s.kids.Keys - keys == s.kids.Keys;
    MergeAllKeys(before, s);
  }

  lemma KidOf(o: JsObject, k: Key)
    requires o.Acyclic() && k in o.props
    ensures var v := o.props[k];
            Readable(v) && Footprint(v) < o.repr && View(v) == o.kids[k]
  {
  }

  lemma MergeAllKeys(t: map<Key, Tree>, s: Tree)
    requires s.Node?
    ensures Merge(Node(t), s) == Node(MergeSome(t, s, s.kids.Keys))
  {
  }

  lemma MergeOneMore(t: map<Key, Tree>, s: Tree, done: set<Key>, k: Key)
    requires s.Node? && done <= s.kids.Keys && k in s.kids && k !in done
    ensures MergedKey(MergeSome(t, s, done), k, s.kids[k]) == MergeSome(t, s, done + {k})
  {
    var some, more := MergeSome(t, s, done), MergeSome(t, s, done + {k});
    assert k in some <==> k in t;
    assert Seen(some, k) == Seen(t, k);
    if Skips(t, k, s.kids[k]) {
      assert k !in Written(t, s.kids);
      assert some == more;
    } else {
      var v := MergedAt(t, k, s.kids[k]);
      assert v == MergedAt(some, k, s.kids[k]);
      assert more.Keys == some.Keys + {k} && more[k] == v;
      assert some[k := v] == more;
    }
  }

  /** One key of a source. */
  method MergeKey(target: JsObject, k: Key, v: Value)
    requires target.Acyclic() && target.Separate() && Readable(v) && Footprint(v) !! target.repr
    modifies target.repr
    ensures target.Acyclic() && target.Separate()
    ensures fresh(target.repr - old(target.repr))
    ensures target.kids == MergedKey(old(target.kids), k, old(View(v)))
    decreases Footprint(v), 4
  {
    if v.Ref? {
      MergeObject(target, k, v.obj);
    } else {
      SetProperty(target, k, v);
    }
  }

  /** One key at which the source has an object. */
  method MergeObject(target: JsObject, k: Key, s: JsObject)
    requires target.Acyclic() && target.Separate() && s.Acyclic() && s.repr !! target.repr
    modifies target.repr
    ensures target.Acyclic() && target.Separate()
    ensures fresh(target.repr - old(target.repr))
    ensures target.kids == MergedKey(old(target.kids), k, Node(old(s.kids)))
    decreases s.repr, 3
  {
    ghost var before, source := target.kids, Node(s.kids);
    EnsureObject(target, k);
    assert s.Acyclic() && Node(s.kids) == source && s.repr == old(s.repr) && s.repr !! target.repr;
    RoomMade(before, k, source, target.kids);
    if k in target.props {
      MergeChild(target, k, s);
    } else {
      MergeIntoInherited(s);
    }
  }

  lemma RoomMade(before: map<Key, Tree>, k: Key, source: Tree, room: map<Key, Tree>)
    requires source.Node?
    requires room == if k !in before && k in INHERITED then before else before[k := Base(before, k)]
    ensures k in room ==> room[k := Merge(room[k], source)] == MergedKey(before, k, source)
    ensures k !in room ==> room == MergedKey(before, k, source)
  {
  }

  /** What is inherited is a function, into which nothing is merged. */
  method MergeIntoInherited(s: JsObject)
    requires s.Acyclic()
    decreases s.repr, 2
  {
    FootprintOfOne(s);
    var r := MergeDeep(Other(true, 0), [Ref(s)]);
  }

  method SetProperty(target: JsObject, k: Key, v: Value)
    requires target.Acyclic() && target.Separate() && v.Other?
    modifies target
    ensures target.Acyclic() && target.Separate() && target.repr == old(target.repr)
    ensures target.kids == old(target.kids)[k := Leaf(v.truthy, v.id)]
  {
    target.props := target.props[k := v];
    target.kids := target.kids[k := Leaf(v.truthy, v.id)];
  }

  method MergeChild(target: JsObject, k: Key, s: JsObject)
    requires target.Acyclic() && target.Separate() && k in target.props
    requires s.Acyclic() && s.repr !! target.repr
    modifies target.repr
    ensures target.Acyclic() && target.Separate()
    ensures fresh(target.repr - old(target.repr))
    ensures target.kids == old(target.kids)[k := Merge(old(target.kids)[k], Node(s.kids))]
    decreases s.repr, 2
  {
    FootprintOfOne(s);
    KidOf(target, k);
    var v := target.props[k];
    var r := MergeDeep(v, [Ref(s)]);
    if v.Ref? {
      ghost var child := v.obj;
      forall j | j in target.props
        ensures SoundAt(target, j, k, child)
      {
        assert old(target.props[j].Ref? && j != k ==> target.props[j].obj.repr !! child.repr);
      }
      Adopt(target, k, child);
    }
  }

  lemma FootprintOfOne(s: JsObject)
    ensures Footprints([Ref(s)]) == s.repr
  {
    forall o
      ensures o in Footprints([Ref(s)]) <==> o in s.repr
    {
      assert o in Footprint(Ref(s)) && Ref(s) in [Ref(s)] ==> o in Footprints([Ref(s)]);
    }
  }

  /** The child at `j`, seen from an object that may be about to take over a changed child at `k`. */
  ghost predicate SoundAt(target: JsObject, j: Key, k: Key, child: JsObject)
    requires j in target.props
    reads target, if target.props[j].Ref? then {target.props[j].obj} + target.props[j].obj.repr else {}, child
  {
    match target.props[j]
    case Other(truthy, id) => j in target.kids && target.kids[j] == Leaf(truthy, id)
    case Ref(o) =>
      && o.Acyclic() && o.Separate() && target !in o.repr
      && (j == k || (o in target.repr && o.repr <= target.repr && o.repr !! child.repr &&
                     j in target.kids && target.kids[j] == Node(o.kids)))
  }

  /** Brings an object up to date with a child that has changed. */
  ghost method Adopt(target: JsObject, k: Key, child: JsObject)
    requires target in target.repr && target.props.Keys == target.kids.Keys
    requires k in target.props && target.props[k] == Ref(child)
    requires forall j :: j in target.props ==> SoundAt(target, j, k, child)
    requires forall i, j :: (i in target.props && j in target.props && i != j && i != k && j != k
                             && target.props[i].Ref? && target.props[j].Ref?) ==>
               target.props[i].obj.repr !! target.props[j].obj.repr
    modifies target
    ensures target.Acyclic() && target.Separate() && target.props == old(target.props)
    ensures target.repr == old(target.repr) + old(child.repr)
    ensures target.kids == old(target.kids)[k := Node(old(child.kids))]
  {
    assert SoundAt(target, k, k, child);
    forall j | j in target.props
      ensures old(SoundAt(target, j, k, child))
    {
    }
    target.repr := target.repr + child.repr;
    target.kids := target.kids[k := Node(child.kids)];
    forall j | j in target.props && target.props[j].Ref?
      ensures var o := target.props[j].obj;
              && o.Acyclic() && o.Separate() && o.repr <= target.repr && o in target.repr
              && target !in o.repr && target.kids[j] == Node(o.kids)
      ensures j != k ==> target.props[j].obj.repr !! child.repr
    {
      assert old(SoundAt(target, j, k, child));
    }
  }
}
