/** Merging nested objects, as values: what `mergeDeep` makes of a target and its sources. */
module MergeSpec {
  import opened Common

  /** A property name. An own property called `__proto__`, which reaches the prototype itself, is left out. */
  type Key = k: string | k != "__proto__"

  /** A value: an object, or anything that is not a plain object, of which only its truthiness matters. */
  datatype Tree = Leaf(truthy: bool, id: int) | Node(kids: map<Key, Tree>)

  predicate Truthy(t: Tree) {
    t.Node? || t.truthy
  }

  /** The names under which every plain object inherits a function. */
  const INHERITED: set<string> := {
    "constructor", "hasOwnProperty", "isPrototypeOf", "propertyIsEnumerable", "toLocaleString", "toString", "valueOf",
    "__defineGetter__", "__defineSetter__", "__lookupGetter__", "__lookupSetter__"
  }

  /** An inherited function, of which only its truthiness matters. */
  const INHERITED_FUNCTION := Leaf(true, 0)

  /** What reading a name gives: the object's own property, or else what it inherits. */
  function Seen(t: map<Key, Tree>, k: Key): Option<Tree> {
    if k in t then Some(t[k]) else if k in INHERITED then Some(INHERITED_FUNCTION) else None
  }

  /** What a source object is merged into at a key: a missing or falsy value makes room for an object. */
  function Base(t: map<Key, Tree>, k: Key): Tree {
    match Seen(t, k)
    case Some(x) => if Truthy(x) then x else Node(map[])
    case None => Node(map[])
  }

  /** A source object at an inherited name finds a function there, and is not merged. */
  predicate Skips(t: map<Key, Tree>, k: Key, v: Tree) {
    v.Node? && k !in t && k in INHERITED
  }

  /** The value at a key at which the source has `v`. */
  function MergedAt(t: map<Key, Tree>, k: Key, v: Tree): Tree
    decreases v, 2
  {
    if v.Node? then Merge(Base(t, k), v) else v
  }

  /** The kids of a target after one key of a source. */
  function MergedKey(t: map<Key, Tree>, k: Key, v: Tree): map<Key, Tree> {
    if Skips(t, k, v) then t else t[k := MergedAt(t, k, v)]
  }

  /** The keys of the source that are written. */
  function Written(t: map<Key, Tree>, s: map<Key, Tree>): (keys: set<Key>)
    ensures forall k :: k in keys <==> k in s && !Skips(t, k, s[k])
  {
    set k | k in s && !Skips(t, k, s[k])
  }

  /** The kids of the target after the keys in `done` have been merged. */
  function MergeSome(t: map<Key, Tree>, s: Tree, done: set<Key>): (r: map<Key, Tree>)
    requires s.Node? && done <= s.kids.Keys
    ensures r.Keys == t.Keys + done * Written(t, s.kids)
    decreases s, 0
  {
    map k | k in t.Keys + done * Written(t, s.kids) :: if k in done then MergedAt(t, k, s.kids[k]) else t[k]
  }

  function Merge(t: Tree, s: Tree): Tree
    decreases s, 1
  {
    if t.Node? && s.Node? then Node(MergeSome(t.kids, s, s.kids.Keys)) else t
  }

  /** Several sources, from left to right. */
  function MergeAll(t: Tree, sources: seq<Tree>): Tree
    decreases |sources|
  {
    if sources == [] then t else MergeAll(Merge(t, sources[0]), sources[1..])
  }

  lemma MergedKid(t: Tree, s: Tree, k: Key)
    requires t.Node? && s.Node?
    ensures var m := Merge(t, s);
            && m.Node? && (k in m.kids <==> k in t.kids || (k in s.kids && !Skips(t.kids, k, s.kids[k])))
            && (k in s.kids && k in m.kids ==> m.kids[k] == MergedAt(t.kids, k, s.kids[k]))
            && (k in t.kids && k !in s.kids ==> m.kids[k] == t.kids[k])
  {
  }

  // ----- Merging the same source again -----

  lemma MergedTruthy(t: Tree, s: Tree)
    requires Truthy(t)
    ensures Truthy(Merge(t, s))
  {
  }

  /** Merging a source a second time changes nothing. */
  lemma {:induction false} MergeIdempotent(t: Tree, s: Tree)
    ensures Merge(Merge(t, s), s) == Merge(t, s)
    decreases s
  {
    if t.Node? && s.Node? {
      var once := Merge(t, s).kids;
      forall k | k in s.kids
        ensures k !in once ==> Skips(once, k, s.kids[k])
        ensures k in once ==> MergedAt(once, k, s.kids[k]) == once[k]
      {
        MergedKid(t, s, k);
        if s.kids[k].Node? && k in once {
          MergeIdempotent(Base(t.kids, k), s.kids[k]);
          MergedTruthy(Base(t.kids, k), s.kids[k]);
        }
      }
      assert Merge(Node(once), s).kids == once;
    }
  }

  lemma {:induction false} MergeAllLast(t: Tree, sources: seq<Tree>, last: Tree)
    ensures MergeAll(t, sources + [last]) == Merge(MergeAll(t, sources), last)
    decreases |sources|
  {
    if sources == [] {
      assert [] + [last] == [last];
    } else {
      assert (sources + [last])[1..] == sources[1..] + [last];
      MergeAllLast(Merge(t, sources[0]), sources[1..], last);
    }
  }

  /** Naming the last source twice makes no difference. */
  lemma LastSourceIdempotent(t: Tree, sources: seq<Tree>, last: Tree)
    ensures MergeAll(t, sources + [last] + [last]) == MergeAll(t, sources + [last])
  {
    MergeAllLast(t, sources + [last], last);
    MergeAllLast(t, sources, last);
    MergeIdempotent(MergeAll(t, sources), last);
  }

  // ----- Path by path -----

  type Path = seq<Key>

  function Lookup(t: Tree, p: Path): Option<Tree>
    decreases |p|
  {
    if p == [] then Some(t)
    else if t.Node? && p[0] in t.kids then Lookup(t.kids[p[0]], p[1..])
    else None
  }

  /** At this path the source has an object, and the target something truthy that is none, or inherits it. */
  predicate BlockedAt(t: Tree, s: Tree, p: Path) {
    && Lookup(s, p).Some? && Lookup(s, p).value.Node?
    && match Lookup(t, p)
       case Some(x) => x.Leaf? && x.truthy
       case None => p != [] && p[|p| - 1] in INHERITED
  }

  predicate Blocked(t: Tree, s: Tree, p: Path) {
    exists n :: 0 <= n <= |p| && BlockedAt(t, s, p[..n])
  }

  /** At this path the source has a value that is no object. */
  predicate OverriddenAt(s: Tree, p: Path) {
    match Lookup(s, p)
    case Some(y) => y.Leaf?
    case None => false
  }

  predicate Overridden(s: Tree, p: Path) {
    exists n :: 0 <= n <= |p| && OverriddenAt(s, p[..n])
  }

  lemma BlockedStepAt(t: Tree, s: Tree, p: Path)
    requires t.Node? && s.Node? && p != []
    ensures BlockedAt(t, s, p) <==> p[0] in s.kids && BlockedAt(Base(t.kids, p[0]), s.kids[p[0]], p[1..])
  {
    var k, rest := p[0], p[1..];
    if k in s.kids {
      assert Lookup(s, p) == Lookup(s.kids[k], rest);
    }
    if rest == [] {
      assert k in t.kids ==> Lookup(t, p) == Some(t.kids[k]);
    } else {
      assert rest[|rest| - 1] == p[|p| - 1];
      assert Lookup(t, p) == Lookup(Base(t.kids, k), rest);
    }
  }

  lemma BlockedStep(t: Tree, s: Tree, p: Path)
    requires t.Node? && s.Node? && p != []
    ensures Blocked(t, s, p) <==> p[0] in s.kids && Blocked(Base(t.kids, p[0]), s.kids[p[0]], p[1..])
  {
    forall n | 0 < n <= |p|
      ensures BlockedAt(t, s, p[..n]) <==>
              p[0] in s.kids && BlockedAt(Base(t.kids, p[0]), s.kids[p[0]], p[1..][..n - 1])
    {
      assert p[..n][0] == p[0] && p[..n][1..] == p[1..][..n - 1];
      BlockedStepAt(t, s, p[..n]);
    }
    assert !BlockedAt(t, s, p[..0]);
    if p[0] in s.kids && Blocked(Base(t.kids, p[0]), s.kids[p[0]], p[1..]) {
      var m :| 0 <= m <= |p[1..]| && BlockedAt(Base(t.kids, p[0]), s.kids[p[0]], p[1..][..m]);
      assert BlockedAt(t, s, p[..m + 1]);
    }
  }

  lemma OverriddenStep(s: Tree, p: Path)
    requires s.Node? && p != []
    ensures Overridden(s, p) <==> p[0] in s.kids && Overridden(s.kids[p[0]], p[1..])
  {
    forall n | 0 <= n <= |p|
      ensures OverriddenAt(s, p[..n]) <==> n > 0 && p[0] in s.kids && OverriddenAt(s.kids[p[0]], p[1..][..n - 1])
    {
      if n > 0 {
        assert p[..n][0] == p[0] && p[..n][1..] == p[1..][..n - 1];
      }
    }
    if p[0] in s.kids && Overridden(s.kids[p[0]], p[1..]) {
      var m :| 0 <= m <= |p[1..]| && OverriddenAt(s.kids[p[0]], p[1..][..m]);
      assert OverriddenAt(s, p[..m + 1]);
    }
  }

  lemma BlockedHere(t: Tree, s: Tree, p: Path)
    requires t.Leaf? && t.truthy && s.Node?
    ensures Blocked(t, s, p)
  {
    assert BlockedAt(t, s, p[..0]);
  }

  lemma LeafOverrides(s: Tree, p: Path)
    requires s.Leaf?
    ensures Overridden(s, p)
  {
    assert OverriddenAt(s, p[..0]);
  }

  /**
   What the merge holds at every path. Below a truthy value that is no object, own or inherited, a source
   object leaves the target as it was; otherwise a source value that is no object wins from its path down,
   a source object makes an object, and where the source has nothing the target stays.
   */
  lemma {:induction false} MergePath(t: Tree, s: Tree, p: Path)
    requires t.Node? && s.Node?
    ensures var at := Lookup(Merge(t, s), p);
            if Blocked(t, s, p) then at == Lookup(t, p)
            else if Overridden(s, p) then at == Lookup(s, p)
            else if Lookup(s, p).Some? then at.Some? && at.value.Node?
            else at == Lookup(t, p)
    decreases |p|
  {
    if p == [] {
      assert forall n :: 0 <= n <= 0 ==> p[..n] == [];
    } else {
      var k := p[0];
      BlockedStep(t, s, p);
      OverriddenStep(s, p);
      MergedKid(t, s, k);
      if k in s.kids {
        if s.kids[k].Leaf? {
          LeafOverrides(s.kids[k], p[1..]);
          LeafNeverBlocks(t, s, p);
        } else {
          MergePathBelow(t, s, p);
        }
      }
    }
  }

  lemma LeafNeverBlocks(t: Tree, s: Tree, p: Path)
    requires t.Node? && s.Node? && p != [] && p[0] in s.kids && s.kids[p[0]].Leaf?
    ensures !Blocked(t, s, p)
  {
    BlockedStep(t, s, p);
    forall n | 0 <= n <= |p[1..]|
      ensures !BlockedAt(Base(t.kids, p[0]), s.kids[p[0]], p[1..][..n])
    {
      assert n > 0 ==> Lookup(s.kids[p[0]], p[1..][..n]).None?;
    }
  }

  /** An empty object has nothing at any path but its own. */
  lemma NothingInside(p: Path)
    ensures p != [] ==> Lookup(Node(map[]), p) == None
  {
  }

  /** The step of `MergePath` into a source object. */
  lemma {:induction false} MergePathBelow(t: Tree, s: Tree, p: Path)
    requires t.Node? && s.Node? && p != [] && p[0] in s.kids && s.kids[p[0]].Node?
    ensures var at := Lookup(Merge(t, s), p);
            if Blocked(t, s, p) then at == Lookup(t, p)
            else if Overridden(s, p) then at == Lookup(s, p)
            else if Lookup(s, p).Some? then at.Some? && at.value.Node?
            else at == Lookup(t, p)
    decreases |p|, 0
  {
    var k, rest := p[0], p[1..];
    var v, base := s.kids[k], Base(t.kids, k);
    BlockedStep(t, s, p);
    OverriddenStep(s, p);
    MergedKid(t, s, k);
    NothingInside(rest);
    if base.Leaf? {
      BlockedHere(base, v, rest);
    } else {
      MergePath(base, v, rest);
    }
  }

  /** A source object at an inherited name is lost: the target keeps having no such property. */
  lemma InheritedBlocks(t: Tree, s: Tree, k: Key)
    requires t.Node? && s.Node? && k in INHERITED && k !in t.kids && k in s.kids && s.kids[k].Node?
    ensures Lookup(Merge(t, s), [k]) == None
  {
    var p: Path := [k];
    assert p[..1] == p && p[1..] == [];
    assert Lookup(s, p) == Some(s.kids[k]) && Lookup(t, p) == None;
    assert BlockedAt(t, s, p[..1]);
    MergePath(t, s, p);
  }

  /** A source that is no object leaves the target as it was, and so does any source when the target is none. */
  lemma NothingToMerge(t: Tree, s: Tree)
    requires t.Leaf? || s.Leaf?
    ensures Merge(t, s) == t
  {
  }

  /** Sources are merged one by one from the left. */
  lemma SourcesInOrder(t: Tree, sources: seq<Tree>, last: Tree)
    ensures MergeAll(t, []) == t && MergeAll(t, sources + [last]) == Merge(MergeAll(t, sources), last)
  {
    MergeAllLast(t, sources, last);
  }

  /** Where the target has nothing, a source object is merged at every name but the eleven inherited ones. */
  lemma MergedUnlessInherited(t: Tree, s: Tree, k: Key)
    requires t.Node? && s.Node? && k !in t.kids && k in s.kids && s.kids[k].Node?
    ensures k in Merge(t, s).kids <==>
            !(|| k == "constructor" || k == "hasOwnProperty" || k == "isPrototypeOf" || k == "propertyIsEnumerable"
              || k == "toLocaleString" || k == "toString" || k == "valueOf" || k == "__defineGetter__"
              || k == "__defineSetter__" || k == "__lookupGetter__" || k == "__lookupSetter__")
  {
    MergedKid(t, s, k);
  }
}
