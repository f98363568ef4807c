/**
 * The static selectors. Each reads the host container's whole state tree,
 * walks the dot-separated store path to the collection slice with `elvis`,
 * and derives one view of that slice.
 */
module Selectors {
  import opened Wrappers
  import opened EntityState

  /**
   * The host container's state tree, as far as the selectors look into it:
   * `undefined`, a plain object, or the slice of an entity store. A store's
   * child stores sit as properties of its slice, so a slice has children too.
   */
  datatype Tree<T> =
    | Undefined
    | Node(children: map<string, Tree<T>>)
    | Collection(slice: EntityStateModel<T>, children: map<string, Tree<T>>)

  // ---------------------------------------------------------------- path segments

  /** `path.split('.')`: the segments between dots, empty ones included. */
  function Split(s: string): (r: seq<string>)
    ensures |r| >= 1
    ensures forall i :: 0 <= i < |r| ==> '.' !in r[i]
    decreases |s|
  {
    if s == [] then [""]
    else
      var rest := Split(s[1..]);
      if s[0] == '.' then [""] + rest
      else [[s[0]] + rest[0]] + rest[1..]
  }

  /** The segments put back together with dots between them. */
  function Join(parts: seq<string>): string
    requires |parts| >= 1
    decreases |parts|
  {
    if |parts| == 1 then parts[0] else parts[0] + "." + Join(parts[1..])
  }

  /** Splitting loses nothing: joining the segments gives back the path. */
  lemma {:induction false} JoinSplit(s: string)
    ensures Join(Split(s)) == s
    decreases |s|
  {
    if s != [] {
      var rest := Split(s[1..]);
      JoinSplit(s[1..]);
      if s[0] == '.' {
        assert ([""] + rest)[1..] == rest;
      } else {
        var r := [[s[0]] + rest[0]] + rest[1..];
        assert r[1..] == rest[1..];
        if |rest| > 1 {
          assert Join(rest) == rest[0] + "." + Join(rest[1..]);
        }
      }
    }
  }

  /** Splitting at a dot splits the two sides separately. */
  lemma {:induction false} SplitDot(a: string, b: string)
    ensures Split(a + "." + b) == Split(a) + Split(b)
    decreases |a|
  {
    if a == [] {
      assert a + "." + b == "." + b;
      assert ("." + b)[1..] == b;
    } else {
      assert (a + "." + b)[1..] == a[1..] + "." + b;
      SplitDot(a[1..], b);
    }
  }

  /** Segments without dots survive a join and a split. */
  lemma {:induction false} SplitJoin(parts: seq<string>)
    requires |parts| >= 1
    requires forall i :: 0 <= i < |parts| ==> '.' !in parts[i]
    ensures Split(Join(parts)) == parts
    decreases |parts|
  {
    SplitWithoutDot(parts[0]);
    if |parts| > 1 {
      SplitDot(parts[0], Join(parts[1..]));
      SplitJoin(parts[1..]);
    }
  }

  lemma {:induction false} SplitWithoutDot(s: string)
    requires '.' !in s
    ensures Split(s) == [s]
    decreases |s|
  {
    if s != [] {
      assert '.' !in s[1..] by {
        forall i | 0 <= i < |s[1..]| ensures s[1..][i] != '.' {
          assert s[1..][i] == s[i + 1];
        }
      }
      SplitWithoutDot(s[1..]);
      assert [s[0]] + s[1..] == s;
    }
  }

  // ---------------------------------------------------------------- elvis

  /** `value && value[key]`: undefined stays undefined, a missing property is undefined. */
  function Step<T>(v: Tree<T>, key: string): Tree<T>
  {
    if v.Undefined? then Undefined
    else if key in v.children then v.children[key]
    else Undefined
  }

  /** The `reduce` of `Step` over the segments. */
  function Walk<T>(v: Tree<T>, keys: seq<string>): Tree<T>
    decreases |keys|
  {
    if keys == [] then v else Walk(Step(v, keys[0]), keys[1..])
  }

  /** `elvis`: the whole tree for an empty path, otherwise the walk along its segments. */
  function Elvis<T>(tree: Tree<T>, path: string): (r: Tree<T>)
    ensures path == "" ==> r == tree
  {
    if path == "" then tree else Walk(tree, Split(path))
  }

  /** Once undefined, the walk stays undefined. */
  lemma {:induction false} WalkUndefined<T>(keys: seq<string>)
    ensures Walk<T>(Undefined, keys) == Undefined
    decreases |keys|
  {
    if keys != [] {
      WalkUndefined<T>(keys[1..]);
    }
  }

  /** Walking two segment lists one after the other is walking their concatenation. */
  lemma {:induction false} WalkAppend<T>(v: Tree<T>, a: seq<string>, b: seq<string>)
    ensures Walk(v, a + b) == Walk(Walk(v, a), b)
    decreases |a|
  {
    if a != [] {
      assert (a + b)[0] == a[0];
      assert (a + b)[1..] == a[1..] + b;
      WalkAppend(Step(v, a[0]), a[1..], b);
    } else {
      assert a + b == b;
    }
  }

  /** A segment missing from the node reached so far makes the whole result undefined. */
  lemma ElvisMissingSegment<T>(tree: Tree<T>, path: string, i: nat)
    requires path != "" && i < |Split(path)|
    requires Walk(tree, Split(path)[..i]).Undefined? || Split(path)[i] !in Walk(tree, Split(path)[..i]).children
    ensures Elvis(tree, path) == Undefined
  {
    var keys := Split(path);
    assert keys == keys[..i] + keys[i..];
    WalkAppend(tree, keys[..i], keys[i..]);
    WalkUndefined<T>(keys[i + 1..]);
    assert keys[i..][1..] == keys[i + 1..];
  }

  /** A dotted path is a lookup of its tail inside the result for its head. */
  lemma ElvisNested<T>(tree: Tree<T>, head: string, tail: string)
    requires head != "" && tail != ""
    ensures Elvis(tree, head + "." + tail) == Elvis(Elvis(tree, head), tail)
  {
    SplitDot(head, tail);
    WalkAppend(tree, Split(head), Split(tail));
  }

  /** A non-empty path without dots reads one property. */
  lemma ElvisSegment<T>(tree: Tree<T>, key: string)
    requires key != "" && '.' !in key
    ensures Elvis(tree, key) == Step(tree, key)
  {
    SplitWithoutDot(key);
    var keys := Split(key);
    assert keys[0] == key && keys[1..] == [];
    assert Walk(tree, keys) == Walk(Step(tree, key), []);
  }

  // ---------------------------------------------------------------- selectors

  /**
   * A selector that reads one property of the slice: `undefined` throws, a
   * plain object has no such property (None), a slice yields `field`.
   */
  function ReadProperty<T, X>(tree: Tree<T>, path: string, field: EntityStateModel<T> -> Option<X>): Result<Option<X>, Failure>
  {
    match Elvis(tree, path)
    case Undefined => Failure(PropertyOfUndefined)
    case Node(_) => Success(None)
    case Collection(s, _) => Success(field(s))
  }

  /**
   * A selector that reads inside the slice's `entities`: on anything but a
   * slice, `entities` is undefined and reading into it throws.
   */
  function ReadEntities<T, X>(tree: Tree<T>, path: string, view: EntityStateModel<T> -> X): Result<X, Failure>
  {
    match Elvis(tree, path)
    case Collection(s, _) => Success(view(s))
    case _ => Failure(PropertyOfUndefined)
  }

  function ActiveId<T>(tree: Tree<T>, path: string): Result<Option<string>, Failure>
  {
    ReadProperty(tree, path, (s: EntityStateModel<T>) => s.active)
  }

  function EntityMap<T>(tree: Tree<T>, path: string): Result<Option<map<string, T>>, Failure>
  {
    ReadProperty(tree, path, (s: EntityStateModel<T>) => Some(s.entities))
  }

  function Loading<T>(tree: Tree<T>, path: string): Result<Option<bool>, Failure>
  {
    ReadProperty(tree, path, (s: EntityStateModel<T>) => Some(s.loading))
  }

  function LastError<T>(tree: Tree<T>, path: string): Result<Option<Error>, Failure>
  {
    ReadProperty(tree, path, (s: EntityStateModel<T>) => s.error)
  }

  /** `getActive(subState)`: reads `subState.entities[subState.active]`. */
  function Active<T>(tree: Tree<T>, path: string): Result<Option<T>, Failure>
  {
    ReadEntities(tree, path, (s: EntityStateModel<T>) => GetActive(s))
  }

  /** `Object.keys(entities)`, as a set: no enumeration order is modelled. */
  function Keys<T>(tree: Tree<T>, path: string): Result<set<string>, Failure>
  {
    ReadEntities(tree, path, (s: EntityStateModel<T>) => s.entities.Keys)
  }

  /** `Object.values(entities)`, as a multiset: no enumeration order is modelled. */
  ghost function Entities<T>(tree: Tree<T>, path: string): Result<multiset<T>, Failure>
  {
    ReadEntities(tree, path, (s: EntityStateModel<T>) => ValuesOf(s.entities))
  }

  function Size<T>(tree: Tree<T>, path: string): Result<nat, Failure>
  {
    ReadEntities(tree, path, (s: EntityStateModel<T>) => |s.entities|)
  }

  /** The stored values, each counted once per key that holds it. */
  ghost function ValuesOf<T>(m: map<string, T>): multiset<T>
    decreases |m|
  {
    if |m| == 0 then multiset{}
    else
      var k :| k in m;
      assert |m - {k}| < |m| by {
        assert (m - {k}).Keys == m.Keys - {k};
      }
      multiset{m[k]} + ValuesOf(m - {k})
  }

  /** There are as many values as keys. */
  lemma {:induction false} ValuesOfSize<T>(m: map<string, T>)
    ensures |ValuesOf(m)| == |m|
    decreases |m|
  {
    if |m| != 0 {
      var k :| k in m && ValuesOf(m) == multiset{m[k]} + ValuesOf(m - {k});
      assert (m - {k}).Keys == m.Keys - {k};
      ValuesOfSize(m - {k});
    }
  }

  /** A value is listed exactly when some key holds it. */
  lemma {:induction false} ValuesOfMembers<T>(m: map<string, T>, v: T)
    ensures v in ValuesOf(m) <==> exists k :: k in m && m[k] == v
    decreases |m|
  {
    if |m| != 0 {
      var k :| k in m && ValuesOf(m) == multiset{m[k]} + ValuesOf(m - {k});
      assert (m - {k}).Keys == m.Keys - {k};
      ValuesOfMembers(m - {k}, v);
      if exists j :: j in m && m[j] == v {
        var j :| j in m && m[j] == v;
        if j != k {
          assert j in m - {k};
        }
      }
    }
  }

  /** `size`, the number of `keys` and the number of `entities` agree. */
  lemma SizeCountsKeysAndEntities<T>(tree: Tree<T>, path: string)
    ensures Size(tree, path).Success? <==> Elvis(tree, path).Collection?
    ensures Size(tree, path).Success? ==>
      Keys(tree, path).Success? && Entities(tree, path).Success? &&
      Size(tree, path).value == |Keys(tree, path).value| == |Entities(tree, path).value|
  {
    if Elvis(tree, path).Collection? {
      ValuesOfSize(Elvis(tree, path).slice.entities);
    }
  }

  /** Every selector throws when the store path leads to `undefined`. */
  lemma UnresolvedPathThrows<T>(tree: Tree<T>, path: string)
    requires Elvis(tree, path).Undefined?
    ensures ActiveId(tree, path) == Failure(PropertyOfUndefined)
    ensures Active(tree, path) == Failure(PropertyOfUndefined)
    ensures Keys(tree, path) == Failure(PropertyOfUndefined)
    ensures Entities(tree, path) == Failure(PropertyOfUndefined)
    ensures EntityMap(tree, path) == Failure(PropertyOfUndefined)
    ensures Size(tree, path) == Failure(PropertyOfUndefined)
    ensures Loading(tree, path) == Failure(PropertyOfUndefined)
    ensures LastError(tree, path) == Failure(PropertyOfUndefined)
  {
  }

  /**
   * On a plain object, the selectors that read a property of it give
   * undefined, and those that read inside its `entities` throw.
   */
  lemma PlainObjectSelectors<T>(tree: Tree<T>, path: string)
    requires Elvis(tree, path).Node?
    ensures ActiveId(tree, path) == Success(None)
    ensures EntityMap(tree, path) == Success(None)
    ensures Loading(tree, path) == Success(None)
    ensures LastError(tree, path) == Success(None)
    ensures Active(tree, path) == Failure(PropertyOfUndefined)
    ensures Keys(tree, path) == Failure(PropertyOfUndefined)
    ensures Entities(tree, path) == Failure(PropertyOfUndefined)
    ensures Size(tree, path) == Failure(PropertyOfUndefined)
  {
  }

  /** The selectors read exactly the slice stored at the store path. */
  lemma SelectorsReadSlice<T>(tree: Tree<T>, path: string, s: EntityStateModel<T>)
    requires Elvis(tree, path).Collection? && Elvis(tree, path).slice == s
    ensures ActiveId(tree, path) == Success(s.active)
    ensures Active(tree, path) == Success(GetActive(s))
    ensures Keys(tree, path) == Success(s.entities.Keys)
    ensures EntityMap(tree, path) == Success(Some(s.entities))
    ensures Size(tree, path) == Success(|s.entities|)
    ensures Loading(tree, path) == Success(Some(s.loading))
    ensures LastError(tree, path) == Success(s.error)
    ensures Entities(tree, path).Success? &&
      forall v :: v in Entities(tree, path).value <==> exists k :: k in s.entities && s.entities[k] == v
  {
    forall v ensures v in ValuesOf(s.entities) <==> exists k :: k in s.entities && s.entities[k] == v {
      ValuesOfMembers(s.entities, v);
    }
  }

  /** A child store nested in a parent store's slice is found through the dotted path. */
  lemma NestedStoreResolves<T>(tree: Tree<T>, parent: string, child: string)
    requires parent != "" && child != "" && '.' !in child
    requires Elvis(tree, parent).Collection? && child in Elvis(tree, parent).children
    ensures Elvis(tree, parent + "." + child) == Elvis(tree, parent).children[child]
  {
    ElvisNested(tree, parent, child);
    ElvisSegment(Elvis(tree, parent), child);
  }
}
