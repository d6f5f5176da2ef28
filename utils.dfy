/** The nested-dictionary helpers of the utilities module (`set_path_in_dict`,
    `flatten_dict`, `deep_merge`) and `_get_hostport`. A context is a
    dictionary whose values are either nested dictionaries or leaves. */
module Utils {
  import opened Wrappers
  import Strings

  /** A context value: a mapping (`collections.abc.Mapping`) or anything
      else, a leaf. */
  datatype Value = Leaf(data: string) | Node(children: map<string, Value>)

  type Dict = map<string, Value>

  /** A list of keys leading from a dictionary into its nested dictionaries. */
  type KeyPath = seq<string>

  /** Following `p` from `v`: `None` when a key is missing or a leaf is met
      before the end of the path. */
  function Get(v: Value, p: KeyPath): Option<Value>
    decreases |p|
  {
    if |p| == 0 then Some(v)
    else match v
      case Leaf(_) => None
      case Node(m) => if p[0] in m then Get(m[p[0]], p[1..]) else None
  }

  function Lookup(d: Dict, p: KeyPath): Option<Value>
  {
    Get(Node(d), p)
  }

  predicate IsLeafAt(d: Dict, p: KeyPath)
  {
    Lookup(d, p).Some? && Lookup(d, p).value.Leaf?
  }

  predicate IsPrefix(p: KeyPath, q: KeyPath)
  {
    |p| <= |q| && q[..|p|] == p
  }

  lemma PrefixTransitive(p: KeyPath, q: KeyPath, r: KeyPath)
    requires IsPrefix(p, q) && IsPrefix(q, r)
    ensures IsPrefix(p, r)
  {
    assert r[..|p|] == r[..|q|][..|p|];
  }

  /** A prefix that the other path is not a prefix of is a proper one. */
  lemma PrefixOfLonger(p: KeyPath, q: KeyPath)
    requires IsPrefix(p, q) && !IsPrefix(q, p)
    ensures |p| < |q|
  {
  }

  /** Two paths overlap when one leads through (or to) the other. */
  predicate Comparable(p: KeyPath, q: KeyPath)
  {
    IsPrefix(p, q) || IsPrefix(q, p)
  }

  /** A path that overlaps none of the paths of `s`. */
  ghost predicate Independent(p: KeyPath, s: set<KeyPath>)
  {
    forall q :: q in s ==> !Comparable(p, q)
  }

  /** Some proper prefix of `p` (other than the root) holds a leaf in `d`:
      `d` has a non-mapping value where `p` needs a dictionary. */
  ghost predicate Blocked(d: Dict, p: KeyPath)
  {
    exists i :: 1 <= i < |p| && IsLeafAt(d, p[..i])
  }

  /** Whatever lies on the way to an existing value is a dictionary. */
  lemma {:induction false} GetThroughNodes(v: Value, p: KeyPath, i: nat)
    requires Get(v, p).Some? && i < |p|
    ensures Get(v, p[..i]).Some? && Get(v, p[..i]).value.Node?
    decreases |p|
  {
    if i > 0 {
      GetThroughNodes(v.children[p[0]], p[1..], i - 1);
      assert p[1..][..i - 1] == p[..i][1..];
    }
  }

  // ----- set_path_in_dict -------------------------------------------------

  /** A non-mapping value met where `setdefault` or item assignment needs a
      dictionary (Python's AttributeError or TypeError). */
  datatype SetPathError = NotAMapping

  /** Setting `value` at `keys` below the current value `cur`: each key but
      the last is looked up with `setdefault(key, {})`, the last is
      assigned. */
  function Put(cur: Value, keys: KeyPath, value: Value): (r: Result<Dict, SetPathError>)
    requires |keys| >= 1
    ensures cur.Leaf? ==> r == Err(NotAMapping)
    ensures r.Ok? ==> cur.Node? && r.value.Keys == cur.children.Keys + {keys[0]}
    ensures r.Ok? ==> forall k :: k in cur.children && k != keys[0] ==> r.value[k] == cur.children[k]
    decreases |keys|
  {
    match cur
    case Leaf(_) => Err(NotAMapping)
    case Node(m) =>
      if |keys| == 1 then Ok(m[keys[0] := value])
      else
        var sub := if keys[0] in m then m[keys[0]] else Node(map[]);
        match Put(sub, keys[1..], value)
        case Ok(m') => Ok(m[keys[0] := Node(m')])
        case Err(e) => Err(e)
  }

  /** `set_path_in_dict(d, path, value)`: an empty path leaves `d` as it is. */
  function SetPath(d: Dict, path: KeyPath, value: Value): (r: Result<Dict, SetPathError>)
    ensures |path| == 0 ==> r == Ok(d)
    ensures r.Ok? && |path| > 0 ==> r.value.Keys == d.Keys + {path[0]}
    ensures r.Ok? && |path| > 0 ==> forall k :: k in d && k != path[0] ==> r.value[k] == d[k]
  {
    if |path| == 0 then Ok(d) else Put(Node(d), path, value)
  }

  lemma {:induction false} PutThenGet(cur: Value, keys: KeyPath, value: Value)
    requires |keys| >= 1 && Put(cur, keys, value).Ok?
    ensures Get(Node(Put(cur, keys, value).value), keys) == Some(value)
    decreases |keys|
  {
    if |keys| > 1 {
      var m := cur.children;
      var sub := if keys[0] in m then m[keys[0]] else Node(map[]);
      PutThenGet(sub, keys[1..], value);
    }
  }

  lemma {:induction false} PutKeepsOthers(cur: Value, keys: KeyPath, value: Value, q: KeyPath)
    requires |keys| >= 1 && Put(cur, keys, value).Ok?
    requires !Comparable(q, keys)
    ensures Get(Node(Put(cur, keys, value).value), q) == Get(cur, q)
    decreases |keys|
  {
    var m := cur.children;
    if |keys| > 1 && q[0] == keys[0] {
      var sub := if keys[0] in m then m[keys[0]] else Node(map[]);
      assert keys == [keys[0]] + keys[1..] && q == [q[0]] + q[1..];
      PutKeepsOthers(sub, keys[1..], value, q[1..]);
    }
  }

  lemma {:induction false} PutFailsIffBlocked(cur: Value, keys: KeyPath, value: Value)
    requires |keys| >= 1
    ensures Put(cur, keys, value).Err?
      <==> exists i :: 0 <= i < |keys| && Get(cur, keys[..i]).Some? && Get(cur, keys[..i]).value.Leaf?
    decreases |keys|
  {
    var blocked := exists i :: 0 <= i < |keys| && Get(cur, keys[..i]).Some? && Get(cur, keys[..i]).value.Leaf?;
    if cur.Leaf? {
      assert Get(cur, keys[..0]) == Some(cur);
    } else if |keys| == 1 {
      assert !blocked by {
        forall i | 0 <= i < 1
          ensures Get(cur, keys[..i]) == Some(cur)
        {
          assert keys[..i] == [];
        }
      }
    } else {
      var m := cur.children;
      var sub := if keys[0] in m then m[keys[0]] else Node(map[]);
      var rest := keys[1..];
      PutFailsIffBlocked(sub, rest, value);
      var subBlocked := exists j :: 0 <= j < |rest| && Get(sub, rest[..j]).Some? && Get(sub, rest[..j]).value.Leaf?;
      if keys[0] in m {
        forall j | 0 <= j < |rest|
          ensures Get(cur, keys[..j + 1]) == Get(sub, rest[..j])
        {
          assert keys[..j + 1][1..] == rest[..j];
        }
        if subBlocked {
          var j :| 0 <= j < |rest| && Get(sub, rest[..j]).Some? && Get(sub, rest[..j]).value.Leaf?;
          assert Get(cur, keys[..j + 1]) == Get(sub, rest[..j]);
        }
        if blocked {
          var i :| 0 <= i < |keys| && Get(cur, keys[..i]).Some? && Get(cur, keys[..i]).value.Leaf?;
          assert i != 0 by { assert keys[..0] == []; }
          assert Get(sub, rest[..i - 1]) == Get(cur, keys[..i]);
        }
      } else {
        assert !subBlocked by {
          forall j | 0 <= j < |rest|
            ensures Get(sub, rest[..j]).Some? ==> Get(sub, rest[..j]).value.Node?
          {
            if j > 0 { assert rest[..j][0] == rest[0]; }
          }
        }
        assert !blocked by {
          forall i | 0 <= i < |keys|
            ensures !(Get(cur, keys[..i]).Some? && Get(cur, keys[..i]).value.Leaf?)
          {
            if i > 0 { assert keys[..i][0] == keys[0]; }
          }
        }
      }
    }
  }

  /** After `set_path_in_dict(d, path, value)`, following `path` yields
      `value`. */
  lemma SetPathThenLookup(d: Dict, path: KeyPath, value: Value)
    requires |path| >= 1 && SetPath(d, path, value).Ok?
    ensures Lookup(SetPath(d, path, value).value, path) == Some(value)
  {
    PutThenGet(Node(d), path, value);
  }

  /** No value outside `path` changes: a path that neither leads through nor
      to `path` looks up the same before and after. */
  lemma SetPathKeepsOthers(d: Dict, path: KeyPath, value: Value, q: KeyPath)
    requires SetPath(d, path, value).Ok?
    requires !Comparable(q, path)
    ensures Lookup(SetPath(d, path, value).value, q) == Lookup(d, q)
  {
    if |path| >= 1 {
      PutKeepsOthers(Node(d), path, value, q);
    }
  }

  /** Setting fails exactly when a non-mapping lies strictly on the way. */
  lemma SetPathFailsIffBlocked(d: Dict, path: KeyPath, value: Value)
    ensures SetPath(d, path, value).Err? <==> Blocked(d, path)
  {
    if |path| >= 1 {
      PutFailsIffBlocked(Node(d), path, value);
      assert Lookup(d, path[..0]) == Some(Node(d));
    }
  }

  /** Missing intermediate keys are created as dictionaries holding only the
      next key of the path. */
  lemma {:induction false} PutCreatesIntermediates(cur: Value, keys: KeyPath, value: Value, i: nat)
    requires |keys| >= 1 && Put(cur, keys, value).Ok?
    requires 1 <= i < |keys| && Get(cur, keys[..i]).None?
    ensures var r := Get(Node(Put(cur, keys, value).value), keys[..i]);
      r.Some? && r.value.Node? && r.value.children.Keys == {keys[i]}
    decreases |keys|
  {
    var m := cur.children;
    var sub := if keys[0] in m then m[keys[0]] else Node(map[]);
    var rest := keys[1..];
    var m' := Put(sub, rest, value).value;
    assert keys[..i][1..] == rest[..i - 1];
    if i == 1 {
      assert keys[0] !in m;
      if |rest| == 1 {
        assert m' == map[rest[0] := value];
      } else {
        assert m'.Keys == {rest[0]};
      }
    } else if keys[0] in m {
      PutCreatesIntermediates(sub, rest, value, i - 1);
    } else {
      forall j | 1 <= j < |rest|
        ensures Get(sub, rest[..j]).None?
      {
        assert rest[..j][0] == rest[0];
      }
      PutCreatesIntermediates(sub, rest, value, i - 1);
    }
  }

  /** Setting `value` at `path`, stated on the frames of the walk: the
      enclosing dictionaries, innermost last, with the key taken from each. */
  function WriteBack(frames: seq<(Dict, string)>, r: Result<Dict, SetPathError>): Result<Dict, SetPathError>
    decreases |frames|
  {
    if |frames| == 0 || r.Err? then r
    else
      var (m, k) := frames[|frames| - 1];
      WriteBack(frames[..|frames| - 1], Ok(m[k := Node(r.value)]))
  }

  /** `set_path_in_dict`: pops the keys one at a time, walking down through
      `setdefault(key, {})` and assigning the last key. The walk keeps the
      dictionaries it passed through, and the nested updates Python makes
      through shared references are written back into them at the end. */
  method SetPathInDict(d: Dict, path: KeyPath, value: Value) returns (r: Result<Dict, SetPathError>)
    ensures r == SetPath(d, path, value)
  {
    var keys := path;
    var cur := Node(d);
    var frames: seq<(Dict, string)> := [];
    while |keys| > 0
      invariant |keys| > 0 ==> WriteBack(frames, Put(cur, keys, value)) == SetPath(d, path, value)
      invariant |keys| == 0 ==> cur.Node? && WriteBack(frames, Ok(cur.children)) == SetPath(d, path, value)
      decreases |keys|
    {
      var key := keys[0];
      keys := keys[1..];
      match cur
      case Leaf(_) =>
        return Err(NotAMapping);
      case Node(m) =>
        if |keys| > 0 {
          frames := frames + [(m, key)];
          cur := if key in m then m[key] else Node(map[]);
        } else {
          cur := Node(m[key := value]);
        }
    }
    var result := cur.children;
    while |frames| > 0
      invariant WriteBack(frames, Ok(result)) == SetPath(d, path, value)
      decreases |frames|
    {
      var (m, key) := frames[|frames| - 1];
      result := m[key := Node(result)];
      frames := frames[..|frames| - 1];
    }
    return Ok(result);
  }

  // ----- flatten_dict -----------------------------------------------------

  /** `_flatten_dict`: every leaf below `v`, keyed by the keys leading to it
      from `v`. */
  function FlattenFrom(v: Value): map<KeyPath, Value>
  {
    match v
    case Leaf(_) => map[[] := v]
    case Node(m) =>
      var paths := set k, p | k in m && p in FlattenFrom(m[k]) :: [k] + p;
      map q | q in paths :: FlattenFrom(m[q[0]])[q[1..]]
  }

  /** An entry below a dictionary is an entry below one of its values,
      under that value's key. */
  lemma FlattenNodeEntry(m: map<string, Value>, q: KeyPath)
    ensures q in FlattenFrom(Node(m)) <==> |q| >= 1 && q[0] in m && q[1..] in FlattenFrom(m[q[0]])
    ensures q in FlattenFrom(Node(m)) ==> FlattenFrom(Node(m))[q] == FlattenFrom(m[q[0]])[q[1..]]
  {
    var paths := set k, p | k in m && p in FlattenFrom(m[k]) :: [k] + p;
    if |q| >= 1 && q[0] in m && q[1..] in FlattenFrom(m[q[0]]) {
      assert [q[0]] + q[1..] in paths;
      assert [q[0]] + q[1..] == q;
    }
  }

  /** The flattened entries below `v` are exactly its leaves, each under the
      path that leads to it. */
  lemma {:induction false} FlattenFromSpec(v: Value)
    ensures forall p :: p in FlattenFrom(v) ==> Get(v, p) == Some(FlattenFrom(v)[p]) && FlattenFrom(v)[p].Leaf?
    ensures forall p :: Get(v, p).Some? && Get(v, p).value.Leaf? ==> p in FlattenFrom(v)
  {
    match v
    case Leaf(_) =>
    case Node(m) =>
      forall p
        ensures p in FlattenFrom(v) ==> Get(v, p) == Some(FlattenFrom(v)[p]) && FlattenFrom(v)[p].Leaf?
        ensures Get(v, p).Some? && Get(v, p).value.Leaf? ==> p in FlattenFrom(v)
      {
        FlattenNodeEntry(m, p);
        if |p| >= 1 && p[0] in m {
          FlattenFromSpec(m[p[0]]);
        }
      }
  }

  /** `flatten_dict(d)`: each leaf of `d` under the non-empty list of keys
      leading to it; nothing else. */
  function FlattenDict(d: Dict): (r: map<KeyPath, Value>)
    ensures forall p :: p in r ==> |p| >= 1 && r[p].Leaf? && Lookup(d, p) == Some(r[p])
    ensures forall p :: IsLeafAt(d, p) ==> p in r
  {
    FlattenFromSpec(Node(d));
    FlattenFrom(Node(d))
  }

  /** No flattened key leads through another: the keys are the leaves of a
      tree. */
  lemma FlattenKeysIndependent(d: Dict, p: KeyPath, q: KeyPath)
    requires p in FlattenDict(d) && q in FlattenDict(d) && p != q
    ensures !Comparable(p, q)
  {
    var f := FlattenDict(d);
    if IsPrefix(p, q) {
      GetThroughNodes(Node(d), q, |p|);
    } else if IsPrefix(q, p) {
      GetThroughNodes(Node(d), p, |q|);
    }
  }

  /** Two dictionaries with the same leaves flatten alike. */
  lemma FlattenByLeaves(d1: Dict, d2: Dict)
    requires forall p :: IsLeafAt(d1, p) <==> IsLeafAt(d2, p)
    requires forall p :: IsLeafAt(d1, p) ==> Lookup(d1, p) == Lookup(d2, p)
    ensures FlattenDict(d1) == FlattenDict(d2)
  {
    var f1 := FlattenDict(d1);
    var f2 := FlattenDict(d2);
    forall p
      ensures p in f1 <==> p in f2
      ensures p in f1 ==> f1[p] == f2[p]
    {
      if p in f1 {
        assert IsLeafAt(d1, p);
      }
      if p in f2 {
        assert IsLeafAt(d2, p);
      }
    }
    assert f1 == f2;
  }

  /** An empty nested dictionary contributes no entries. */
  lemma FlattenIgnoresEmptyDicts(d: Dict, k: string)
    ensures FlattenDict(d[k := Node(map[])]) == FlattenDict(d - {k})
  {
    var d1 := d[k := Node(map[])];
    var d2 := d - {k};
    forall p
      ensures IsLeafAt(d1, p) <==> IsLeafAt(d2, p)
      ensures IsLeafAt(d1, p) ==> Lookup(d1, p) == Lookup(d2, p)
    {
      if |p| >= 1 && p[0] == k {
        assert Lookup(d2, p) == None;
        assert Lookup(d1, p) == Get(Node(map[]), p[1..]);
      } else if |p| >= 1 {
        assert Lookup(d1, p) == if p[0] in d then Get(d[p[0]], p[1..]) else None;
        assert Lookup(d2, p) == if p[0] in d then Get(d[p[0]], p[1..]) else None;
      }
    }
    FlattenByLeaves(d1, d2);
  }

  // ----- deep_merge -------------------------------------------------------

  lemma LookupOne(d: Dict, k: string)
    ensures Lookup(d, [k]) == if k in d then Some(d[k]) else None
  {
    assert [k][0] == k && [k][1..] == [];
    if k in d {
      assert Get(d[k], []) == Some(d[k]);
      assert Get(Node(d), [k]) == Get(d[k], []);
    }
  }

  /** Dictionaries that agree on every path are equal. */
  lemma LookupExtensional(d1: Dict, d2: Dict)
    requires forall p :: Lookup(d1, p) == Lookup(d2, p)
    ensures d1 == d2
  {
    forall k
      ensures k in d1 <==> k in d2
      ensures k in d1 ==> d1[k] == d2[k]
    {
      LookupOne(d1, k);
      LookupOne(d2, k);
    }
  }

  /** The state of `deep_merge` at path `p` once the leaves `done` of `b`
      are set into `ret`: a leaf set was not blocked in `a` and holds its
      value from `b`, and a path that overlaps none of them is as in `a`. */
  ghost predicate MergedAt(a: Dict, b: Dict, ret: Dict, done: set<KeyPath>, p: KeyPath)
  {
    && (p in done ==> p in FlattenDict(b) && !Blocked(a, p) && Lookup(ret, p) == Some(FlattenDict(b)[p]))
    && (Independent(p, done) ==> Lookup(ret, p) == Lookup(a, p))
  }

  ghost predicate MergedSoFar(a: Dict, b: Dict, ret: Dict, done: set<KeyPath>)
  {
    forall p :: MergedAt(a, b, ret, done, p)
  }

  /** A key on the way to a further leaf `q` holds a leaf in the partial
      result exactly when it does in `a`. If it overlaps an earlier leaf, it
      lies strictly above it, so it is a dictionary in the partial result
      and, as that leaf was set, not a leaf in `a`; any other key on the way
      is as it was in `a`. */
  lemma MergeKeepsWay(a: Dict, b: Dict, ret: Dict, done: set<KeyPath>, q: KeyPath, i: nat)
    requires MergedSoFar(a, b, ret, done)
    requires forall q2 :: q2 in done ==> !Comparable(q, q2)
    requires 1 <= i < |q|
    ensures IsLeafAt(ret, q[..i]) <==> IsLeafAt(a, q[..i])
  {
    var pre := q[..i];
    assert MergedAt(a, b, ret, done, pre);
    if !Independent(pre, done) {
      var q2 :| q2 in done && Comparable(pre, q2);
      assert MergedAt(a, b, ret, done, q2);
      assert IsPrefix(pre, q);
      if IsPrefix(q2, pre) {
        PrefixTransitive(q2, pre, q);
        assert false;
      }
      PrefixOfLonger(pre, q2);
      GetThroughNodes(Node(ret), q2, |pre|);
      assert q2[..|pre|] == pre;
      assert !IsLeafAt(a, q2[..|pre|]);
    }
  }

  /** Setting a further leaf `q` fails exactly when its way is blocked in
      `a`. */
  lemma MergeStepBlocked(a: Dict, b: Dict, ret: Dict, done: set<KeyPath>, q: KeyPath)
    requires MergedSoFar(a, b, ret, done)
    requires q in FlattenDict(b) && q !in done
    ensures SetPath(ret, q, FlattenDict(b)[q]).Err? <==> Blocked(a, q)
  {
    SetPathFailsIffBlocked(ret, q, FlattenDict(b)[q]);
    forall q2 | q2 in done
      ensures !Comparable(q, q2)
    {
      assert MergedAt(a, b, ret, done, q2);
      FlattenKeysIndependent(b, q, q2);
    }
    forall i | 1 <= i < |q|
      ensures IsLeafAt(ret, q[..i]) <==> IsLeafAt(a, q[..i])
    {
      MergeKeepsWay(a, b, ret, done, q, i);
    }
  }

  /** Setting a further leaf `q` that is not blocked extends the merge. */
  lemma MergeStepOk(a: Dict, b: Dict, ret: Dict, done: set<KeyPath>, q: KeyPath)
    requires MergedSoFar(a, b, ret, done)
    requires q in FlattenDict(b) && q !in done
    requires SetPath(ret, q, FlattenDict(b)[q]).Ok?
    ensures MergedSoFar(a, b, SetPath(ret, q, FlattenDict(b)[q]).value, done + {q})
  {
    var flat := FlattenDict(b);
    var next := SetPath(ret, q, flat[q]).value;
    MergeStepBlocked(a, b, ret, done, q);
    SetPathThenLookup(ret, q, flat[q]);
    forall p
      ensures MergedAt(a, b, next, done + {q}, p)
    {
      assert MergedAt(a, b, ret, done, p);
      if p in done {
        FlattenKeysIndependent(b, p, q);
        SetPathKeepsOthers(ret, q, flat[q], p);
      }
      if Independent(p, done + {q}) {
        SetPathKeepsOthers(ret, q, flat[q], p);
      }
    }
  }

  /** Once every leaf of `b` is set, the merge has succeeded; merging a
      dictionary without leaves leaves `a` as it was. */
  lemma MergeSucceeds(a: Dict, b: Dict, ret: Dict)
    requires MergedSoFar(a, b, ret, FlattenDict(b).Keys)
    ensures forall q :: q in FlattenDict(b) ==> !Blocked(a, q)
    ensures forall q :: q in FlattenDict(b) ==> Lookup(ret, q) == Some(FlattenDict(b)[q])
    ensures forall p :: Independent(p, FlattenDict(b).Keys) ==> Lookup(ret, p) == Lookup(a, p)
    ensures FlattenDict(b) == map[] ==> ret == a
  {
    forall p
      ensures p in FlattenDict(b) ==> !Blocked(a, p) && Lookup(ret, p) == Some(FlattenDict(b)[p])
      ensures Independent(p, FlattenDict(b).Keys) ==> Lookup(ret, p) == Lookup(a, p)
    {
      assert MergedAt(a, b, ret, FlattenDict(b).Keys, p);
    }
    if FlattenDict(b) == map[] {
      LookupExtensional(ret, a);
    }
  }

  /** `deep_merge(a, b)`: every leaf of `b` is set into a copy of `a` with
      `set_path_in_dict`, in whatever order the leaves come. The result does
      not depend on that order: it fails exactly when some leaf of `b` needs
      a dictionary where `a` has a non-mapping value; otherwise every leaf of
      `b` is in the result with `b`'s value, and whatever `a` has away from
      the leaves of `b` is kept. */
  method DeepMerge(a: Dict, b: Dict) returns (r: Result<Dict, SetPathError>)
    ensures r.Ok? <==> forall q :: q in FlattenDict(b) ==> !Blocked(a, q)
    ensures r.Ok? ==> forall q :: q in FlattenDict(b) ==> Lookup(r.value, q) == Some(FlattenDict(b)[q])
    ensures r.Ok? ==> forall p :: Independent(p, FlattenDict(b).Keys) ==> Lookup(r.value, p) == Lookup(a, p)
    ensures FlattenDict(b) == map[] ==> r == Ok(a)
  {
    var flat := FlattenDict(b);
    var ret := a;
    var done: set<KeyPath> := {};
    var todo := flat.Keys;
    while todo != {}
      invariant done + todo == flat.Keys && done !! todo
      invariant MergedSoFar(a, b, ret, done)
      decreases todo
    {
      var q :| q in todo;
      var res := SetPathInDict(ret, q, flat[q]);
      MergeStepBlocked(a, b, ret, done, q);
      if res.Err? {
        assert q in FlattenDict(b) && Blocked(a, q);
        return res;
      }
      MergeStepOk(a, b, ret, done, q);
      ret := res.value;
      done := done + {q};
      todo := todo - {q};
    }
    MergeSucceeds(a, b, ret);
    return Ok(ret);
  }

  // ----- _get_hostport ----------------------------------------------------

  /** `_get_hostport`: the host name, followed by `:port` when the URL names
      a port. */
  function GetHostport(hostname: string, port: Option<nat>): (r: string)
    ensures |hostname| <= |r| && r[..|hostname|] == hostname
    ensures port.None? ==> r == hostname
    ensures ':' !in hostname ==> (':' in r <==> port.Some?)
  {
    match port
    case None => hostname
    case Some(n) => hostname + ":" + Strings.NatToString(n)
  }

  /** Reading a `host[:port]` string back: the part before the colon and the
      number after it. */
  function ParseHostport(s: string): (string, Option<nat>)
  {
    var parts := Strings.Split(s, ':');
    if |parts| == 2 && Strings.AllDigits(parts[1]) && |parts[1]| > 0 then
      (parts[0], Some(Strings.DigitsValue(parts[1])))
    else (s, None)
  }

  /** For a host name without a colon, the host and port can be read back
      from `_get_hostport`'s result. */
  lemma HostportRoundTrip(hostname: string, port: Option<nat>)
    requires ':' !in hostname
    ensures ParseHostport(GetHostport(hostname, port)) == (hostname, port)
  {
    match port
    case None =>
      Strings.SplitWithoutSep(hostname, ':');
    case Some(n) =>
      var digits := Strings.NatToString(n);
      assert ':' !in digits;
      assert hostname + ":" + digits == hostname + [':'] + digits;
      Strings.SplitAfterFirstSep(hostname, digits, ':');
      Strings.SplitWithoutSep(digits, ':');
      Strings.NatToStringRoundTrip(n);
  }
}
