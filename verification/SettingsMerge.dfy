/** Layering of settings values: objects merge key by key, anything else replaces. */
module SettingsMerge {
  import opened Options

  datatype Value =
    | Null
    | Bool(b: bool)
    | Number(n: int)
    | String(s: string)
    | Array(items: seq<Value>)
    | Object(fields: map<string, Value>)

  /** The override laid over the base. */
  function Merge(base: Value, over: Value): Value
    decreases over
  {
    if base.Object? && over.Object? then
      Object(map k | k in base.fields.Keys + over.fields.Keys ::
               if k !in over.fields then base.fields[k]
               else if k in base.fields then Merge(base.fields[k], over.fields[k])
               else over.fields[k])
    else over
  }

  /** The merge as it runs: the base map is updated in place, one override key after
      another. */
  method MergeJson(base: Value, over: Value) returns (merged: Value)
    ensures merged == Merge(base, over)
    decreases over
  {
    if !base.Object? || !over.Object? { return over; }
    var obj := base.fields;
    var todo := over.fields.Keys;
    while todo != {}
      invariant todo <= over.fields.Keys
      invariant obj.Keys == base.fields.Keys + (over.fields.Keys - todo)
      invariant forall k :: k in obj && k in todo ==> obj[k] == base.fields[k]
      invariant forall k :: k in obj && k !in todo ==> obj[k] == MergedField(base.fields, over.fields, k)
      decreases |todo|
    {
      var key :| key in todo;
      var value := over.fields[key];
      if key in obj {
        value := MergeJson(obj[key], value);
      }
      obj := obj[key := value];
      todo := todo - {key};
    }
    merged := Object(obj);
    MergedFields(base, over, obj);
  }

  function MergedField(base: map<string, Value>, over: map<string, Value>, k: string): Value
    requires k in base || k in over
  {
    if k !in over then base[k] else if k in base then Merge(base[k], over[k]) else over[k]
  }

  lemma MergedFields(base: Value, over: Value, obj: map<string, Value>)
    requires base.Object? && over.Object? && obj.Keys == base.fields.Keys + over.fields.Keys
    requires forall k :: k in obj ==> obj[k] == MergedField(base.fields, over.fields, k)
    ensures Merge(base, over) == Object(obj)
  {
    assert Merge(base, over).fields == obj;
  }

  // ----- paths -----

  type Path = seq<string>

  function At(v: Value, p: Path): Option<Value>
    decreases |p|
  {
    if p == [] then Some(v)
    else if v.Object? && p[0] in v.fields then At(v.fields[p[0]], p[1..])
    else None
  }

  /** Somewhere short of the end of the path, the value is not an object. */
  predicate Blocks(v: Value, p: Path)
    decreases |p|
  {
    p != [] && (!v.Object? || (p[0] in v.fields && Blocks(v.fields[p[0]], p[1..])))
  }

  /** What a merge holds at every path: the override where it holds something, merged
      with the base where both do; the base where the override has only objects without
      the next key; nothing under an override that is no object. */
  lemma {:induction false} MergeAtPath(base: Value, over: Value, p: Path)
    ensures At(Merge(base, over), p) ==
      match (At(over, p), At(base, p))
      case (Some(o), Some(b)) => Some(Merge(b, o))
      case (Some(o), None) => Some(o)
      case (None, _) => if Blocks(over, p) then None else At(base, p)
    decreases |p|
  {
    if p != [] && base.Object? && over.Object? && p[0] in over.fields && p[0] in base.fields {
      MergeAtPath(base.fields[p[0]], over.fields[p[0]], p[1..]);
    } else {
      AtOrBlocked(over, p);
    }
  }

  lemma {:induction false} AtOrBlocked(v: Value, p: Path)
    ensures At(v, p).Some? ==> !Blocks(v, p)
    decreases |p|
  {
    if p != [] && v.Object? && p[0] in v.fields { AtOrBlocked(v.fields[p[0]], p[1..]); }
  }

  /** Laying the same override again changes nothing. */
  lemma {:induction false} RemergeIsNoop(base: Value, over: Value)
    ensures Merge(Merge(base, over), over) == Merge(base, over)
    ensures Merge(over, over) == over
    decreases over
  {
    if over.Object? {
      forall k | k in over.fields
        ensures Merge(over.fields[k], over.fields[k]) == over.fields[k]
        ensures base.Object? && k in base.fields ==>
          Merge(Merge(base.fields[k], over.fields[k]), over.fields[k]) == Merge(base.fields[k], over.fields[k])
      {
        RemergeIsNoop(if base.Object? && k in base.fields then base.fields[k] else Null, over.fields[k]);
      }
      assert Merge(over, over).fields == over.fields;
      if base.Object? { assert Merge(Merge(base, over), over).fields == Merge(base, over).fields; }
    }
  }

  /** A missing file is read as an empty object. As a base it changes nothing; laid over
      a value it keeps that value exactly when it is an object. */
  lemma EmptyLayer(v: Value)
    ensures Merge(Object(map[]), v) == v
    ensures Merge(v, Object(map[])) == v <==> v.Object?
  {
    if v.Object? {
      assert Merge(Object(map[]), v).fields == v.fields;
      assert Merge(v, Object(map[])).fields == v.fields;
    }
  }

  /** The override leaves no trace of what lies under it. */
  predicate Covers(over: Value, base: Value)
    decreases over
  {
    base.Object? && over.Object? ==>
      forall k <- base.fields :: k in over.fields && Covers(over.fields[k], base.fields[k])
  }

  lemma {:induction false} CoversExactly(base: Value, over: Value)
    ensures Merge(base, over) == over <==> Covers(over, base)
    decreases over
  {
    if base.Object? && over.Object? {
      forall k | k in base.fields && k in over.fields
        ensures Merge(base.fields[k], over.fields[k]) == over.fields[k] <==> Covers(over.fields[k], base.fields[k])
      {
        CoversExactly(base.fields[k], over.fields[k]);
      }
      var merged := Merge(base, over);
      if Covers(over, base) {
        assert merged.fields == over.fields;
      } else {
        var k :| k in base.fields && !(k in over.fields && Covers(over.fields[k], base.fields[k]));
        assert k in merged.fields;
      }
    }
  }

  /** Regrouping three layers is safe: wherever the middle one replaces an object under
      an object, the upper one covers the lower one anyway. */
  predicate Regroups(a: Value, b: Value, c: Value)
    decreases c
  {
    a.Object? && c.Object? ==>
      if !b.Object? then Covers(c, a)
      else forall k <- c.fields :: k in a.fields && k in b.fields ==> Regroups(a.fields[k], b.fields[k], c.fields[k])
  }

  lemma {:induction false} RegroupExactly(a: Value, b: Value, c: Value)
    ensures Merge(Merge(a, b), c) == Merge(a, Merge(b, c)) <==> Regroups(a, b, c)
    decreases c
  {
    if a.Object? && c.Object? {
      if !b.Object? {
        CoversExactly(a, c);
      } else {
        var left, right := Merge(Merge(a, b), c), Merge(a, Merge(b, c));
        forall k | k in c.fields && k in a.fields && k in b.fields
          ensures left.fields[k] == right.fields[k] <==> Regroups(a.fields[k], b.fields[k], c.fields[k])
        {
          RegroupExactly(a.fields[k], b.fields[k], c.fields[k]);
        }
        assert left.fields.Keys == right.fields.Keys;
        assert forall k <- left.fields ::
          !(k in c.fields && k in a.fields && k in b.fields) ==> left.fields[k] == right.fields[k];
        if Regroups(a, b, c) { assert left.fields == right.fields; }
      }
    }
  }

  /** The middle layer puts a non-object where both outer layers hold objects. */
  ghost predicate Flattens(a: Value, b: Value, c: Value, p: Path) {
    && At(a, p).Some? && At(a, p).value.Object?
    && At(c, p).Some? && At(c, p).value.Object?
    && At(b, p).Some? && !At(b, p).value.Object?
  }

  lemma {:induction false} RegroupWhereNothingFlattens(a: Value, b: Value, c: Value)
    requires forall p :: !Flattens(a, b, c, p)
    ensures Merge(Merge(a, b), c) == Merge(a, Merge(b, c))
  {
    NothingFlattened(a, b, c);
    RegroupExactly(a, b, c);
  }

  lemma {:induction false} NothingFlattened(a: Value, b: Value, c: Value)
    requires forall p :: !Flattens(a, b, c, p)
    ensures Regroups(a, b, c)
    decreases c
  {
    assert !Flattens(a, b, c, []);
    if a.Object? && b.Object? && c.Object? {
      forall k | k in c.fields && k in a.fields && k in b.fields
        ensures Regroups(a.fields[k], b.fields[k], c.fields[k])
      {
        forall p
          ensures !Flattens(a.fields[k], b.fields[k], c.fields[k], p)
        {
          assert ([k] + p)[1..] == p;
          assert !Flattens(a, b, c, [k] + p);
        }
        NothingFlattened(a.fields[k], b.fields[k], c.fields[k]);
      }
    }
  }

  // ----- user < project < local -----

  function Effective(user: Value, project: Value, local: Value): Value {
    Merge(Merge(user, project), local)
  }

  /** The layer says nothing at this path: only objects without the next key. */
  ghost predicate Silent(layer: Value, p: Path) {
    At(layer, p).None? && !Blocks(layer, p)
  }

  /** At every path the topmost layer that holds a non-object decides, and a layer that
      is silent there lets the one under it through. */
  lemma LayersAtPath(user: Value, project: Value, local: Value, p: Path, leaf: Value)
    requires !leaf.Object?
    ensures At(local, p) == Some(leaf) ==> At(Effective(user, project, local), p) == Some(leaf)
    ensures Silent(local, p) && At(project, p) == Some(leaf) ==> At(Effective(user, project, local), p) == Some(leaf)
    ensures Silent(local, p) && Silent(project, p) ==> At(Effective(user, project, local), p) == At(user, p)
  {
    MergeAtPath(user, project, p);
    MergeAtPath(Merge(user, project), local, p);
  }
}
