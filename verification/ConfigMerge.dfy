/**
 * Deep merge of configurations: mergeConfigs and deepMerge of src/config/discovery.ts, and the second
 * deepMerge of src/services/config-manager.ts. Objects are maps: the order of their keys is not modelled.
 */
module ConfigMerge {
  import opened Text

  datatype Json =
    | Undefined
    | Null
    | Bool(b: bool)
    | Num(n: real)
    | Str(s: string)
    | Arr(items: seq<Json>)
    | Obj(fields: map<string, Json>)

  predicate Truthy(v: Json) {
    match v
    case Undefined => false
    case Null => false
    case Bool(b) => b
    case Num(n) => n != 0.0
    case Str(s) => s != ""
    case Arr(_) => true
    case Obj(_) => true
  }

  /** Reading a property that may be absent. */
  function Field(v: Json, key: string): Json
    requires v.Obj?
  {
    if key in v.fields then v.fields[key] else Undefined
  }

  /** deepMerge of the discovery service: the source overrides the target. */
  function Merge(target: Json, source: Json): Json
    decreases source
  {
    if !Truthy(source) then target
    else if !Truthy(target) then source
    else if !target.Obj? || !source.Obj? then source
    else
      Obj(map k | k in target.fields.Keys + source.fields.Keys ::
            if k !in source.fields then target.fields[k]
            else if source.fields[k].Obj? then Merge(Field(target, k), source.fields[k])
            else source.fields[k])
  }

  function Indexed(items: seq<Json>): map<string, Json> {
    if items == [] then map[]
    else Indexed(items[..|items| - 1])[Decimal(|items| - 1) := items[|items| - 1]]
  }

  /** Spreading an array into an object makes its indices keys. */
  function Spread(v: Json): map<string, Json>
    requires v.Obj? || v.Arr?
  {
    if v.Obj? then v.fields else Indexed(v.items)
  }

  /** deepMerge of the configuration manager. */
  function ManagerMerge(target: map<string, Json>, source: Json): map<string, Json>
    requires source.Obj?
    decreases source
  {
    map k | k in target.Keys + source.fields.Keys ::
      if k !in source.fields then target[k]
      else if source.fields[k].Obj? then Obj(ManagerMerge(Base(target, k), source.fields[k]))
      else source.fields[k]
  }

  /** What a nested object is merged into: the target's own object or array, or else an empty object. */
  function Base(target: map<string, Json>, k: string): map<string, Json> {
    if k in target && (target[k].Obj? || target[k].Arr?) then Spread(target[k]) else map[]
  }

  // ----- The code's own form

  /** The loop over the entries of the source, filling a copy of the target. */
  method DeepMerge(target: Json, source: Json) returns (r: Json)
    ensures r == Merge(target, source)
    decreases source
  {
    if !Truthy(source) {
      return target;
    }
    if !Truthy(target) {
      return source;
    }
    if !(target.Obj? || target.Arr?) || !(source.Obj? || source.Arr?) {
      return source;
    }
    if target.Arr? || source.Arr? {
      return source;
    }
    var result := target.fields;
    var pending := source.fields.Keys;
    while pending != {}
      invariant pending <= source.fields.Keys
      invariant result.Keys == target.fields.Keys + (source.fields.Keys - pending)
      invariant forall k | k in result ::
                  result[k] ==
                  if k in source.fields && k !in pending then Merge(target, source).fields[k] else target.fields[k]
      decreases pending
    {
      var key :| key in pending;
      pending := pending - {key};
      var value := source.fields[key];
      if value.Obj? {
        var merged := DeepMerge(if key in result then result[key] else Undefined, value);
        result := result[key := merged];
      } else {
        result := result[key := value];
      }
    }
    r := Obj(result);
    assert result == Merge(target, source).fields;
  }

  method ManagerDeepMerge(target: map<string, Json>, source: Json) returns (result: map<string, Json>)
    requires source.Obj?
    ensures result == ManagerMerge(target, source)
    decreases source
  {
    result := target;
    var pending := source.fields.Keys;
    while pending != {}
      invariant pending <= source.fields.Keys
      invariant result.Keys == target.Keys + (source.fields.Keys - pending)
      invariant forall k | k in result ::
                  result[k] ==
                  if k in source.fields && k !in pending then ManagerMerge(target, source)[k] else target[k]
      decreases pending
    {
      var key :| key in pending;
      pending := pending - {key};
      var value := source.fields[key];
      if value.Obj? {
        var base := if key in result && (result[key].Obj? || result[key].Arr?) then Spread(result[key]) else map[];
        var merged := ManagerDeepMerge(base, value);
        result := result[key := Obj(merged)];
      } else {
        result := result[key := value];
      }
    }
  }

  /** The merge of all configurations, the first having the highest priority. */
  function Fold(configs: seq<Json>): Json {
    if configs == [] then Obj(map[])
    else if |configs| == 1 then (if Truthy(configs[0]) then configs[0] else Obj(map[]))
    else Merge(Fold(configs[1..]), configs[0])
  }

  method MergeConfigs(configs: seq<Json>) returns (merged: Json)
    ensures merged == Fold(configs)
  {
    if |configs| == 0 {
      return Obj(map[]);
    }
    merged := configs[|configs| - 1];
    if !Truthy(merged) {
      merged := Obj(map[]);
    }
    var i := |configs| - 2;
    assert configs[i + 1..] == [configs[i + 1]];
    while i >= 0
      invariant -1 <= i <= |configs| - 2
      invariant merged == Fold(configs[i + 1..])
    {
      assert configs[i..][1..] == configs[i + 1..];
      merged := DeepMerge(merged, configs[i]);
      i := i - 1;
    }
    assert configs[0..] == configs;
  }

  // ----- Where a leaf comes from

  datatype Walk =
    | Leaf(v: Json)   // a value that is not an object, at the end of the path
    | Inner           // an object at the end of the path
    | Missing         // some key of the path is absent
    | Blocked         // the path runs into a value that is not an object

  function WalkTo(v: Json, path: seq<string>): Walk {
    if path == [] then (if v.Obj? then Inner else Leaf(v))
    else if !v.Obj? then Blocked
    else if path[0] !in v.fields then Missing
    else WalkTo(v.fields[path[0]], path[1..])
  }

  /** What a whole configuration has at a path: a falsy one has nothing anywhere. */
  function Reading(config: Json, path: seq<string>): Walk {
    if Truthy(config) then WalkTo(config, path) else Missing
  }

  /** The first configuration in which the path is not simply missing decides what is found there. */
  function FirstDecider(configs: seq<Json>, path: seq<string>): Walk {
    if configs == [] then Missing
    else if Reading(configs[0], path).Missing? then FirstDecider(configs[1..], path)
    else Reading(configs[0], path)
  }

  /** Two walks that find the same leaf, or no leaf both. */
  predicate SameLeaf(a: Walk, b: Walk) {
    if a.Leaf? || b.Leaf? then a == b else true
  }

  lemma MergeIsObject(t: Json, s: Json)
    ensures s.Obj? ==> Merge(t, s).Obj?
    ensures s.Obj? && !t.Obj? ==> Merge(t, s) == s
  {
  }

  lemma {:induction false} MergeLeaf(t: Json, s: Json, path: seq<string>)
    requires t.Obj? && s.Obj?
    ensures SameLeaf(WalkTo(Merge(t, s), path), if WalkTo(s, path).Missing? then WalkTo(t, path) else WalkTo(s, path))
    decreases path
  {
    if path == [] {
    } else {
      var k, rest := path[0], path[1..];
      if k in s.fields && s.fields[k].Obj? {
        MergeIsObject(Field(t, k), s.fields[k]);
        if Field(t, k).Obj? {
          MergeLeaf(t.fields[k], s.fields[k], rest);
        }
      }
    }
  }

  /** One merge of whole configurations, whatever they are: objects, lists, plain values or nothing. */
  lemma MergeReading(t: Json, s: Json, path: seq<string>)
    requires Truthy(t)
    ensures Truthy(Merge(t, s))
    ensures SameLeaf(WalkTo(Merge(t, s), path),
                     if Reading(s, path).Missing? then WalkTo(t, path) else Reading(s, path))
  {
    if t.Obj? && s.Obj? {
      MergeLeaf(t, s, path);
      MergeIsObject(t, s);
    }
  }

  /**
   * Precedence: at every path the merged configuration has the leaf that the first configuration not
   * missing that path has there - and no leaf if that one has an object there or is blocked on the way.
   */
  lemma {:induction false} Precedence(configs: seq<Json>, path: seq<string>)
    ensures Truthy(Fold(configs))
    ensures SameLeaf(WalkTo(Fold(configs), path), FirstDecider(configs, path))
  {
    if |configs| > 1 {
      Precedence(configs[1..], path);
      MergeReading(Fold(configs[1..]), configs[0], path);
    } else if |configs| == 1 {
      assert configs[1..] == [];
    }
  }

  /** Where both have a value, both have an object or neither has, all the way down. */
  ghost predicate SameShape(a: Json, b: Json)
    decreases a
  {
    a.Obj? == b.Obj? &&
    (a.Obj? ==> forall k | k in a.fields && k in b.fields :: SameShape(a.fields[k], b.fields[k]))
  }

  lemma {:induction false} SameShapeWalk(a: Json, b: Json, path: seq<string>)
    requires SameShape(a, b) && WalkTo(a, path).Leaf?
    ensures WalkTo(b, path).Leaf? || WalkTo(b, path).Missing?
    decreases path
  {
    if path != [] && path[0] in b.fields {
      SameShapeWalk(a.fields[path[0]], b.fields[path[0]], path[1..]);
    }
  }

  /** For configurations of the same shape: a leaf comes from the first configuration that defines it. */
  lemma FirstDefinitionWins(configs: seq<Json>, path: seq<string>, i: nat)
    requires forall j | 0 <= j < |configs| :: configs[j].Obj?
    requires forall j, k | 0 <= j < |configs| && 0 <= k < |configs| :: SameShape(configs[j], configs[k])
    requires i < |configs| && WalkTo(configs[i], path).Leaf?
    requires forall j | 0 <= j < i :: !WalkTo(configs[j], path).Leaf?
    ensures WalkTo(Fold(configs), path) == WalkTo(configs[i], path)
  {
    Precedence(configs, path);
    Decided(configs, path, i);
  }

  lemma {:induction false} Decided(configs: seq<Json>, path: seq<string>, i: nat)
    requires forall j | 0 <= j < |configs| :: configs[j].Obj?
    requires forall j, k | 0 <= j < |configs| && 0 <= k < |configs| :: SameShape(configs[j], configs[k])
    requires i < |configs| && WalkTo(configs[i], path).Leaf?
    requires forall j | 0 <= j < i :: !WalkTo(configs[j], path).Leaf?
    ensures FirstDecider(configs, path) == WalkTo(configs[i], path)
  {
    if i == 0 {
    } else {
      SameShapeWalk(configs[i], configs[0], path);
      var rest := configs[1..];
      assert rest[i - 1] == configs[i];
      assert forall j | 0 <= j < |rest| :: rest[j] == configs[j + 1];
      Decided(rest, path, i - 1);
    }
  }

  // ----- Whole values

  /** The values JavaScript takes for false. */
  predicate Falsy(v: Json) {
    v == Undefined || v == Null || v == Bool(false) || v == Num(0.0) || v == Str("")
  }

  lemma FalsyIsNotTruthy(v: Json)
    ensures Falsy(v) <==> !Truthy(v)
  {
  }

  /** A falsy source changes nothing; any other replaces the target as a whole unless both are objects. */
  lemma WholeValues(t: Json, s: Json)
    ensures Falsy(s) ==> Merge(t, s) == t
    ensures !Falsy(s) && !(t.Obj? && s.Obj?) ==> Merge(t, s) == s
  {
  }

  function WithoutFalsy(configs: seq<Json>): seq<Json> {
    if configs == [] then []
    else (if Falsy(configs[0]) then [] else [configs[0]]) + WithoutFalsy(configs[1..])
  }

  lemma MergeIntoEmpty(s: Json)
    requires !Falsy(s)
    ensures Merge(Obj(map[]), s) == s
  {
    if s.Obj? {
      assert Merge(Obj(map[]), s).fields == s.fields;
    }
  }

  /** Configurations that are missing or falsy might as well not be there. */
  lemma {:induction false} FalsyIgnored(configs: seq<Json>)
    ensures Fold(configs) == Fold(WithoutFalsy(configs))
  {
    if configs == [] {
    } else {
      var head, rest := configs[0], configs[1..];
      FalsyIgnored(rest);
      FoldStep(head, rest);
      if !Falsy(head) {
        FoldStep(head, WithoutFalsy(rest));
      }
      assert configs == [head] + rest;
      assert Falsy(head) ==> [] + WithoutFalsy(rest) == WithoutFalsy(rest);
    }
  }

  lemma FoldStep(head: Json, rest: seq<Json>)
    ensures Fold([head] + rest) == if Falsy(head) then Fold(rest) else Merge(Fold(rest), head)
  {
    assert ([head] + rest)[1..] == rest;
    if rest == [] && !Falsy(head) {
      MergeIntoEmpty(head);
    }
  }

  // ----- Algebra of deepMerge

  /** Merging a value into itself changes nothing. */
  lemma {:induction false} Idempotent(a: Json)
    ensures Merge(a, a) == a
    decreases a
  {
    if a.Obj? {
      forall k | k in a.fields ensures Merge(a.fields[k], a.fields[k]) == a.fields[k] {
        Idempotent(a.fields[k]);
      }
      assert Merge(a, a).fields == a.fields;
    }
  }

  /** Every key of `x` is in `y`, and where both hold objects, so on below: `x` adds nothing to `y`. */
  ghost predicate Covered(x: Json, y: Json)
    requires x.Obj? && y.Obj?
    decreases y
  {
    forall k | k in x.fields ::
      k in y.fields && (x.fields[k].Obj? && y.fields[k].Obj? ==> Covered(x.fields[k], y.fields[k]))
  }

  lemma {:induction false} CoveredIff(x: Json, y: Json)
    requires x.Obj? && y.Obj?
    ensures Merge(x, y) == y <==> Covered(x, y)
    decreases y
  {
    var m := Merge(x, y).fields;
    forall k | k in x.fields && k in y.fields && x.fields[k].Obj? && y.fields[k].Obj?
      ensures m[k] == y.fields[k] <==> Covered(x.fields[k], y.fields[k])
    {
      CoveredIff(x.fields[k], y.fields[k]);
    }
    forall k | k in y.fields && !(k in x.fields && x.fields[k].Obj? && y.fields[k].Obj?) ensures m[k] == y.fields[k] {
      MergeIsObject(Field(x, k), y.fields[k]);
    }
    if Covered(x, y) {
      assert m.Keys == y.fields.Keys;
      assert m == y.fields;
    } else {
      var k :| k in x.fields &&
               !(k in y.fields && (x.fields[k].Obj? && y.fields[k].Obj? ==> Covered(x.fields[k], y.fields[k])));
      assert k in m;
    }
  }

  /** Whenever a plain value of `b` stands between objects of `a` and `c`, the object of `a` adds nothing. */
  ghost predicate Bridged(a: Json, b: Json, c: Json)
    requires a.Obj? && b.Obj? && c.Obj?
    decreases c
  {
    forall k | k in a.fields && k in b.fields && k in c.fields && a.fields[k].Obj? && c.fields[k].Obj? ::
      if b.fields[k].Obj? then Bridged(a.fields[k], b.fields[k], c.fields[k])
      else Covered(a.fields[k], c.fields[k])
  }

  lemma MergeAt(t: Json, s: Json, k: string)
    requires t.Obj? && s.Obj?
    ensures k in Merge(t, s).fields <==> k in t.fields || k in s.fields
    ensures Field(Merge(t, s), k) ==
            if k !in s.fields then Field(t, k)
            else if s.fields[k].Obj? then Merge(Field(t, k), s.fields[k])
            else s.fields[k]
  {
  }

  /** Grouping to the left or to the right, key by key. */
  lemma {:induction false} AssociativeAt(a: Json, b: Json, c: Json, k: string)
    requires a.Obj? && b.Obj? && c.Obj?
    ensures
      Field(Merge(Merge(a, b), c), k) == Field(Merge(a, Merge(b, c)), k) <==>
      (k in a.fields && k in b.fields && k in c.fields && a.fields[k].Obj? && c.fields[k].Obj? ==>
         if b.fields[k].Obj? then Bridged(a.fields[k], b.fields[k], c.fields[k])
         else Covered(a.fields[k], c.fields[k]))
    decreases c, 0
  {
    var x, y, z := Field(a, k), Field(b, k), Field(c, k);
    MergeAt(a, b, k);
    MergeAt(b, c, k);
    MergeAt(Merge(a, b), c, k);
    MergeAt(a, Merge(b, c), k);
    MergeIsObject(x, y);
    MergeIsObject(y, z);
    MergeIsObject(x, z);
    MergeIsObject(x, Merge(y, z));
    if k in c.fields && x.Obj? && z.Obj? {
      if y.Obj? {
        AssociativeIff(x, y, z);
      } else {
        CoveredIff(x, z);
      }
    }
  }

  /** deepMerge is associative on three configurations exactly when they are bridged. */
  lemma {:induction false} AssociativeIff(a: Json, b: Json, c: Json)
    requires a.Obj? && b.Obj? && c.Obj?
    ensures Merge(Merge(a, b), c) == Merge(a, Merge(b, c)) <==> Bridged(a, b, c)
    decreases c, 1
  {
    var l, r := Merge(Merge(a, b), c), Merge(a, Merge(b, c));
    assert l.fields.Keys == r.fields.Keys;
    if Bridged(a, b, c) {
      forall k | k in l.fields ensures l.fields[k] == r.fields[k] {
        AssociativeAt(a, b, c, k);
      }
      assert l.fields == r.fields;
    } else {
      var k :| k in a.fields && k in b.fields && k in c.fields && a.fields[k].Obj? && c.fields[k].Obj? &&
               !(if b.fields[k].Obj? then Bridged(a.fields[k], b.fields[k], c.fields[k])
                 else Covered(a.fields[k], c.fields[k]));
      AssociativeAt(a, b, c, k);
    }
  }

  /** In particular it is associative on configurations of the same shape. */
  lemma {:induction false} SameShapeBridged(a: Json, b: Json, c: Json)
    requires a.Obj? && b.Obj? && c.Obj? && SameShape(a, b)
    ensures Bridged(a, b, c)
    decreases c
  {
    forall k | k in a.fields && k in b.fields && k in c.fields && a.fields[k].Obj? && c.fields[k].Obj?
      ensures b.fields[k].Obj? && Bridged(a.fields[k], b.fields[k], c.fields[k])
    {
      SameShapeBridged(a.fields[k], b.fields[k], c.fields[k]);
    }
  }

  // ----- The two implementations

  lemma IndexedSnoc(items: seq<Json>, last: Json)
    ensures Indexed(items + [last]) == Indexed(items)[Decimal(|items|) := last]
  {
    assert (items + [last])[..|items|] == items;
  }

  lemma SameDecimal(i: nat, j: nat)
    requires Decimal(i) == Decimal(j)
    ensures i == j
  {
    DecimalValue(i);
    DecimalValue(j);
  }

  ghost predicate IsIndex(k: string, i: nat, n: nat) {
    i < n && k == Decimal(i)
  }

  ghost predicate HoldsAt(m: map<string, Json>, i: nat, v: Json) {
    Decimal(i) in m && m[Decimal(i)] == v
  }

  /** The elements under their indices, written in decimal, and no other key. */
  ghost predicate AtIndices(m: map<string, Json>, items: seq<Json>) {
    && (forall i: nat | i < |items| :: HoldsAt(m, i, items[i]))
    && (forall k | k in m :: exists i: nat :: IsIndex(k, i, |items|))
  }

  lemma IndexAdded(m: map<string, Json>, items: seq<Json>, last: Json)
    requires AtIndices(m, items)
    ensures AtIndices(m[Decimal(|items|) := last], items + [last])
  {
    hide Decimal;
    var m', items' := m[Decimal(|items|) := last], items + [last];
    forall i: nat | i < |items'| ensures HoldsAt(m', i, items'[i]) {
      if i < |items| {
        assert HoldsAt(m, i, items[i]);
        if Decimal(i) == Decimal(|items|) {
          SameDecimal(i, |items|);
        }
      }
    }
    forall k | k in m' ensures exists i: nat :: IsIndex(k, i, |items'|) {
      if k in m {
        var i: nat :| IsIndex(k, i, |items|);
        assert IsIndex(k, i, |items'|);
      } else {
        assert IsIndex(k, |items|, |items'|);
      }
    }
  }

  /** What an array is when spread into an object. */
  lemma {:induction false} SpreadArray(items: seq<Json>)
    ensures AtIndices(Spread(Arr(items)), items)
  {
    if items == [] {
    } else {
      var init, last := items[..|items| - 1], items[|items| - 1];
      SpreadArray(init);
      hide AtIndices;
      IndexAdded(Indexed(init), init, last);
      assert items == init + [last];
      IndexedSnoc(init, last);
    }
  }

  /** Merging `x` into the manager's result adds nothing to `y`. */
  ghost predicate Absorbed(x: map<string, Json>, y: Json)
    requires y.Obj?
    decreases y
  {
    forall k | k in x :: k in y.fields && (y.fields[k].Obj? ==> Absorbed(Base(x, k), y.fields[k]))
  }

  lemma {:induction false} AbsorbedIff(x: map<string, Json>, y: Json)
    requires y.Obj?
    ensures ManagerMerge(x, y) == y.fields <==> Absorbed(x, y)
    decreases y
  {
    var m := ManagerMerge(x, y);
    forall k | k in y.fields
      ensures m[k] == y.fields[k] <==> (y.fields[k].Obj? ==> Absorbed(Base(x, k), y.fields[k]))
    {
      if y.fields[k].Obj? {
        AbsorbedIff(Base(x, k), y.fields[k]);
      }
    }
    forall k | k in y.fields && k !in x ensures m[k] == y.fields[k] {
      if y.fields[k].Obj? {
        AbsorbedIff(map[], y.fields[k]);
      }
    }
    if Absorbed(x, y) {
      assert m.Keys == y.fields.Keys;
      assert m == y.fields;
    } else {
      var k :| k in x && !(k in y.fields && (y.fields[k].Obj? ==> Absorbed(Base(x, k), y.fields[k])));
      assert k in m;
    }
  }

  /** Whenever an array of the target meets an object of the source, its spread elements add nothing. */
  ghost predicate ArraysAbsorbed(t: Json, s: Json)
    requires t.Obj? && s.Obj?
    decreases s
  {
    forall k | k in t.fields && k in s.fields && s.fields[k].Obj? ::
      && (t.fields[k].Obj? ==> ArraysAbsorbed(t.fields[k], s.fields[k]))
      && (t.fields[k].Arr? ==> Absorbed(Indexed(t.fields[k].items), s.fields[k]))
  }

  lemma {:induction false} AgreeAt(t: Json, s: Json, k: string)
    requires t.Obj? && s.Obj? && (k in t.fields || k in s.fields)
    ensures
      ManagerMerge(t.fields, s)[k] == Merge(t, s).fields[k] <==>
      (k in t.fields && k in s.fields && s.fields[k].Obj? ==>
         && (t.fields[k].Obj? ==> ArraysAbsorbed(t.fields[k], s.fields[k]))
         && (t.fields[k].Arr? ==> Absorbed(Indexed(t.fields[k].items), s.fields[k])))
    decreases s, 0
  {
    if k in s.fields && s.fields[k].Obj? {
      var x, y := Field(t, k), s.fields[k];
      MergeIsObject(x, y);
      if x.Obj? {
        AgreeIff(x, y);
      } else if x.Arr? {
        AbsorbedIff(Indexed(x.items), y);
      } else {
        AbsorbedIff(map[], y);
      }
    }
  }

  /** The two deepMerge implementations give the same result exactly when arrays that meet objects are absorbed. */
  lemma {:induction false} AgreeIff(t: Json, s: Json)
    requires t.Obj? && s.Obj?
    ensures ManagerMerge(t.fields, s) == Merge(t, s).fields <==> ArraysAbsorbed(t, s)
    decreases s, 1
  {
    var l, r := ManagerMerge(t.fields, s), Merge(t, s).fields;
    assert l.Keys == r.Keys;
    if ArraysAbsorbed(t, s) {
      forall k | k in l ensures l[k] == r[k] {
        AgreeAt(t, s, k);
      }
      assert l == r;
    } else {
      var k :| k in t.fields && k in s.fields && s.fields[k].Obj? &&
               !(&& (t.fields[k].Obj? ==> ArraysAbsorbed(t.fields[k], s.fields[k]))
                 && (t.fields[k].Arr? ==> Absorbed(Indexed(t.fields[k].items), s.fields[k])));
      AgreeAt(t, s, k);
    }
  }

  /** No key holds an array in the target and an object in the source. */
  ghost predicate NoArrayMeetsObject(t: Json, s: Json)
    requires t.Obj? && s.Obj?
    decreases s
  {
    forall k | k in t.fields && k in s.fields && s.fields[k].Obj? ::
      !t.fields[k].Arr? && (t.fields[k].Obj? ==> NoArrayMeetsObject(t.fields[k], s.fields[k]))
  }

  lemma {:induction false} AgreeWithoutArrays(t: Json, s: Json)
    requires t.Obj? && s.Obj? && NoArrayMeetsObject(t, s)
    ensures ManagerMerge(t.fields, s) == Merge(t, s).fields
    decreases s
  {
    NothingToAbsorb(t, s);
    AgreeIff(t, s);
  }

  lemma {:induction false} NothingToAbsorb(t: Json, s: Json)
    requires t.Obj? && s.Obj? && NoArrayMeetsObject(t, s)
    ensures ArraysAbsorbed(t, s)
    decreases s
  {
    forall k | k in t.fields && k in s.fields && s.fields[k].Obj? && t.fields[k].Obj?
      ensures ArraysAbsorbed(t.fields[k], s.fields[k])
    {
      NothingToAbsorb(t.fields[k], s.fields[k]);
    }
  }

  /** They differ on a list in the target that meets an object in the source. */
  lemma ImplementationsCanDiffer()
    ensures
      var t, s := Obj(map["k" := Arr([Null])]), Obj(map["k" := Obj(map["a" := Null])]);
      ManagerMerge(t.fields, s) != Merge(t, s).fields
  {
    var t, s := Obj(map["k" := Arr([Null])]), Obj(map["k" := Obj(map["a" := Null])]);
    assert [Null][..0] == [];
    assert Indexed([Null]) == map["0" := Null];
    assert "0" in Indexed([Null]) && "0" !in s.fields["k"].fields;
    AgreeIff(t, s);
  }

  /** And grouping matters when a plain value stands between two objects. */
  lemma AssociativityCanFail()
    ensures
      var a, b := Obj(map["k" := Obj(map["x" := Null])]), Obj(map["k" := Null]);
      var c := Obj(map["k" := Obj(map["y" := Null])]);
      Merge(Merge(a, b), c) != Merge(a, Merge(b, c))
  {
    var a, b := Obj(map["k" := Obj(map["x" := Null])]), Obj(map["k" := Null]);
    var c := Obj(map["k" := Obj(map["y" := Null])]);
    assert "x" in a.fields["k"].fields && "x" !in c.fields["k"].fields;
    AssociativeIff(a, b, c);
  }
}
