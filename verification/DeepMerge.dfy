/**
 * The recursive merge of JSON-like values: Merge and mergeRecursive in
 * pkg/utils/merge.go.
 */
module DeepMerge {
  import opened Common

  type Fields = map<string, Json>

  datatype Json =
    | Null
    | Bool(flag: bool)
    | Num(number: real)
    | Str(text: string)
    | Arr(items: seq<Json>)
    | Obj(fields: Fields)

  predicate SameKind(a: Json, b: Json) {
    || (a.Bool? && b.Bool?)
    || (a.Num? && b.Num?)
    || (a.Str? && b.Str?)
    || (a.Arr? && b.Arr?)
    || (a.Obj? && b.Obj?)
  }

  /** A key that both maps have and that the override sets to null. */
  predicate Deleted(base: Fields, over: Fields, k: string) {
    k in base && k in over && over[k].Null?
  }

  function Merge(base: Json, over: Json): Json
    decreases base
  {
    if !SameKind(base, over) then over
    else if over.Obj? then
      Obj(map k | k in base.fields.Keys + over.fields.Keys && !Deleted(base.fields, over.fields, k) ::
            if k !in over.fields then base.fields[k]
            else if k !in base.fields then over.fields[k]
            else Merge(base.fields[k], over.fields[k]))
    else if over.Arr? then Arr(base.items + over.items)
    else over
  }

  lemma MergeNonNull(base: Json, over: Json)
    ensures Merge(base, over).Null? <==> over.Null?
  {
  }

  // ----- The recursive procedure ------------------------------------------

  /** The first loop of the map case: a fresh copy of the base. */
  method CopyFields(base: Fields) returns (result: Fields)
    ensures result == base
  {
    result := map[];
    var keys := base.Keys;
    while keys != {}
      invariant keys <= base.Keys
      invariant result == map k | k in base && k !in keys :: base[k]
      decreases |keys|
    {
      var key :| key in keys;
      result := result[key := base[key]];
      keys := keys - {key};
    }
  }

  /** What the merged map has at one key. */
  lemma MergedAt(base: Fields, over: Fields, k: string)
    ensures var merged := Merge(Obj(base), Obj(over));
            && merged.Obj?
            && (k in merged.fields <==> (k in base || k in over) && !Deleted(base, over, k))
            && (k in merged.fields ==>
                  merged.fields[k] == if k !in over then base[k]
                                      else if k !in base then over[k]
                                      else Merge(base[k], over[k]))
  {
  }

  /** The keys still to be visited are as in the base, the others as in the merged map. */
  ghost predicate HalfMerged(base: Fields, merged: Fields, keys: set<string>, result: Fields) {
    && (forall k :: k in keys ==> (k in result <==> k in base) && (k in result ==> result[k] == base[k]))
    && (forall k :: k !in keys ==> (k in result <==> k in merged) && (k in result ==> result[k] == merged[k]))
  }

  lemma HalfMergedStarts(base: Fields, over: Fields)
    ensures HalfMerged(base, Merge(Obj(base), Obj(over)).fields, over.Keys, base)
  {
    forall k ensures k !in over ==>
                       var merged := Merge(Obj(base), Obj(over)).fields;
                       (k in base <==> k in merged) && (k in base ==> base[k] == merged[k])
    {
      MergedAt(base, over, k);
    }
  }

  lemma HalfMergedSteps(base: Fields, merged: Fields, keys: set<string>, result: Fields, key: string)
    requires HalfMerged(base, merged, keys, result)
    ensures key in merged ==> HalfMerged(base, merged, keys - {key}, result[key := merged[key]])
    ensures key !in merged ==> HalfMerged(base, merged, keys - {key}, result - {key})
  {
  }

  lemma HalfMergedEnds(base: Fields, merged: Fields, result: Fields)
    requires HalfMerged(base, merged, {}, result)
    ensures result == merged
  {
  }

  /** The map case of mergeRecursive: the result is filled from the base and then by the override. */
  method MergeFields(base: Fields, over: Fields) returns (result: Fields)
    ensures Obj(result) == Merge(Obj(base), Obj(over))
    decreases Obj(base), 0
  {
    ghost var merged := Merge(Obj(base), Obj(over)).fields;
    result := CopyFields(base);
    var keys := over.Keys;
    HalfMergedStarts(base, over);
    while keys != {}
      invariant keys <= over.Keys
      invariant HalfMerged(base, merged, keys, result)
      decreases |keys|
    {
      var key :| key in keys;
      MergedAt(base, over, key);
      HalfMergedSteps(base, merged, keys, result, key);
      if key !in base {
        result := result[key := over[key]];
      } else {
        var newVal := MergeRecursive(base[key], over[key]);
        MergeNonNull(base[key], over[key]);
        // Setting a map element to the zero value deletes it.
        result := if newVal.Null? then result - {key} else result[key := newVal];
      }
      keys := keys - {key};
    }
    HalfMergedEnds(base, merged, result);
  }

  /** mergeRecursive */
  method MergeRecursive(base: Json, over: Json) returns (r: Json)
    ensures r == Merge(base, over)
    decreases base, 1
  {
    if !SameKind(base, over) { return over; }
    if over.Obj? {
      var fields := MergeFields(base.fields, over.fields);
      return Obj(fields);
    }
    if over.Arr? { return Arr(base.items + over.items); }
    return over;
  }

  // ----- Meaning, path by path --------------------------------------------

  /** A step into a map or into an array. */
  datatype Step = Key(key: string) | Item(index: nat)

  type Path = seq<Step>

  function Into(j: Json, step: Step): Option<Json> {
    match step
    case Key(key) => if j.Obj? && key in j.fields then Some(j.fields[key]) else None
    case Item(index) => if j.Arr? && index < |j.items| then Some(j.items[index]) else None
  }

  function Get(j: Json, path: Path): Option<Json>
    decreases |path|
  {
    if path == [] then Some(j)
    else if Into(j, path[0]).Some? then Get(Into(j, path[0]).value, path[1..])
    else None
  }

  /** The path only steps into maps. */
  predicate KeysOnly(path: Path) {
    forall i :: 0 <= i < |path| ==> path[i].Key?
  }

  /** Something other than a map stands on the way to the path. */
  predicate Blocked(j: Json, path: Path)
    decreases |path|
  {
    path != [] && (!j.Obj? || (Into(j, path[0]).Some? && Blocked(Into(j, path[0]).value, path[1..])))
  }

  /** The subtree there must be at a path, from the subtrees that the two values have there. */
  function ExpectedTree(base: Option<Json>, over: Option<Json>, top: bool, blocked: bool): Option<Json> {
    match (base, over)
    case (_, Some(o)) =>
      if base.None? then over
      else if o.Null? && !top then None
      else Some(Merge(base.value, o))
    case (_, None) => if blocked then None else base
  }

  /** A subtree that the override replaces as a whole. */
  lemma {:induction false} ReplacedAt(base: Json, over: Json, path: Path)
    requires !SameKind(base, over) && path != [] && KeysOnly(path)
    requires !base.Obj? || !over.Obj?
    ensures Get(over, path) == ExpectedTree(Get(base, path), Get(over, path), false, Blocked(over, path))
  {
    if over.Obj? {
      assert Get(base, path).None?;
    }
  }

  /** Below every path the merge is again a merge of what the two values have there. */
  lemma {:induction false} MergeBelow(base: Json, over: Json, path: Path)
    requires KeysOnly(path)
    ensures Get(Merge(base, over), path) ==
              ExpectedTree(Get(base, path), Get(over, path), path == [], Blocked(over, path))
    decreases |path|
  {
    if path != [] {
      if base.Obj? && over.Obj? {
        var k := path[0].key;
        if k in base.fields && k in over.fields && !over.fields[k].Null? {
          MergeBelow(base.fields[k], over.fields[k], path[1..]);
        }
      } else if !SameKind(base, over) {
        ReplacedAt(base, over, path);
      }
    }
  }

  /** What stands at a path itself: nothing, a map, whose contents longer paths give, or any other value. */
  datatype Node = Absent | Map | Value(json: Json)

  function NodeOf(j: Option<Json>): Node {
    if j.None? then Absent else if j.value.Obj? then Map else Value(j.value)
  }

  /** The items of the base by their index, and then those of the override, moved up by their number. */
  function Appended(base: seq<Json>, over: seq<Json>): seq<Json> {
    seq(|base| + |over|, i requires 0 <= i < |base| + |over| => if i < |base| then base[i] else over[i - |base|])
  }

  /** What there must be at a path, from what the two values have there. */
  function Expected(base: Option<Json>, over: Option<Json>, top: bool, blocked: bool): Node {
    if over.None? then
      if blocked then Absent else NodeOf(base)
    else if base.None? then NodeOf(over)
    else if over.value.Null? && !top then Absent
    else if base.value.Arr? && over.value.Arr? then Value(Arr(Appended(base.value.items, over.value.items)))
    else NodeOf(over)
  }

  /**
   * The merged value at every path of keys: the override wins, nulls delete, the
   * items of arrays are those of the base followed by those of the override,
   * and untouched parts stay.
   */
  lemma MergeAt(base: Json, over: Json, path: Path)
    requires KeysOnly(path)
    ensures NodeOf(Get(Merge(base, over), path)) ==
              Expected(Get(base, path), Get(over, path), path == [], Blocked(over, path))
  {
    MergeBelow(base, over, path);
    var x, y := Get(base, path), Get(over, path);
    if x.Some? && y.Some? && x.value.Arr? && y.value.Arr? {
      assert x.value.items + y.value.items == Appended(x.value.items, y.value.items);
    }
  }

  lemma GetSteps(j: Json, step: Step, path: Path)
    ensures Get(j, [step] + path) == if Into(j, step).Some? then Get(Into(j, step).value, path) else None
  {
    assert ([step] + path)[1..] == path;
  }

  /** Values that have the same at every path are equal, so the paths determine the merge. */
  lemma {:induction false} NodesDetermine(a: Json, b: Json)
    requires forall path :: KeysOnly(path) ==> NodeOf(Get(a, path)) == NodeOf(Get(b, path))
    ensures a == b
    decreases a
  {
    assert NodeOf(Get(a, [])) == NodeOf(Get(b, []));
    if a.Obj? {
      forall k ensures (k in a.fields <==> k in b.fields) && (k in a.fields ==> a.fields[k] == b.fields[k]) {
        GetSteps(a, Key(k), []);
        GetSteps(b, Key(k), []);
        assert KeysOnly([Key(k)] + []);
        assert NodeOf(Get(a, [Key(k)] + [])) == NodeOf(Get(b, [Key(k)] + []));
        if k in a.fields && k in b.fields {
          forall path | KeysOnly(path) ensures NodeOf(Get(a.fields[k], path)) == NodeOf(Get(b.fields[k], path)) {
            GetSteps(a, Key(k), path);
            GetSteps(b, Key(k), path);
            assert KeysOnly([Key(k)] + path);
            assert NodeOf(Get(a, [Key(k)] + path)) == NodeOf(Get(b, [Key(k)] + path));
          }
          NodesDetermine(a.fields[k], b.fields[k]);
        }
      }
      assert a.fields == b.fields;
    }
  }

  // ----- Where every leaf comes from --------------------------------------

  /** A place in one of the two values. */
  datatype Origin = InBase(path: Path) | InOver(path: Path)

  /** The place that the merged value at a path is taken from; items of the override have moved up. */
  function OriginOf(base: Json, over: Json, path: Path): Origin
    decreases |path|
  {
    if path == [] then InOver(path)
    else if base.Obj? && over.Obj? && Into(base, path[0]).Some? then
      if Into(over, path[0]).None? then InBase(path)
      else
        match OriginOf(Into(base, path[0]).value, Into(over, path[0]).value, path[1..])
        case InBase(rest) => InBase([path[0]] + rest)
        case InOver(rest) => InOver([path[0]] + rest)
    else if base.Arr? && over.Arr? && path[0].Item? then
      if path[0].index < |base.items| then InBase(path) else InOver([Item(path[0].index - |base.items|)] + path[1..])
    else InOver(path)
  }

  predicate IsLeaf(j: Option<Json>) {
    j.Some? && !j.value.Obj? && !j.value.Arr?
  }

  /**
   * Every leaf of the merged value, also within arrays, is the leaf of one of
   * the two values at its place of origin.
   */
  lemma {:induction false} LeafOrigin(base: Json, over: Json, path: Path)
    requires IsLeaf(Get(Merge(base, over), path))
    ensures var origin := OriginOf(base, over, path);
            Get(Merge(base, over), path) == Get(if origin.InBase? then base else over, origin.path)
    decreases |path|
  {
    if path != [] && SameKind(base, over) {
      var step, merged := path[0], Merge(base, over);
      if over.Obj? {
        var x, y := Into(base, step), Into(over, step);
        if x.Some? && y.Some? {
          LeafOrigin(x.value, y.value, path[1..]);
          var origin := OriginOf(x.value, y.value, path[1..]);
          assert ([step] + origin.path)[1..] == origin.path;
        }
      } else if over.Arr? && step.Item? && step.index >= |base.items| {
        assert ([Item(step.index - |base.items|)] + path[1..])[1..] == path[1..];
      }
    }
  }

  /** The keys of a merged map. */
  lemma MergedKeys(base: Fields, over: Fields)
    ensures Merge(Obj(base), Obj(over)).Obj?
    ensures Merge(Obj(base), Obj(over)).fields.Keys ==
              base.Keys + over.Keys - (set k | k in base && k in over && over[k].Null?)
  {
  }

  // ----- Associativity ----------------------------------------------------

  /** The override leaves nothing of the base. */
  predicate Absorbed(base: Json, over: Json)
    decreases base
  {
    SameKind(base, over) ==>
      if over.Obj? then
        forall k :: k in base.fields ==>
          k in over.fields && !over.fields[k].Null? && Absorbed(base.fields[k], over.fields[k])
      else if over.Arr? then base.items == []
      else true
  }

  /** The values for which the order of merging does not matter. */
  predicate Associates(a: Json, b: Json, c: Json)
    decreases a
  {
    if a.Null? || c.Null? then true
    else if !SameKind(b, c) then Absorbed(a, c)
    else if a.Obj? && b.Obj? then
      forall k :: k in a.fields && k in b.fields && k in c.fields ==>
        if b.fields[k].Null? then
          if c.fields[k].Null? then a.fields[k].Null? else Absorbed(a.fields[k], c.fields[k])
        else !c.fields[k].Null? && Associates(a.fields[k], b.fields[k], c.fields[k])
    else true
  }

  lemma {:induction false} AbsorbedMerge(base: Json, over: Json)
    ensures Merge(base, over) == over <==> Absorbed(base, over)
    decreases base
  {
    if SameKind(base, over) && over.Obj? {
      forall k | k in base.fields && k in over.fields
        ensures Merge(base.fields[k], over.fields[k]) == over.fields[k]
                <==> Absorbed(base.fields[k], over.fields[k])
      {
        AbsorbedMerge(base.fields[k], over.fields[k]);
      }
      var merged := Merge(base, over).fields;
      if Absorbed(base, over) {
        assert merged == over.fields;
      } else {
        var k :| k in base.fields && !(k in over.fields && !over.fields[k].Null?
                                       && Absorbed(base.fields[k], over.fields[k]));
        assert k in merged <==> !(k in over.fields && over.fields[k].Null?);
        assert merged != over.fields;
      }
    } else if SameKind(base, over) && over.Arr? {
      assert |base.items + over.items| == |base.items| + |over.items|;
    }
  }

  /** One key of three maps, merged in either order. */
  predicate KeyAgrees(a: Fields, b: Fields, c: Fields, k: string) {
    var left := Merge(Merge(Obj(a), Obj(b)), Obj(c)).fields;
    var right := Merge(Obj(a), Merge(Obj(b), Obj(c))).fields;
    (k in left <==> k in right) && (k in left ==> left[k] == right[k])
  }

  predicate KeyAssociates(a: Json, b: Json, c: Json) {
    if b.Null? then
      if c.Null? then a.Null? else Absorbed(a, c)
    else !c.Null? && Associates(a, b, c)
  }

  lemma KeyInAll(a: Fields, b: Fields, c: Fields, k: string)
    requires k in a && k in b && k in c
    requires Merge(Merge(a[k], b[k]), c[k]) == Merge(a[k], Merge(b[k], c[k])) <==> Associates(a[k], b[k], c[k])
    ensures KeyAgrees(a, b, c, k) <==> KeyAssociates(a[k], b[k], c[k])
  {
    AbsorbedMerge(a[k], c[k]);
    MergeNonNull(a[k], b[k]);
    MergeNonNull(b[k], c[k]);
  }

  lemma KeyNotInAll(a: Fields, b: Fields, c: Fields, k: string)
    requires !(k in a && k in b && k in c)
    ensures KeyAgrees(a, b, c, k)
  {
    if k in a && k in b {
      MergeNonNull(a[k], b[k]);
    }
    if k in b && k in c {
      MergeNonNull(b[k], c[k]);
    }
  }

  lemma KeysDecide(a: Fields, b: Fields, c: Fields)
    ensures Merge(Merge(Obj(a), Obj(b)), Obj(c)) == Merge(Obj(a), Merge(Obj(b), Obj(c)))
            <==> forall k :: KeyAgrees(a, b, c, k)
  {
    var left := Merge(Merge(Obj(a), Obj(b)), Obj(c)).fields;
    var right := Merge(Obj(a), Merge(Obj(b), Obj(c))).fields;
    if forall k :: KeyAgrees(a, b, c, k) {
      forall k ensures (k in left <==> k in right) && (k in left ==> left[k] == right[k]) {
        assert KeyAgrees(a, b, c, k);
      }
      assert left == right;
    }
  }

  /** Merging is associative for exactly these triples. */
  lemma {:induction false} MergeAssociative(a: Json, b: Json, c: Json)
    ensures Merge(Merge(a, b), c) == Merge(a, Merge(b, c)) <==> Associates(a, b, c)
    decreases a
  {
    AbsorbedMerge(a, c);
    if a.Obj? && b.Obj? && c.Obj? {
      KeysDecide(a.fields, b.fields, c.fields);
      forall k
        ensures KeyAgrees(a.fields, b.fields, c.fields, k) <==>
                (k in a.fields && k in b.fields && k in c.fields ==>
                   KeyAssociates(a.fields[k], b.fields[k], c.fields[k]))
      {
        if k in a.fields && k in b.fields && k in c.fields {
          MergeAssociative(a.fields[k], b.fields[k], c.fields[k]);
          KeyInAll(a.fields, b.fields, c.fields, k);
        } else {
          KeyNotInAll(a.fields, b.fields, c.fields, k);
        }
      }
    } else if a.Arr? && b.Arr? && c.Arr? {
      assert a.items + b.items + c.items == a.items + (b.items + c.items);
    }
  }

  /** No map in the value holds a null. */
  predicate NullFree(j: Json)
    decreases j
  {
    !j.Null? && (j.Obj? ==> forall k :: k in j.fields ==> NullFree(j.fields[k]))
  }

  /** The kinds are the same at every shared path. */
  predicate Agree(a: Json, b: Json)
    decreases a
  {
    SameKind(a, b) &&
    (a.Obj? ==> forall k :: k in a.fields && k in b.fields ==> Agree(a.fields[k], b.fields[k]))
  }

  /** Null-free values of agreeing kinds can be merged in either order. */
  lemma {:induction false} AgreeingAssociate(a: Json, b: Json, c: Json)
    requires NullFree(b) && NullFree(c)
    requires Agree(a, b) && Agree(b, c)
    ensures Associates(a, b, c)
    ensures Merge(Merge(a, b), c) == Merge(a, Merge(b, c))
    decreases a
  {
    if a.Obj? {
      forall k | k in a.fields && k in b.fields && k in c.fields
        ensures Associates(a.fields[k], b.fields[k], c.fields[k])
      {
        AgreeingAssociate(a.fields[k], b.fields[k], c.fields[k]);
      }
    }
    MergeAssociative(a, b, c);
  }

  /** A null in the last value deletes what the first one had, but only when merged last. */
  lemma NullBreaksAssociativity(k: string)
    ensures var a, b, c := Obj(map[k := Bool(true)]), Obj(map[k := Bool(false)]), Obj(map[k := Null]);
            Merge(Merge(a, b), c) != Merge(a, Merge(b, c))
  {
    var a, b, c := Obj(map[k := Bool(true)]), Obj(map[k := Bool(false)]), Obj(map[k := Null]);
    MergeAssociative(a, b, c);
    assert k in a.fields && k in b.fields && k in c.fields;
  }

  /** A value of another kind in between makes the last value replace the first instead of extending it. */
  lemma KindBreaksAssociativity(x: Json, y: Json)
    ensures Merge(Merge(Arr([x]), Bool(true)), Arr([y])) != Merge(Arr([x]), Merge(Bool(true), Arr([y])))
  {
    MergeAssociative(Arr([x]), Bool(true), Arr([y]));
  }
}
