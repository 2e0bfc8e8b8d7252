/** Helm values as trees: merging layers and flattening to plain maps. */
module ChartValues {

  // Go distinguishes the named map type Values from map[string]any.
  datatype MapTag = Values | Plain

  // Other stands for every remaining leaf (booleans, floats, nil). NilMap is a
  // map-typed value holding no map.
  datatype Val =
    | Str(text: string)
    | Num(number: int)
    | Other(repr: string)
    | NilMap(tag: MapTag)
    | Map(tag: MapTag, entries: map<string, Val>)
    | Anys(items: seq<Val>)
    | Maps(tag: MapTag, items: seq<Val>)
    | Strings(texts: seq<string>)
    | Numbers(numbers: seq<int>)

  /** Right-biased merge of two values: maps merge key by key, anything else is replaced.
      The merged maps carry the given tag. */
  function Merge(tag: MapTag, base: Val, over: Val): Val
    decreases over
  {
    if base.Map? && over.Map? then
      Map(tag, map k | k in base.entries.Keys + over.entries.Keys ::
        if k in over.entries then
          if k in base.entries then Merge(tag, base.entries[k], over.entries[k]) else over.entries[k]
        else base.entries[k])
    else over
  }

  /** The value with every map plain and every slice a slice of anything. */
  function Convert(v: Val): Val
    decreases v
  {
    match v
    case NilMap(_) => Map(Plain, map[])
    case Map(_, m) => Map(Plain, map k | k in m :: Convert(m[k]))
    case Anys(items) => Anys(seq(|items|, i requires 0 <= i < |items| => Convert(items[i])))
    case Maps(_, items) => Anys(seq(|items|, i requires 0 <= i < |items| => Convert(items[i])))
    case Strings(texts) => Anys(seq(|texts|, i requires 0 <= i < |texts| => Str(texts[i])))
    case Numbers(numbers) => Anys(seq(|numbers|, i requires 0 <= i < |numbers| => Num(numbers[i])))
    case _ => v
  }

  // ---- Flattening commutes with merging --------------------------------------------

  // Somewhere a nil map overrides a map that has entries.
  ghost predicate NilOverMap(base: Val, over: Val)
    decreases over
  {
    || (base.Map? && base.entries != map[] && over.NilMap?)
    || (base.Map? && over.Map? &&
        exists k | k in base.entries && k in over.entries :: NilOverMap(base.entries[k], over.entries[k]))
  }

  /** ToMap of a merge is the merge of the ToMaps exactly when no nil map overrides a
      map with entries. */
  lemma {:induction false} ConvertIsHomomorphic(tag: MapTag, base: Val, over: Val)
    ensures Convert(Merge(tag, base, over)) == Merge(Plain, Convert(base), Convert(over)) <==> !NilOverMap(base, over)
    decreases over
  {
    if base.Map? && over.Map? {
      var b, o := base.entries, over.entries;
      forall k | k in b && k in o
        ensures Convert(Merge(tag, b[k], o[k])) == Merge(Plain, Convert(b[k]), Convert(o[k])) <==>
                !NilOverMap(b[k], o[k])
      {
        ConvertIsHomomorphic(tag, b[k], o[k]);
      }
      BothMaps(tag, base, over);
      hide Merge, Convert;
    } else if base.Map? && over.NilMap? {
      var right := Merge(Plain, Convert(base), Convert(over)).entries;
      assert right.Keys == base.entries.Keys;
      assert base.entries == map[] <==> base.entries.Keys == {};
    } else if base.NilMap? && over.Map? {
      assert Merge(Plain, Convert(base), Convert(over)).entries == Convert(over).entries;
    }
  }

  // For two maps the two sides agree when they agree key by key.
  lemma BothMaps(tag: MapTag, base: Val, over: Val)
    requires base.Map? && over.Map?
    ensures Convert(Merge(tag, base, over)) == Merge(Plain, Convert(base), Convert(over)) <==>
            forall k | k in base.entries && k in over.entries ::
              Convert(Merge(tag, base.entries[k], over.entries[k])) ==
              Merge(Plain, Convert(base.entries[k]), Convert(over.entries[k]))
  {
    var left := Convert(Merge(tag, base, over)).entries;
    var right := Merge(Plain, Convert(base), Convert(over)).entries;
    assert left.Keys == base.entries.Keys + over.entries.Keys == right.Keys;
    forall k | k in left && !(k in base.entries && k in over.entries) ensures left[k] == right[k] {}
    assert left == right <==> forall k | k in left :: left[k] == right[k];
  }

  lemma {:induction false} ConvertIsIdempotent(v: Val)
    ensures Convert(Convert(v)) == Convert(v)
    decreases v
  {
    match v
    case Map(_, m) =>
      forall k | k in m ensures Convert(Convert(m[k])) == Convert(m[k]) { ConvertIsIdempotent(m[k]); }
      assert Convert(Convert(v)).entries == Convert(v).entries;
    case Anys(items) =>
      forall i | 0 <= i < |items| ensures Convert(Convert(items[i])) == Convert(items[i]) {
        ConvertIsIdempotent(items[i]);
      }
      assert Convert(Convert(v)).items == Convert(v).items;
    case Maps(_, items) =>
      forall i | 0 <= i < |items| ensures Convert(Convert(items[i])) == Convert(items[i]) {
        ConvertIsIdempotent(items[i]);
      }
      assert Convert(Convert(v)).items == Convert(v).items;
    case Strings(_) =>
      assert Convert(Convert(v)).items == Convert(v).items;
    case Numbers(_) =>
      assert Convert(Convert(v)).items == Convert(v).items;
    case _ =>
  }

  // ---- Regrouping three layers --------------------------------------------------------

  // Laying c over a changes nothing: everything a could contribute is in c already.
  ghost predicate Absorbed(tag: MapTag, a: Val, c: Val)
    decreases c
  {
    a.Map? && c.Map? ==>
      && c.tag == tag && a.entries.Keys <= c.entries.Keys
      && forall k | k in a.entries :: Absorbed(tag, a.entries[k], c.entries[k])
  }

  lemma {:induction false} AbsorbedIs(tag: MapTag, a: Val, c: Val)
    ensures Absorbed(tag, a, c) <==> Merge(tag, a, c) == c
    decreases c
  {
    if a.Map? && c.Map? {
      var m := Merge(tag, a, c).entries;
      assert m.Keys == a.entries.Keys + c.entries.Keys;
      forall k | k in a.entries && k in c.entries
        ensures Absorbed(tag, a.entries[k], c.entries[k]) <==> m[k] == c.entries[k]
      {
        AbsorbedIs(tag, a.entries[k], c.entries[k]);
      }
      assert forall k | k in c.entries && k !in a.entries :: m[k] == c.entries[k];
      assert m == c.entries <==> m.Keys == c.entries.Keys && forall k | k in m :: m[k] == c.entries[k];
      assert a.entries.Keys <= c.entries.Keys <==> m.Keys == c.entries.Keys;
    }
  }

  // Somewhere the outer layers have maps, the middle one has something else, and
  // the first layer has entries that the last one lacks.
  ghost predicate Interrupted(tag: MapTag, a: Val, b: Val, c: Val)
    decreases b
  {
    a.Map? && c.Map? &&
    if b.Map? then
      exists k | k in a.entries && k in b.entries && k in c.entries ::
        Interrupted(tag, a.entries[k], b.entries[k], c.entries[k])
    else !Absorbed(tag, a, c)
  }

  lemma {:induction false} MergeIsAssociative(tag: MapTag, a: Val, b: Val, c: Val)
    ensures Merge(tag, Merge(tag, a, b), c) == Merge(tag, a, Merge(tag, b, c)) <==> !Interrupted(tag, a, b, c)
    decreases b
  {
    if a.Map? && c.Map? && !b.Map? {
      AbsorbedIs(tag, a, c);
    } else if a.Map? && b.Map? && c.Map? {
      KeyByKey(tag, a, b, c);
      var left := Merge(tag, Merge(tag, a, b), c).entries;
      var right := Merge(tag, a, Merge(tag, b, c)).entries;
      forall k | k in a.entries && k in b.entries && k in c.entries
        ensures left[k] == right[k] <==> !Interrupted(tag, a.entries[k], b.entries[k], c.entries[k])
      {
        MergeIsAssociative(tag, a.entries[k], b.entries[k], c.entries[k]);
      }
      assert left == right <==> forall k | k in left :: left[k] == right[k];
    }
  }

  lemma KeyByKey(tag: MapTag, a: Val, b: Val, c: Val)
    requires a.Map? && b.Map? && c.Map?
    ensures var left := Merge(tag, Merge(tag, a, b), c).entries;
            var right := Merge(tag, a, Merge(tag, b, c)).entries;
            && left.Keys == right.Keys == a.entries.Keys + b.entries.Keys + c.entries.Keys
            && forall k | k in left ::
                 if k in a.entries && k in b.entries && k in c.entries then
                   && left[k] == Merge(tag, Merge(tag, a.entries[k], b.entries[k]), c.entries[k])
                   && right[k] == Merge(tag, a.entries[k], Merge(tag, b.entries[k], c.entries[k]))
                 else left[k] == right[k]
  {
  }

  // No map, something else, map along any path.
  ghost predicate NeverInterrupted(a: Val, b: Val, c: Val)
    decreases b
  {
    a.Map? && c.Map? ==>
      && b.Map?
      && forall k | k in a.entries && k in b.entries && k in c.entries ::
           NeverInterrupted(a.entries[k], b.entries[k], c.entries[k])
  }

  /** Chart defaults, addon values and custom values can be grouped either way when no
      path has a map in both outer layers and something else in the middle. */
  lemma {:induction false} LayersRegroup(tag: MapTag, a: Val, b: Val, c: Val)
    requires NeverInterrupted(a, b, c)
    ensures Merge(tag, Merge(tag, a, b), c) == Merge(tag, a, Merge(tag, b, c))
  {
    NotInterrupted(tag, a, b, c);
    MergeIsAssociative(tag, a, b, c);
  }

  lemma {:induction false} NotInterrupted(tag: MapTag, a: Val, b: Val, c: Val)
    requires NeverInterrupted(a, b, c)
    ensures !Interrupted(tag, a, b, c)
    decreases b
  {
    if a.Map? && b.Map? && c.Map? {
      forall k | k in a.entries && k in b.entries && k in c.entries
        ensures !Interrupted(tag, a.entries[k], b.entries[k], c.entries[k])
      {
        NotInterrupted(tag, a.entries[k], b.entries[k], c.entries[k]);
      }
    }
  }

  /** A scalar between two maps makes the grouping matter. */
  lemma GroupingMatters()
    ensures var x, y := Map(Values, map["x" := Num(1)]), Map(Values, map["y" := Num(2)]);
            var a, b, c := Map(Values, map["k" := x]), Map(Values, map["k" := Num(0)]), Map(Values, map["k" := y]);
            Merge(Values, Merge(Values, a, b), c) != Merge(Values, a, Merge(Values, b, c))
  {
    var x, y := Map(Values, map["x" := Num(1)]), Map(Values, map["y" := Num(2)]);
    var a, b, c := Map(Values, map["k" := x]), Map(Values, map["k" := Num(0)]), Map(Values, map["k" := y]);
    assert "x" in x.entries && "x" !in y.entries by { assert "x"[0] != "y"[0]; }
    assert !Absorbed(Values, x, y);
    assert "k" in a.entries && a.entries["k"] == x && b.entries["k"] == Num(0) && c.entries["k"] == y;
    assert Interrupted(Values, x, Num(0), y);
    MergeIsAssociative(Values, a, b, c);
  }

  // ---- The operator's methods -----------------------------------------------------------

  function AsMap(entries: map<string, Val>): Val {
    Map(Values, entries)
  }

  // What the result holds under k while the keys in todo are still to be laid over.
  function MergedKey(base: map<string, Val>, over: map<string, Val>, k: string, todo: set<string>): Val
    requires k in base || (k in over && k !in todo)
  {
    if k !in over || k in todo then base[k]
    else if k !in base then over[k]
    else Merge(Values, base[k], over[k])
  }

  ghost predicate PartlyMerged(base: map<string, Val>, over: map<string, Val>, todo: set<string>,
                               result: map<string, Val>)
  {
    todo <= over.Keys && result.Keys == base.Keys + (over.Keys - todo)
    && forall k | k in result :: result[k] == MergedKey(base, over, k, todo)
  }

  lemma MergedOne(base: map<string, Val>, over: map<string, Val>, todo: set<string>, result: map<string, Val>,
                  key: string, v: Val)
    requires PartlyMerged(base, over, todo, result) && key in todo
    requires v == if key in result then Merge(Values, result[key], over[key]) else over[key]
    ensures PartlyMerged(base, over, todo - {key}, result[key := v])
  {
    var next := result[key := v];
    hide Merge;
    assert key in result <==> key in base;
    forall k | k in next ensures next[k] == MergedKey(base, over, k, todo - {key}) {
      if k != key { assert next[k] == result[k] == MergedKey(base, over, k, todo); }
    }
  }

  lemma MergedAll(base: map<string, Val>, over: map<string, Val>, overVal: Val, result: map<string, Val>)
    requires PartlyMerged(base, over, {}, result) && overVal.Map? && overVal.entries == over
    ensures AsMap(result) == Merge(Values, AsMap(base), overVal)
  {
    var merged := Merge(Values, AsMap(base), overVal).entries;
    assert merged.Keys == base.Keys + over.Keys;
    assert result == merged;
  }

  /** Copies the base, then lays the override over it key by key, in whatever order
      the map iterates. */
  method DeepMergeTwoMaps(base: map<string, Val>, over: map<string, Val>, ghost overVal: Val)
    returns (result: map<string, Val>)
    requires overVal.Map? && overVal.entries == over
    ensures AsMap(result) == Merge(Values, AsMap(base), overVal)
    decreases overVal, 0
  {
    result := CopyEntries(base);
    var todo := over.Keys;
    assert PartlyMerged(base, over, todo, result);
    hide Merge, PartlyMerged;
    while todo != {}
      invariant todo <= over.Keys && PartlyMerged(base, over, todo, result)
      decreases |todo|
    {
      var key :| key in todo;
      var v := over[key];
      if key in result {
        v := MergeValues(result[key], over[key]);
      }
      MergedOne(base, over, todo, result, key, v);
      result := result[key := v];
      todo := todo - {key};
    }
    MergedAll(base, over, overVal, result);
  }

  method MergeValues(existing: Val, v: Val) returns (r: Val)
    ensures r == Merge(Values, existing, v)
    decreases v, 1
  {
    if existing.Map? && v.Map? {
      var merged := DeepMergeTwoMaps(existing.entries, v.entries, v);
      SameButTag(existing, v);
      r := Map(Values, merged);
    } else {
      r := v;
    }
  }

  lemma SameButTag(base: Val, over: Val)
    requires base.Map?
    ensures Merge(Values, AsMap(base.entries), over) == Merge(Values, base, over)
  {
    if over.Map? {
      assert Merge(Values, AsMap(base.entries), over).entries == Merge(Values, base, over).entries;
    }
  }

  method CopyEntries(m: map<string, Val>) returns (copy: map<string, Val>)
    ensures copy == m
  {
    copy := map[];
    var todo := m.Keys;
    while todo != {}
      invariant todo <= m.Keys && copy.Keys == m.Keys - todo
      invariant forall k | k in copy :: copy[k] == m[k]
      decreases |todo|
    {
      var k :| k in todo;
      copy := copy[k := m[k]];
      todo := todo - {k};
    }
  }

  /** All layers laid over each other, the later ones winning. */
  function Layered(layers: seq<map<string, Val>>): Val {
    if layers == [] then AsMap(map[])
    else Merge(Values, Layered(layers[..|layers| - 1]), AsMap(layers[|layers| - 1]))
  }

  method DeepMerge(layers: seq<map<string, Val>>) returns (result: map<string, Val>)
    ensures AsMap(result) == Layered(layers)
  {
    result := map[];
    for i := 0 to |layers|
      invariant AsMap(result) == Layered(layers[..i])
    {
      assert layers[..i + 1][..i] == layers[..i];
      result := DeepMergeTwoMaps(result, layers[i], AsMap(layers[i]));
    }
    assert layers[..|layers|] == layers;
  }

  /** Custom values win over the base at every path, and an empty set of them changes nothing. */
  method MergeCustomValues(base: map<string, Val>, custom: map<string, Val>) returns (result: map<string, Val>)
    ensures AsMap(result) == Merge(Values, AsMap(base), AsMap(custom))
  {
    if |custom| == 0 {
      assert custom == map[];
      assert Merge(Values, AsMap(base), AsMap(custom)).entries == base;
      return base;
    }
    result := DeepMerge([base, custom]);
    TwoLayers(base, custom);
  }

  lemma TwoLayers(base: map<string, Val>, custom: map<string, Val>)
    ensures Layered([base, custom]) == Merge(Values, AsMap(base), AsMap(custom))
  {
    var two := [base, custom];
    assert two[..1][..0] == [] && two[..1][0] == base;
    assert Layered(two[..1]) == Merge(Values, Layered(two[..1][..0]), AsMap(base));
    assert Merge(Values, AsMap(map[]), AsMap(base)).entries == base;
  }

  method ToMap(m: map<string, Val>, ghost v: Val) returns (result: map<string, Val>)
    requires v.Map? && v.entries == m
    ensures Map(Plain, result) == Convert(v)
    decreases v, 0
  {
    result := map[];
    var todo := m.Keys;
    while todo != {}
      invariant todo <= m.Keys && result.Keys == m.Keys - todo
      invariant forall k | k in result :: result[k] == Convert(m[k])
      decreases |todo|
    {
      var k :| k in todo;
      var converted := ConvertToInterface(m[k]);
      result := result[k := converted];
      todo := todo - {k};
    }
    assert result == Convert(v).entries;
  }

  method ConvertToInterface(v: Val) returns (r: Val)
    ensures r == Convert(v)
    decreases v, 1
  {
    match v
    case NilMap(_) =>
      r := Map(Plain, map[]);
    case Map(_, m) =>
      var plain := ToMap(m, v);
      r := Map(Plain, plain);
    case Anys(items) =>
      var out := ConvertItems(items, v);
      r := Anys(out);
    case Maps(_, items) =>
      var out := ConvertItems(items, v);
      r := Anys(out);
    case Strings(texts) =>
      var out: seq<Val> := [];
      for i := 0 to |texts|
        invariant |out| == i && forall j | 0 <= j < i :: out[j] == Str(texts[j])
      {
        out := out + [Str(texts[i])];
      }
      r := Anys(out);
    case Numbers(numbers) =>
      var out: seq<Val> := [];
      for i := 0 to |numbers|
        invariant |out| == i && forall j | 0 <= j < i :: out[j] == Num(numbers[j])
      {
        out := out + [Num(numbers[i])];
      }
      r := Anys(out);
    case _ =>
      r := v;
  }

  method ConvertItems(items: seq<Val>, ghost v: Val) returns (out: seq<Val>)
    requires (v.Anys? || v.Maps?) && v.items == items
    ensures Anys(out) == Convert(v)
    decreases v, 0
  {
    out := [];
    for i := 0 to |items|
      invariant |out| == i && forall j | 0 <= j < i :: out[j] == Convert(items[j])
    {
      var converted := ConvertToInterface(items[i]);
      out := out + [converted];
    }
    assert out == Convert(v).items;
  }
}
