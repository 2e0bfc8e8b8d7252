/** Chart values read path by path: what flattening and merging do at every place of a tree. */
module ChartPaths {
  import opened ChartValues

  // One step into a value: a key of a map or an index of a slice.
  datatype Sel = Key(name: string) | At(index: nat)

  // What a path leads to. NilShape is a map-typed value without a map.
  datatype Shape = Nowhere | NilShape | MapShape(keys: set<string>) | ListShape(length: nat) | LeafShape(value: Val)

  function ShapeOf(v: Val): Shape {
    match v
    case NilMap(_) => NilShape
    case Map(_, m) => MapShape(m.Keys)
    case Anys(items) => ListShape(|items|)
    case Maps(_, items) => ListShape(|items|)
    case Strings(texts) => ListShape(|texts|)
    case Numbers(numbers) => ListShape(|numbers|)
    case _ => LeafShape(v)
  }

  datatype Found = Missing | Value(v: Val)

  /** One step into a value, of whichever map or slice type. */
  function Into(v: Val, sel: Sel): Found {
    match sel
    case Key(k) => if v.Map? && k in v.entries then Value(v.entries[k]) else Missing
    case At(i) =>
      if (v.Anys? || v.Maps?) && i < |v.items| then Value(v.items[i])
      else if v.Strings? && i < |v.texts| then Value(Str(v.texts[i]))
      else if v.Numbers? && i < |v.numbers| then Value(Num(v.numbers[i]))
      else Missing
  }

  function ShapeAt(v: Val, path: seq<Sel>): Shape
    decreases |path|
  {
    if path == [] then ShapeOf(v)
    else
      var next := Into(v, path[0]);
      if next.Missing? then Nowhere else ShapeAt(next.v, path[1..])
  }

  // ---- Flattening loses nothing ---------------------------------------------------------

  // A nil map is flattened to an empty one.
  function Flat(s: Shape): Shape {
    if s.NilShape? then MapShape({}) else s
  }

  lemma IntoConverted(v: Val, sel: Sel)
    ensures Into(Convert(v), sel) == if Into(v, sel).Missing? then Missing else Value(Convert(Into(v, sel).v))
  {
  }

  /** At every path the flattened value has the keys, the length or the leaf of the original. */
  lemma {:induction false} ConvertKeepsEveryPath(v: Val, path: seq<Sel>)
    ensures ShapeAt(Convert(v), path) == Flat(ShapeAt(v, path))
    decreases |path|
  {
    if path == [] {
      assert v.Map? ==> Convert(v).entries.Keys == v.entries.Keys;
    } else {
      IntoConverted(v, path[0]);
      hide Convert, Into;
      var next := Into(v, path[0]);
      if next.Value? { ConvertKeepsEveryPath(next.v, path[1..]); }
    }
  }

  /** Only plain maps and slices of anything, at every depth. */
  ghost predicate Generic(v: Val) {
    match v
    case NilMap(_) => false
    case Map(tag, m) => tag == Plain && forall k | k in m :: Generic(m[k])
    case Anys(items) => forall i | 0 <= i < |items| :: Generic(items[i])
    case Maps(_, _) => false
    case Strings(_) => false
    case Numbers(_) => false
    case _ => true
  }

  lemma {:induction false} ConvertedIsGeneric(v: Val)
    ensures Generic(Convert(v))
    decreases v
  {
    match v
    case Map(_, m) =>
      forall k | k in m ensures Generic(Convert(m[k])) { ConvertedIsGeneric(m[k]); }
    case Anys(items) =>
      forall i | 0 <= i < |items| ensures Generic(Convert(items[i])) { ConvertedIsGeneric(items[i]); }
    case Maps(_, items) =>
      forall i | 0 <= i < |items| ensures Generic(Convert(items[i])) { ConvertedIsGeneric(items[i]); }
    case _ =>
  }

  ghost predicate SameShapes(a: Val, b: Val) {
    forall path :: ShapeAt(a, path) == ShapeAt(b, path)
  }

  lemma SameBelow(a: Val, b: Val, sel: Sel)
    requires SameShapes(a, b) && Into(a, sel).Value? && Into(b, sel).Value?
    ensures SameShapes(Into(a, sel).v, Into(b, sel).v)
  {
    var x, y := Into(a, sel).v, Into(b, sel).v;
    forall path ensures ShapeAt(x, path) == ShapeAt(y, path) {
      var longer := [sel] + path;
      assert longer[1..] == path && longer[0] == sel;
      assert ShapeAt(a, longer) == ShapeAt(b, longer);
    }
  }

  lemma {:induction false} ShapesDetermine(a: Val, b: Val)
    requires Generic(a) && Generic(b) && SameShapes(a, b)
    ensures a == b
    decreases a
  {
    assert ShapeAt(a, []) == ShapeAt(b, []);
    match a
    case Map(_, m) =>
      forall k | k in m ensures m[k] == b.entries[k] {
        SameBelow(a, b, Key(k));
        ShapesDetermine(m[k], b.entries[k]);
      }
    case Anys(items) =>
      forall i | 0 <= i < |items| ensures items[i] == b.items[i] {
        SameBelow(a, b, At(i));
        ShapesDetermine(items[i], b.items[i]);
      }
    case _ =>
  }

  // The flat value r leads where v leads, on every path.
  ghost predicate Agrees(r: Val, v: Val) {
    forall path :: ShapeAt(r, path) == Flat(ShapeAt(v, path))
  }

  /** The flattened value is the only generic one that agrees with the original at every path. */
  lemma ConvertIsDetermined(v: Val, r: Val)
    ensures r == Convert(v) <==> Generic(r) && Agrees(r, v)
  {
    ConvertedIsGeneric(v);
    hide Convert, Generic, ShapeAt, Flat;
    forall path ensures ShapeAt(Convert(v), path) == Flat(ShapeAt(v, path)) { ConvertKeepsEveryPath(v, path); }
    if Generic(r) && Agrees(r, v) {
      assert SameShapes(r, Convert(v));
      ShapesDetermine(r, Convert(v));
    }
  }

  // ---- Merging decides every path --------------------------------------------------------

  // Somewhere on the way the value is neither a map nor missing.
  ghost predicate Blocks(v: Val, path: seq<Sel>) {
    exists n | 0 <= n <= |path| :: var s := ShapeAt(v, path[..n]); s != Nowhere && !s.MapShape?
  }

  // The path takes no index where the value has a map.
  ghost predicate KeysThroughMaps(v: Val, path: seq<Sel>) {
    forall n | 0 <= n < |path| :: ShapeAt(v, path[..n]).MapShape? ==> path[n].Key?
  }

  function Both(base: Shape, over: Shape): Shape {
    if over == Nowhere then base
    else if base.MapShape? && over.MapShape? then MapShape(base.keys + over.keys)
    else over
  }

  lemma BelowIs(v: Val, path: seq<Sel>)
    requires path != [] && v.Map? && Into(v, path[0]).Value?
    ensures Blocks(v, path) <==> Blocks(Into(v, path[0]).v, path[1..])
    ensures KeysThroughMaps(v, path) ==> KeysThroughMaps(Into(v, path[0]).v, path[1..])
  {
    var w, rest := Into(v, path[0]).v, path[1..];
    forall n | 0 <= n <= |rest| ensures ShapeAt(v, path[..n + 1]) == ShapeAt(w, rest[..n]) {
      assert path[..n + 1][1..] == rest[..n];
    }
    assert ShapeAt(v, path[..0]).MapShape?;
    if Blocks(v, path) {
      var n :| 0 <= n <= |path| && ShapeAt(v, path[..n]) != Nowhere && !ShapeAt(v, path[..n]).MapShape?;
      assert ShapeAt(w, rest[..n - 1]) == ShapeAt(v, path[..n - 1 + 1]);
    }
    if Blocks(w, rest) {
      var n :| 0 <= n <= |rest| && ShapeAt(w, rest[..n]) != Nowhere && !ShapeAt(w, rest[..n]).MapShape?;
      assert ShapeAt(v, path[..n + 1]) == ShapeAt(w, rest[..n]);
    }
    if KeysThroughMaps(v, path) {
      forall n | 0 <= n < |rest| && ShapeAt(w, rest[..n]).MapShape? ensures rest[n].Key? {
        assert ShapeAt(v, path[..n + 1]).MapShape? && path[n + 1] == rest[n];
      }
    }
  }

  lemma NothingBelow(v: Val, path: seq<Sel>)
    requires path != [] && v.Map? && Into(v, path[0]).Missing?
    ensures !Blocks(v, path) && ShapeAt(v, path) == Nowhere
  {
    forall n | 0 <= n <= |path| ensures ShapeAt(v, path[..n]) == if n == 0 then ShapeOf(v) else Nowhere {
      assert n > 0 ==> path[..n][0] == path[0];
    }
  }

  /** What a path of the merge leads to: what the override leads to, if it says anything
      but a map on the way; else both maps together, or whatever is there. */
  lemma {:induction false} MergeAtPath(tag: MapTag, base: Val, over: Val, path: seq<Sel>)
    requires base.Map? && over.Map? && KeysThroughMaps(over, path)
    ensures ShapeAt(Merge(tag, base, over), path) ==
            if Blocks(over, path) then ShapeAt(over, path) else Both(ShapeAt(base, path), ShapeAt(over, path))
    decreases |path|
  {
    if path == [] {
      assert path[..0] == [];
      assert Merge(tag, base, over).entries.Keys == base.entries.Keys + over.entries.Keys;
    } else {
      assert path[..0] == [] && path[0].Key?;
      var k, rest := path[0].name, path[1..];
      if k !in over.entries {
        NothingBelow(over, path);
      } else {
        var o := over.entries[k];
        BelowIs(over, path);
        if k in base.entries && base.entries[k].Map? && o.Map? {
          MergeAtPath(tag, base.entries[k], o, rest);
        } else {
          NotBothMapsBelow(base, o, k, rest);
        }
      }
      hide Blocks, KeysThroughMaps;
    }
  }

  lemma NotBothMapsBelow(base: Val, o: Val, k: string, rest: seq<Sel>)
    requires base.Map? && !(k in base.entries && base.entries[k].Map? && o.Map?) && KeysThroughMaps(o, rest)
    ensures var below := if k in base.entries then ShapeAt(base.entries[k], rest) else Nowhere;
            Blocks(o, rest) || ShapeAt(o, rest) == Both(below, ShapeAt(o, rest))
  {
    assert rest[..0] == [];
    if k in base.entries && !Blocks(o, rest) {
      assert ShapeAt(o, rest[..0]).MapShape?;
      if rest != [] {
        assert rest[0].Key? && Into(base.entries[k], rest[0]).Missing?;
      }
    }
  }

  lemma LayeredIsMap(layers: seq<map<string, Val>>)
    ensures Layered(layers).Map?
  {
  }

  /** The last layer that says anything but a map on the way to a path decides it, when the
      later layers lead nowhere there. */
  lemma {:induction false} LastWordWins(layers: seq<map<string, Val>>, path: seq<Sel>, j: nat)
    requires j < |layers| && Blocks(AsMap(layers[j]), path)
    requires forall i | j <= i < |layers| :: KeysThroughMaps(AsMap(layers[i]), path)
    requires forall i | j < i < |layers| ::
               ShapeAt(AsMap(layers[i]), path) == Nowhere && !Blocks(AsMap(layers[i]), path)
    ensures ShapeAt(Layered(layers), path) == ShapeAt(AsMap(layers[j]), path)
  {
    hide Blocks, KeysThroughMaps, ShapeAt;
    var k := |layers| - 1;
    LayeredIsMap(layers[..k]);
    MergeAtPath(Values, Layered(layers[..k]), AsMap(layers[k]), path);
    if j < k {
      LastWordWins(layers[..k], path, j);
    }
  }
}
