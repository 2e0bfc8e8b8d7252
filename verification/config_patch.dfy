/** Patching a Talos configuration: the merge that writes into its destination,
    over maps that live on the heap. */
module ConfigPatch {
  import opened ChartValues

  // ---- What a patch means ---------------------------------------------------------------

  predicate IsMap(v: Val) {
    v.Map? || v.NilMap?
  }

  /** Laying a value over another one. Two maps are merged key by key; a nil map has no
      keys, so nothing is laid over the map below it. */
  function Patch(base: Val, over: Val): Val
    decreases over
  {
    if !IsMap(base) || !IsMap(over) then over
    else if base.NilMap? || over.NilMap? then base
    else
      Map(Plain, map k | k in base.entries.Keys + over.entries.Keys ::
        if k in over.entries then
          if k in base.entries then Patch(base.entries[k], over.entries[k]) else over.entries[k]
        else base.entries[k])
  }

  /** Somewhere an entry is laid over a nil map: writing it panics. */
  ghost predicate Panics(base: Val, over: Val)
    decreases over
  {
    || (base.NilMap? && over.Map? && over.entries != map[])
    || (base.Map? && over.Map? &&
        exists k | k in base.entries && k in over.entries :: Panics(base.entries[k], over.entries[k]))
  }

  // Somewhere a nil map and a map meet.
  ghost predicate NilMeetsMap(base: Val, over: Val)
    decreases over
  {
    || (base.Map? && over.NilMap?) || (base.NilMap? && over.Map?)
    || (base.Map? && over.Map? &&
        exists k | k in base.entries && k in over.entries :: NilMeetsMap(base.entries[k], over.entries[k]))
  }

  // Every map and nil map in it is a plain one.
  ghost predicate AllPlain(v: Val) {
    && (v.NilMap? ==> v.tag == Plain)
    && (v.Map? ==> v.tag == Plain && forall k | k in v.entries :: AllPlain(v.entries[k]))
  }

  /** A patch is the right-biased merge of the chart values exactly when no nil map
      meets a map. */
  lemma {:induction false} PatchIsMergeIff(base: Val, over: Val)
    requires AllPlain(base) && AllPlain(over)
    ensures Patch(base, over) == Merge(Plain, base, over) <==> !NilMeetsMap(base, over)
    decreases over
  {
    if base.Map? && over.Map? {
      var left, right := Patch(base, over).entries, Merge(Plain, base, over).entries;
      forall k | k in base.entries && k in over.entries
        ensures left[k] == right[k] <==> !NilMeetsMap(base.entries[k], over.entries[k])
      {
        PatchIsMergeIff(base.entries[k], over.entries[k]);
      }
      assert left.Keys == right.Keys;
      assert left == right <==> forall k | k in base.entries && k in over.entries :: left[k] == right[k];
    }
  }

  /** The value with every nil map replaced by an empty one. */
  function Filled(v: Val): Val {
    match v
    case NilMap(tag) => Map(tag, map[])
    case Map(tag, m) => Map(tag, map k | k in m :: Filled(m[k]))
    case _ => v
  }

  /** Where nothing panics a nil map acts as an empty one, on either side: filled in, the
      patch is the right-biased merge. */
  lemma {:induction false} NilActsAsEmpty(base: Val, over: Val)
    requires AllPlain(base) && AllPlain(over) && !Panics(base, over)
    ensures Filled(Patch(base, over)) == Merge(Plain, Filled(base), Filled(over))
    decreases over
  {
    if base.Map? && over.Map? {
      var left, right := Filled(Patch(base, over)).entries, Merge(Plain, Filled(base), Filled(over)).entries;
      assert left.Keys == right.Keys;
      forall k | k in left ensures left[k] == right[k] {
        if k in base.entries && k in over.entries { NilActsAsEmpty(base.entries[k], over.entries[k]); }
      }
      assert left == right;
    } else if IsMap(base) && IsMap(over) {
      assert Filled(Patch(base, over)).entries == Merge(Plain, Filled(base), Filled(over)).entries;
    }
  }

  // ---- Maps on the heap -------------------------------------------------------------------

  // What a map slot holds: a reference to another map, null for a nil one, or any other value.
  datatype Slot = Leaf(value: Val) | Ref(obj: MapObj?)

  class MapObj {
    var slots: map<string, Slot>

    constructor ()
      ensures slots == map[]
    {
      slots := map[];
    }
  }

  // The shape a slot unfolds to.
  datatype Tree = LeafTree(value: Val) | NilTree | MapTree(obj: MapObj, kids: map<string, Tree>)

  ghost function Footprint(t: Tree): set<object> {
    match t
    case LeafTree(_) => {}
    case NilTree => {}
    case MapTree(obj, kids) => {obj} + set k, o | k in kids && o in Footprint(kids[k]) :: o
  }

  /** The slot unfolds to this tree, on the current heap. Leaves are neither maps nor nil maps. */
  ghost predicate Unfolds(slot: Slot, t: Tree)
    reads Footprint(t)
    decreases t
  {
    match t
    case LeafTree(v) => slot == Leaf(v) && !IsMap(v)
    case NilTree => slot == Ref(null)
    case MapTree(obj, kids) =>
      assert forall k | k in kids :: Footprint(kids[k]) <= Footprint(t);
      slot == Ref(obj) && obj.slots.Keys == kids.Keys && forall k | k in kids :: Unfolds(obj.slots[k], kids[k])
  }

  /** The plain value a tree stands for. */
  ghost function Meaning(t: Tree): Val {
    match t
    case LeafTree(v) => v
    case NilTree => NilMap(Plain)
    case MapTree(_, kids) => Map(Plain, map k | k in kids :: Meaning(kids[k]))
  }

  /** The maps that laying s over d may write: those of d that a map of s is laid over. */
  ghost function Written(d: Tree, s: Tree): set<object>
    decreases s
  {
    if d.MapTree? && s.MapTree? then
      {d.obj} + set k, o | k in d.kids && k in s.kids && o in Written(d.kids[k], s.kids[k]) :: o
    else {}
  }

  // No other path of d reaches a map that is written.
  ghost predicate ReachedOnce(d: Tree, s: Tree)
    decreases s
  {
    d.MapTree? && s.MapTree? ==>
      && (forall k | k in d.kids :: d.obj !in Footprint(d.kids[k]))
      && forall k | k in d.kids && k in s.kids ::
           && ReachedOnce(d.kids[k], s.kids[k])
           && forall j | j in d.kids && j != k :: Written(d.kids[k], s.kids[k]) !! Footprint(d.kids[j])
  }

  /** Nothing is written that the source, or a second path of the destination, can see.
      Everything else may be shared. */
  ghost predicate Apart(d: Tree, s: Tree) {
    ReachedOnce(d, s) && Written(d, s) !! Footprint(s)
  }

  lemma {:induction false} WrittenIsOwn(d: Tree, s: Tree)
    ensures Written(d, s) <= Footprint(d)
    decreases s
  {
    if d.MapTree? && s.MapTree? {
      forall k | k in d.kids && k in s.kids ensures Written(d.kids[k], s.kids[k]) <= Footprint(d.kids[k]) {
        WrittenIsOwn(d.kids[k], s.kids[k]);
      }
    }
  }

  ghost function KidFootprint(kids: map<string, Tree>, key: string): set<object> {
    if key in kids then Footprint(kids[key]) else {}
  }

  // What laying this kid over the key may write below the destination.
  ghost function KeyWritten(kids: map<string, Tree>, key: string, kid: Tree): set<object> {
    if key in kids then Written(kids[key], kid) else {}
  }

  lemma KidWithin(t: Tree, key: string)
    requires t.MapTree?
    ensures KidFootprint(t.kids, key) <= Footprint(t)
  {
  }

  lemma KeyWrittenWithin(d: Tree, s: Tree, key: string)
    requires d.MapTree? && s.MapTree? && key in s.kids
    ensures {d.obj} + KeyWritten(d.kids, key, s.kids[key]) <= Written(d, s)
  {
  }

  /** The nodes of a tree that exists are allocated. */
  lemma NodesExist(t: Tree)
    ensures forall o | o in Footprint(t) :: allocated(o)
  {
    if t.MapTree? {
      forall k | k in t.kids ensures forall o | o in Footprint(t.kids[k]) :: allocated(o) {
        NodesExist(t.kids[k]);
      }
    }
  }

  /** No map is reached twice. */
  ghost predicate NoSharing(t: Tree) {
    t.MapTree? ==>
      && (forall k | k in t.kids :: NoSharing(t.kids[k]) && t.obj !in Footprint(t.kids[k]))
      && (forall j, k | j in t.kids && k in t.kids && j != k :: Footprint(t.kids[j]) !! Footprint(t.kids[k]))
  }

  ghost predicate Unshared(d: Tree, s: Tree) {
    NoSharing(d) && NoSharing(s) && Footprint(d) !! Footprint(s)
  }

  /** Maps that share nothing are apart, whatever is laid over what. */
  lemma {:induction false} UnsharedIsApart(d: Tree, s: Tree)
    requires NoSharing(d) && Footprint(d) !! Footprint(s)
    ensures Apart(d, s)
    decreases s
  {
    WrittenIsOwn(d, s);
    if d.MapTree? && s.MapTree? {
      forall k | k in d.kids && k in s.kids
        ensures ReachedOnce(d.kids[k], s.kids[k]) && Written(d.kids[k], s.kids[k]) <= Footprint(d.kids[k])
      {
        KidWithin(d, k);
        KidWithin(s, k);
        UnsharedIsApart(d.kids[k], s.kids[k]);
        WrittenIsOwn(d.kids[k], s.kids[k]);
      }
    }
  }

  /** What laying s over d leaves. */
  ghost predicate IsPatched(r: Tree, d: Tree, s: Tree) {
    && Meaning(r) == Patch(Meaning(d), Meaning(s))
    && Footprint(r) <= Footprint(d) + Footprint(s)
    && (Unshared(d, s) ==> NoSharing(r))
  }

  // ---- One key ------------------------------------------------------------------------------

  // What one key of the destination holds once the source's kid is laid over it.
  ghost predicate KeyMerged(kids: map<string, Tree>, key: string, kid: Tree, r: Tree) {
    && Meaning(r) == (if key in kids then Patch(Meaning(kids[key]), Meaning(kid)) else Meaning(kid))
    && Footprint(r) <= KidFootprint(kids, key) + Footprint(kid)
    && ((if key in kids then Unshared(kids[key], kid) else NoSharing(kid)) ==> NoSharing(r))
  }

  // The kid can be laid over this key without touching anything else.
  ghost predicate Fits(cur: Tree, key: string, kid: Tree)
    requires cur.MapTree?
  {
    && cur.obj !in Footprint(kid)
    && (forall j | j in cur.kids :: cur.obj !in Footprint(cur.kids[j]))
    && (key in cur.kids ==>
          && Apart(cur.kids[key], kid) && !Panics(Meaning(cur.kids[key]), Meaning(kid))
          && forall j | j in cur.kids && j != key :: Written(cur.kids[key], kid) !! Footprint(cur.kids[j]))
  }

  lemma KidsUnfold(dst: MapObj, t: Tree)
    requires Unfolds(Ref(dst), t)
    ensures t.MapTree? && t.obj == dst && dst.slots.Keys == t.kids.Keys
    ensures forall k | k in t.kids :: Unfolds(dst.slots[k], t.kids[k])
  {
  }

  lemma RefUnfolds(slot: Slot, t: Tree)
    requires Unfolds(slot, t)
    ensures slot.Ref? <==> IsMap(Meaning(t))
    ensures slot.Ref? ==> (slot.obj == null <==> t.NilTree?) && (t.MapTree? ==> t.obj == slot.obj)
  {
  }

  lemma FitsMeans(cur: Tree, key: string, kid: Tree)
    requires cur.MapTree? && Fits(cur, key, kid)
    ensures key in cur.kids ==> Apart(cur.kids[key], kid) && !Panics(Meaning(cur.kids[key]), Meaning(kid))
    ensures {cur.obj} + KeyWritten(cur.kids, key, kid) !! Footprint(kid)
    ensures cur.obj !in KeyWritten(cur.kids, key, kid)
    ensures forall j | j in cur.kids ::
              && cur.obj !in Footprint(cur.kids[j]) && Footprint(cur.kids[j]) <= Footprint(cur)
              && (j != key ==> KeyWritten(cur.kids, key, kid) !! Footprint(cur.kids[j]))
  {
    if key in cur.kids { WrittenIsOwn(cur.kids[key], kid); }
    forall j | j in cur.kids ensures Footprint(cur.kids[j]) <= Footprint(cur) { KidWithin(cur, j); }
    hide Footprint, Written, ReachedOnce, Panics, Meaning;
  }

  lemma PatchedIsMerged(kids: map<string, Tree>, key: string, kid: Tree, r: Tree)
    requires key in kids && IsPatched(r, kids[key], kid)
    ensures KeyMerged(kids, key, kid, r)
  {
    hide Footprint, Patch, Meaning;
  }

  lemma NotBothMaps(kids: map<string, Tree>, key: string, kid: Tree)
    requires key in kids ==> !IsMap(Meaning(kids[key])) || !IsMap(Meaning(kid))
    ensures KeyMerged(kids, key, kid, kid) && KeyWritten(kids, key, kid) == {}
  {
  }

  lemma Rejoin(dst: MapObj, t: Tree, key: string, kid: Tree)
    requires t.MapTree? && dst.slots.Keys == t.kids.Keys + {key} && Unfolds(dst.slots[key], kid)
    requires forall k | k in t.kids && k != key :: Unfolds(dst.slots[k], t.kids[k])
    ensures Unfolds(Ref(dst), MapTree(dst, t.kids[key := kid]))
  {
  }

  /** Lays one slot over the destination: a pair of maps is merged in place, anything
      else is stored, the source's own map included. */
  method MergeKey(dst: MapObj, key: string, slot: Slot, ghost cur: Tree, ghost kid: Tree) returns (ghost r: Tree)
    requires cur.MapTree? && cur.obj == dst && Unfolds(Ref(dst), cur) && Unfolds(slot, kid) && Fits(cur, key, kid)
    modifies {dst} + KeyWritten(cur.kids, key, kid)
    ensures Unfolds(Ref(dst), MapTree(dst, cur.kids[key := r]))
    ensures Unfolds(slot, kid) && KeyMerged(cur.kids, key, kid, r)
    decreases kid, 2
  {
    NodesExist(cur);
    NodesExist(kid);
    KidsUnfold(dst, cur);
    RefUnfolds(slot, kid);
    FitsMeans(cur, key, kid);
    if key in cur.kids { RefUnfolds(dst.slots[key], cur.kids[key]); }
    hide Patch, Meaning, Unfolds, Footprint, Written, Apart, Panics, Fits, KeyMerged, IsPatched;
    if key in dst.slots && slot.Ref? && dst.slots[key].Ref? {
      r := DeepMerge(dst.slots[key].obj, slot.obj, cur.kids[key], kid);
      PatchedIsMerged(cur.kids, key, kid, r);
    } else {
      r := kid;
      NotBothMaps(cur.kids, key, kid);
      dst.slots := dst.slots[key := slot];
    }
    Rejoin(dst, cur, key, r);
  }

  // ---- The whole merge ------------------------------------------------------------------------

  ghost predicate KeyDone(d: Tree, s: Tree, todo: set<string>, r: Tree, k: string)
    requires d.MapTree? && s.MapTree? && r.MapTree? && k in r.kids
  {
    if k in s.kids && k !in todo then KeyMerged(d.kids, k, s.kids[k], r.kids[k])
    else k in d.kids && r.kids[k] == d.kids[k]
  }

  /** How far the merge got: the keys in todo are still to come. */
  ghost predicate Progress(d: Tree, s: Tree, todo: set<string>, r: Tree)
    requires d.MapTree? && s.MapTree?
  {
    && r.MapTree? && r.obj == d.obj && todo <= s.kids.Keys
    && r.kids.Keys == d.kids.Keys + (s.kids.Keys - todo)
    && forall k | k in r.kids :: KeyDone(d, s, todo, r, k)
  }

  lemma ProgressStarts(d: Tree, s: Tree)
    requires d.MapTree? && s.MapTree?
    ensures Progress(d, s, s.kids.Keys, d)
  {
    hide KeyMerged;
  }

  // A key reaches what the destination and the source reached there.
  lemma KeyReaches(d: Tree, s: Tree, todo: set<string>, r: Tree, k: string)
    requires d.MapTree? && s.MapTree? && Progress(d, s, todo, r) && k in r.kids
    ensures Footprint(r.kids[k]) <= KidFootprint(d.kids, k) + KidFootprint(s.kids, k)
  {
    assert KeyDone(d, s, todo, r, k);
    hide Footprint, Meaning, Patch;
  }

  // What is written for one key is out of reach of what any other key starts from.
  lemma OthersApart(d: Tree, s: Tree, key: string, j: string)
    requires d.MapTree? && s.MapTree? && ReachedOnce(d, s) && key in s.kids
    ensures d.obj !in KidFootprint(d.kids, j)
    ensures j != key ==> KeyWritten(d.kids, key, s.kids[key]) !! KidFootprint(d.kids, j)
  {
    hide Footprint, Written;
  }

  lemma KeyIsApart(d: Tree, s: Tree, todo: set<string>, r: Tree, key: string, j: string)
    requires d.MapTree? && s.MapTree? && Progress(d, s, todo, r) && key in todo && j in r.kids && Apart(d, s)
    ensures d.obj !in Footprint(r.kids[j])
    ensures j != key ==> KeyWritten(d.kids, key, s.kids[key]) !! Footprint(r.kids[j])
  {
    hide Footprint, KidFootprint;
    KeyReaches(d, s, todo, r, j);
    KidWithin(s, j);
    KeyWrittenWithin(d, s, key);
    OthersApart(d, s, key, j);
    hide Written, ReachedOnce, KeyDone, KeyWritten;
  }

  lemma NextIsOwn(d: Tree, s: Tree, todo: set<string>, r: Tree, key: string)
    requires d.MapTree? && s.MapTree? && Progress(d, s, todo, r) && key in todo
    ensures (key in r.kids <==> key in d.kids) && (key in d.kids ==> r.kids[key] == d.kids[key])
    ensures KeyWritten(r.kids, key, s.kids[key]) == KeyWritten(d.kids, key, s.kids[key])
  {
    assert key in r.kids ==> KeyDone(d, s, todo, r, key);
    hide KeyMerged, Written;
  }

  lemma KidPanics(d: Tree, s: Tree, key: string)
    requires d.MapTree? && s.MapTree? && key in s.kids && !Panics(Meaning(d), Meaning(s))
    ensures key in d.kids ==> !Panics(Meaning(d.kids[key]), Meaning(s.kids[key]))
  {
    if key in d.kids {
      assert key in Meaning(d).entries && Meaning(d).entries[key] == Meaning(d.kids[key]);
      assert key in Meaning(s).entries && Meaning(s).entries[key] == Meaning(s.kids[key]);
    }
  }

  lemma KidApart(d: Tree, s: Tree, key: string)
    requires d.MapTree? && s.MapTree? && key in s.kids && Apart(d, s) && !Panics(Meaning(d), Meaning(s))
    ensures d.obj !in Footprint(s.kids[key])
    ensures key in d.kids ==> Apart(d.kids[key], s.kids[key]) && !Panics(Meaning(d.kids[key]), Meaning(s.kids[key]))
  {
    KidPanics(d, s, key);
    KidWithin(s, key);
    KeyWrittenWithin(d, s, key);
    hide Footprint, Written, Meaning, Panics;
  }

  /** The next key still holds what the destination held, and the source's kid fits. */
  lemma NextFits(d: Tree, s: Tree, todo: set<string>, r: Tree, key: string)
    requires d.MapTree? && s.MapTree? && Progress(d, s, todo, r) && key in todo
    requires Apart(d, s) && !Panics(Meaning(d), Meaning(s))
    ensures Fits(r, key, s.kids[key])
    ensures (key in r.kids <==> key in d.kids) && (key in d.kids ==> r.kids[key] == d.kids[key])
    ensures KeyWritten(r.kids, key, s.kids[key]) == KeyWritten(d.kids, key, s.kids[key])
  {
    var kid := s.kids[key];
    NextIsOwn(d, s, todo, r, key);
    KidApart(d, s, key);
    assert r.obj == d.obj;
    hide Footprint, Meaning, Panics, Apart, Progress, Written;
    forall j | j in r.kids ensures d.obj !in Footprint(r.kids[j])
      && (j != key ==> KeyWritten(d.kids, key, kid) !! Footprint(r.kids[j]))
    {
      KeyIsApart(d, s, todo, r, key, j);
    }
  }

  lemma ProgressStep(d: Tree, s: Tree, todo: set<string>, r: Tree, key: string, kid: Tree)
    requires d.MapTree? && s.MapTree? && Progress(d, s, todo, r) && key in todo
    requires KeyMerged(d.kids, key, s.kids[key], kid)
    ensures Progress(d, s, todo - {key}, MapTree(r.obj, r.kids[key := kid]))
  {
    hide KeyMerged;
    var next := MapTree(r.obj, r.kids[key := kid]);
    forall k | k in next.kids ensures KeyDone(d, s, todo - {key}, next, k) {
      if k in r.kids { assert KeyDone(d, s, todo, r, k); }
    }
  }

  lemma ProgressEnds(d: Tree, s: Tree, r: Tree)
    requires d.MapTree? && s.MapTree? && Progress(d, s, {}, r)
    ensures IsPatched(r, d, s)
  {
    forall k | k in r.kids ensures Footprint(r.kids[k]) <= Footprint(d) + Footprint(s) {
      KeyReaches(d, s, {}, r, k);
      KidWithin(d, k);
      KidWithin(s, k);
    }
    AllMerged(d, s, r);
    if Unshared(d, s) { StaysUnshared(d, s, r); }
    hide Progress, Meaning, Patch, NoSharing;
  }

  lemma StaysUnshared(d: Tree, s: Tree, r: Tree)
    requires d.MapTree? && s.MapTree? && Progress(d, s, {}, r) && Unshared(d, s)
    ensures NoSharing(r)
  {
    hide Footprint, Meaning, Patch;
    forall k | k in r.kids ensures NoSharing(r.kids[k]) && r.obj !in Footprint(r.kids[k])
      && Footprint(r.kids[k]) <= KidFootprint(d.kids, k) + KidFootprint(s.kids, k)
      && KidFootprint(d.kids, k) <= Footprint(d) && KidFootprint(s.kids, k) <= Footprint(s)
    {
      assert KeyDone(d, s, {}, r, k);
      KeyReaches(d, s, {}, r, k);
      KidWithin(d, k);
      KidWithin(s, k);
      OwnNode(d);
    }
    hide NoSharing, KeyDone;
    forall j, k | j in r.kids && k in r.kids && j != k ensures Footprint(r.kids[j]) !! Footprint(r.kids[k]) {
      KidsDisjoint(d, j, k);
      KidsDisjoint(s, j, k);
    }
    KidsMakeUnshared(r);
  }

  lemma OwnNode(t: Tree)
    requires t.MapTree?
    ensures t.obj in Footprint(t)
  {
  }

  lemma KidsDisjoint(t: Tree, j: string, k: string)
    requires t.MapTree? && NoSharing(t) && j != k
    ensures KidFootprint(t.kids, j) !! KidFootprint(t.kids, k)
  {
    hide Footprint;
  }

  lemma KidsMakeUnshared(t: Tree)
    requires t.MapTree? && forall k | k in t.kids :: NoSharing(t.kids[k]) && t.obj !in Footprint(t.kids[k])
    requires forall j, k | j in t.kids && k in t.kids && j != k :: Footprint(t.kids[j]) !! Footprint(t.kids[k])
    ensures NoSharing(t)
  {
  }

  lemma AllMerged(d: Tree, s: Tree, r: Tree)
    requires d.MapTree? && s.MapTree? && Progress(d, s, {}, r)
    ensures Meaning(r) == Patch(Meaning(d), Meaning(s))
  {
    var left, right := Meaning(r), Patch(Meaning(d), Meaning(s));
    assert left.entries.Keys == right.entries.Keys;
    forall k | k in r.kids ensures left.entries[k] == right.entries[k] {
      assert KeyDone(d, s, {}, r, k);
      MergedKeyIs(d, s, r, k);
    }
    hide Patch, Meaning;
    assert left.entries == right.entries;
  }

  lemma MergedKeyIs(d: Tree, s: Tree, r: Tree, k: string)
    requires d.MapTree? && s.MapTree? && r.MapTree? && r.kids.Keys == d.kids.Keys + s.kids.Keys
    requires k in r.kids && KeyDone(d, s, {}, r, k)
    ensures Meaning(r).entries[k] == Patch(Meaning(d), Meaning(s)).entries[k]
  {
  }

  // A nil map on either side leaves the destination as it was.
  lemma NilIsPatched(d: Tree, s: Tree)
    requires IsMap(Meaning(d)) && IsMap(Meaning(s)) && !Panics(Meaning(d), Meaning(s))
    ensures s.NilTree? || d.NilTree? ==> IsPatched(d, d, s)
    ensures d.NilTree? && s.MapTree? ==> s.kids == map[]
  {
    if d.NilTree? && s.MapTree? {
      assert Meaning(s).entries == map[] && s.kids.Keys == Meaning(s).entries.Keys;
    }
  }

  /** Merges the source into the destination in place, both possibly nil. Only maps of
      the destination that a map of the source is laid over are written, the source still
      stands for the same value, and the result is the patch, whatever order the keys
      come in. */
  method DeepMerge(dst: MapObj?, src: MapObj?, ghost d: Tree, ghost s: Tree) returns (ghost r: Tree)
    requires Unfolds(Ref(dst), d) && Unfolds(Ref(src), s)
    requires Apart(d, s) && !Panics(Meaning(d), Meaning(s))
    modifies Written(d, s)
    ensures Unfolds(Ref(dst), r) && IsPatched(r, d, s)
    ensures Unfolds(Ref(src), s)
    decreases s, 1
  {
    r := d;
    RefUnfolds(Ref(dst), d);
    RefUnfolds(Ref(src), s);
    NilIsPatched(d, s);
    if src == null {
      return;
    }
    KidsUnfold(src, s);
    var todo := src.slots.Keys;
    hide Unfolds, Footprint, Meaning, Written, Apart, Panics, Progress, IsPatched;
    if d.MapTree? { ProgressStarts(d, s); }
    while todo != {}
      invariant todo <= s.kids.Keys && (d.MapTree? ==> Progress(d, s, todo, r)) && (d.NilTree? ==> r == d)
      invariant Unfolds(Ref(dst), r) && Unfolds(Ref(src), s)
      decreases |todo|
    {
      var key :| key in todo;
      r := MergeNext(dst, src, key, d, s, todo, r);
      todo := todo - {key};
    }
    if d.MapTree? { ProgressEnds(d, s, r); }
  }

  method MergeNext(dst: MapObj, src: MapObj, key: string, ghost d: Tree, ghost s: Tree, ghost todo: set<string>,
                   ghost r: Tree)
    returns (ghost next: Tree)
    requires d.MapTree? && d.obj == dst && s.MapTree? && s.obj == src && key in todo
    requires Apart(d, s) && !Panics(Meaning(d), Meaning(s))
    requires Progress(d, s, todo, r) && Unfolds(Ref(dst), r) && Unfolds(Ref(src), s)
    modifies Written(d, s)
    ensures Progress(d, s, todo - {key}, next) && Unfolds(Ref(dst), next) && Unfolds(Ref(src), s)
    decreases s, 0
  {
    NodesExist(s);
    NextFits(d, s, todo, r, key);
    KidsUnfold(src, s);
    KeyWrittenWithin(d, s, key);
    assert r.MapTree? && r.obj == dst;
    hide Progress, KeyMerged, Meaning, Patch, Unfolds, Footprint, Fits, Panics, Written, ReachedOnce;
    ghost var kid := MergeKey(dst, key, src.slots[key], r, s.kids[key]);
    SameKeyMerged(d.kids, r.kids, key, s.kids[key], kid);
    ProgressStep(d, s, todo, r, key, kid);
    next := MapTree(dst, r.kids[key := kid]);
  }

  lemma SameKeyMerged(a: map<string, Tree>, b: map<string, Tree>, key: string, kid: Tree, r: Tree)
    requires (key in a <==> key in b) && (key in a ==> b[key] == a[key]) && KeyMerged(b, key, kid, r)
    ensures KeyMerged(a, key, kid, r)
  {
    hide Meaning, Patch, Footprint;
  }
}
