/**
 * When two object graphs have the same canonical value, and so the same digest.
 */
module CanonicalEqual {
  import opened Wrappers
  import opened Canonical
  import CanonicalMeaning

  /**
   * The two graphs read alike down to depth n: the same leaves, arrays of the same length, and under every property name
   * but `__proto__` values that read alike. The order of properties, what is shared, and whether a property is absent or
   * set to undefined are not looked at.
   */
  ghost predicate Alike(h: Heap, v: Value, g: Heap, w: Value, n: nat)
    decreases n
  {
    n == 0
    || (if v.Ref? && w.Ref? then
          v.name in h && w.name in g
          && match (h[v.name], g[w.name])
             case (Arr(xs), Arr(ys)) => |xs| == |ys| && forall i :: 0 <= i < |xs| ==> Alike(h, xs[i], g, ys[i], n - 1)
             case (Plain(ps), Plain(qs)) =>
               forall k: string :: k != "__proto__" ==> Alike(h, Lookup(ps, k), g, Lookup(qs, k), n - 1)
             case _ => false
        else v == w)
  }

  /** The unfoldings of the two graphs agree. */
  ghost predicate SameUnfolding(h: Heap, v: Value, g: Heap, w: Value) {
    forall n: nat :: Alike(h, v, g, w, n)
  }

  // ---- The shape of a canonical value ----

  lemma {:induction false} VisitEach(heap: Heap, kids: seq<(Key, Value)>, n: nat, seen: set<Name>, path: seq<Key>)
    requires WellFormed(heap) && n <= |kids| && forall i :: 0 <= i < |kids| ==> InHeap(heap, kids[i].1)
    requires Visit(heap, kids, n, seen, path).Ok?
    ensures forall i :: 0 <= i < n ==>
              Inner(heap, kids[i].1, seen, path + [kids[i].0]) == Ok(Visit(heap, kids, n, seen, path).value[i])
  {
    hide Inner, WellFormed;
    if n > 0 {
      VisitEach(heap, kids, n - 1, seen, path);
    }
  }

  function Names(es: seq<(string, Canon)>): (ks: seq<string>)
    ensures |ks| == |es| && forall j :: 0 <= j < |es| ==> ks[j] == es[j].0
  {
    seq(|es|, j requires 0 <= j < |es| => es[j].0)
  }

  predicate AscendingKids(kids: seq<(Key, Value)>) {
    && (forall i :: 0 <= i < |kids| ==> kids[i].0.Property?)
    && forall i, j :: 0 <= i < j < |kids| ==> Less(kids[i].0.name, kids[j].0.name)
  }

  predicate FromKid(e: (string, Canon), kids: seq<(Key, Value)>, values: seq<Canon>, i: nat)
    requires |kids| == |values|
  {
    i < |kids| && kids[i].0 == Property(e.0) && values[i] == e.1
  }

  predicate Origin(e: (string, Canon), kids: seq<(Key, Value)>, values: seq<Canon>)
    requires |kids| == |values|
  {
    e.0 != PROTO && exists i :: 0 <= i < |kids| && FromKid(e, kids, values, i)
  }

  lemma OriginGrows(e: (string, Canon), kids: seq<(Key, Value)>, values: seq<Canon>)
    requires |kids| == |values| > 0 && AscendingKids(kids)
    requires Origin(e, kids[..|kids| - 1], values[..|kids| - 1])
    ensures Origin(e, kids, values) && Less(e.0, kids[|kids| - 1].0.name)
  {
    var i :| 0 <= i < |kids| - 1 && FromKid(e, kids[..|kids| - 1], values[..|kids| - 1], i);
    assert FromKid(e, kids, values, i);
  }

  /** Each entry comes from a kid, in order, and no kid but `__proto__` is lost. */
  predicate Shaped(kids: seq<(Key, Value)>, values: seq<Canon>, es: seq<(string, Canon)>)
    requires |kids| == |values| && AscendingKids(kids)
  {
    && Ascending(Names(es))
    && (forall j :: 0 <= j < |es| ==> Origin(es[j], kids, values))
    && (forall i :: 0 <= i < |kids| && kids[i].0.name != PROTO ==> kids[i].0.name in Names(es))
  }

  lemma ShapedGrows(kids: seq<(Key, Value)>, values: seq<Canon>, init: seq<(string, Canon)>)
    requires |kids| == |values| > 0 && AscendingKids(kids)
    requires Shaped(kids[..|kids| - 1], values[..|kids| - 1], init)
    ensures var n := |kids| - 1;
            Shaped(kids, values, if kids[n].0.name == PROTO then init else init + [(kids[n].0.name, values[n])])
  {
    hide Origin, Less;
    var n := |kids| - 1;
    forall j | 0 <= j < |init| ensures Origin(init[j], kids, values) && Less(init[j].0, kids[n].0.name) {
      OriginGrows(init[j], kids, values);
    }
    if kids[n].0.name != PROTO {
      LastOrigin(kids, values);
      var es := init + [(kids[n].0.name, values[n])];
      assert Names(es) == Names(init) + [kids[n].0.name];
    }
  }

  lemma {:induction false} EntriesShape(kids: seq<(Key, Value)>, values: seq<Canon>)
    requires |kids| == |values| && AscendingKids(kids)
    ensures Shaped(kids, values, Entries(kids, values))
  {
    if kids != [] {
      hide Shaped;
      EntriesShape(kids[..|kids| - 1], values[..|kids| - 1]);
      ShapedGrows(kids, values, Entries(kids[..|kids| - 1], values[..|kids| - 1]));
    }
  }

  lemma LastOrigin(kids: seq<(Key, Value)>, values: seq<Canon>)
    requires |kids| == |values| > 0 && AscendingKids(kids) && kids[|kids| - 1].0.name != PROTO
    ensures Origin((kids[|kids| - 1].0.name, values[|kids| - 1]), kids, values)
  {
    assert FromKid((kids[|kids| - 1].0.name, values[|kids| - 1]), kids, values, |kids| - 1);
  }

  /** An accepted array becomes an array of its items' canonical values. */
  lemma ArrayShape(heap: Heap, r: Name, seen: set<Name>, path: seq<Key>)
    requires WellFormed(heap) && r in heap && heap[r].Arr? && Inner(heap, Ref(r), seen, path).Ok?
    ensures |heap.Keys - (seen + {r})| < |heap.Keys - seen|
    ensures var c, items := Inner(heap, Ref(r), seen, path).value, heap[r].items;
            && c.CArr? && |c.items| == |items|
            && forall i :: 0 <= i < |items| ==>
                 InHeap(heap, items[i]) && Inner(heap, items[i], seen + {r}, path + [Index(i)]) == Ok(c.items[i])
  {
    CanonicalMeaning.Descend(heap, r, seen, path);
    var kids := Kids(heap[r]);
    VisitEach(heap, kids, |kids|, seen + {r}, path);
    assert forall i :: 0 <= i < |kids| ==> kids[i] == (Index(i), heap[r].items[i]);
    hide Inner, Visit, Kids, WellFormed;
  }

  /** The same for the kids of an object, which carry its sorted names. */
  lemma NamedEntries(ks: seq<string>, kids: seq<(Key, Value)>, values: seq<Canon>)
    requires |kids| == |values| == |ks| && Ascending(ks) && forall i :: 0 <= i < |ks| ==> kids[i].0 == Property(ks[i])
    ensures var es := Entries(kids, values);
            && Ascending(Names(es))
            && (forall j :: 0 <= j < |es| ==> Origin(es[j], kids, values))
            && (forall k :: k in Names(es) <==> k in ks && k != PROTO)
  {
    EntriesShape(kids, values);
    hide Entries, Ascending, Origin, Less;
    var es := Entries(kids, values);
    forall k: string ensures k in Names(es) <==> k in ks && k != PROTO {
      if k in Names(es) {
        var j :| 0 <= j < |es| && Names(es)[j] == k;
        OriginName(ks, kids, values, es[j]);
      }
      if k in ks && k != PROTO {
        var i :| 0 <= i < |ks| && ks[i] == k;
        assert kids[i].0.name in Names(es);
      }
    }
  }

  lemma OriginName(ks: seq<string>, kids: seq<(Key, Value)>, values: seq<Canon>, e: (string, Canon))
    requires |kids| == |values| == |ks| && Origin(e, kids, values) && forall i :: 0 <= i < |ks| ==> kids[i].0 == Property(ks[i])
    ensures e.0 in ks && e.0 != PROTO
  {
    var i :| 0 <= i < |kids| && FromKid(e, kids, values, i);
    assert ks[i] == e.0;
  }

  predicate EntryIs(heap: Heap, props: seq<(string, Value)>, seen: set<Name>, path: seq<Key>, e: (string, Canon))
    requires WellFormed(heap)
  {
    var v := Lookup(props, e.0);
    InHeap(heap, v) && Inner(heap, v, seen, path + [Property(e.0)]) == Ok(e.1)
  }

  lemma KidsOf(props: seq<(string, Value)>)
    requires DistinctNames(props)
    ensures var kids, ks := Kids(Plain(props)), SortedKeys(props);
            |kids| == |ks| && forall i :: 0 <= i < |kids| ==> kids[i] == (Property(ks[i]), Lookup(props, ks[i]))
  {}

  lemma OriginIsEntry(heap: Heap, props: seq<(string, Value)>, seen: set<Name>, path: seq<Key>, e: (string, Canon),
                      ks: seq<string>, kids: seq<(Key, Value)>, values: seq<Canon>)
    requires WellFormed(heap) && |ks| == |kids| == |values| && Origin(e, kids, values)
    requires forall i :: 0 <= i < |kids| ==> kids[i] == (Property(ks[i]), Lookup(props, ks[i])) && InHeap(heap, kids[i].1)
    requires forall i :: 0 <= i < |kids| ==> Inner(heap, kids[i].1, seen, path + [kids[i].0]) == Ok(values[i])
    ensures EntryIs(heap, props, seen, path, e)
  {
    hide Inner, WellFormed, Lookup;
    var i :| 0 <= i < |kids| && FromKid(e, kids, values, i);
  }

  /** An accepted object becomes its defined properties but `__proto__`, in the order of their names. */
  lemma ObjectShape(heap: Heap, r: Name, seen: set<Name>, path: seq<Key>)
    requires WellFormed(heap) && r in heap && heap[r].Plain? && Inner(heap, Ref(r), seen, path).Ok?
    ensures |heap.Keys - (seen + {r})| < |heap.Keys - seen|
    ensures var c, props := Inner(heap, Ref(r), seen, path).value, heap[r].props;
            && c.CObj? && Ascending(Names(c.entries))
            && (forall k :: k in Names(c.entries) <==> k != "__proto__" && !Lookup(props, k).Undefined?)
            && forall j :: 0 <= j < |c.entries| ==> EntryIs(heap, props, seen + {r}, path, c.entries[j])
  {
    CanonicalMeaning.Descend(heap, r, seen, path);
    hide Inner, Visit, Kids, WellFormed, Entries, SortedKeys, Lookup, Ascending, Origin, EntryIs, Names;
    var props, kids := heap[r].props, Kids(heap[r]);
    VisitEach(heap, kids, |kids|, seen + {r}, path);
    KidsOf(props);
    var values := Visit(heap, kids, |kids|, seen + {r}, path).value;
    NamedEntries(SortedKeys(props), kids, values);
    var es := Entries(kids, values);
    forall j | 0 <= j < |es| ensures EntryIs(heap, props, seen + {r}, path, es[j]) {
      OriginIsEntry(heap, props, seen + {r}, path, es[j], SortedKeys(props), kids, values);
    }
  }

  // ---- Equal values from equal unfoldings, and back ----

  datatype Spot = Spot(heap: Heap, value: Value, seen: set<Name>, path: seq<Key>)

  predicate Reads(s: Spot, c: Canon) {
    WellFormed(s.heap) && InHeap(s.heap, s.value) && Inner(s.heap, s.value, s.seen, s.path) == Ok(c)
  }

  predicate IsArray(s: Spot) {
    s.value.Ref? && s.value.name in s.heap && s.heap[s.value.name].Arr?
  }

  predicate IsPlain(s: Spot) {
    s.value.Ref? && s.value.name in s.heap && s.heap[s.value.name].Plain?
  }

  function Items(s: Spot): seq<Value>
    requires IsArray(s)
  {
    s.heap[s.value.name].items
  }

  function ItemOf(s: Spot, i: nat): Spot
    requires IsArray(s) && i < |Items(s)|
  {
    Spot(s.heap, Items(s)[i], s.seen + {s.value.name}, s.path + [Index(i)])
  }

  function UnderOf(s: Spot, k: string): Spot
    requires IsPlain(s)
  {
    Spot(s.heap, Lookup(s.heap[s.value.name].props, k), s.seen + {s.value.name}, s.path + [Property(k)])
  }

  function Left(s: Spot): nat {
    |s.heap.Keys - s.seen|
  }

  lemma ReadArray(s: Spot, c: Canon)
    requires Reads(s, c) && IsArray(s)
    ensures c.CArr? && |c.items| == |Items(s)|
    ensures forall i :: 0 <= i < |c.items| ==> Reads(ItemOf(s, i), c.items[i]) && Left(ItemOf(s, i)) < Left(s)
  {
    ArrayShape(s.heap, s.value.name, s.seen, s.path);
    hide Inner, WellFormed;
  }

  lemma ReadObject(s: Spot, c: Canon)
    requires Reads(s, c) && IsPlain(s)
    ensures c.CObj? && Ascending(Names(c.entries))
    ensures forall k :: k in Names(c.entries) <==> k != PROTO && !UnderOf(s, k).value.Undefined?
    ensures forall j :: 0 <= j < |c.entries| ==>
              Reads(UnderOf(s, c.entries[j].0), c.entries[j].1) && Left(UnderOf(s, c.entries[j].0)) < Left(s)
  {
    ObjectShape(s.heap, s.value.name, s.seen, s.path);
    hide Inner, WellFormed, Lookup, Ascending;
    forall j | 0 <= j < |c.entries| ensures Reads(UnderOf(s, c.entries[j].0), c.entries[j].1) {
      assert EntryIs(s.heap, s.heap[s.value.name].props, s.seen + {s.value.name}, s.path, c.entries[j]);
    }
    var props := s.heap[s.value.name].props;
    forall k: string ensures k in Names(c.entries) <==> k != PROTO && !UnderOf(s, k).value.Undefined? {
      assert UnderOf(s, k).value == Lookup(props, k);
    }
  }

  lemma ReadLeaf(s: Spot, c: Canon)
    requires Reads(s, c)
    ensures !s.value.Ref? ==> Leaf(s.value, []) == Ok(c)
    ensures s.value.Ref? <==> c.CArr? || c.CObj?
    ensures s.value.Ref? ==> (c.CArr? <==> s.heap[s.value.name].Arr?) && (c.CObj? <==> s.heap[s.value.name].Plain?)
  {
    if s.value.Ref? {
      if CanonicalMeaning.Enters(s.heap, s.value.name, s.seen) {
        CanonicalMeaning.Descend(s.heap, s.value.name, s.seen, s.path);
      } else {
        CanonicalMeaning.Refused(s.heap, s.value.name, s.seen, s.path);
      }
    }
  }

  ghost predicate AlikeItem(a: Spot, b: Spot, i: int, n: nat)
    requires IsArray(a) && IsArray(b) && n > 0
  {
    0 <= i < |Items(a)| && i < |Items(b)| ==> Alike(a.heap, ItemOf(a, i).value, b.heap, ItemOf(b, i).value, n - 1)
  }

  ghost predicate AlikeUnder(a: Spot, b: Spot, k: string, n: nat)
    requires IsPlain(a) && IsPlain(b) && n > 0
  {
    Alike(a.heap, UnderOf(a, k).value, b.heap, UnderOf(b, k).value, n - 1)
  }

  lemma AlikeArrays(a: Spot, b: Spot, n: nat)
    requires n > 0 && IsArray(a) && IsArray(b) && |Items(a)| == |Items(b)|
    requires forall i :: AlikeItem(a, b, i, n)
    ensures Alike(a.heap, a.value, b.heap, b.value, n)
  {
    forall i | 0 <= i < |Items(a)| ensures Alike(a.heap, Items(a)[i], b.heap, Items(b)[i], n - 1) {
      assert AlikeItem(a, b, i, n);
    }
  }

  lemma AlikePlain(a: Spot, b: Spot, n: nat)
    requires n > 0 && IsPlain(a) && IsPlain(b)
    requires forall k: string :: k != PROTO ==> AlikeUnder(a, b, k, n)
    ensures Alike(a.heap, a.value, b.heap, b.value, n)
  {
    hide Lookup;
    forall k: string | k != PROTO
      ensures Alike(a.heap, Lookup(a.heap[a.value.name].props, k), b.heap, Lookup(b.heap[b.value.name].props, k), n - 1)
    {
      assert AlikeUnder(a, b, k, n);
    }
  }

  lemma BothUndefined(h: Heap, g: Heap, n: nat)
    ensures Alike(h, Undefined, g, Undefined, n)
  {}

  lemma ReadsArray(s: Spot, c: Canon)
    requires Reads(s, c) && c.CArr?
    ensures IsArray(s) && |Items(s)| == |c.items|
  {
    ReadLeaf(s, c);
    ReadArray(s, c);
  }

  lemma ReadItem(s: Spot, c: Canon, i: nat)
    requires Reads(s, c) && c.CArr? && IsArray(s) && |Items(s)| == |c.items| && i < |c.items|
    ensures Reads(ItemOf(s, i), c.items[i]) && Left(ItemOf(s, i)) < Left(s)
  {
    ReadArray(s, c);
  }

  lemma ReadsPlain(s: Spot, c: Canon)
    requires Reads(s, c) && c.CObj?
    ensures IsPlain(s)
  {
    ReadLeaf(s, c);
  }

  lemma ReadEntry(s: Spot, c: Canon, j: nat)
    requires Reads(s, c) && IsPlain(s) && c.CObj? && j < |c.entries|
    ensures Reads(UnderOf(s, c.entries[j].0), c.entries[j].1) && Left(UnderOf(s, c.entries[j].0)) < Left(s)
  {
    ReadObject(s, c);
  }

  lemma AbsentEntry(s: Spot, c: Canon, k: string)
    requires Reads(s, c) && IsPlain(s) && c.CObj? && k !in Names(c.entries) && k != PROTO
    ensures UnderOf(s, k).value == Undefined
  {
    ReadObject(s, c);
  }

  lemma {:induction false} EqualReadsAlike(a: Spot, b: Spot, c: Canon, n: nat)
    requires Reads(a, c) && Reads(b, c)
    ensures Alike(a.heap, a.value, b.heap, b.value, n)
    decreases n, 1
  {
    ReadLeaf(a, c);
    ReadLeaf(b, c);
    hide Reads;
    if n > 0 && a.value.Ref? {
      hide Alike;
      if c.CArr? {
        EqualArraysAlike(a, b, c, n);
      } else {
        EqualObjectsAlike(a, b, c, n);
      }
    }
  }

  lemma {:induction false} EqualArraysAlike(a: Spot, b: Spot, c: Canon, n: nat)
    requires Reads(a, c) && Reads(b, c) && n > 0 && c.CArr?
    ensures Alike(a.heap, a.value, b.heap, b.value, n)
    decreases n, 0
  {
    hide Reads, Alike, IsArray, Items;
    ReadsArray(a, c);
    ReadsArray(b, c);
    forall i ensures AlikeItem(a, b, i, n) {
      if 0 <= i < |c.items| {
        ReadItem(a, c, i);
        ReadItem(b, c, i);
        EqualReadsAlike(ItemOf(a, i), ItemOf(b, i), c.items[i], n - 1);
      }
    }
    AlikeArrays(a, b, n);
  }

  lemma {:induction false} EqualObjectsAlike(a: Spot, b: Spot, c: Canon, n: nat)
    requires Reads(a, c) && Reads(b, c) && n > 0 && c.CObj?
    ensures Alike(a.heap, a.value, b.heap, b.value, n)
    decreases n, 0
  {
    hide Reads, Alike, Lookup, Ascending, IsPlain;
    ReadsPlain(a, c);
    ReadsPlain(b, c);
    forall k: string | k != PROTO ensures AlikeUnder(a, b, k, n) {
      if k in Names(c.entries) {
        var j :| 0 <= j < |c.entries| && Names(c.entries)[j] == k;
        ReadEntry(a, c, j);
        ReadEntry(b, c, j);
        EqualReadsAlike(UnderOf(a, k), UnderOf(b, k), c.entries[j].1, n - 1);
      } else {
        AbsentEntry(a, c, k);
        AbsentEntry(b, c, k);
        BothUndefined(a.heap, b.heap, n - 1);
      }
    }
    AlikePlain(a, b, n);
  }

  lemma UnfoldsItem(a: Spot, b: Spot, i: nat)
    requires IsArray(a) && IsArray(b) && SameUnfolding(a.heap, a.value, b.heap, b.value)
    requires i < |Items(a)| == |Items(b)|
    ensures SameUnfolding(a.heap, ItemOf(a, i).value, b.heap, ItemOf(b, i).value)
  {
    forall n: nat ensures Alike(a.heap, Items(a)[i], b.heap, Items(b)[i], n) {
      assert Alike(a.heap, a.value, b.heap, b.value, n + 1);
    }
  }

  lemma UnfoldsLength(a: Spot, b: Spot)
    requires IsArray(a) && IsArray(b) && SameUnfolding(a.heap, a.value, b.heap, b.value)
    ensures |Items(a)| == |Items(b)|
  {
    assert Alike(a.heap, a.value, b.heap, b.value, 1);
  }

  lemma UnfoldsUnder(a: Spot, b: Spot, k: string)
    requires IsPlain(a) && IsPlain(b) && SameUnfolding(a.heap, a.value, b.heap, b.value) && k != PROTO
    ensures SameUnfolding(a.heap, UnderOf(a, k).value, b.heap, UnderOf(b, k).value)
    ensures UnderOf(a, k).value.Undefined? <==> UnderOf(b, k).value.Undefined?
  {
    hide Lookup;
    forall n: nat ensures Alike(a.heap, UnderOf(a, k).value, b.heap, UnderOf(b, k).value, n) {
      assert Alike(a.heap, a.value, b.heap, b.value, n + 1);
    }
    assert Alike(a.heap, UnderOf(a, k).value, b.heap, UnderOf(b, k).value, 1);
  }

  lemma AlikeNames(a: Spot, c: Canon, b: Spot, d: Canon)
    requires Reads(a, c) && Reads(b, d) && SameUnfolding(a.heap, a.value, b.heap, b.value) && IsPlain(a) && IsPlain(b)
    ensures c.CObj? && d.CObj? && Names(c.entries) == Names(d.entries)
    ensures PROTO !in Names(c.entries)
  {
    hide Reads, SameUnfolding, UnderOf, IsPlain;
    ReadObject(a, c);
    ReadObject(b, d);
    forall k: string ensures k in Names(c.entries) <==> k in Names(d.entries) {
      if k != PROTO {
        UnfoldsUnder(a, b, k);
      }
    }
    AscendingUnique(Names(c.entries), Names(d.entries));
  }

  lemma UnfoldsKind(a: Spot, c: Canon, b: Spot, d: Canon)
    requires Reads(a, c) && Reads(b, d) && SameUnfolding(a.heap, a.value, b.heap, b.value)
    ensures IsArray(a) <==> IsArray(b)
    ensures IsPlain(a) <==> IsPlain(b)
    ensures !IsArray(a) && !IsPlain(a) ==> c == d
  {
    ReadLeaf(a, c);
    ReadLeaf(b, d);
    assert Alike(a.heap, a.value, b.heap, b.value, 1);
  }

  lemma {:induction false} AlikeReadsEqual(a: Spot, c: Canon, b: Spot, d: Canon)
    requires Reads(a, c) && Reads(b, d) && SameUnfolding(a.heap, a.value, b.heap, b.value)
    ensures c == d
    decreases Left(a)
  {
    UnfoldsKind(a, c, b, d);
    hide Reads, SameUnfolding, UnderOf, IsPlain, IsArray, ItemOf, Items, Left, Ascending;
    if IsArray(a) {
      ReadArray(a, c);
      ReadArray(b, d);
      UnfoldsLength(a, b);
      forall i | 0 <= i < |c.items| ensures c.items[i] == d.items[i] {
        UnfoldsItem(a, b, i);
        AlikeReadsEqual(ItemOf(a, i), c.items[i], ItemOf(b, i), d.items[i]);
      }
    } else if IsPlain(a) {
      AlikeNames(a, c, b, d);
      forall j | 0 <= j < |c.entries| ensures c.entries[j] == d.entries[j] {
        var k := c.entries[j].0;
        assert k == Names(c.entries)[j] == Names(d.entries)[j];
        ReadEntry(a, c, j);
        ReadEntry(b, d, j);
        UnfoldsUnder(a, b, k);
        AlikeReadsEqual(UnderOf(a, k), c.entries[j].1, UnderOf(b, k), d.entries[j].1);
      }
    }
  }

  /**
   * Two accepted graphs have the same canonical value if and only if their unfoldings agree up to the order of
   * properties, properties that are undefined, and properties named `__proto__`.
   */
  lemma SameCanonSameUnfolding(h: Heap, v: Value, g: Heap, w: Value)
    requires WellFormed(h) && InHeap(h, v) && WellFormed(g) && InHeap(g, w)
    requires Canonicalize(h, v).Ok? && Canonicalize(g, w).Ok?
    ensures Canonicalize(h, v) == Canonicalize(g, w) <==> SameUnfolding(h, v, g, w)
  {
    hide Inner, WellFormed;
    var a, b := Spot(h, v, {}, []), Spot(g, w, {}, []);
    var c, d := Canonicalize(h, v).value, Canonicalize(g, w).value;
    assert Reads(a, c) && Reads(b, d);
    if c == d {
      forall n: nat ensures Alike(h, v, g, w, n) {
        EqualReadsAlike(a, b, c, n);
      }
    }
    if SameUnfolding(h, v, g, w) {
      AlikeReadsEqual(a, c, b, d);
    }
  }

  /** The documentation has equal digests mean equal content; a property named `__proto__` is lost. */
  lemma ProtoIsDropped(heap: Heap, with: Name, without: Name, text: string)
    requires WellFormed(heap) && with in heap && without in heap
    requires heap[with] == Plain([("__proto__", Str(text))]) && heap[without] == Plain([])
    ensures Canonicalize(heap, Ref(with)) == Canonicalize(heap, Ref(without)) == Ok(CObj([]))
  {
    OnlyProto(text);
    hide Kids, SortedKeys, Inner, Visit, WellFormed;
    CanonicalMeaning.Descend(heap, with, {}, []);
    CanonicalMeaning.Descend(heap, without, {}, []);
    ProtoVisited(heap, with, text);
    VisitNone(heap, [], {without}, []);
    assert {} + {with} == {with} && {} + {without} == {without};
  }

  lemma OnlyProto(text: string)
    ensures DistinctNames([(PROTO, Str(text))]) && DistinctNames([])
    ensures Kids(Plain([(PROTO, Str(text))])) == [(Property(PROTO), Str(text))] && Kids(Plain([])) == []
  {
    var props := [(PROTO, Str(text))];
    assert props[1..] == [] && DefinedKeys(props) == [PROTO];
    assert [PROTO][1..] == [] && Sorted([PROTO]) == Insert(PROTO, Sorted([])) == [PROTO];
    assert Lookup(props, PROTO) == Str(text);
    KidsOf(props);
    KidsOf([]);
    assert DefinedKeys([]) == [] && SortedKeys([]) == [];
  }

  lemma ProtoVisited(heap: Heap, r: Name, text: string)
    requires WellFormed(heap)
    ensures var kids := [(Property(PROTO), Str(text))];
            Visit(heap, kids, 1, {r}, []) == Ok([CStr(text)]) && Entries(kids, [CStr(text)]) == []
  {
    var kids := [(Property(PROTO), Str(text))];
    VisitNone(heap, kids, {r}, []);
    VisitStep(heap, kids, 0, {r}, []);
    assert Inner(heap, Str(text), {r}, [] + [Property(PROTO)]) == Ok(CStr(text));
    hide Inner, Visit, WellFormed;
    assert [] + [CStr(text)] == [CStr(text)];
    assert kids[..0] == [] && [CStr(text)][..0] == [];
  }
}
