/**
 * canonical.ts: canonical values, over object graphs that may share parts or be cyclic.
 */
module Canonical {
  import opened Wrappers

  type Name = nat

  /** A finite number; the sign of zero is not kept. */
  datatype Number = Finite(value: real) | NaN | Infinity(positive: bool)

  datatype Value =
    | Null | Str(text: string) | Bool(flag: bool) | Num(number: Number)
    | BigInt | Symbol | Function | Undefined
    | Ref(name: Name)

  /** Own enumerable properties in their order; an array's holes read as undefined. */
  datatype Obj = Plain(props: seq<(string, Value)>) | Arr(items: seq<Value>) | Date | Unsupported

  type Heap = map<Name, Obj>

  datatype Key = Property(name: string) | Index(index: nat)

  datatype Reason = NotFinite | IsBigInt | IsSymbol | IsFunction | IsUndefined | IsDate | UnsupportedType | ItemUndefined | Cycle

  datatype Failure = Failure(path: seq<Key>, reason: Reason)

  /** The resulting tree. Entries are listed as they are inserted. */
  datatype Canon =
    | CNull | CStr(text: string) | CBool(flag: bool) | CNum(number: Number)
    | CArr(items: seq<Canon>) | CObj(entries: seq<(string, Canon)>)

  const PROTO := "__proto__"

  // ---- Sorting property names ----

  predicate Less(a: string, b: string) {
    b != "" && (a == "" || a[0] < b[0] || (a[0] == b[0] && Less(a[1..], b[1..])))
  }

  lemma {:induction false} LessTotal(a: string, b: string)
    ensures Less(a, b) || Less(b, a) || a == b
    ensures !(Less(a, b) && Less(b, a)) && !Less(a, a)
  {
    if a != "" {
      LessTotal(a[1..], a[1..]);
    }
    if a != "" && b != "" && a[0] == b[0] {
      LessTotal(a[1..], b[1..]);
      assert a == [a[0]] + a[1..] && b == [b[0]] + b[1..];
    }
  }

  /** One is a proper prefix of the other, or has the smaller character where they first differ. */
  lemma {:induction false} LessMeans(a: string, b: string)
    ensures Less(a, b) <==> exists k :: 0 <= k <= |a| && k < |b| && a[..k] == b[..k] && (k == |a| || a[k] < b[k])
  {
    forall k | 0 < k <= |a| && k <= |b| && a[..k] == b[..k] ensures a[0] == b[0] {
      assert a[..k][0] == b[..k][0];
    }
    if a != "" && b != "" && a[0] == b[0] {
      LessMeans(a[1..], b[1..]);
      if k :| 0 <= k <= |a[1..]| && k < |b[1..]| && a[1..][..k] == b[1..][..k] && (k == |a[1..]| || a[1..][k] < b[1..][k]) {
        assert a[..k + 1] == [a[0]] + a[1..][..k] && b[..k + 1] == [b[0]] + b[1..][..k];
      }
      if k :| 0 <= k <= |a| && k < |b| && a[..k] == b[..k] && (k == |a| || a[k] < b[k]) {
        assert k > 0;
        assert a[1..][..k - 1] == a[..k][1..] && b[1..][..k - 1] == b[..k][1..];
      }
    } else if Less(a, b) {
      assert a[..0] == b[..0];
    }
  }

  lemma {:induction false} LessTransitive(a: string, b: string, c: string)
    requires Less(a, b) && Less(b, c)
    ensures Less(a, c)
  {
    if a != "" && a[0] == b[0] == c[0] {
      LessTransitive(a[1..], b[1..], c[1..]);
    }
  }

  predicate Ascending(ks: seq<string>) {
    forall i, j :: 0 <= i < j < |ks| ==> Less(ks[i], ks[j])
  }

  function Insert(k: string, ks: seq<string>): (out: seq<string>)
    requires Ascending(ks) && k !in ks
    ensures Ascending(out) && forall x :: x in out <==> x == k || x in ks
  {
    if ks == [] then [k]
    else if Less(k, ks[0]) then
      assert forall j :: 1 <= j < |ks| && Less(ks[0], ks[j]) ==> Less(k, ks[j]) by {
        forall j | 1 <= j < |ks| && Less(ks[0], ks[j]) ensures Less(k, ks[j]) {
          LessTransitive(k, ks[0], ks[j]);
        }
      }
      [k] + ks
    else
      LessTotal(k, ks[0]);
      var rest := Insert(k, ks[1..]);
      assert forall j :: 0 <= j < |rest| ==> Less(ks[0], rest[j]) by {
        forall j | 0 <= j < |rest| ensures Less(ks[0], rest[j]) {
          assert rest[j] in rest;
        }
      }
      [ks[0]] + rest
  }

  /** Array.prototype.sort on distinct strings. */
  function Sorted(ks: seq<string>): (out: seq<string>)
    requires NoRepeats(ks)
    ensures Ascending(out) && forall x :: x in out <==> x in ks
  {
    if ks == [] then [] else Insert(ks[0], Sorted(ks[1..]))
  }

  lemma {:induction false} AscendingUnique(xs: seq<string>, ys: seq<string>)
    requires Ascending(xs) && Ascending(ys) && forall x :: x in xs <==> x in ys
    ensures xs == ys
  {
    if xs != [] {
      assert xs[0] in xs;
    }
    if ys != [] {
      assert ys[0] in ys;
    }
    if xs != [] {
      LessTotal(xs[0], ys[0]);
      assert xs[0] == ys[0];
      forall x: string ensures x in xs[1..] <==> x in ys[1..] {
        LessTotal(xs[0], xs[0]);
        assert x in xs[1..] ==> x in xs && x != xs[0];
        assert x in ys[1..] ==> x in ys && x != ys[0];
      }
      AscendingUnique(xs[1..], ys[1..]);
    }
  }

  // ---- Objects and their children ----

  function Lookup(props: seq<(string, Value)>, k: string): Value {
    if props == [] then Undefined
    else if props[0].0 == k then props[0].1
    else Lookup(props[1..], k)
  }

  predicate DistinctNames(props: seq<(string, Value)>) {
    forall i, j :: 0 <= i < j < |props| ==> props[i].0 != props[j].0
  }

  /** Object.keys without those whose value is undefined. */
  function DefinedKeys(props: seq<(string, Value)>): (ks: seq<string>)
    requires DistinctNames(props)
    ensures NoRepeats(ks) && forall k :: k in ks <==> !Lookup(props, k).Undefined?
    ensures forall k <- ks :: exists i :: 0 <= i < |props| && props[i].0 == k
  {
    if props == [] then []
    else
      var rest := DefinedKeys(props[1..]);
      assert props[0].0 !in rest;
      assert forall k <- rest :: exists i :: 0 <= i < |props| && props[i].0 == k by {
        forall k | k in rest ensures exists i :: 0 <= i < |props| && props[i].0 == k {
          var i :| 0 <= i < |props[1..]| && props[1..][i].0 == k;
          assert props[i + 1].0 == k;
        }
      }
      if props[0].1.Undefined? then
        assert Lookup(props[1..], props[0].0).Undefined?;
        rest
      else [props[0].0] + rest
  }

  function SortedKeys(props: seq<(string, Value)>): (ks: seq<string>)
    requires DistinctNames(props)
    ensures Ascending(ks) && forall k :: k in ks <==> !Lookup(props, k).Undefined?
  {
    Sorted(DefinedKeys(props))
  }

  predicate Traversed(o: Obj) {
    o.Arr? || (o.Plain? && DistinctNames(o.props))
  }

  /** What is visited below an object, in the order of the visit. */
  function Kids(o: Obj): (kids: seq<(Key, Value)>)
    requires Traversed(o)
  {
    match o
    case Arr(items) => seq(|items|, i requires 0 <= i < |items| => (Index(i), items[i]))
    case Plain(props) =>
      var ks := SortedKeys(props);
      seq(|ks|, i requires 0 <= i < |ks| => (Property(ks[i]), Lookup(props, ks[i])))
  }

  predicate InHeap(heap: Heap, v: Value) {
    v.Ref? ==> v.name in heap
  }

  /** References lead somewhere, and no object has two properties of one name. */
  predicate WellFormed(heap: Heap) {
    forall r <- heap :: KnownKids(heap, heap[r])
  }

  predicate KnownKids(heap: Heap, o: Obj) {
    && (o.Plain? ==> DistinctNames(o.props))
    && (Traversed(o) ==> forall i :: 0 <= i < |Kids(o)| ==> InHeap(heap, Kids(o)[i].1))
  }

  // ---- The transformation ----

  function Leaf(v: Value, path: seq<Key>): Result<Canon, Failure>
    requires !v.Ref?
  {
    match v
    case Null => Ok(CNull)
    case Str(text) => Ok(CStr(text))
    case Bool(flag) => Ok(CBool(flag))
    case Num(n) => if n.Finite? then Ok(CNum(n)) else Err(Failure(path, NotFinite))
    case BigInt => Err(Failure(path, IsBigInt))
    case Symbol => Err(Failure(path, IsSymbol))
    case Function => Err(Failure(path, IsFunction))
    case Undefined => Err(Failure(path, IsUndefined))
  }

  /** Assigning `out["__proto__"]` makes no own property. */
  function Entries(kids: seq<(Key, Value)>, values: seq<Canon>): (out: seq<(string, Canon)>)
    requires |kids| == |values| && forall i :: 0 <= i < |kids| ==> kids[i].0.Property?
  {
    if kids == [] then []
    else
      var n := |kids| - 1;
      var init := Entries(kids[..n], values[..n]);
      if kids[n].0.name == PROTO then init else init + [(kids[n].0.name, values[n])]
  }

  function Built(o: Obj, values: seq<Canon>): Canon
    requires Traversed(o) && |values| == |Kids(o)|
  {
    if o.Arr? then CArr(values) else CObj(Entries(Kids(o), values))
  }

  /** transformInner, below the objects in `seen`. */
  function Inner(heap: Heap, v: Value, seen: set<Name>, path: seq<Key>): Result<Canon, Failure>
    requires WellFormed(heap) && InHeap(heap, v)
    decreases |heap.Keys - seen|, 0
  {
    if !v.Ref? then Leaf(v, path)
    else
      var o := heap[v.name];
      if o.Date? then Err(Failure(path, IsDate))
      else if o.Unsupported? then Err(Failure(path, UnsupportedType))
      else if v.name in seen then Err(Failure(path, Cycle))
      else
        assert heap.Keys - (seen + {v.name}) < heap.Keys - seen;
        FewerLeft(heap.Keys - (seen + {v.name}), heap.Keys - seen);
        assert KnownKids(heap, o);
        var values := Visit(heap, Kids(o), |Kids(o)|, seen + {v.name}, path);
        if values.Err? then Err(values.error) else Ok(Built(o, values.value))
  }

  /** The first n children; the first failure stops the visit. */
  function Visit(heap: Heap, kids: seq<(Key, Value)>, n: nat, seen: set<Name>, path: seq<Key>): (r: Result<seq<Canon>, Failure>)
    requires WellFormed(heap) && n <= |kids| && forall i :: 0 <= i < |kids| ==> InHeap(heap, kids[i].1)
    ensures r.Ok? ==> |r.value| == n
    decreases |heap.Keys - seen|, n + 1
  {
    if n == 0 then Ok([])
    else
      var before := Visit(heap, kids, n - 1, seen, path);
      if before.Err? then before
      else if kids[n - 1].1.Undefined? then Err(Failure(path, ItemUndefined))
      else
        var r := Inner(heap, kids[n - 1].1, seen, path + [kids[n - 1].0]);
        if r.Err? then Err(r.error) else Ok(before.value + [r.value])
  }

  lemma FewerLeft(xs: set<Name>, ys: set<Name>)
    requires xs < ys
    ensures |xs| < |ys|
  {
    assert ys == xs + (ys - xs);
    assert ys - xs != {};
  }

  function Canonicalize(heap: Heap, v: Value): Result<Canon, Failure>
    requires WellFormed(heap) && InHeap(heap, v)
  {
    Inner(heap, v, {}, [])
  }

  class CanonicalContext {
    const heap: Heap
    var seen: set<Name>
    var path: seq<Key>

    constructor (heap: Heap)
      ensures this.heap == heap && seen == {} && path == []
    {
      this.heap := heap;
      seen, path := {}, [];
    }

    method Transform(v: Value, key: Key) returns (r: Result<Canon, Failure>)
      requires WellFormed(heap) && InHeap(heap, v)
      modifies this
      ensures r == Inner(heap, v, old(seen), old(path) + [key])
      ensures seen == old(seen) && path == old(path)
      decreases |heap.Keys - seen|, 1
    {
      hide Inner;
      path := path + [key];
      r := TransformInner(v);
      path := path[..|path| - 1];
    }

    method TransformInner(v: Value) returns (r: Result<Canon, Failure>)
      requires WellFormed(heap) && InHeap(heap, v)
      modifies this
      ensures r == Inner(heap, v, old(seen), old(path))
      ensures seen == old(seen) && path == old(path)
      decreases |heap.Keys - seen|, 0
    {
      hide Visit, Kids, WellFormed, Leaf;
      if !v.Ref? {
        return Leaf(v, path);
      }
      var o := heap[v.name];
      if o.Date? {
        return Err(Failure(path, IsDate));
      }
      if o.Unsupported? {
        return Err(Failure(path, UnsupportedType));
      }
      if v.name in seen {
        return Err(Failure(path, Cycle));
      }
      KidsKnown(heap, v.name);
      FewerLeft(heap.Keys - (seen + {v.name}), heap.Keys - seen);
      seen := seen + {v.name};
      var values := VisitKids(Kids(o));
      seen := seen - {v.name};
      r := if values.Err? then Err(values.error) else Ok(Built(o, values.value));
    }

    /** Both loops of the source: over an array's items and over an object's sorted keys. */
    method VisitKids(kids: seq<(Key, Value)>) returns (r: Result<seq<Canon>, Failure>)
      requires WellFormed(heap) && forall i :: 0 <= i < |kids| ==> InHeap(heap, kids[i].1)
      modifies this
      ensures r == Visit(heap, kids, |kids|, old(seen), old(path))
      ensures seen == old(seen) && path == old(path)
      decreases |heap.Keys - seen|, 2
    {
      hide WellFormed, Inner, Visit;
      var out: seq<Canon> := [];
      VisitNone(heap, kids, seen, path);
      for i := 0 to |kids|
        invariant seen == old(seen) && path == old(path)
        invariant Visit(heap, kids, i, seen, path) == Ok(out)
      {
        VisitStep(heap, kids, i, seen, path);
        VisitStops(heap, kids, i + 1, seen, path);
        if kids[i].1.Undefined? {
          return Err(Failure(path, ItemUndefined));
        }
        var item := Transform(kids[i].1, kids[i].0);
        if item.Err? {
          return Err(item.error);
        }
        out := out + [item.value];
      }
      return Ok(out);
    }
  }

  lemma KidsKnown(heap: Heap, r: Name)
    requires WellFormed(heap) && r in heap && (heap[r].Plain? || heap[r].Arr?)
    ensures Traversed(heap[r]) && forall i :: 0 <= i < |Kids(heap[r])| ==> InHeap(heap, Kids(heap[r])[i].1)
  {
    assert KnownKids(heap, heap[r]);
  }

  lemma VisitNone(heap: Heap, kids: seq<(Key, Value)>, seen: set<Name>, path: seq<Key>)
    requires WellFormed(heap) && forall i :: 0 <= i < |kids| ==> InHeap(heap, kids[i].1)
    ensures Visit(heap, kids, 0, seen, path) == Ok([])
  {}

  lemma VisitStep(heap: Heap, kids: seq<(Key, Value)>, n: nat, seen: set<Name>, path: seq<Key>)
    requires WellFormed(heap) && n < |kids| && forall i :: 0 <= i < |kids| ==> InHeap(heap, kids[i].1)
    requires Visit(heap, kids, n, seen, path).Ok?
    ensures var r := Inner(heap, kids[n].1, seen, path + [kids[n].0]);
            Visit(heap, kids, n + 1, seen, path)
            == if kids[n].1.Undefined? then Err(Failure(path, ItemUndefined))
               else if r.Err? then Err(r.error)
               else Ok(Visit(heap, kids, n, seen, path).value + [r.value])
  {
    hide Inner, WellFormed;
  }

  lemma {:induction false} VisitStops(heap: Heap, kids: seq<(Key, Value)>, n: nat, seen: set<Name>, path: seq<Key>)
    requires WellFormed(heap) && n <= |kids| && forall i :: 0 <= i < |kids| ==> InHeap(heap, kids[i].1)
    ensures Visit(heap, kids, n, seen, path).Err? ==> Visit(heap, kids, |kids|, seen, path) == Visit(heap, kids, n, seen, path)
    decreases |kids| - n
  {
    if n < |kids| {
      VisitStops(heap, kids, n + 1, seen, path);
    }
  }
}
