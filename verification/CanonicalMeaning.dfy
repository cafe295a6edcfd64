/**
 * What a canonical value says about the object graph it came from: which graphs have one, and when two graphs have
 * the same.
 */
module CanonicalMeaning {
  import opened Wrappers
  import opened Canonical

  // ---- Which graphs are accepted ----

  predicate LeafGood(v: Value) {
    v.Ref? || v.Null? || v.Str? || v.Bool? || (v.Num? && v.number.Finite?)
  }

  /**
   * Null, strings, booleans and finite numbers are their own canonical values, wherever they stand. NaN, the infinities and
   * the leaves JSON does not know fail there, each for its own reason.
   */
  lemma LeavesMean(heap: Heap, v: Value, seen: set<Name>, path: seq<Key>)
    requires WellFormed(heap) && !v.Ref?
    ensures Inner(heap, v, seen, path).Ok? <==> LeafGood(v)
    ensures v.Null? ==> Inner(heap, v, seen, path) == Ok(CNull)
    ensures forall text :: v == Str(text) ==> Inner(heap, v, seen, path) == Ok(CStr(text))
    ensures forall flag :: v == Bool(flag) ==> Inner(heap, v, seen, path) == Ok(CBool(flag))
    ensures forall x :: v == Num(Finite(x)) ==> Inner(heap, v, seen, path) == Ok(CNum(Finite(x)))
    ensures !LeafGood(v) ==>
              exists reason :: Inner(heap, v, seen, path) == Err(Failure(path, reason)) && Blames(heap, v, reason)
  {
    if !LeafGood(v) {
      var reason := match v
        case Num(_) => NotFinite
        case BigInt => IsBigInt
        case Symbol => IsSymbol
        case Function => IsFunction
        case _ => IsUndefined;
      assert Inner(heap, v, seen, path) == Err(Failure(path, reason)) && Blames(heap, v, reason);
    }
  }

  /** What is wrong with the value a failure other than a cycle points at. */
  ghost predicate Blames(heap: Heap, v: Value, reason: Reason) {
    match reason
    case NotFinite => v.Num? && !v.number.Finite?
    case IsBigInt => v.BigInt?
    case IsSymbol => v.Symbol?
    case IsFunction => v.Function?
    case IsUndefined => v.Undefined?
    case IsDate => v.Ref? && v.name in heap && heap[v.name].Date?
    case UnsupportedType => v.Ref? && v.name in heap && heap[v.name].Unsupported?
    case ItemUndefined => v.Ref? && v.name in heap && heap[v.name].Arr? && Undefined in heap[v.name].items
    case Cycle => false
  }

  /** A plain object or an array, with no unsupported leaf among its children. */
  predicate NodeGood(heap: Heap, r: Name) {
    r in heap && Traversed(heap[r]) && forall i :: 0 <= i < |Kids(heap[r])| ==> LeafGood(Kids(heap[r])[i].1)
  }

  /** The objects on a way down from v, in order. */
  predicate Walk(heap: Heap, v: Value, p: seq<Name>)
    decreases |p|
  {
    p == []
    || (v == Ref(p[0]) && p[0] in heap
        && (|p| == 1
            || (Traversed(heap[p[0]])
                && exists i :: 0 <= i < |Kids(heap[p[0]])| && Walk(heap, Kids(heap[p[0]])[i].1, p[1..]))))
  }

  /** Only plain objects, arrays and JSON leaves can be reached. */
  ghost predicate Acceptable(heap: Heap, v: Value) {
    LeafGood(v) && forall p: seq<Name> | Walk(heap, v, p) :: forall r <- p :: NodeGood(heap, r)
  }

  /** No way down passes an object twice. Shared parts are no matter. */
  ghost predicate Acyclic(heap: Heap, v: Value) {
    forall p: seq<Name> | Walk(heap, v, p) :: NoRepeats(p)
  }

  ghost predicate Fine(heap: Heap, v: Value, seen: set<Name>) {
    LeafGood(v) && forall p: seq<Name> | Walk(heap, v, p) :: FineWalk(heap, p, seen)
  }

  predicate FineWalk(heap: Heap, p: seq<Name>, seen: set<Name>) {
    NoRepeats(p) && forall r <- p :: r !in seen && NodeGood(heap, r)
  }

  lemma FineLeaf(heap: Heap, v: Value, seen: set<Name>)
    requires !v.Ref?
    ensures Fine(heap, v, seen) <==> LeafGood(v)
  {
    assert forall p: seq<Name> | Walk(heap, v, p) :: p == [];
  }

  lemma FineObject(heap: Heap, r: Name, seen: set<Name>)
    requires r in heap
    ensures Fine(heap, Ref(r), seen) <==>
            && r !in seen && NodeGood(heap, r)
            && forall i :: 0 <= i < |Kids(heap[r])| ==> Fine(heap, Kids(heap[r])[i].1, seen + {r})
  {
    if Fine(heap, Ref(r), seen) {
      assert Walk(heap, Ref(r), [r]);
      assert r in [r];
      forall i | 0 <= i < |Kids(heap[r])| ensures Fine(heap, Kids(heap[r])[i].1, seen + {r}) {
        FineKid(heap, r, i, seen);
      }
    }
    if r !in seen && NodeGood(heap, r)
       && forall i :: 0 <= i < |Kids(heap[r])| ==> Fine(heap, Kids(heap[r])[i].1, seen + {r}) {
      forall p: seq<Name> | Walk(heap, Ref(r), p) ensures FineWalk(heap, p, seen) {
        if |p| > 1 {
          var i :| 0 <= i < |Kids(heap[r])| && Walk(heap, Kids(heap[r])[i].1, p[1..]);
          assert FineWalk(heap, p[1..], seen + {r});
          assert p == [r] + p[1..];
          FineLonger(heap, r, p[1..], seen);
        }
      }
    }
  }

  lemma FineLonger(heap: Heap, r: Name, q: seq<Name>, seen: set<Name>)
    ensures FineWalk(heap, [r] + q, seen) <==> r !in seen && NodeGood(heap, r) && FineWalk(heap, q, seen + {r})
  {
    hide NodeGood;
    var p := [r] + q;
    if FineWalk(heap, p, seen) {
      assert r in p;
      forall x | x in q ensures x !in seen + {r} && NodeGood(heap, x) {
        var i :| 0 <= i < |q| && q[i] == x;
        assert p[i + 1] == x && p[0] == r;
      }
      forall i, j | 0 <= i < j < |q| ensures q[i] != q[j] {
        assert p[i + 1] == q[i] && p[j + 1] == q[j];
      }
    }
    if r !in seen && NodeGood(heap, r) && FineWalk(heap, q, seen + {r}) {
      forall i, j | 0 <= i < j < |p| ensures p[i] != p[j] {
        assert p[j] in q;
      }
    }
  }

  lemma FineKid(heap: Heap, r: Name, i: nat, seen: set<Name>)
    requires r in heap && NodeGood(heap, r) && i < |Kids(heap[r])| && Fine(heap, Ref(r), seen)
    ensures Fine(heap, Kids(heap[r])[i].1, seen + {r})
  {
    var kid := Kids(heap[r])[i].1;
    forall q | Walk(heap, kid, q) ensures FineWalk(heap, q, seen + {r}) {
      if q != [] {
        var p := [r] + q;
        assert p[1..] == q;
        assert Walk(heap, Ref(r), p);
        FineLonger(heap, r, q, seen);
      }
    }
  }

  /** Whether the transformation goes below this object. */
  predicate Enters(heap: Heap, r: Name, seen: set<Name>) {
    r in heap && (heap[r].Plain? || heap[r].Arr?) && r !in seen
  }

  lemma Descend(heap: Heap, r: Name, seen: set<Name>, path: seq<Key>)
    requires WellFormed(heap) && Enters(heap, r, seen)
    ensures Traversed(heap[r]) && forall i :: 0 <= i < |Kids(heap[r])| ==> InHeap(heap, Kids(heap[r])[i].1)
    ensures var values := Visit(heap, Kids(heap[r]), |Kids(heap[r])|, seen + {r}, path);
            Inner(heap, Ref(r), seen, path) == if values.Err? then Err(values.error) else Ok(Built(heap[r], values.value))
    ensures |heap.Keys - (seen + {r})| < |heap.Keys - seen|
  {
    KidsKnown(heap, r);
    FewerLeft(heap.Keys - (seen + {r}), heap.Keys - seen);
    hide Visit, Kids, Built;
  }

  lemma FineEntered(heap: Heap, r: Name, seen: set<Name>)
    requires WellFormed(heap) && r in heap
    ensures !Enters(heap, r, seen) ==> !Fine(heap, Ref(r), seen)
    ensures Enters(heap, r, seen) ==>
              Traversed(heap[r])
              && (Fine(heap, Ref(r), seen) <==> forall i :: 0 <= i < |Kids(heap[r])| ==> Fine(heap, Kids(heap[r])[i].1, seen + {r}))
  {
    FineObject(heap, r, seen);
    if Enters(heap, r, seen) {
      KidsKnown(heap, r);
    }
    hide Fine, Kids, WellFormed, LeafGood;
    forall i | Enters(heap, r, seen) && 0 <= i < |Kids(heap[r])|
      ensures Fine(heap, Kids(heap[r])[i].1, seen + {r}) ==> LeafGood(Kids(heap[r])[i].1)
    {
      FineIsLeafGood(heap, Kids(heap[r])[i].1, seen + {r});
    }
  }

  lemma Refused(heap: Heap, r: Name, seen: set<Name>, path: seq<Key>)
    requires WellFormed(heap) && r in heap && !Enters(heap, r, seen)
    ensures Inner(heap, Ref(r), seen, path).Err?
    ensures Inner(heap, Ref(r), seen, path).error.reason == Cycle <==> r in seen && (heap[r].Plain? || heap[r].Arr?)
  {}

  lemma {:induction false} VisitOk(heap: Heap, kids: seq<(Key, Value)>, n: nat, seen: set<Name>, path: seq<Key>)
    requires WellFormed(heap) && n <= |kids| && forall i :: 0 <= i < |kids| ==> InHeap(heap, kids[i].1)
    ensures Visit(heap, kids, n, seen, path).Ok? <==>
            forall i :: 0 <= i < n ==> !kids[i].1.Undefined? && Inner(heap, kids[i].1, seen, path + [kids[i].0]).Ok?
  {
    hide Inner, WellFormed;
    if n > 0 {
      VisitOk(heap, kids, n - 1, seen, path);
    }
  }

  lemma EnteredOk(heap: Heap, r: Name, seen: set<Name>, path: seq<Key>)
    requires WellFormed(heap) && Enters(heap, r, seen) && Traversed(heap[r])
    requires forall i :: 0 <= i < |Kids(heap[r])| ==> InHeap(heap, Kids(heap[r])[i].1)
    requires forall i :: 0 <= i < |Kids(heap[r])| ==>
               var kid := Kids(heap[r])[i];
               Inner(heap, kid.1, seen + {r}, path + [kid.0]).Ok? <==> Fine(heap, kid.1, seen + {r})
    ensures Inner(heap, Ref(r), seen, path).Ok? <==> Fine(heap, Ref(r), seen)
  {
    Descend(heap, r, seen, path);
    FineEntered(heap, r, seen);
    var kids, below := Kids(heap[r]), seen + {r};
    hide Kids, Fine, Visit, WellFormed, Inner, Built, LeafGood, Enters, NodeGood, Traversed;
    VisitOk(heap, kids, |kids|, below, path);
    forall i | 0 <= i < |kids| ensures Fine(heap, kids[i].1, below) ==> !kids[i].1.Undefined? {
      FineIsLeafGood(heap, kids[i].1, below);
    }
  }

  lemma {:induction false} InnerOk(heap: Heap, v: Value, seen: set<Name>, path: seq<Key>)
    requires WellFormed(heap) && InHeap(heap, v)
    ensures Inner(heap, v, seen, path).Ok? <==> Fine(heap, v, seen)
    decreases |heap.Keys - seen|
  {
    if !v.Ref? {
      FineLeaf(heap, v, seen);
    } else {
      hide Kids, Fine, Visit, WellFormed, Inner, Built, LeafGood, Enters, NodeGood, Traversed;
      FineEntered(heap, v.name, seen);
      if Enters(heap, v.name, seen) {
        Descend(heap, v.name, seen, path);
        var kids := Kids(heap[v.name]);
        forall i | 0 <= i < |kids|
          ensures Inner(heap, kids[i].1, seen + {v.name}, path + [kids[i].0]).Ok? <==> Fine(heap, kids[i].1, seen + {v.name})
        {
          InnerOk(heap, kids[i].1, seen + {v.name}, path + [kids[i].0]);
        }
        EnteredOk(heap, v.name, seen, path);
      } else {
        Refused(heap, v.name, seen, path);
      }
    }
  }

  lemma FineIsLeafGood(heap: Heap, v: Value, seen: set<Name>)
    ensures Fine(heap, v, seen) ==> LeafGood(v) && !v.Undefined?
  {}

  /** A graph has a canonical value if and only if all that can be reached is JSON-like and no cycle can be reached. */
  lemma AcceptedGraphs(heap: Heap, v: Value)
    requires WellFormed(heap) && InHeap(heap, v)
    ensures Canonicalize(heap, v).Ok? <==> Acceptable(heap, v) && Acyclic(heap, v)
  {
    InnerOk(heap, v, {}, []);
    hide Inner, Walk, NodeGood;
    forall p: seq<Name> ensures FineWalk(heap, p, {}) <==> NoRepeats(p) && forall r <- p :: NodeGood(heap, r) {}
  }

  // ---- The cycle failure ----

  lemma {:induction false} VisitErr(heap: Heap, kids: seq<(Key, Value)>, n: nat, seen: set<Name>, path: seq<Key>) returns (i: nat)
    requires WellFormed(heap) && n <= |kids| && forall i :: 0 <= i < |kids| ==> InHeap(heap, kids[i].1)
    requires Visit(heap, kids, n, seen, path).Err?
    ensures i < n
    ensures var error, r := Visit(heap, kids, n, seen, path).error, Inner(heap, kids[i].1, seen, path + [kids[i].0]);
            if kids[i].1.Undefined? then error == Failure(path, ItemUndefined) else r == Err(error)
  {
    hide Inner, WellFormed;
    if Visit(heap, kids, n - 1, seen, path).Err? {
      i := VisitErr(heap, kids, n - 1, seen, path);
    } else {
      i := n - 1;
    }
  }

  // ---- Where a failure points ----

  /** The value a path of keys leads to. */
  function Follow(heap: Heap, root: Value, path: seq<Key>): Option<Value> {
    if path == [] then Some(root)
    else
      var above, key := Follow(heap, root, path[..|path| - 1]), path[|path| - 1];
      if above.None? || !above.value.Ref? || above.value.name !in heap then None
      else
        match (heap[above.value.name], key)
        case (Arr(items), Index(i)) => if i < |items| then Some(items[i]) else None
        case (Plain(props), Property(k)) => Some(Lookup(props, k))
        case _ => None
  }

  lemma FollowOn(heap: Heap, root: Value, path: seq<Key>, r: Name, i: nat)
    requires Follow(heap, root, path) == Some(Ref(r)) && r in heap && Traversed(heap[r]) && i < |Kids(heap[r])|
    ensures Follow(heap, root, path + [Kids(heap[r])[i].0]) == Some(Kids(heap[r])[i].1)
  {
    var longer := path + [Kids(heap[r])[i].0];
    assert longer[..|longer| - 1] == path;
  }

  /** Only an array can have an undefined kid. */
  lemma UndefinedKid(o: Obj, i: nat)
    requires Traversed(o) && i < |Kids(o)| && Kids(o)[i].1.Undefined?
    ensures o.Arr? && Undefined in o.items
  {}

  /** The objects entered on the way are those the prefixes of the path lead to. */
  ghost predicate Passed(heap: Heap, root: Value, seen: set<Name>, path: seq<Key>) {
    forall r <- seen :: exists j :: 0 <= j < |path| && Follow(heap, root, path[..j]) == Some(Ref(r))
  }

  ghost predicate PointsAt(heap: Heap, root: Value, f: Failure) {
    if f.reason == Cycle then
      exists j :: 0 <= j < |f.path| && Follow(heap, root, f.path[..j]).Some? && Follow(heap, root, f.path[..j]) == Follow(heap, root, f.path)
    else Follow(heap, root, f.path).Some? && Blames(heap, Follow(heap, root, f.path).value, f.reason)
  }

  lemma PassedOn(heap: Heap, root: Value, seen: set<Name>, path: seq<Key>, r: Name, key: Key)
    requires Passed(heap, root, seen, path) && Follow(heap, root, path) == Some(Ref(r))
    ensures Passed(heap, root, seen + {r}, path + [key])
  {
    var longer := path + [key];
    forall x | x in seen + {r} ensures exists j :: 0 <= j < |longer| && Follow(heap, root, longer[..j]) == Some(Ref(x)) {
      if x == r {
        assert longer[..|path|] == path;
      } else {
        var j :| 0 <= j < |path| && Follow(heap, root, path[..j]) == Some(Ref(x));
        assert longer[..j] == path[..j];
      }
    }
  }

  lemma RefusedPoints(heap: Heap, root: Value, r: Name, seen: set<Name>, path: seq<Key>)
    requires WellFormed(heap) && r in heap && !Enters(heap, r, seen)
    requires Follow(heap, root, path) == Some(Ref(r)) && Passed(heap, root, seen, path)
    ensures Inner(heap, Ref(r), seen, path).Err? && PointsAt(heap, root, Inner(heap, Ref(r), seen, path).error)
  {
    if r in seen {
      var j :| 0 <= j < |path| && Follow(heap, root, path[..j]) == Some(Ref(r));
    }
  }

  lemma {:induction false} InnerPoints(heap: Heap, root: Value, v: Value, seen: set<Name>, path: seq<Key>)
    requires WellFormed(heap) && InHeap(heap, v) && Inner(heap, v, seen, path).Err?
    requires Follow(heap, root, path) == Some(v) && Passed(heap, root, seen, path)
    ensures PointsAt(heap, root, Inner(heap, v, seen, path).error)
    decreases |heap.Keys - seen|
  {
    if !v.Ref? {
      LeavesMean(heap, v, seen, path);
    } else if !Enters(heap, v.name, seen) {
      RefusedPoints(heap, root, v.name, seen, path);
    } else {
      hide Inner, Visit, Kids, Built, WellFormed, Follow, Passed, Blames;
      Descend(heap, v.name, seen, path);
      var kids, below := Kids(heap[v.name]), seen + {v.name};
      var i := VisitErr(heap, kids, |kids|, below, path);
      if kids[i].1.Undefined? {
        UndefinedKid(heap[v.name], i);
        UndefinedPoints(heap, root, v.name, path);
      } else {
        FollowOn(heap, root, path, v.name, i);
        PassedOn(heap, root, seen, path, v.name, kids[i].0);
        InnerPoints(heap, root, kids[i].1, below, path + [kids[i].0]);
      }
    }
  }

  lemma UndefinedPoints(heap: Heap, root: Value, r: Name, path: seq<Key>)
    requires r in heap && heap[r].Arr? && Undefined in heap[r].items && Follow(heap, root, path) == Some(Ref(r))
    ensures PointsAt(heap, root, Failure(path, ItemUndefined))
  {}

  /**
   * A failure names a path, and the path leads to what the failure says: a leaf JSON does not know, an object that is
   * neither plain nor an array, an array with an undefined item, or an object the path has passed before.
   */
  lemma FailureTells(heap: Heap, v: Value)
    requires WellFormed(heap) && InHeap(heap, v)
    ensures Canonicalize(heap, v).Err? ==> PointsAt(heap, v, Canonicalize(heap, v).error)
  {
    if Canonicalize(heap, v).Err? {
      InnerPoints(heap, v, v, {}, []);
    }
  }

  lemma WalkLonger(heap: Heap, r: Name, i: nat, q: seq<Name>)
    requires r in heap && Traversed(heap[r]) && i < |Kids(heap[r])| && Walk(heap, Kids(heap[r])[i].1, q)
    ensures Walk(heap, Ref(r), [r] + q)
  {
    assert ([r] + q)[1..] == q;
  }

  /** "cycle detected" is only ever said of a graph with a reachable cycle. */
  lemma {:induction false} CycleIsReal(heap: Heap, v: Value, seen: set<Name>, path: seq<Key>) returns (p: seq<Name>)
    requires WellFormed(heap) && InHeap(heap, v)
    requires Inner(heap, v, seen, path).Err? && Inner(heap, v, seen, path).error.reason == Cycle
    ensures Walk(heap, v, p) && p != [] && (p[|p| - 1] in seen || !NoRepeats(p))
    decreases |heap.Keys - seen|
  {
    assert v.Ref?;
    if !Enters(heap, v.name, seen) {
      Refused(heap, v.name, seen, path);
      p := [v.name];
    } else {
      hide Inner, Visit, Kids, Walk, Built, WellFormed, Enters, NoRepeats;
      Descend(heap, v.name, seen, path);
      var kids, below := Kids(heap[v.name]), seen + {v.name};
      var i := VisitErr(heap, kids, |kids|, below, path);
      var q := CycleIsReal(heap, kids[i].1, below, path + [kids[i].0]);
      p := [v.name] + q;
      WalkLonger(heap, v.name, i, q);
      LongerEnds(v.name, q, seen);
    }
  }

  lemma LongerEnds(r: Name, q: seq<Name>, seen: set<Name>)
    requires q != [] && (q[|q| - 1] in seen + {r} || !NoRepeats(q))
    ensures var p := [r] + q; p[|p| - 1] in seen || !NoRepeats(p)
  {
    var p := [r] + q;
    assert p[|p| - 1] == q[|q| - 1] && p[0] == r;
    assert forall i :: 0 <= i < |q| ==> q[i] == p[i + 1];
  }

  lemma AcceptableKid(heap: Heap, r: Name, i: nat)
    requires Acceptable(heap, Ref(r)) && r in heap
    ensures NodeGood(heap, r) && Traversed(heap[r])
    ensures i < |Kids(heap[r])| ==> Acceptable(heap, Kids(heap[r])[i].1) && !Kids(heap[r])[i].1.Undefined?
  {
    assert Walk(heap, Ref(r), [r]) && r in [r];
    if i < |Kids(heap[r])| {
      var kid := Kids(heap[r])[i].1;
      forall q, x | Walk(heap, kid, q) && x in q ensures NodeGood(heap, x) {
        WalkLonger(heap, r, i, q);
        assert x in [r] + q;
      }
    }
  }

  lemma {:induction false} OnlyCyclesFail(heap: Heap, v: Value, seen: set<Name>, path: seq<Key>)
    requires WellFormed(heap) && InHeap(heap, v) && Acceptable(heap, v)
    ensures Inner(heap, v, seen, path).Err? ==> Inner(heap, v, seen, path).error.reason == Cycle
    decreases |heap.Keys - seen|
  {
    if v.Ref? {
      hide Inner, Visit, Kids, Walk, Built, Acceptable, WellFormed, NodeGood;
      AcceptableKid(heap, v.name, 0);
      if !Enters(heap, v.name, seen) {
        Refused(heap, v.name, seen, path);
      } else if Inner(heap, v, seen, path).Err? {
        Descend(heap, v.name, seen, path);
        var kids, below := Kids(heap[v.name]), seen + {v.name};
        var i := VisitErr(heap, kids, |kids|, below, path);
        AcceptableKid(heap, v.name, i);
        OnlyCyclesFail(heap, kids[i].1, below, path + [kids[i].0]);
      }
    } else {
      hide Acceptable;
      LeafOk(heap, v, path);
    }
  }

  lemma LeafOk(heap: Heap, v: Value, path: seq<Key>)
    requires !v.Ref? && Acceptable(heap, v) && WellFormed(heap)
    ensures Inner(heap, v, {}, path).Ok? && Leaf(v, path).Ok?
  {}

  /**
   * The cycle failure means a reachable cycle; and over plain objects, arrays and JSON leaves, a reachable cycle is
   * reported as one and nothing else fails.
   */
  lemma CyclesAreReported(heap: Heap, v: Value)
    requires WellFormed(heap) && InHeap(heap, v)
    ensures var r := Canonicalize(heap, v);
            && (r.Err? && r.error.reason == Cycle ==> !Acyclic(heap, v))
            && (Acceptable(heap, v) ==> if Acyclic(heap, v) then r.Ok? else r.Err? && r.error.reason == Cycle)
  {
    AcceptedGraphs(heap, v);
    hide Inner, Walk;
    var r := Canonicalize(heap, v);
    if r.Err? && r.error.reason == Cycle {
      var p := CycleIsReal(heap, v, {}, []);
      assert Walk(heap, v, p) && !NoRepeats(p);
    }
    if Acceptable(heap, v) {
      OnlyCyclesFail(heap, v, {}, []);
    }
  }
}
