/**
 * graph.ts: the topological sort, for any list of nodes, repeated ones included.
 */
module TopoSort {
  import opened Wrappers
  import opened Graph

  function Count(s: seq<Node>, n: Node): nat {
    multiset(s)[n]
  }

  /** The edges from the listed nodes to `m`, each as often as it is given. */
  function InDegree(list: seq<Node>, edges: EdgeFn, m: Node): nat {
    if list == [] then 0
    else InDegree(list[..|list| - 1], edges, m) + Count(edges(list[|list| - 1]), m)
  }

  lemma InDegreeSnoc(list: seq<Node>, n: Node, edges: EdgeFn, m: Node)
    ensures InDegree(list + [n], edges, m) == InDegree(list, edges, m) + Count(edges(n), m)
  {
    assert (list + [n])[..|list|] == list;
  }

  lemma CountSnoc(s: seq<Node>, n: Node, m: Node)
    ensures Count(s + [n], m) == Count(s, m) + if m == n then 1 else 0
  {}

  lemma CountPositive(s: seq<Node>, n: Node)
    ensures n in s <==> Count(s, n) > 0
  {}

  /** Taking a node out of the list takes away exactly its edges. */
  lemma {:induction false} InDegreeWithout(list: seq<Node>, i: nat, edges: EdgeFn, m: Node)
    requires i < |list|
    ensures InDegree(list, edges, m) == InDegree(list[..i] + list[i + 1..], edges, m) + Count(edges(list[i]), m)
  {
    var init, last := list[..|list| - 1], list[|list| - 1];
    if i < |init| {
      InDegreeWithout(init, i, edges, m);
      assert list[..i] + list[i + 1..] == (init[..i] + init[i + 1..]) + [last];
      InDegreeSnoc(init[..i] + init[i + 1..], last, edges, m);
      assert init[i] == list[i];
    } else {
      assert list[..i] + list[i + 1..] == init;
    }
  }

  /**
   * A part of a list has no more edges to `m` than the list; when it has fewer, some node that is missing
   * from the part has an edge to `m`, and any missing node with one makes it fewer.
   */
  lemma {:induction false} InDegreeOfPart(part: seq<Node>, list: seq<Node>, edges: EdgeFn, m: Node)
    requires multiset(part) <= multiset(list)
    ensures InDegree(part, edges, m) <= InDegree(list, edges, m)
    ensures InDegree(part, edges, m) < InDegree(list, edges, m) <==>
              exists p :: Count(part, p) < Count(list, p) && m in edges(p)
    decreases |part| + |list|
  {
    if part == [] {
      InDegreePositive(list, edges, m);
    } else {
      hide Count, InDegree;
      var init, last := part[..|part| - 1], part[|part| - 1];
      assert part == init + [last];
      PartHolds(init, last, list);
      var i :| 0 <= i < |list| && list[i] == last;
      var rest := list[..i] + list[i + 1..];
      InDegreeWithout(list, i, edges, m);
      InDegreeSnoc(init, last, edges, m);
      CountWithout(list, i);
      forall p ensures Count(part, p) == Count(init, p) + if p == last then 1 else 0 {
        CountSnoc(init, last, p);
      }
      PartWithout(init, last, list, i);
      InDegreeOfPart(init, rest, edges, m);
    }
  }

  lemma PartHolds(init: seq<Node>, last: Node, list: seq<Node>)
    requires multiset(init + [last]) <= multiset(list)
    ensures last in list
  {
    assert multiset(init + [last])[last] > 0;
  }

  lemma CountWithout(list: seq<Node>, i: nat)
    requires i < |list|
    ensures forall p :: Count(list, p) == Count(list[..i] + list[i + 1..], p) + if p == list[i] then 1 else 0
  {
    assert list == list[..i] + [list[i]] + list[i + 1..];
  }

  lemma PartWithout(init: seq<Node>, last: Node, list: seq<Node>, i: nat)
    requires multiset(init + [last]) <= multiset(list) && i < |list| && list[i] == last
    ensures multiset(init) <= multiset(list[..i] + list[i + 1..])
  {
    CountWithout(list, i);
    forall p ensures multiset(init)[p] <= multiset(list[..i] + list[i + 1..])[p] {
      assert Count(list, p) == Count(list[..i] + list[i + 1..], p) + if p == last then 1 else 0;
      CountSnoc(init, last, p);
      assert multiset(init + [last])[p] <= multiset(list)[p];
    }
  }

  lemma {:induction false} InDegreePositive(list: seq<Node>, edges: EdgeFn, m: Node)
    ensures InDegree(list, edges, m) > 0 <==> exists p :: Count([], p) < Count(list, p) && m in edges(p)
  {
    if list != [] {
      var init, last := list[..|list| - 1], list[|list| - 1];
      InDegreePositive(init, edges, m);
      assert list == init + [last];
      CountPositive(edges(last), m);
      forall p ensures Count(list, p) == Count(init, p) + if p == last then 1 else 0 {
        CountSnoc(init, last, p);
      }
    }
  }

  // ---- The order under construction ----

  /** How often the algorithm has emitted or queued `x`: every copy of a source, one copy of a released node. */
  function Quota(nodes: seq<Node>, edges: EdgeFn, indegree: map<Node, int>, x: Node): nat {
    if x !in nodes || x !in indegree then 0
    else if InDegree(nodes, edges, x) == 0 then Count(nodes, x)
    else if indegree[x] <= 0 then 1
    else 0
  }

  /** `pending` counts the edges of the node now being processed that are already taken off. */
  ghost predicate Counts(nodes: seq<Node>, edges: EdgeFn, indegree: map<Node, int>, order: seq<Node>, taken: seq<Node>) {
    && (forall x :: x in indegree <==> x in nodes)
    && forall x :: x in indegree ==> indegree[x] == InDegree(nodes, edges, x) - InDegree(order, edges, x) - Count(taken, x)
  }

  ghost predicate Emitted(nodes: seq<Node>, edges: EdgeFn, indegree: map<Node, int>, queued: seq<Node>) {
    forall x :: Count(queued, x) == Quota(nodes, edges, indegree, x)
  }

  /** Every edge between two emitted nodes goes forward, whichever copies one looks at. */
  predicate Forward(order: seq<Node>, edges: EdgeFn) {
    forall i, j :: 0 <= i < |order| && 0 <= j < |order| && order[j] in edges(order[i]) ==> i < j
  }

  /** No node is listed twice and also the target of a listed node. */
  ghost predicate NoRepeatedTarget(nodes: seq<Node>, edges: EdgeFn) {
    forall x, p :: x in nodes && p in nodes && x in edges(p) ==> Count(nodes, x) == 1
  }

  lemma EmittedIsPart(nodes: seq<Node>, edges: EdgeFn, indegree: map<Node, int>, queued: seq<Node>)
    requires Emitted(nodes, edges, indegree, queued)
    ensures multiset(queued) <= multiset(nodes)
  {
    forall x ensures multiset(queued)[x] <= multiset(nodes)[x] {
      assert Count(queued, x) == Quota(nodes, edges, indegree, x);
      CountPositive(nodes, x);
    }
  }

  /** A queued node has no edge left to wait for, so no edge of it or to it can go backward. */
  lemma NextIsForward(nodes: seq<Node>, edges: EdgeFn, indegree: map<Node, int>, order: seq<Node>, n: Node, ready: seq<Node>)
    requires Counts(nodes, edges, indegree, order, []) && Emitted(nodes, edges, indegree, order + [n] + ready)
    requires Forward(order, edges)
    ensures Forward(order + [n], edges) && n in nodes
  {
    hide InDegree;
    var queued := order + [n] + ready;
    EmittedIsPart(nodes, edges, indegree, queued);
    assert multiset(queued) == multiset(order) + multiset{n} + multiset(ready);
    assert Count(order, n) < Count(queued, n) <= Count(nodes, n);
    CountPositive(nodes, n);
    assert multiset(order) <= multiset(nodes);
    forall x | x in order + [n] ensures x !in edges(n) {
      assert x in queued;
      CountPositive(queued, x);
      assert Count(queued, x) == Quota(nodes, edges, indegree, x);
      InDegreeOfPart(order, nodes, edges, x);
    }
  }

  // ---- Completeness ----

  /** Without a cycle, the node furthest from being finished that still waits would have to wait for a further one. */
  lemma {:induction false} NothingWaits(nodes: seq<Node>, edges: EdgeFn, indegree: map<Node, int>, order: seq<Node>,
                                        done: seq<Node>, i: nat, x: Node)
    requires Counts(nodes, edges, indegree, order, []) && Emitted(nodes, edges, indegree, order)
    requires NoRepeatedTarget(nodes, edges)
    requires FinishOrder(done, edges) && forall n :: n in nodes ==> n in done
    requires i < |done| && done[i] == x && x in nodes && x !in done[..i]
    ensures indegree[x] <= 0
    decreases |done| - i
  {
    if indegree[x] > 0 {
      EmittedIsPart(nodes, edges, indegree, order);
      InDegreeOfPart(order, nodes, edges, x);
      assert Count([], x) == 0;
      var p :| Count(order, p) < Count(nodes, p) && x in edges(p);
      CountPositive(nodes, p);
      assert Count(order, p) == Quota(nodes, edges, indegree, p);
      if InDegree(nodes, edges, p) > 0 {
        InDegreePositive(nodes, edges, p);
        var q :| Count([], q) < Count(nodes, q) && p in edges(q);
        CountPositive(nodes, q);
      }
      assert indegree[p] > 0;
      var k := FirstIndex(done, p);
      assert x in done[..k];
      assert k > i;
      NothingWaits(nodes, edges, indegree, order, done, k, p);
    }
  }

  lemma FirstIndex(s: seq<Node>, n: Node) returns (k: nat)
    requires n in s
    ensures k < |s| && s[k] == n && n !in s[..k]
  {
    var i := IndexOf(s, n);
    k := i;
  }

  /** The emitted list is complete exactly when no node is both repeated and a target. */
  lemma CompleteOrder(nodes: seq<Node>, edges: EdgeFn, indegree: map<Node, int>, order: seq<Node>, done: seq<Node>)
    requires Counts(nodes, edges, indegree, order, []) && Emitted(nodes, edges, indegree, order)
    requires FinishOrder(done, edges) && forall n :: n in nodes ==> n in done
    ensures |order| == |nodes| <==> NoRepeatedTarget(nodes, edges)
    ensures |order| == |nodes| ==> multiset(order) == multiset(nodes)
  {
    EmittedIsPart(nodes, edges, indegree, order);
    if |order| == |nodes| {
      SamePart(order, nodes);
      forall x, p | x in nodes && p in nodes && x in edges(p) ensures Count(nodes, x) == 1 {
        CountPositive(nodes, p);
        assert Count([], p) == 0;
        InDegreePositive(nodes, edges, x);
        CountPositive(nodes, x);
        assert Count(order, x) == Quota(nodes, edges, indegree, x);
      }
    }
    if NoRepeatedTarget(nodes, edges) {
      forall x ensures multiset(order)[x] == multiset(nodes)[x] {
        assert Count(order, x) == Quota(nodes, edges, indegree, x);
        CountPositive(nodes, x);
        if x in nodes {
          var i := FirstIndex(done, x);
          NothingWaits(nodes, edges, indegree, order, done, i, x);
          if InDegree(nodes, edges, x) > 0 {
            InDegreePositive(nodes, edges, x);
            var p :| Count([], p) < Count(nodes, p) && x in edges(p);
            CountPositive(nodes, p);
          }
        }
      }
      assert multiset(order) == multiset(nodes);
      assert |multiset(order)| == |order| && |multiset(nodes)| == |nodes|;
    }
  }

  lemma SamePart(part: seq<Node>, list: seq<Node>)
    requires multiset(part) <= multiset(list) && |part| == |list|
    ensures multiset(part) == multiset(list)
  {
    var gap := multiset(list) - multiset(part);
    assert multiset(list) == multiset(part) + gap;
    assert |gap| == |multiset(list)| - |multiset(part)| == 0;
  }

  // ---- topoSort ----

  method CountEdges(nodes: seq<Node>, edges: EdgeFn) returns (indegree: map<Node, int>)
    ensures Counts(nodes, edges, indegree, [], [])
  {
    hide InDegree, Count;
    indegree := map n | n in nodes :: 0;
    assert nodes[..0] == [];
    forall x ensures InDegree([], edges, x) == 0 && Count([], x) == 0 {
      Nothing(edges, x);
    }
    for i := 0 to |nodes|
      invariant Counted(nodes, edges, indegree, nodes[..i], [])
    {
      var successors := edges(nodes[i]);
      assert successors[..0] == [];
      for k := 0 to |successors|
        invariant Counted(nodes, edges, indegree, nodes[..i], successors[..k])
      {
        var m := successors[k];
        assert successors[..k + 1] == successors[..k] + [m];
        forall x ensures Count(successors[..k + 1], x) == Count(successors[..k], x) + if x == m then 1 else 0 {
          CountSnoc(successors[..k], m, x);
        }
        if m in indegree {
          indegree := indegree[m := indegree[m] + 1];
        }
      }
      assert successors[..|successors|] == successors;
      assert nodes[..i + 1] == nodes[..i] + [nodes[i]];
      forall x ensures InDegree(nodes[..i + 1], edges, x) == InDegree(nodes[..i], edges, x) + Count(successors, x) {
        InDegreeSnoc(nodes[..i], nodes[i], edges, x);
      }
    }
    assert nodes[..|nodes|] == nodes;
  }

  lemma Nothing(edges: EdgeFn, x: Node)
    ensures InDegree([], edges, x) == 0 && Count([], x) == 0
  {}

  /** The edges of the nodes seen so far, and of the part of the next one, are counted. */
  ghost predicate Counted(nodes: seq<Node>, edges: EdgeFn, indegree: map<Node, int>, seen: seq<Node>, part: seq<Node>) {
    && (forall x :: x in indegree <==> x in nodes)
    && forall x :: x in indegree ==> indegree[x] == InDegree(seen, edges, x) + Count(part, x)
  }

  /** `nodes.filter(...)`: the sources, each as often as it is listed. */
  method Sources(nodes: seq<Node>, edges: EdgeFn, indegree: map<Node, int>) returns (ready: seq<Node>)
    requires Counts(nodes, edges, indegree, [], [])
    ensures Emitted(nodes, edges, indegree, ready)
  {
    ready := [];
    for i := 0 to |nodes|
      invariant forall x :: Count(ready, x) == if x in indegree && indegree[x] == 0 then Count(nodes[..i], x) else 0
    {
      assert nodes[..i + 1] == nodes[..i] + [nodes[i]];
      forall x ensures Count(nodes[..i + 1], x) == Count(nodes[..i], x) + if x == nodes[i] then 1 else 0 {
        CountSnoc(nodes[..i], nodes[i], x);
      }
      if indegree[nodes[i]] == 0 {
        forall x ensures Count(ready + [nodes[i]], x) == Count(ready, x) + if x == nodes[i] then 1 else 0 {
          CountSnoc(ready, nodes[i], x);
        }
        ready := ready + [nodes[i]];
      }
    }
    assert nodes[..|nodes|] == nodes;
    forall x ensures Count(ready, x) == Quota(nodes, edges, indegree, x) {
      CountPositive(nodes, x);
      assert Count([], x) == 0;
    }
  }

  lemma PrefixCount(s: seq<Node>, k: nat)
    requires k < |s|
    ensures Count(s, s[k]) >= Count(s[..k], s[k]) + 1
  {
    assert s == s[..k] + [s[k]] + s[k + 1..];
  }

  /** While an edge to `m` is still to be taken off, its count is positive. */
  lemma StillPositive(nodes: seq<Node>, edges: EdgeFn, indegree: map<Node, int>, order: seq<Node>, n: Node, ready: seq<Node>,
                      k: nat)
    requires k < |edges(n)| && Counts(nodes, edges, indegree, order, edges(n)[..k])
    requires Emitted(nodes, edges, indegree, order + [n] + ready) && edges(n)[k] in indegree
    ensures indegree[edges(n)[k]] >= 1 && InDegree(nodes, edges, edges(n)[k]) > 0
  {
    hide InDegree, Quota, Emitted;
    var successors, m := edges(n), edges(n)[k];
    EmittedIsPart(nodes, edges, indegree, order + [n] + ready);
    assert multiset(order + [n] + ready) == multiset(order + [n]) + multiset(ready);
    InDegreeOfPart(order + [n], nodes, edges, m);
    InDegreeSnoc(order, n, edges, m);
    PrefixCount(successors, k);
  }

  /** One edge taken off leaves the counts right. */
  lemma TakeCounts(nodes: seq<Node>, edges: EdgeFn, indegree: map<Node, int>, order: seq<Node>, successors: seq<Node>, k: nat)
    requires k < |successors| && Counts(nodes, edges, indegree, order, successors[..k])
    ensures var m := successors[k];
            Counts(nodes, edges, if m in indegree then indegree[m := indegree[m] - 1] else indegree, order, successors[..k + 1])
  {
    hide InDegree, Count;
    var m := successors[k];
    assert successors[..k + 1] == successors[..k] + [m];
    forall x ensures Count(successors[..k + 1], x) == Count(successors[..k], x) + if x == m then 1 else 0 {
      CountSnoc(successors[..k], m, x);
    }
  }

  /** A count that drops to zero puts exactly that node into the queue. */
  lemma TakeEmitted(nodes: seq<Node>, edges: EdgeFn, indegree: map<Node, int>, queued: seq<Node>, m: Node)
    requires Emitted(nodes, edges, indegree, queued)
    requires m in indegree && indegree[m] >= 1 && InDegree(nodes, edges, m) > 0 && m in nodes
    ensures Emitted(nodes, edges, indegree[m := indegree[m] - 1], if indegree[m] == 1 then queued + [m] else queued)
  {
    hide InDegree, Count;
    var lower := indegree[m := indegree[m] - 1];
    forall x ensures Count(if lower[m] == 0 then queued + [m] else queued, x) == Quota(nodes, edges, lower, x) {
      assert Count(queued, x) == Quota(nodes, edges, indegree, x);
      CountSnoc(queued, m, x);
    }
  }

  /** Take the edges of `n` off the counts, and queue each node whose count drops to zero. */
  method Release(nodes: seq<Node>, edges: EdgeFn, indegree0: map<Node, int>, ghost order: seq<Node>, n: Node, ready0: seq<Node>)
    returns (indegree: map<Node, int>, ready: seq<Node>)
    requires Counts(nodes, edges, indegree0, order, [])
    requires Emitted(nodes, edges, indegree0, order + [n] + ready0)
    ensures Counts(nodes, edges, indegree, order + [n], [])
    ensures Emitted(nodes, edges, indegree, order + [n] + ready)
  {
    hide Counts, Emitted;
    indegree, ready := indegree0, ready0;
    var successors := edges(n);
    assert successors[..0] == [];
    for k := 0 to |successors|
      invariant Counts(nodes, edges, indegree, order, successors[..k])
      invariant Emitted(nodes, edges, indegree, order + [n] + ready)
    {
      var m := successors[k];
      CountsMeans(nodes, edges, indegree, order, successors[..k]);
      TakeCounts(nodes, edges, indegree, order, successors, k);
      if m in indegree {
        StillPositive(nodes, edges, indegree, order, n, ready, k);
        TakeEmitted(nodes, edges, indegree, order + [n] + ready, m);
        var d := indegree[m] - 1;
        indegree := indegree[m := d];
        if d == 0 {
          assert order + [n] + (ready + [m]) == order + [n] + ready + [m];
          ready := ready + [m];
        }
      }
    }
    assert successors[..|successors|] == successors;
    AllTaken(nodes, edges, indegree, order, n);
  }

  lemma CountsMeans(nodes: seq<Node>, edges: EdgeFn, indegree: map<Node, int>, order: seq<Node>, taken: seq<Node>)
    requires Counts(nodes, edges, indegree, order, taken)
    ensures forall x :: x in indegree <==> x in nodes
  {}

  lemma AllTaken(nodes: seq<Node>, edges: EdgeFn, indegree: map<Node, int>, order: seq<Node>, n: Node)
    requires Counts(nodes, edges, indegree, order, edges(n))
    ensures Counts(nodes, edges, indegree, order + [n], [])
  {
    forall x | x in indegree
      ensures indegree[x] == InDegree(nodes, edges, x) - InDegree(order + [n], edges, x) - Count([], x)
    {
      InDegreeSnoc(order, n, edges, x);
    }
  }

  /**
   * Null exactly when a cycle is reachable or a repeated node is a target; otherwise a permutation of the list, copies
   * included, in which every listed edge goes forward.
   */
  method Sort(nodes: seq<Node>, edges: EdgeFn, ghost world: set<Node>) returns (r: Option<seq<Node>>)
    requires ClosedUnder(world, edges) && forall n :: n in nodes ==> n in world
    ensures r.Some? <==> !CycleReachable(nodes, edges) && NoRepeatedTarget(nodes, edges)
    ensures r.Some? ==> multiset(r.value) == multiset(nodes) && Forward(r.value, edges)
  {
    var cycle, done := FindCycle(nodes, edges, world);
    if cycle.Some? {
      return None;
    }
    var indegree := CountEdges(nodes, edges);
    var ready := Sources(nodes, edges, indegree);
    var order := [];
    assert [] + ready == ready;
    while ready != []
      invariant Counts(nodes, edges, indegree, order, [])
      invariant Emitted(nodes, edges, indegree, order + ready)
      invariant Forward(order, edges)
      decreases |nodes| - |order|
    {
      var n := ready[0];
      assert order + ready == order + [n] + ready[1..];
      NextIsForward(nodes, edges, indegree, order, n, ready[1..]);
      EmittedIsPart(nodes, edges, indegree, order + ready);
      SizeOfPart(order + ready, nodes);
      indegree, ready := Release(nodes, edges, indegree, order, n, ready[1..]);
      order := order + [n];
    }
    assert order + ready == order;
    CompleteOrder(nodes, edges, indegree, order, done);
    return if |order| == |nodes| then Some(order) else None;
  }

  lemma SizeOfPart(part: seq<Node>, list: seq<Node>)
    requires multiset(part) <= multiset(list)
    ensures |part| <= |list|
  {
    assert multiset(list) == multiset(part) + (multiset(list) - multiset(part));
    assert |multiset(list)| == |list| && |multiset(part)| == |part|;
  }

  /** For a list without repetitions, the sort fails exactly when a cycle is reachable. */
  lemma DistinctHasNoRepeatedTarget(nodes: seq<Node>, edges: EdgeFn)
    requires NoRepeats(nodes)
    ensures NoRepeatedTarget(nodes, edges)
  {
    forall x, p | x in nodes && p in nodes && x in edges(p) ensures Count(nodes, x) == 1 {
      DistinctCount(nodes, x);
    }
  }

  lemma {:induction false} DistinctCount(nodes: seq<Node>, x: Node)
    requires NoRepeats(nodes)
    ensures Count(nodes, x) == if x in nodes then 1 else 0
  {
    if nodes != [] {
      var init, last := nodes[..|nodes| - 1], nodes[|nodes| - 1];
      DistinctCount(init, x);
      CountSnoc(init, last, x);
      assert nodes == init + [last];
    }
  }

  /** An acyclic list with a repeated target: both copies of `b` are dropped but one, and the sort gives up. */
  lemma RepeatedTargetStalls()
    ensures var nodes, edges := ["a", "b", "b"], (n: Node) => if n == "a" then ["b"] else [];
            !CycleReachable(nodes, edges) && !NoRepeatedTarget(nodes, edges)
  {
    var nodes := ["a", "b", "b"];
    var edges := (n: Node) => if n == "a" then ["b"] else [];
    var done := ["b", "a"];
    assert "a" != "b" by {
      assert "a"[0] != "b"[0];
    }
    assert done[..1] == ["b"];
    FinishedHasNoCycle(done, edges, nodes);
    assert Count(nodes, "b") == 2;
    assert nodes[0] == "a" && nodes[1] == "b" && "b" in edges("a");
  }
}
