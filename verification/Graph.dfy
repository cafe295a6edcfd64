/**
 * graph.ts: paths, cycles, and the depth-first cycle finder.
 *
 * `edges` is a total function, as in the source. Termination needs what the source's callers provide: a finite
 * set of nodes that the edges do not leave; it appears as the ghost set `world`.
 */
module Graph {
  import opened Wrappers

  type Node = string
  type EdgeFn = Node -> seq<Node>

  ghost predicate ClosedUnder(world: set<Node>, edges: EdgeFn) {
    forall n, m :: n in world && m in edges(n) ==> m in world
  }

  predicate IsPath(path: seq<Node>, edges: EdgeFn) {
    path != [] && forall i :: 0 <= i < |path| - 1 ==> path[i + 1] in edges(path[i])
  }

  /** [A, B, A]: at least one edge, first equal to last. */
  predicate IsCycle(path: seq<Node>, edges: EdgeFn) {
    IsPath(path, edges) && |path| >= 2 && path[0] == path[|path| - 1]
  }

  ghost predicate Reaches(from: Node, to: Node, edges: EdgeFn) {
    exists path :: IsPath(path, edges) && path[0] == from && path[|path| - 1] == to
  }

  ghost predicate CycleReachable(nodes: seq<Node>, edges: EdgeFn) {
    exists n, cycle :: n in nodes && IsCycle(cycle, edges) && Reaches(n, cycle[0], edges)
  }

  // ---- Finish order: a certificate that nothing in it reaches a cycle ----

  /** Every edge of a listed node leads to a node listed before it. */
  predicate FinishOrder(done: seq<Node>, edges: EdgeFn) {
    forall i :: 0 <= i < |done| ==> forall m :: m in edges(done[i]) ==> m in done[..i]
  }

  lemma FinishOrderExtends(done: seq<Node>, n: Node, edges: EdgeFn)
    requires FinishOrder(done, edges) && forall m :: m in edges(n) ==> m in done
    ensures FinishOrder(done + [n], edges)
  {
    forall i | 0 <= i < |done + [n]|
      ensures forall m :: m in edges((done + [n])[i]) ==> m in (done + [n])[..i]
    {
      if i < |done| {
        assert (done + [n])[..i] == done[..i];
      } else {
        assert (done + [n])[..i] == done;
      }
    }
  }

  /** Along a path from a listed node, each step moves to a strictly earlier position. */
  lemma {:induction false} PathDescends(done: seq<Node>, edges: EdgeFn, path: seq<Node>, i: nat)
    requires FinishOrder(done, edges) && IsPath(path, edges) && i < |done| && path[0] == done[i]
    ensures path[|path| - 1] in done[..i + 1]
    ensures |path| >= 2 ==> path[|path| - 1] in done[..i]
  {
    if |path| == 1 {
      assert done[..i + 1][i] == done[i];
    } else {
      assert path[1] in edges(path[0]);
      var j :| 0 <= j < i && done[j] == path[1];
      PathDescends(done, edges, path[1..], j);
      assert forall x :: x in done[..j + 1] ==> x in done[..i];
    }
  }

  lemma NoCycleFromFinished(done: seq<Node>, edges: EdgeFn, n: Node, cycle: seq<Node>)
    requires FinishOrder(done, edges) && NoRepeats(done) && n in done
    requires IsCycle(cycle, edges)
    ensures !Reaches(n, cycle[0], edges)
  {
    if Reaches(n, cycle[0], edges) {
      var path :| IsPath(path, edges) && path[0] == n && path[|path| - 1] == cycle[0];
      var i :| 0 <= i < |done| && done[i] == n;
      PathDescends(done, edges, path, i);
      var j :| 0 <= j < i + 1 && done[j] == cycle[0];
      PathDescends(done, edges, cycle, j);
    }
  }

  lemma FinishedHasNoCycle(done: seq<Node>, edges: EdgeFn, nodes: seq<Node>)
    requires FinishOrder(done, edges) && NoRepeats(done) && forall n :: n in nodes ==> n in done
    ensures !CycleReachable(nodes, edges)
  {
    forall n, cycle | n in nodes && IsCycle(cycle, edges) ensures !Reaches(n, cycle[0], edges) {
      NoCycleFromFinished(done, edges, n, cycle);
    }
  }

  // ---- findCycle ----

  datatype Color = White | Gray | Black

  function IndexOf(s: seq<Node>, n: Node): (i: int)
    ensures i == -1 ==> n !in s
    ensures i != -1 ==> 0 <= i < |s| && s[i] == n && n !in s[..i]
  {
    if s == [] then -1
    else if s[0] == n then 0
    else
      var i := IndexOf(s[1..], n);
      if i == -1 then -1
      else
        assert s[..i + 1] == [s[0]] + s[1..][..i];
        i + 1
  }

  /** The variables findCycle shares with its nested `visit`. */
  class CycleFinder {
    const edges: EdgeFn
    var color: map<Node, Color>
    var stack: seq<Node>
    ghost var done: seq<Node>
    ghost const world: set<Node>

    constructor (nodes: seq<Node>, edges: EdgeFn, ghost world: set<Node>)
      requires ClosedUnder(world, edges) && forall n :: n in nodes ==> n in world
      ensures Valid() && stack == [] && done == [] && this.edges == edges && this.world == world
      ensures forall n :: n in nodes ==> n in color
    {
      this.edges, this.world := edges, world;
      this.color, this.stack, this.done := map[], [], [];
      new;
      for i := 0 to |nodes|
        invariant color.Keys <= world && stack == [] && done == [] && this.edges == edges
        invariant forall n :: n in color ==> color[n] == White
        invariant forall k :: 0 <= k < i ==> nodes[k] in color
      {
        color := color[nodes[i] := White];
      }
    }

    ghost predicate Valid()
      reads this
    {
      Searching(color, stack, done, world, edges)
    }

    /** `visit`: null once `n` is finished, or a genuine cycle that the bottom of the stack leads to. */
    method Visit(n: Node) returns (cycle: Option<seq<Node>>)
      requires Valid() && n in color
      requires stack == [] ==> color[n] == White
      requires stack != [] ==> n in edges(stack[|stack| - 1])
      modifies this
      ensures cycle.None? ==> Valid() && stack == old(stack) && n in done && Later(old(color), old(done), color, done)
      ensures cycle.Some? ==> IsCycle(cycle.value, edges)
      ensures cycle.Some? ==> Reaches(if old(stack) == [] then n else old(stack)[0], cycle.value[0], edges)
      decreases world - Marked(color)
    {
      hide Searching, IsCycle, Reaches, FinishOrder, Marked, IsPath, ClosedUnder, Later;
      SearchingMeans(color, stack, done, world, edges, n);
      var c := color[n];
      if c == Gray {
        var start := IndexOf(stack, n);
        GrayClosesCycle(stack, n, start, edges);
        return Some(stack[if start == -1 then 0 else start..] + [n]);
      }
      LaterSelf(color, done);
      if c == Black {
        return None;
      }
      ghost var below, before := stack, color;
      Push(color, stack, done, world, edges, n);
      color := color[n := Gray];
      stack := stack + [n];
      Marking(before, done, n);
      var successors := edges(n);
      for i := 0 to |successors|
        invariant Valid() && stack == below + [n] && n in Marked(color)
        invariant Later(before, old(done), color, done)
        invariant forall k :: 0 <= k < i ==> successors[k] in done
      {
        var m := successors[i];
        See(color, stack, done, world, edges, n, m);
        ghost var done0 := done;
        if m !in color {
          Whitening(color, done, m);
          LaterOn(before, old(done), color, done, color[m := White], done, n);
          color := color[m := White];
        }
        Fewer(world, before, old(done), color, done, n);
        ghost var seen := color;
        cycle := Visit(m);
        if cycle.Some? {
          assert (below + [n])[0] == if below == [] then n else below[0];
          return;
        }
        LaterOn(before, old(done), seen, done0, color, done, n);
      }
      Pop(color, below, done, world, edges, n);
      Blackening(color, done, n);
      LaterOn(before, old(done), color, done, color[n := Black], done + [n], n);
      stack := stack[..|stack| - 1];
      color := color[n := Black];
      done := done + [n];
      return None;
    }
  }

  /** What a visit may change: nodes are added and finished, none is forgotten. */
  ghost predicate Later(color0: map<Node, Color>, done0: seq<Node>, color: map<Node, Color>, done: seq<Node>) {
    done0 <= done && color0.Keys <= color.Keys && Marked(color0) <= Marked(color)
  }

  lemma Marking(color: map<Node, Color>, done: seq<Node>, n: Node)
    ensures Later(color, done, color[n := Gray], done) && n in Marked(color[n := Gray])
  {}

  lemma Whitening(color: map<Node, Color>, done: seq<Node>, m: Node)
    requires m !in color
    ensures Later(color, done, color[m := White], done)
  {}

  lemma Blackening(color: map<Node, Color>, done: seq<Node>, n: Node)
    ensures Later(color, done, color[n := Black], done + [n])
  {}

  lemma LaterOn(color0: map<Node, Color>, done0: seq<Node>, color1: map<Node, Color>, done1: seq<Node>,
                color2: map<Node, Color>, done2: seq<Node>, n: Node)
    requires Later(color0, done0, color1, done1) && Later(color1, done1, color2, done2) && n in Marked(color1)
    ensures Later(color0, done0, color2, done2) && n in Marked(color2) && forall m :: m in done1 ==> m in done2
  {}

  /** The measure of the recursion: one more node of the world is marked. */
  lemma Fewer(world: set<Node>, color0: map<Node, Color>, done0: seq<Node>, color: map<Node, Color>, done: seq<Node>, n: Node)
    requires Later(color0, done0, color, done) && n in Marked(color) && n in world && n !in Marked(color0)
    ensures world - Marked(color) < world - Marked(color0)
  {
    hide Marked;
  }

  lemma LaterSelf(color: map<Node, Color>, done: seq<Node>)
    ensures Later(color, done, color, done)
  {}

  /** Gray nodes are the stack, a path of distinct nodes; black nodes are the finished ones, in finish order. */
  ghost predicate Searching(color: map<Node, Color>, stack: seq<Node>, done: seq<Node>, world: set<Node>, edges: EdgeFn) {
    && ClosedUnder(world, edges) && color.Keys <= world
    && (forall n :: n in stack <==> n in color && color[n] == Gray)
    && (forall n :: n in done <==> n in color && color[n] == Black)
    && NoRepeats(stack) && NoRepeats(done)
    && (stack != [] ==> IsPath(stack, edges))
    && FinishOrder(done, edges)
  }

  function Marked(color: map<Node, Color>): set<Node> {
    set n | n in color && color[n] != White
  }

  lemma SearchingMeans(color: map<Node, Color>, stack: seq<Node>, done: seq<Node>, world: set<Node>, edges: EdgeFn, n: Node)
    requires Searching(color, stack, done, world, edges) && n in color
    ensures n in world && (color[n] == Black <==> n in done) && (color[n] == Gray <==> n in stack)
    ensures stack != [] ==> IsPath(stack, edges)
  {}

  lemma Push(color: map<Node, Color>, stack: seq<Node>, done: seq<Node>, world: set<Node>, edges: EdgeFn, n: Node)
    requires Searching(color, stack, done, world, edges) && n in color && color[n] == White
    requires stack != [] ==> n in edges(stack[|stack| - 1])
    ensures Searching(color[n := Gray], stack + [n], done, world, edges)
    ensures Marked(color[n := Gray]) == Marked(color) + {n} && n !in Marked(color)
  {
    PushKeepsPath(stack, n, edges);
  }

  lemma See(color: map<Node, Color>, stack: seq<Node>, done: seq<Node>, world: set<Node>, edges: EdgeFn, n: Node, m: Node)
    requires Searching(color, stack, done, world, edges) && m in edges(n) && n in stack
    ensures m !in color ==> Searching(color[m := White], stack, done, world, edges) && Marked(color[m := White]) == Marked(color)
    ensures n in world
  {}

  lemma Pop(color: map<Node, Color>, below: seq<Node>, done: seq<Node>, world: set<Node>, edges: EdgeFn, n: Node)
    requires Searching(color, below + [n], done, world, edges) && forall m :: m in edges(n) ==> m in done
    ensures (below + [n])[..|below + [n]| - 1] == below
    ensures Searching(color[n := Black], below, done + [n], world, edges)
    ensures n in color && Marked(color[n := Black]) == Marked(color)
  {
    hide IsPath, FinishOrder, NoRepeats, ClosedUnder;
    FinishOrderExtends(done, n, edges);
    PopStack(below, n, edges);
    PopColors(color, below, done, n);
    DistinctSnoc(done, n);
  }

  lemma PopColors(color: map<Node, Color>, below: seq<Node>, done: seq<Node>, n: Node)
    requires forall m :: m in below + [n] <==> m in color && color[m] == Gray
    requires forall m :: m in done <==> m in color && color[m] == Black
    requires n !in below
    ensures n in color && n !in done && Marked(color[n := Black]) == Marked(color)
    ensures forall m :: m in below <==> m in color[n := Black] && color[n := Black][m] == Gray
    ensures forall m :: m in done + [n] <==> m in color[n := Black] && color[n := Black][m] == Black
    ensures color[n := Black].Keys == color.Keys && (below + [n])[..|below + [n]| - 1] == below
  {
    SnocMembers(below, n);
    SnocMembers(done, n);
    assert n in below + [n];
    forall m ensures m in below <==> m in color[n := Black] && color[n := Black][m] == Gray {
      assert m in below + [n] <==> m in color && color[m] == Gray;
    }
  }

  lemma SnocMembers(s: seq<Node>, n: Node)
    ensures forall m :: m in s + [n] <==> m in s || m == n
    ensures (s + [n])[..|s + [n]| - 1] == s
  {}

  lemma DistinctSnoc(s: seq<Node>, n: Node)
    requires NoRepeats(s) && n !in s
    ensures NoRepeats(s + [n])
  {}

  lemma PopStack(below: seq<Node>, n: Node, edges: EdgeFn)
    requires NoRepeats(below + [n]) && IsPath(below + [n], edges)
    ensures NoRepeats(below) && n !in below && (below != [] ==> IsPath(below, edges))
  {
    var whole := below + [n];
    forall i | 0 <= i < |below| ensures below[i] != n {
      assert whole[i] != whole[|below|];
    }
    forall i | 0 <= i < |below| - 1 ensures below[i + 1] in edges(below[i]) {
      assert whole[i + 1] in edges(whole[i]);
    }
    forall i, j | 0 <= i < j < |below| ensures below[i] != below[j] {
      assert whole[i] != whole[j];
    }
  }

  lemma PushKeepsPath(stack: seq<Node>, n: Node, edges: EdgeFn)
    requires stack != [] ==> IsPath(stack, edges) && n in edges(stack[|stack| - 1])
    ensures IsPath(stack + [n], edges)
  {}

  /** A gray node is on the stack; from there the path runs back to it. */
  lemma GrayClosesCycle(stack: seq<Node>, n: Node, start: int, edges: EdgeFn)
    requires stack != [] && IsPath(stack, edges) && n in edges(stack[|stack| - 1])
    requires 0 <= start < |stack| && stack[start] == n
    ensures IsCycle(stack[start..] + [n], edges) && Reaches(stack[0], (stack[start..] + [n])[0], edges)
  {
    var cycle := stack[start..] + [n];
    forall i | 0 <= i < |cycle| - 1 ensures cycle[i + 1] in edges(cycle[i]) {
      assert cycle[i] == stack[start + i];
    }
    var path := stack[..start + 1];
    assert IsPath(path, edges) && path[0] == stack[0] && path[|path| - 1] == cycle[0];
  }

  /**
   * Null exactly when no listed node reaches a cycle, inside or outside the list; otherwise a genuine, reachable
   * cycle. A null answer also comes with the finish order that certifies it.
   */
  method FindCycle(nodes: seq<Node>, edges: EdgeFn, ghost world: set<Node>)
    returns (cycle: Option<seq<Node>>, ghost done: seq<Node>)
    requires ClosedUnder(world, edges) && forall n :: n in nodes ==> n in world
    ensures cycle.Some? <==> CycleReachable(nodes, edges)
    ensures cycle.Some? ==> IsCycle(cycle.value, edges) && exists n :: n in nodes && Reaches(n, cycle.value[0], edges)
    ensures cycle.None? ==> FinishOrder(done, edges) && NoRepeats(done) && forall n :: n in nodes ==> n in done
  {
    var finder := new CycleFinder(nodes, edges, world);
    for i := 0 to |nodes|
      invariant finder.Valid() && finder.stack == [] && finder.edges == edges && finder.world == world
      invariant forall n :: n in nodes ==> n in finder.color
      invariant forall k :: 0 <= k < i ==> nodes[k] in finder.done
    {
      if finder.color[nodes[i]] == White {
        cycle := finder.Visit(nodes[i]);
        if cycle.Some? {
          done := [];
          assert nodes[i] in nodes;
          return;
        }
      }
    }
    done := finder.done;
    FinishedHasNoCycle(done, edges, nodes);
    return None, done;
  }

  // ---- reachableFrom ----

  /** Reachable over at least one edge. */
  ghost predicate ReachesBeyond(from: Node, to: Node, edges: EdgeFn) {
    exists m :: m in edges(from) && Reaches(m, to, edges)
  }

  lemma ReachesSelf(n: Node, edges: EdgeFn)
    ensures Reaches(n, n, edges)
  {
    assert IsPath([n], edges);
  }

  lemma ReachesStep(from: Node, n: Node, m: Node, edges: EdgeFn)
    requires Reaches(from, n, edges) && m in edges(n)
    ensures Reaches(from, m, edges)
  {
    var path :| IsPath(path, edges) && path[0] == from && path[|path| - 1] == n;
    assert IsPath(path + [m], edges);
  }

  /** A set that holds the first step and is closed under edges holds everything beyond. */
  lemma {:induction false} ClosedHoldsPath(out: set<Node>, edges: EdgeFn, path: seq<Node>)
    requires IsPath(path, edges) && path[0] in out
    requires forall n, m :: n in out && m in edges(n) ==> m in out
    ensures path[|path| - 1] in out
  {
    if |path| > 1 {
      assert path[1] in edges(path[0]);
      ClosedHoldsPath(out, edges, path[1..]);
    }
  }

  lemma ReachesBeyondStep(start: Node, n: Node, edges: EdgeFn)
    ensures ReachesBeyond(start, n, edges) ==> forall m :: m in edges(n) ==> ReachesBeyond(start, m, edges)
    ensures n in edges(start) ==> ReachesBeyond(start, n, edges)
  {
    ReachesSelf(n, edges);
    if ReachesBeyond(start, n, edges) {
      var first :| first in edges(start) && Reaches(first, n, edges);
      forall m | m in edges(n) ensures ReachesBeyond(start, m, edges) {
        ReachesStep(first, n, m, edges);
      }
    }
  }

  lemma ClosedHoldsBeyond(start: Node, out: set<Node>, edges: EdgeFn, n: Node)
    requires forall m :: m in edges(start) ==> m in out
    requires forall k, m :: k in out && m in edges(k) ==> m in out
    requires ReachesBeyond(start, n, edges)
    ensures n in out
  {
    var m :| m in edges(start) && Reaches(m, n, edges);
    var path :| IsPath(path, edges) && path[0] == m && path[|path| - 1] == n;
    ClosedHoldsPath(out, edges, path);
  }

  /** Exactly the nodes one or more edges away; `start` itself only when it lies on a cycle. */
  method ReachableFrom(start: Node, edges: EdgeFn, ghost world: set<Node>) returns (out: set<Node>)
    requires ClosedUnder(world, edges) && start in world
    ensures forall n :: n in out <==> ReachesBeyond(start, n, edges)
  {
    hide ReachesBeyond;
    out := {};
    var queue := edges(start);
    forall m | m in queue ensures ReachesBeyond(start, m, edges) {
      ReachesBeyondStep(start, m, edges);
    }
    while queue != []
      invariant out <= world && forall n :: n in queue ==> n in world
      invariant forall n :: n in out || n in queue ==> ReachesBeyond(start, n, edges)
      invariant forall m :: m in edges(start) ==> m in out || m in queue
      invariant forall n, m :: n in out && m in edges(n) ==> m in out || m in queue
      decreases world - out, |queue|
    {
      var n := queue[|queue| - 1];
      ghost var rest := queue[..|queue| - 1];
      assert queue == rest + [n];
      queue := queue[..|queue| - 1];
      if n !in out {
        ReachesBeyondStep(start, n, edges);
        out := out + {n};
        queue := queue + edges(n);
      }
    }
    forall n | ReachesBeyond(start, n, edges) ensures n in out {
      ClosedHoldsBeyond(start, out, edges, n);
    }
  }
}
