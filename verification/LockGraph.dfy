/** The lock-order graph of the deadlock detector, its depth-first cycle search, and the
    detector object itself (ServerCore/Thread/Lock.cpp). */
module LockGraph {

  /** A lock is identified by its address. */
  type LockAddress = nat

  /** For every lock, the locks that were requested while it was the innermost one held. */
  type Graph = map<LockAddress, set<LockAddress>>

  function Successors(g: Graph, l: LockAddress): set<LockAddress> {
    if l in g then g[l] else {}
  }

  function AddEdge(g: Graph, from: LockAddress, to: LockAddress): Graph {
    g[from := Successors(g, from) + {to}]
  }

  /** The graph gains the edge from one lock to the other, and no other edge. */
  lemma AddEdgeExactly(g: Graph, from: LockAddress, to: LockAddress, a: LockAddress, b: LockAddress)
    ensures b in Successors(AddEdge(g, from, to), a) <==> b in Successors(g, a) || (a == from && b == to)
  {
  }

  /** A path has at least one edge. */
  ghost predicate IsPath(g: Graph, p: seq<LockAddress>) {
    && |p| >= 2
    && forall i :: 0 <= i < |p| - 1 ==> p[i + 1] in Successors(g, p[i])
  }

  ghost predicate PathBetween(g: Graph, p: seq<LockAddress>, from: LockAddress, to: LockAddress) {
    IsPath(g, p) && p[0] == from && p[|p| - 1] == to
  }

  ghost predicate Reaches(g: Graph, from: LockAddress, to: LockAddress) {
    exists p :: PathBetween(g, p, from, to)
  }

  ghost predicate Acyclic(g: Graph) {
    forall l :: !Reaches(g, l, l)
  }

  lemma EdgeReaches(g: Graph, a: LockAddress, b: LockAddress)
    requires b in Successors(g, a)
    ensures Reaches(g, a, b)
  {
    assert PathBetween(g, [a, b], a, b);
  }

  lemma ReachesTransitive(g: Graph, a: LockAddress, b: LockAddress, c: LockAddress)
    requires Reaches(g, a, b) && Reaches(g, b, c)
    ensures Reaches(g, a, c)
  {
    var p :| PathBetween(g, p, a, b);
    var q :| PathBetween(g, q, b, c);
    var r := p + q[1..];
    forall i | 0 <= i < |r| - 1
      ensures r[i + 1] in Successors(g, r[i])
    {
      if i >= |p| - 1 {
        assert r[i] == q[i - (|p| - 1)] && r[i + 1] == q[i - (|p| - 1) + 1];
      }
    }
    assert PathBetween(g, r, a, c);
  }

  /** If none of the visited locks has an edge to `target` and the set is closed under
      successors, no path leads from inside the set to `target`. */
  lemma {:induction false} ClosedSetDoesNotReach(g: Graph, closed: set<LockAddress>, p: seq<LockAddress>)
    requires |p| >= 2 && p[0] in closed
    requires forall v :: v in closed ==> Successors(g, v) <= closed && p[|p| - 1] !in Successors(g, v)
    ensures !IsPath(g, p)
    decreases |p|
  {
    if IsPath(g, p) && |p| > 2 {
      assert p[1] in Successors(g, p[0]);
      var rest := p[1..];
      assert rest[|rest| - 1] == p[|p| - 1];
      forall i | 0 <= i < |rest| - 1
        ensures rest[i + 1] in Successors(g, rest[i])
      {
        assert rest[i] == p[i + 1] && rest[i + 1] == p[i + 2];
      }
      ClosedSetDoesNotReach(g, closed, rest);
    }
  }

  /** Adding an edge closes a cycle only through the new edge, so a search from its target
      decides acyclicity of the whole graph. */
  lemma AddEdgeAcyclicIff(g: Graph, from: LockAddress, to: LockAddress)
    requires Acyclic(g)
    ensures Acyclic(AddEdge(g, from, to)) <==> !Reaches(AddEdge(g, from, to), to, to)
  {
    var g' := AddEdge(g, from, to);
    if !Acyclic(g') {
      var l :| Reaches(g', l, l);
      var p :| PathBetween(g', p, l, l);
      if i :| 0 <= i < |p| - 1 && p[i] == from && p[i + 1] == to {
        RotateCycle(g', p, i + 1);
      } else {
        forall i | 0 <= i < |p| - 1
          ensures p[i + 1] in Successors(g, p[i])
        {
          assert p[i + 1] in Successors(g', p[i]);
        }
        assert PathBetween(g, p, l, l);
        assert Reaches(g, l, l);
      }
    }
  }

  lemma RotateCycle(g: Graph, p: seq<LockAddress>, k: nat)
    requires IsPath(g, p) && p[0] == p[|p| - 1] && k < |p|
    ensures Reaches(g, p[k], p[k])
  {
    if 0 < k < |p| - 1 {
      var q := p[k..] + p[1..k + 1];
      forall i | 0 <= i < |q| - 1
        ensures q[i + 1] in Successors(g, q[i])
      {
        if i < |p| - k - 1 {
          assert q[i] == p[k + i] && q[i + 1] == p[k + i + 1];
        } else if i == |p| - k - 1 {
          assert q[i] == p[0] && q[i + 1] == p[1];
        } else {
          assert q[i] == p[i - (|p| - k) + 1] && q[i + 1] == p[i - (|p| - k) + 2];
        }
      }
      assert PathBetween(g, q, p[k], p[k]);
    } else {
      assert PathBetween(g, p, p[0], p[0]);
    }
  }

  /** What a fruitless search establishes about the locks it appended to the visited list:
      none has an edge to `target`, and all their successors were visited too. */
  ghost predicate Explored(g: Graph, target: LockAddress, before: seq<LockAddress>, after: seq<LockAddress>) {
    forall v :: v in after && v !in before ==>
                  target !in Successors(g, v) && forall w :: w in Successors(g, v) ==> w in after
  }

  /** What a lock request does to the graph, given the locks the thread already holds. */
  function RequestGraph(g: Graph, held: seq<LockAddress>, req: LockAddress): Graph {
    if held == [] then g else AddEdge(g, held[|held| - 1], req)
  }

  /** When a lock request is a detected deadlock. */
  ghost predicate RequestCrashes(g: Graph, held: seq<LockAddress>, req: LockAddress) {
    held != [] && Reaches(RequestGraph(g, held, req), req, req)
  }

  /** A request that is let through keeps the graph acyclic, and no other one does. */
  lemma RequestKeepsAcyclicIff(g: Graph, held: seq<LockAddress>, req: LockAddress)
    requires Acyclic(g)
    ensures Acyclic(RequestGraph(g, held, req)) <==> !RequestCrashes(g, held, req)
  {
    if held != [] {
      AddEdgeAcyclicIff(g, held[|held| - 1], req);
    }
  }

  /** The thread-local stack of held locks. */
  class HoldStack {
    var held: seq<LockAddress>

    constructor ()
      ensures held == []
    {
      held := [];
    }
  }

  class DeadlockDetector {
    var isCheck: bool
    var lockGraph: Graph

    constructor ()
      ensures !isCheck && lockGraph == map[]
    {
      isCheck := false;
      lockGraph := map[];
    }

    /** Looks for `current` below `cycleLock`, in whatever order the successors come. The
        visited list is shared by all branches of the search. */
    method CycleCheck(current: LockAddress, cycleLock: LockAddress, visited: seq<LockAddress>)
      returns (found: bool, visited': seq<LockAddress>)
      ensures visited <= visited'
      ensures found ==> Reaches(lockGraph, cycleLock, current)
      ensures !found ==> cycleLock in visited' && Explored(lockGraph, current, visited, visited')
      // From an empty list the answer is exact.
      ensures visited == [] ==> (found <==> Reaches(lockGraph, cycleLock, current))
      decreases lockGraph.Keys - (set v | v in visited)
    {
      visited' := visited;
      if cycleLock in visited' {
        return false, visited';
      }
      visited' := visited' + [cycleLock];
      if cycleLock !in lockGraph {
        assert forall v :: v in visited' && v !in visited ==> v == cycleLock;
        if visited == [] {
          SearchIsExact(lockGraph, current, cycleLock, visited');
        }
        return false, visited';
      }
      var rest := lockGraph[cycleLock];
      while rest != {}
        invariant rest <= lockGraph[cycleLock]
        invariant visited + [cycleLock] <= visited'
        invariant Explored(lockGraph, current, visited + [cycleLock], visited')
        invariant forall w :: w in lockGraph[cycleLock] && w !in rest ==> w != current && w in visited'
      {
        var lockAddr :| lockAddr in rest;
        rest := rest - {lockAddr};
        if current == lockAddr {
          EdgeReaches(lockGraph, cycleLock, lockAddr);
          return true, visited';
        }
        ghost var before := visited';
        PrefixMembers(visited + [cycleLock], visited');
        assert cycleLock in lockGraph.Keys - (set v | v in visited);
        found, visited' := CycleCheck(current, lockAddr, visited');
        if found {
          EdgeReaches(lockGraph, cycleLock, lockAddr);
          ReachesTransitive(lockGraph, cycleLock, lockAddr, current);
          return true, visited';
        }
        PrefixMembers(before, visited');
      }
      PrefixMembers(visited + [cycleLock], visited');
      if visited == [] {
        SearchIsExact(lockGraph, current, cycleLock, visited');
      }
      return false, visited';
    }

    /** Records the order edge and crashes when it closes a cycle. The result says whether
        the process crashed. */
    method LockRequest(stack: HoldStack, lock: LockAddress) returns (crashed: bool)
      modifies this`lockGraph
      ensures !isCheck ==> !crashed && lockGraph == old(lockGraph)
      ensures isCheck ==> lockGraph == RequestGraph(old(lockGraph), stack.held, lock)
      ensures isCheck ==> (crashed <==> RequestCrashes(old(lockGraph), stack.held, lock))
      ensures old(Acyclic(lockGraph)) ==> (isCheck && crashed <==> !Acyclic(lockGraph))
    {
      crashed := false;
      if isCheck {
        if Acyclic(lockGraph) {
          RequestKeepsAcyclicIff(lockGraph, stack.held, lock);
        }
        if stack.held != [] {
          var hold := stack.held[|stack.held| - 1];
          lockGraph := AddEdge(lockGraph, hold, lock);
          var visited;
          crashed, visited := CycleCheck(lock, lock, []);
        }
      }
    }

    method LockAcquired(stack: HoldStack, lock: LockAddress)
      modifies stack
      ensures stack.held == if isCheck then old(stack.held) + [lock] else old(stack.held)
    {
      if isCheck {
        stack.held := stack.held + [lock];
      }
    }

    method LockRelease(stack: HoldStack)
      modifies stack
      ensures stack.held ==
              if isCheck && old(stack.held) != [] then old(stack.held[..|stack.held| - 1]) else old(stack.held)
    {
      if isCheck {
        if stack.held != [] {
          stack.held := stack.held[..|stack.held| - 1];
        }
      }
    }
  }

  lemma PrefixMembers(a: seq<LockAddress>, b: seq<LockAddress>)
    requires a <= b
    ensures forall v :: v in a ==> v in b
  {
    forall v | v in a
      ensures v in b
    {
      var i :| 0 <= i < |a| && a[i] == v;
      assert b[i] == v;
    }
  }

  lemma SearchIsExact(g: Graph, target: LockAddress, start: LockAddress, visited: seq<LockAddress>)
    requires start in visited && Explored(g, target, [], visited)
    ensures !Reaches(g, start, target)
  {
    if p :| PathBetween(g, p, start, target) {
      ClosedSetDoesNotReach(g, (set v | v in visited), p);
    }
  }
}
