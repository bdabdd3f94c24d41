/** When the detector crashes a run of guards: exactly when the threads nested their locks in no
    one order (ServerCore/Thread/Lock.cpp, ServerCore/Thread/LockGuard.cpp). */
module LockOrder {
  import opened LockGraph
  import opened LockProtocol

  // ---- graphs whose edges follow one order of the locks ----

  ghost predicate Rising(g: Graph, rank: LockAddress -> int) {
    forall a, b :: b in Successors(g, a) ==> rank(a) < rank(b)
  }

  lemma {:induction false} RisingPath(g: Graph, rank: LockAddress -> int, p: seq<LockAddress>)
    requires Rising(g, rank) && IsPath(g, p)
    ensures rank(p[0]) < rank(p[|p| - 1])
    decreases |p|
  {
    assert p[1] in Successors(g, p[0]);
    if |p| > 2 {
      var rest := p[1..];
      forall i | 0 <= i < |rest| - 1
        ensures rest[i + 1] in Successors(g, rest[i])
      {
        assert rest[i] == p[i + 1] && rest[i + 1] == p[i + 2];
      }
      RisingPath(g, rank, rest);
    }
  }

  lemma RisingIsAcyclic(g: Graph, rank: LockAddress -> int)
    requires Rising(g, rank)
    ensures Acyclic(g)
  {
    forall l | Reaches(g, l, l)
      ensures false
    {
      var p :| PathBetween(g, p, l, l);
      RisingPath(g, rank, p);
    }
  }

  /** A request in the order keeps the graph in it, and is let through. */
  lemma RisingRequest(g: Graph, rank: LockAddress -> int, held: seq<LockAddress>, req: LockAddress)
    requires Rising(g, rank) && (held != [] ==> rank(held[|held| - 1]) < rank(req))
    ensures Rising(RequestGraph(g, held, req), rank) && !RequestCrashes(g, held, req)
  {
    var g' := RequestGraph(g, held, req);
    forall a, b | b in Successors(g', a)
      ensures rank(a) < rank(b)
    {
      if held != [] {
        AddEdgeExactly(g, held[|held| - 1], req, a, b);
      }
    }
    RisingIsAcyclic(g', rank);
  }

  /** The locks that can be reached from a lock. */
  ghost function ReachSet(g: Graph, from: LockAddress): set<LockAddress> {
    set k, l | k in g && l in g[k] && Reaches(g, from, l) :: l
  }

  lemma ReachesIsInSet(g: Graph, from: LockAddress, to: LockAddress)
    ensures to in ReachSet(g, from) <==> Reaches(g, from, to)
  {
    if Reaches(g, from, to) {
      var p :| PathBetween(g, p, from, to);
      assert p[|p| - 2 + 1] in Successors(g, p[|p| - 2]);
    }
  }

  /** Fewer locks can be reached from the end of an edge than from its start. */
  ghost function Depth(g: Graph, l: LockAddress): int {
    -|ReachSet(g, l)|
  }

  lemma ProperSubsetIsSmaller<T>(a: set<T>, b: set<T>)
    requires a < b
    ensures |a| < |b|
  {
    var x :| x in b && x !in a;
    assert b == (b - a) + a && |b| == |b - a| + |a|;
    assert x in b - a;
  }

  /** An acyclic graph follows some order of the locks. */
  lemma AcyclicIsRising(g: Graph)
    requires Acyclic(g)
    ensures Rising(g, (l: LockAddress) => Depth(g, l))
  {
    forall a, b | b in Successors(g, a)
      ensures Depth(g, a) < Depth(g, b)
    {
      EdgeReaches(g, a, b);
      forall l | l in ReachSet(g, b)
        ensures l in ReachSet(g, a)
      {
        ReachesTransitive(g, a, b, l);
        ReachesIsInSet(g, a, l);
      }
      ReachesIsInSet(g, a, b);
      ReachesIsInSet(g, b, b);
      ProperSubsetIsSmaller(ReachSet(g, b), ReachSet(g, a));
    }
  }

  // ---- the detector crashes only when it must ----

  /** Every lock requested comes after the innermost one held in one order of all locks. */
  ghost predicate Ordered(s: State, rank: LockAddress -> int) {
    forall t :: 0 <= t < |s.threads| && s.threads[t].phase.Requested? && s.threads[t].held != [] ==>
      rank(Last(s.threads[t].held)) < rank(s.threads[t].phase.lock)
  }

  ghost predicate RunOrdered(run: seq<State>, rank: LockAddress -> int) {
    forall k :: 0 <= k < |run| ==> Ordered(run[k], rank)
  }

  lemma OrderedStep(s: State, s': State, rank: LockAddress -> int)
    requires Next(s, s') && !s.crashed && Rising(s.graph, rank) && Ordered(s', rank)
    ensures !s'.crashed && Rising(s'.graph, rank)
  {
    var t: ThreadId, step :| Enabled(s, t, step) && s' == Do(s, t, step);
    if step.Request? {
      assert s'.threads[t].phase == Requested(step.lock) && s'.threads[t].held == s.threads[t].held;
      RisingRequest(s.graph, rank, s.threads[t].held, step.lock);
    }
  }

  lemma {:induction false} OrderedRunNeverCrashes(run: seq<State>, rank: LockAddress -> int, i: nat)
    requires IsRun(run) && RunOrdered(run, rank) && i < |run|
    ensures !run[i].crashed && Rising(run[i].graph, rank)
  {
    if i > 0 {
      OrderedRunNeverCrashes(run, rank, i - 1);
      assert Next(run[i - 1], run[i - 1 + 1]);
      OrderedStep(run[i - 1], run[i], rank);
    }
  }

  lemma {:induction false} GraphGrows(run: seq<State>, i: nat, j: nat, l: LockAddress)
    requires IsRun(run) && i <= j < |run|
    ensures Successors(run[i].graph, l) <= Successors(run[j].graph, l)
    ensures run[i].crashed ==> run[j].crashed
    decreases j - i
  {
    if i < j {
      GraphGrows(run, i, j - 1, l);
      assert Next(run[j - 1], run[j - 1 + 1]);
      var t: ThreadId, step :| Enabled(run[j - 1], t, step) && run[j] == Do(run[j - 1], t, step);
      if step.Request? {
        RequestGraphGrows(run[j - 1].graph, run[j - 1].threads[t].held, step.lock, l);
      }
    }
  }

  lemma UncrashedIsOrdered(run: seq<State>) returns (rank: LockAddress -> int)
    requires IsRun(run) && !run[|run| - 1].crashed
    ensures RunOrdered(run, rank)
  {
    var last := |run| - 1;
    var g := run[last].graph;
    RunKeepsInv(run, last);
    AcyclicIsRising(g);
    rank := (l: LockAddress) => Depth(g, l);
    forall k | 0 <= k < |run|
      ensures Ordered(run[k], rank)
    {
      RunKeepsInv(run, k);
      GraphGrows(run, k, last, 0);
      forall t | 0 <= t < |run[k].threads| && run[k].threads[t].phase.Requested? && run[k].threads[t].held != []
        ensures rank(Last(run[k].threads[t].held)) < rank(run[k].threads[t].phase.lock)
      {
        assert ThreadOk(run[k].graph, run[k].threads[t]);
        GraphGrows(run, k, last, Last(run[k].threads[t].held));
      }
    }
  }

  /** The detector crashes a run exactly when there is no one order of the locks in which every
      thread requested locks while holding others. */
  lemma CrashedIff(run: seq<State>)
    requires IsRun(run)
    ensures run[|run| - 1].crashed <==> forall rank :: !RunOrdered(run, rank)
  {
    if !run[|run| - 1].crashed {
      var rank := UncrashedIsOrdered(run);
    } else if rank :| RunOrdered(run, rank) {
      OrderedRunNeverCrashes(run, rank, |run| - 1);
    }
  }

  /** A lone thread that nests two different locks is let through: a run that reaches both guards. */
  ghost function NestedRun(a: LockAddress, b: LockAddress): seq<State> {
    var g := map[a := {b}];
    [State(map[], map[], [Thread([], [], Running)], false),
     State(map[], map[], [Thread([], [], Requested(a))], false),
     State(map[], map[a := 0], [Thread([], [], Entered(a))], false),
     State(map[], map[a := 0], [Thread([a], [a], Running)], false),
     State(g, map[a := 0], [Thread([a], [a], Requested(b))], false),
     State(g, map[a := 0, b := 0], [Thread([a], [a], Entered(b))], false),
     State(g, map[a := 0, b := 0], [Thread([a, b], [a, b], Running)], false)]
  }

  lemma NestingIsLetThrough(a: LockAddress, b: LockAddress)
    requires a != b
    ensures IsRun(NestedRun(a, b))
  {
    var run := NestedRun(a, b);
    var rank := (l: LockAddress) => if l == a then 0 else 1;
    RisingRequest(map[], rank, [a], b);
    assert [] + [a] == [a] && [a] + [b] == [a, b];
    assert Successors(map[], a) + {b} == {b};
    var steps := [Request(a), Acquire, Push, Request(b), Acquire, Push];
    forall i | 0 <= i < 6
      ensures Enabled(run[i], 0, steps[i]) && run[i + 1] == Do(run[i], 0, steps[i])
    {
    }
  }

  /** Nothing but a mutex owned by some thread, or a crash, keeps a thread from its next step. */
  lemma CanMoveIff(s: State, t: ThreadId)
    requires t < |s.threads| && !s.crashed
    ensures CanMove(s, t) <==> !Blocked(s, t)
  {
    match s.threads[t].phase {
      case Running => assert Enabled(s, t, Request(0));
      case Requested(_) => assert !Blocked(s, t) ==> Enabled(s, t, Acquire);
      case Entered(_) => assert Enabled(s, t, Push);
      case Unlocked(_) => assert Enabled(s, t, Pop);
    }
  }
}
