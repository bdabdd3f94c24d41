/** Any number of threads that take locks through scoped guards
    (ServerCore/Thread/LockGuard.cpp), interleaved step by step. */
module LockProtocol {
  import opened LockGraph
  import opened Sequences

  type ThreadId = nat

  /** Where a thread stands inside a guard's constructor or destructor. */
  datatype Phase =
    | Running                        // in neither
    | Requested(lock: LockAddress)   // the request was let through; the mutex is not taken yet
    | Entered(lock: LockAddress)     // the mutex is taken; the held stack is not updated yet
    | Unlocked(lock: LockAddress)    // the mutex is released; the held stack is not updated yet

  /** `guards` are the locks of the thread's live guard objects, innermost last; `held` is the
      detector's own thread-local stack. Scoping destroys guards innermost first. */
  datatype Thread = Thread(guards: seq<LockAddress>, held: seq<LockAddress>, phase: Phase)

  datatype State = State(graph: Graph, owner: map<LockAddress, ThreadId>, threads: seq<Thread>, crashed: bool)

  datatype Step = Request(lock: LockAddress) | Acquire | Push | Unlock | Pop

  ghost predicate Init(s: State) {
    && s.graph == map[] && s.owner == map[] && !s.crashed
    && forall t :: 0 <= t < |s.threads| ==> s.threads[t] == Thread([], [], Running)
  }

  function Last(s: seq<LockAddress>): LockAddress
    requires s != []
  {
    s[|s| - 1]
  }

  function DropLast(s: seq<LockAddress>): seq<LockAddress>
    requires s != []
  {
    s[..|s| - 1]
  }

  ghost predicate Enabled(s: State, t: ThreadId, step: Step) {
    && !s.crashed && t < |s.threads|
    && var th := s.threads[t];
    match step
    case Request(_) => th.phase.Running?
    case Acquire => th.phase.Requested? && th.phase.lock !in s.owner
    case Push => th.phase.Entered?
    case Unlock => th.phase.Running? && th.guards != []
    case Pop => th.phase.Unlocked?
  }

  ghost function Do(s: State, t: ThreadId, step: Step): State
    requires Enabled(s, t, step)
  {
    var th := s.threads[t];
    match step
    case Request(l) =>
      s.(graph := RequestGraph(s.graph, th.held, l),
         crashed := RequestCrashes(s.graph, th.held, l),
         threads := s.threads[t := th.(phase := Requested(l))])
    case Acquire =>
      s.(owner := s.owner[th.phase.lock := t],
         threads := s.threads[t := th.(phase := Entered(th.phase.lock))])
    case Push =>
      s.(threads := s.threads[t := Thread(th.guards + [th.phase.lock], th.held + [th.phase.lock], Running)])
    case Unlock =>
      s.(owner := s.owner - {Last(th.guards)},
         threads := s.threads[t := th.(guards := DropLast(th.guards), phase := Unlocked(Last(th.guards)))])
    case Pop =>
      s.(threads := s.threads[t := th.(held := if th.held == [] then [] else DropLast(th.held), phase := Running)])
  }

  ghost predicate Next(s: State, s': State) {
    exists t, step :: Enabled(s, t, step) && s' == Do(s, t, step)
  }

  ghost predicate IsRun(run: seq<State>) {
    && run != [] && Init(run[0])
    && forall i :: 0 <= i < |run| - 1 ==> Next(run[i], run[i + 1])
  }

  // ---- the invariant ----

  /** The locks whose mutex the thread has taken and not released. */
  function Taken(th: Thread): seq<LockAddress> {
    if th.phase.Entered? then th.guards + [th.phase.lock] else th.guards
  }

  /** The detector's stack is accurate, and every lock on it, then the requested one, was
      recorded as an edge from the one before. */
  ghost predicate ThreadOk(g: Graph, th: Thread) {
    && th.held == (if th.phase.Unlocked? then th.guards + [th.phase.lock] else th.guards)
    && (forall i :: 0 <= i < |th.held| - 1 ==> th.held[i + 1] in Successors(g, th.held[i]))
    && ((th.phase.Requested? || th.phase.Entered?) && th.held != [] ==>
          th.phase.lock in Successors(g, Last(th.held)))
    && Distinct(Taken(th))
  }

  /** A lock is owned by a thread exactly when the thread has taken it. */
  ghost predicate OwnerOk(s: State) {
    && (forall l :: l in s.owner ==> s.owner[l] < |s.threads| && l in Taken(s.threads[s.owner[l]]))
    && forall t, l :: 0 <= t < |s.threads| && l in Taken(s.threads[t]) ==> l in s.owner && s.owner[l] == t
  }

  ghost predicate Inv(s: State) {
    !s.crashed ==>
      && Acyclic(s.graph)
      && (forall t :: 0 <= t < |s.threads| ==> ThreadOk(s.graph, s.threads[t]))
      && OwnerOk(s)
  }

  lemma RequestGraphGrows(g: Graph, held: seq<LockAddress>, req: LockAddress, l: LockAddress)
    ensures Successors(g, l) <= Successors(RequestGraph(g, held, req), l)
  {
  }

  lemma ThreadOkMonotone(g: Graph, held: seq<LockAddress>, req: LockAddress, th: Thread)
    requires ThreadOk(g, th)
    ensures ThreadOk(RequestGraph(g, held, req), th)
  {
    var g' := RequestGraph(g, held, req);
    forall i | 0 <= i < |th.held| - 1
      ensures th.held[i + 1] in Successors(g', th.held[i])
    {
      RequestGraphGrows(g, held, req, th.held[i]);
    }
    if th.held != [] {
      RequestGraphGrows(g, held, req, Last(th.held));
    }
  }

  lemma RequestKeepsInv(s: State, t: ThreadId, l: LockAddress)
    requires Inv(s) && Enabled(s, t, Request(l))
    ensures Inv(Do(s, t, Request(l)))
  {
    var s' := Do(s, t, Request(l));
    var th := s.threads[t];
    RequestKeepsAcyclicIff(s.graph, th.held, l);
    forall u | 0 <= u < |s.threads|
      ensures ThreadOk(s'.graph, s'.threads[u])
    {
      ThreadOkMonotone(s.graph, th.held, l, s.threads[u]);
    }
    SameTakenKeepsOwner(s, s');
  }

  lemma SameTakenKeepsOwner(s: State, s': State)
    requires OwnerOk(s) && s'.owner == s.owner && |s'.threads| == |s.threads|
    requires forall u :: 0 <= u < |s.threads| ==> Taken(s'.threads[u]) == Taken(s.threads[u])
    ensures OwnerOk(s')
  {
  }

  lemma AcquireKeepsInv(s: State, t: ThreadId)
    requires Inv(s) && Enabled(s, t, Acquire)
    ensures Inv(Do(s, t, Acquire))
  {
    var s' := Do(s, t, Acquire);
    var th := s.threads[t];
    assert Taken(s'.threads[t]) == Taken(th) + [th.phase.lock];
    assert th.phase.lock !in Taken(th);
    forall u | 0 <= u < |s.threads|
      ensures ThreadOk(s'.graph, s'.threads[u])
    {
      if u == t {
        DistinctExtends(Taken(th), th.phase.lock);
      }
    }
    OwnerOkAfterTaking(s, s', t, th.phase.lock);
  }

  lemma DistinctExtends(a: seq<LockAddress>, l: LockAddress)
    requires Distinct(a) && l !in a
    ensures Distinct(a + [l])
  {
  }

  lemma OwnerOkAfterTaking(s: State, s': State, t: ThreadId, l: LockAddress)
    requires OwnerOk(s) && l !in s.owner && t < |s.threads| == |s'.threads|
    requires s'.owner == s.owner[l := t]
    requires Taken(s'.threads[t]) == Taken(s.threads[t]) + [l]
    requires forall u :: 0 <= u < |s.threads| && u != t ==> s'.threads[u] == s.threads[u]
    ensures OwnerOk(s')
  {
    forall m | m in s'.owner
      ensures s'.owner[m] < |s'.threads| && m in Taken(s'.threads[s'.owner[m]])
    {
      if m != l {
        assert m in s.owner && m in Taken(s.threads[s.owner[m]]);
      }
    }
    forall u, m | 0 <= u < |s'.threads| && m in Taken(s'.threads[u])
      ensures m in s'.owner && s'.owner[m] == u
    {
      if u != t || m != l {
        assert m in Taken(s.threads[u]);
      }
    }
  }

  lemma OwnerOkAfterReleasing(s: State, s': State, t: ThreadId, l: LockAddress)
    requires OwnerOk(s) && t < |s.threads| == |s'.threads|
    requires s'.owner == s.owner - {l}
    requires Taken(s.threads[t]) == Taken(s'.threads[t]) + [l] && Distinct(Taken(s.threads[t]))
    requires forall u :: 0 <= u < |s.threads| && u != t ==> s'.threads[u] == s.threads[u]
    ensures OwnerOk(s')
  {
    var was, now := Taken(s.threads[t]), Taken(s'.threads[t]);
    assert was[|was| - 1] == l;
    forall m | m in s'.owner
      ensures s'.owner[m] < |s'.threads| && m in Taken(s'.threads[s'.owner[m]])
    {
      assert m != l && m in s.owner && m in Taken(s.threads[s.owner[m]]);
    }
    forall u, m | 0 <= u < |s'.threads| && m in Taken(s'.threads[u])
      ensures m in s'.owner && s'.owner[m] == u
    {
      assert l in was && s.owner[l] == t;
      if u != t {
        assert m in Taken(s.threads[u]);
      } else {
        var i :| 0 <= i < |now| && now[i] == m;
        assert was[i] == m && m in was;
      }
    }
  }

  lemma PushKeepsInv(s: State, t: ThreadId)
    requires Inv(s) && Enabled(s, t, Push)
    ensures Inv(Do(s, t, Push))
  {
    var s' := Do(s, t, Push);
    assert Taken(s'.threads[t]) == Taken(s.threads[t]);
    assert forall u :: 0 <= u < |s.threads| && u != t ==> s'.threads[u] == s.threads[u];
  }

  lemma UnlockKeepsInv(s: State, t: ThreadId)
    requires Inv(s) && Enabled(s, t, Unlock)
    ensures Inv(Do(s, t, Unlock))
  {
    var s' := Do(s, t, Unlock);
    var th := s.threads[t];
    assert Taken(th) == Taken(s'.threads[t]) + [Last(th.guards)];
    forall u | 0 <= u < |s.threads|
      ensures ThreadOk(s'.graph, s'.threads[u])
    {
      if u == t {
        assert forall i :: 0 <= i < |DropLast(th.guards)| ==> DropLast(th.guards)[i] == th.guards[i];
      }
    }
    OwnerOkAfterReleasing(s, s', t, Last(th.guards));
  }

  lemma PopKeepsInv(s: State, t: ThreadId)
    requires Inv(s) && Enabled(s, t, Pop)
    ensures Inv(Do(s, t, Pop))
  {
    var s' := Do(s, t, Pop);
    assert Taken(s'.threads[t]) == Taken(s.threads[t]);
    assert s'.threads[t].held == s.threads[t].guards;
    assert forall u :: 0 <= u < |s.threads| && u != t ==> s'.threads[u] == s.threads[u];
  }

  lemma {:induction false} RunKeepsInv(run: seq<State>, i: nat)
    requires IsRun(run) && i < |run|
    ensures Inv(run[i])
  {
    if i == 0 {
      forall l
        ensures !Reaches(run[0].graph, l, l)
      {
        assert forall p :: PathBetween(run[0].graph, p, l, l) ==> p[1] in Successors(run[0].graph, p[0]);
      }
    } else {
      RunKeepsInv(run, i - 1);
      assert Next(run[i - 1], run[i]);
      var t, step :| Enabled(run[i - 1], t, step) && run[i] == Do(run[i - 1], t, step);
      match step
      case Request(l) => RequestKeepsInv(run[i - 1], t, l);
      case Acquire => AcquireKeepsInv(run[i - 1], t);
      case Push => PushKeepsInv(run[i - 1], t);
      case Unlock => UnlockKeepsInv(run[i - 1], t);
      case Pop => PopKeepsInv(run[i - 1], t);
    }
  }

  // ---- circular waits ----

  /** The thread waits for a mutex that some thread (possibly itself) owns. */
  ghost predicate Blocked(s: State, t: ThreadId) {
    t < |s.threads| && s.threads[t].phase.Requested? && s.threads[t].phase.lock in s.owner
  }

  ghost predicate WaitsFor(s: State, t: ThreadId, u: ThreadId) {
    Blocked(s, t) && s.owner[s.threads[t].phase.lock] == u
  }

  ghost predicate WaitPath(s: State, ws: seq<ThreadId>) {
    forall i :: 0 <= i < |ws| - 1 ==> WaitsFor(s, ws[i], ws[i + 1])
  }

  /** Each thread of `ws` waits for the next, the last one for the first. One thread alone is
      a relock of its own lock. */
  ghost predicate CircularWait(s: State, ws: seq<ThreadId>) {
    ws != [] && WaitPath(s, ws) && WaitsFor(s, ws[|ws| - 1], ws[0])
  }

  lemma {:induction false} HeldReachesRequest(g: Graph, th: Thread, i: nat)
    requires ThreadOk(g, th) && th.phase.Requested? && i < |th.held|
    ensures Reaches(g, th.held[i], th.phase.lock)
    decreases |th.held| - i
  {
    if i == |th.held| - 1 {
      EdgeReaches(g, th.held[i], th.phase.lock);
    } else {
      HeldReachesRequest(g, th, i + 1);
      EdgeReaches(g, th.held[i], th.held[i + 1]);
      ReachesTransitive(g, th.held[i], th.held[i + 1], th.phase.lock);
    }
  }

  /** Along a wait the graph leads from the lock waited for to the lock the owner waits for. */
  lemma WaitFollowsEdges(s: State, t: ThreadId, u: ThreadId)
    requires Inv(s) && !s.crashed && WaitsFor(s, t, u) && Blocked(s, u)
    ensures Reaches(s.graph, s.threads[t].phase.lock, s.threads[u].phase.lock)
  {
    var l := s.threads[t].phase.lock;
    assert l in Taken(s.threads[u]);
    var i :| 0 <= i < |s.threads[u].held| && s.threads[u].held[i] == l;
    HeldReachesRequest(s.graph, s.threads[u], i);
  }

  lemma {:induction false} WaitChainFollowsEdges(s: State, ws: seq<ThreadId>, n: nat)
    requires Inv(s) && !s.crashed && 0 < n < |ws|
    requires WaitPath(s, ws) && Blocked(s, ws[|ws| - 1])
    ensures Blocked(s, ws[0]) && Blocked(s, ws[n])
    ensures Reaches(s.graph, s.threads[ws[0]].phase.lock, s.threads[ws[n]].phase.lock)
  {
    assert WaitsFor(s, ws[0], ws[1]);
    assert n < |ws| - 1 ==> WaitsFor(s, ws[n], ws[n + 1]);
    assert WaitsFor(s, ws[n - 1], ws[n]);
    WaitFollowsEdges(s, ws[n - 1], ws[n]);
    if n > 1 {
      WaitChainFollowsEdges(s, ws, n - 1);
      ReachesTransitive(s.graph, s.threads[ws[0]].phase.lock, s.threads[ws[n - 1]].phase.lock,
                        s.threads[ws[n]].phase.lock);
    }
  }

  lemma CircularWaitIsClosedPath(s: State, ws: seq<ThreadId>)
    requires CircularWait(s, ws)
    ensures WaitPath(s, ws + [ws[0]]) && Blocked(s, ws[0])
  {
    var ring := ws + [ws[0]];
    forall i | 0 <= i < |ring| - 1
      ensures WaitsFor(s, ring[i], ring[i + 1])
    {
      assert i < |ws| - 1 ==> WaitsFor(s, ws[i], ws[i + 1]);
    }
    assert WaitsFor(s, ring[0], ring[1]);
  }

  lemma InvExcludesCircularWait(s: State, ws: seq<ThreadId>)
    requires Inv(s) && !s.crashed
    ensures !CircularWait(s, ws)
  {
    if CircularWait(s, ws) {
      CircularWaitIsClosedPath(s, ws);
      WaitChainFollowsEdges(s, ws + [ws[0]], |ws|);
    }
  }

  /** In every run of any number of threads, no state that did not crash holds a circular
      wait of any length. */
  lemma NoCircularWait(run: seq<State>, i: nat, ws: seq<ThreadId>)
    requires IsRun(run) && i < |run| && !run[i].crashed
    ensures !CircularWait(run[i], ws)
  {
    RunKeepsInv(run, i);
    InvExcludesCircularWait(run[i], ws);
  }

  /** No two threads ever hold live guards for one lock, nor one thread two of them. */
  lemma MutualExclusion(run: seq<State>, i: nat, t: ThreadId, u: ThreadId, j: nat, k: nat)
    requires IsRun(run) && i < |run| && !run[i].crashed
    requires t < |run[i].threads| && u < |run[i].threads|
    requires j < |run[i].threads[t].guards| && k < |run[i].threads[u].guards|
    requires run[i].threads[t].guards[j] == run[i].threads[u].guards[k]
    ensures t == u && j == k
  {
    RunKeepsInv(run, i);
    var s := run[i];
    var l := s.threads[t].guards[j];
    var a, b := Taken(s.threads[t]), Taken(s.threads[u]);
    assert a[j] == l && l in a;
    assert b[k] == l && l in b;
    assert s.owner[l] == t && s.owner[l] == u;
    assert ThreadOk(s.graph, s.threads[t]) && Distinct(Taken(s.threads[t]));
  }

  // ---- some owner can always move ----

  /** A thread that owns a lock and is not itself blocked has a step to take. */
  ghost predicate CanMove(s: State, t: ThreadId) {
    exists step :: Enabled(s, t, step)
  }

  lemma UnblockedOwnerCanMove(s: State, t: ThreadId, l: LockAddress)
    requires Inv(s) && !s.crashed && l in s.owner && s.owner[l] == t && !Blocked(s, t)
    ensures CanMove(s, t)
  {
    var th := s.threads[t];
    match th.phase {
      case Running =>
        assert l in Taken(th);
        assert Enabled(s, t, Unlock);
      case Requested(_) => assert Enabled(s, t, Acquire);
      case Entered(_) => assert Enabled(s, t, Push);
      case Unlocked(_) => assert Enabled(s, t, Pop);
    }
  }

  ghost function Below(n: nat): (ids: set<ThreadId>)
    ensures forall t: ThreadId :: t in ids <==> t < n
  {
    if n == 0 then {} else Below(n - 1) + {n - 1}
  }

  ghost predicate WaitChain(s: State, chain: seq<ThreadId>) {
    chain != [] && Blocked(s, chain[|chain| - 1]) && WaitPath(s, chain)
  }

  lemma ClosedChainIsCircular(s: State, chain: seq<ThreadId>, i: nat)
    requires WaitChain(s, chain) && i < |chain| && WaitsFor(s, chain[|chain| - 1], chain[i])
    ensures CircularWait(s, chain[i..])
  {
    var ws := chain[i..];
    forall j | 0 <= j < |ws| - 1
      ensures WaitsFor(s, ws[j], ws[j + 1])
    {
      assert WaitsFor(s, chain[i + j], chain[i + j + 1]);
    }
  }

  lemma WaitChainCannotClose(s: State, chain: seq<ThreadId>, i: nat)
    requires Inv(s) && !s.crashed && WaitChain(s, chain) && i < |chain|
    ensures !WaitsFor(s, chain[|chain| - 1], chain[i])
  {
    if WaitsFor(s, chain[|chain| - 1], chain[i]) {
      ClosedChainIsCircular(s, chain, i);
      InvExcludesCircularWait(s, chain[i..]);
    }
  }

  /** Follows the waits from `chain[0]`; the chain cannot close, so it ends. `rest` bounds the
      threads not met yet. */
  lemma {:induction false} FollowWaits(s: State, chain: seq<ThreadId>, rest: set<ThreadId>)
    returns (u: ThreadId, l: LockAddress)
    requires Inv(s) && !s.crashed && WaitChain(s, chain)
    requires forall t: nat :: t < |s.threads| && t !in chain ==> t in rest
    ensures l in s.owner && s.owner[l] == u && !Blocked(s, u)
    decreases rest
  {
    var last := chain[|chain| - 1];
    l := s.threads[last].phase.lock;
    u := s.owner[l];
    if Blocked(s, u) {
      assert WaitsFor(s, last, u);
      if u in chain {
        var i :| 0 <= i < |chain| && chain[i] == u;
        WaitChainCannotClose(s, chain, i);
        assert false;
      } else {
        var longer := chain + [u];
        forall j | 0 <= j < |longer| - 1
          ensures WaitsFor(s, longer[j], longer[j + 1])
        {
          assert j < |chain| - 1 ==> WaitsFor(s, chain[j], chain[j + 1]);
        }
        assert forall t :: t in chain ==> t in longer;
        assert u in longer;
        u, l := FollowWaits(s, longer, rest - {u});
      }
    }
  }

  /** Whenever a thread is blocked, some lock owner is not, and has a step to take: the
      threads are never all stuck on each other. */
  lemma SomeOwnerCanMove(run: seq<State>, i: nat, t: ThreadId)
    requires IsRun(run) && i < |run| && !run[i].crashed && Blocked(run[i], t)
    ensures exists u, l :: l in run[i].owner && run[i].owner[l] == u && !Blocked(run[i], u) && CanMove(run[i], u)
  {
    RunKeepsInv(run, i);
    var u, l := FollowWaits(run[i], [t], Below(|run[i].threads|));
    UnblockedOwnerCanMove(run[i], u, l);
  }
}
