/** Concurrent senders and completion threads of one open session, interleaved between the
    critical sections (ServerCore/Network/Session.cpp). */
module SendProtocol {
  import opened ByteBuffer
  import opened SendQueue

  type ThreadId = nat

  /** Where a thread stands. */
  datatype Phase =
    | Idle
    | Committed                                 // about to take a batch
    | Popped(batch: seq<SendBuffer>)            // has a batch, about to post it
    | Storing(batch: seq<SendBuffer>)           // has posted a batch, about to store it
    | Clearing                                  // found nothing to send, about to clear the flag
    | Completing(requeue: seq<SendBuffer>)      // has digested a completion, about to requeue

  /** `buffers` is the stored batch and `posted` the sizes of the sends posted and not yet
      completed; `wire` and `log` record the bytes posted and the buffers accepted so far. */
  datatype State = State(
    sendDeque: seq<SendBuffer>,
    sending: bool,
    buffers: seq<SendBuffer>,
    posted: seq<nat>,
    threads: seq<Phase>,
    wire: seq<Byte>,
    log: seq<SendBuffer>)

  datatype Step = Send(b: SendBuffer) | TakeBatch | Post | Store | Clear | Complete(transferred: nat) | Requeue

  /** A step and the thread that takes it. */
  datatype Act = Act(t: ThreadId, step: Step)

  ghost predicate Init(s: State) {
    && s.sendDeque == [] && !s.sending && s.buffers == [] && s.posted == [] && s.wire == [] && s.log == []
    && forall t :: 0 <= t < |s.threads| ==> s.threads[t] == Idle
  }

  ghost predicate Enabled(s: State, a: Act) {
    && a.t < |s.threads|
    && match a.step
       case Send(_) => s.threads[a.t].Idle?
       case TakeBatch => s.threads[a.t].Committed?
       case Post => s.threads[a.t].Popped?
       case Store => s.threads[a.t].Storing?
       case Clear => s.threads[a.t].Clearing?
       case Complete(n) => s.threads[a.t].Idle? && s.posted != [] && 0 < n <= s.posted[0]
       case Requeue => s.threads[a.t].Completing?
  }

  /** A completion may be of less than the batch, and may come before the batch is stored. */
  ghost function Do(s: State, a: Act): State
    requires Enabled(s, a)
  {
    var t := a.t;
    match a.step
    case Send(b) =>
      s.(sendDeque := s.sendDeque + [b], log := s.log + [b], sending := true,
         threads := s.threads[t := if s.sending then Idle else Committed])
    case TakeBatch =>
      var (batch, rest) := SendQueue.TakeBatch(s.sendDeque, MAX_SEND_BUFFER_COUNT);
      s.(sendDeque := rest, threads := s.threads[t := if batch == [] then Clearing else Popped(batch)])
    case Post =>
      s.(posted := s.posted + [|BytesOf(s.threads[t].batch)|], wire := s.wire + BytesOf(s.threads[t].batch),
         threads := s.threads[t := Storing(s.threads[t].batch)])
    case Store =>
      s.(buffers := s.threads[t].batch, threads := s.threads[t := Idle])
    case Clear =>
      s.(sending := false, threads := s.threads[t := Idle])
    case Complete(n) =>
      s.(buffers := [], posted := s.posted[1..], threads := s.threads[t := Completing(Requeued(s.buffers, n))])
    case Requeue =>
      var q := s.threads[t].requeue + s.sendDeque;
      s.(sendDeque := q, sending := s.sending && q != [],
         threads := s.threads[t := if q != [] then Committed else Idle])
  }

  ghost predicate IsRun(run: seq<State>, acts: seq<Act>) {
    && |run| == |acts| + 1 && Init(run[0])
    && forall i :: 0 <= i < |acts| ==> Enabled(run[i], acts[i]) && run[i + 1] == Do(run[i], acts[i])
  }

  /** Completions cover their whole batch, and none is handled while a posted batch is still
      to be stored. */
  ghost predicate Orderly(s: State, a: Act) {
    a.step.Complete? && s.posted != [] ==>
      a.step.transferred == s.posted[0] && forall t :: 0 <= t < |s.threads| ==> !s.threads[t].Storing?
  }

  ghost predicate IsOrderly(run: seq<State>, acts: seq<Act>) {
    IsRun(run, acts) && forall i :: 0 <= i < |acts| ==> Orderly(run[i], acts[i])
  }

  // ---- the sending flag is a token ----

  /** Who may send: nobody, one thread, or the kernel while a send is outstanding. */
  datatype Holder = Nobody | Thread(t: ThreadId) | Kernel

  /** A thread between taking the right to send and passing it on. */
  predicate Active(p: Phase) {
    !p.Idle? && !p.Storing?
  }

  ghost predicate HeldBy(s: State, h: Holder) {
    && (s.sending <==> h != Nobody)
    && |s.posted| == (if h == Kernel then 1 else 0)
    && (h.Thread? ==> h.t < |s.threads|)
    && forall t :: 0 <= t < |s.threads| ==> (Active(s.threads[t]) <==> h == Thread(t))
  }

  function NextHolder(s: State, h: Holder, a: Act): Holder {
    match a.step
    case Send(_) => if s.sending then h else Thread(a.t)
    case TakeBatch => h
    case Post => Kernel
    case Store => h
    case Clear => Nobody
    case Complete(_) => Thread(a.t)
    case Requeue =>
      if a.t < |s.threads| && s.threads[a.t].Completing? && s.threads[a.t].requeue + s.sendDeque == []
      then Nobody
      else h
  }

  lemma StepKeepsHolder(s: State, h: Holder, a: Act)
    requires HeldBy(s, h) && Enabled(s, a)
    ensures HeldBy(Do(s, a), NextHolder(s, h, a))
  {
    assert Active(s.threads[a.t]) ==> h == Thread(a.t);
    assert forall u :: 0 <= u < |s.threads| && u != a.t ==> Do(s, a).threads[u] == s.threads[u];
  }

  lemma {:induction false} RunKeepsHolder(run: seq<State>, acts: seq<Act>, i: nat) returns (h: Holder)
    requires IsRun(run, acts) && i < |run|
    ensures HeldBy(run[i], h)
  {
    if i == 0 {
      h := Nobody;
    } else {
      h := RunKeepsHolder(run, acts, i - 1);
      StepKeepsHolder(run[i - 1], h, acts[i - 1]);
      assert run[i - 1 + 1] == Do(run[i - 1], acts[i - 1]);
      h := NextHolder(run[i - 1], h, acts[i - 1]);
    }
  }

  /** In every run, whatever the buffers, and however much and whenever completions come: at most one send is
      outstanding, then no thread is inside the send path, otherwise at most one thread is;
      and the flag says whether any. */
  lemma SendingIsAToken(run: seq<State>, acts: seq<Act>, i: nat, t: ThreadId, u: ThreadId)
    requires IsRun(run, acts) && i < |run| && t < |run[i].threads| && u < |run[i].threads|
    ensures var s := run[i];
            && |s.posted| <= 1
            && (Active(s.threads[t]) && Active(s.threads[u]) ==> t == u)
            && (Active(s.threads[t]) ==> s.posted == [] && s.sending)
            && (s.posted != [] ==> s.sending)
            && (s.sending && s.posted == [] ==> exists v :: 0 <= v < |s.threads| && Active(s.threads[v]))
  {
    var h := RunKeepsHolder(run, acts, i);
    if h.Thread? {
      assert Active(run[i].threads[h.t]);
    }
  }

  // ---- bytes are conserved when completions are whole and batches are stored in time ----

  /** The bytes taken from the queue and not yet posted. */
  function InHand(s: State, h: Holder): seq<Byte> {
    if h.Thread? && h.t < |s.threads| && s.threads[h.t].Popped? then BytesOf(s.threads[h.t].batch) else []
  }

  ghost predicate NothingRequeued(s: State) {
    forall t :: 0 <= t < |s.threads| && s.threads[t].Completing? ==> s.threads[t].requeue == []
  }

  /** Nothing waits to be requeued, and the outstanding send is of the batch that is stored or
      about to be. */
  ghost predicate BatchKnown(s: State, h: Holder) {
    && NothingRequeued(s)
    && (forall t :: 0 <= t < |s.threads| && s.threads[t].Storing? ==>
          h == Kernel && s.posted == [|BytesOf(s.threads[t].batch)|])
    && (forall t, u :: 0 <= t < |s.threads| && 0 <= u < |s.threads| ==>
          s.threads[t].Storing? && s.threads[u].Storing? ==> t == u)
    && (h == Kernel ==>
          || s.posted == [|BytesOf(s.buffers)|]
          || exists t :: 0 <= t < |s.threads| && s.threads[t].Storing?)
  }

  ghost predicate Conserved(s: State, h: Holder) {
    BytesOf(s.log) == s.wire + InHand(s, h) + BytesOf(s.sendDeque)
  }

  lemma StepKeepsBatchKnown(s: State, h: Holder, a: Act)
    requires HeldBy(s, h) && BatchKnown(s, h) && Enabled(s, a) && Orderly(s, a)
    ensures BatchKnown(Do(s, a), NextHolder(s, h, a))
  {
    var s', h' := Do(s, a), NextHolder(s, h, a);
    assert Active(s.threads[a.t]) ==> h == Thread(a.t);
    assert forall u :: 0 <= u < |s.threads| && u != a.t ==> s'.threads[u] == s.threads[u];
    match a.step
    case Post => assert s'.threads[a.t].Storing?;
    case Complete(_) => WholeBatchRequeuesNothing(s.buffers);
    case Send(_) =>
      if t :| 0 <= t < |s.threads| && s.threads[t].Storing? {
        assert s'.threads[t].Storing?;
      }
    case _ =>
  }

  lemma SendConserves(s: State, h: Holder, a: Act)
    requires HeldBy(s, h) && Conserved(s, h) && Enabled(s, a) && a.step.Send?
    ensures Conserved(Do(s, a), NextHolder(s, h, a))
  {
    var s', b := Do(s, a), a.step.b;
    var hand := InHand(s, h);
    assert hand == InHand(s', NextHolder(s, h, a));
    BytesOfAppend(s.sendDeque, [b]);
    BytesOfAppend(s.log, [b]);
    Regroup(s.wire, hand, BytesOf(s.sendDeque), BytesOf([b]));
  }

  lemma Regroup(a: seq<Byte>, b: seq<Byte>, c: seq<Byte>, d: seq<Byte>)
    ensures (a + b + c) + d == a + b + (c + d)
  {
  }

  lemma TakeBatchConserves(s: State, h: Holder, a: Act)
    requires HeldBy(s, h) && Conserved(s, h) && Enabled(s, a) && a.step.TakeBatch?
    ensures Conserved(Do(s, a), NextHolder(s, h, a))
  {
    var s' := Do(s, a);
    assert Active(s.threads[a.t]) && h == Thread(a.t);
    var batch, rest := SendQueue.TakeBatch(s.sendDeque, MAX_SEND_BUFFER_COUNT).0, s'.sendDeque;
    assert InHand(s', h) == BytesOf(batch);
    assert BytesOf(s'.log) == s'.wire + BytesOf(batch) + BytesOf(rest) by {
      TakeBatchKeepsBytes(s.sendDeque, MAX_SEND_BUFFER_COUNT);
      Regroup(s.wire, [], BytesOf(batch), BytesOf(rest));
      assert s.wire + [] == s.wire;
    }
  }

  lemma StepConserves(s: State, h: Holder, a: Act)
    requires HeldBy(s, h) && NothingRequeued(s) && Conserved(s, h) && Enabled(s, a)
    ensures Conserved(Do(s, a), NextHolder(s, h, a))
  {
    assert Active(s.threads[a.t]) ==> h == Thread(a.t);
    match a.step
    case Send(b) => SendConserves(s, h, a);
    case TakeBatch => TakeBatchConserves(s, h, a);
    case Post => assert s.wire + BytesOf(s.threads[a.t].batch) + [] == s.wire + BytesOf(s.threads[a.t].batch);
    case Requeue => assert s.threads[a.t].requeue + s.sendDeque == s.sendDeque;
    case _ =>
  }

  lemma {:induction false} OrderlyRunConserves(run: seq<State>, acts: seq<Act>, i: nat) returns (h: Holder)
    requires IsOrderly(run, acts) && i < |run|
    ensures HeldBy(run[i], h) && BatchKnown(run[i], h) && Conserved(run[i], h)
  {
    if i == 0 {
      h := Nobody;
    } else {
      h := OrderlyRunConserves(run, acts, i - 1);
      StepKeepsHolder(run[i - 1], h, acts[i - 1]);
      StepKeepsBatchKnown(run[i - 1], h, acts[i - 1]);
      StepConserves(run[i - 1], h, acts[i - 1]);
      assert run[i - 1 + 1] == Do(run[i - 1], acts[i - 1]);
      h := NextHolder(run[i - 1], h, acts[i - 1]);
    }
  }

  /** In every orderly run, whatever the buffers: the bytes accepted are the bytes on the wire,
      then those of a batch in a thread's hands, then those queued, all in order. */
  lemma BytesConserved(run: seq<State>, acts: seq<Act>, i: nat)
    requires IsOrderly(run, acts) && i < |run|
    ensures var s := run[i];
            exists h :: HeldBy(s, h) && BytesOf(s.log) == s.wire + InHand(s, h) + BytesOf(s.sendDeque)
    ensures !run[i].sending ==> BytesOf(run[i].log) == run[i].wire + BytesOf(run[i].sendDeque)
  {
    var h := OrderlyRunConserves(run, acts, i);
    assert HeldBy(run[i], h);
    assert !run[i].sending ==> run[i].wire + [] == run[i].wire;
  }

  /** A run in which the first batch is stored after its completion, over the second batch:
      the second completion is then taken for a partial one of the first batch. */
  ghost function LateStoreActs(x: SendBuffer, y: SendBuffer): seq<Act> {
    [Act(0, Send(x)), Act(0, TakeBatch), Act(0, Post), Act(1, Send(y)),
     Act(1, Complete(|Bytes(x)|)), Act(1, Requeue), Act(1, TakeBatch), Act(1, Post), Act(1, Store), Act(0, Store),
     Act(1, Complete(|Bytes(y)|)), Act(1, Requeue), Act(1, TakeBatch), Act(1, Post)]
  }

  ghost function LateStoreState(x: SendBuffer, y: SendBuffer, i: nat): State {
    var sx, sy, one, two := |Bytes(x)|, |Bytes(y)|, Bytes(x), Bytes(x) + Bytes(y);
    match i
    case 0 => State([], false, [], [], [Idle, Idle], [], [])
    case 1 => State([x], true, [], [], [Committed, Idle], [], [x])
    case 2 => State([], true, [], [], [Popped([x]), Idle], [], [x])
    case 3 => State([], true, [], [sx], [Storing([x]), Idle], one, [x])
    case 4 => State([y], true, [], [sx], [Storing([x]), Idle], one, [x, y])
    case 5 => State([y], true, [], [], [Storing([x]), Completing([])], one, [x, y])
    case 6 => State([y], true, [], [], [Storing([x]), Committed], one, [x, y])
    case 7 => State([], true, [], [], [Storing([x]), Popped([y])], one, [x, y])
    case 8 => State([], true, [], [sy], [Storing([x]), Storing([y])], two, [x, y])
    case 9 => State([], true, [y], [sy], [Storing([x]), Idle], two, [x, y])
    case 10 => State([], true, [x], [sy], [Idle, Idle], two, [x, y])
    case 11 => State([], true, [], [], [Idle, Completing([x])], two, [x, y])
    case 12 => State([x], true, [], [], [Idle, Committed], two, [x, y])
    case 13 => State([], true, [], [], [Idle, Popped([x])], two, [x, y])
    case _ => State([], true, [], [sx], [Idle, Storing([x])], two + one, [x, y])
  }

  ghost function LateStoreRun(x: SendBuffer, y: SendBuffer): seq<State> {
    seq(15, i requires 0 <= i < 15 => LateStoreState(x, y, i))
  }

  lemma TakeOne(x: SendBuffer)
    requires Carries(x)
    ensures SendQueue.TakeBatch([x], MAX_SEND_BUFFER_COUNT) == ([x], []) && BytesOf([x]) == Bytes(x)
  {
    BytesOfOne(x);
    assert [x][1..] == [];
    assert [x] + [] == [x];
  }

  ghost predicate LateStoreStepOk(x: SendBuffer, y: SendBuffer, i: nat)
    requires i < 14
  {
    var s, a := LateStoreState(x, y, i), LateStoreActs(x, y)[i];
    Enabled(s, a) && LateStoreState(x, y, i + 1) == Do(s, a)
  }

  lemma LateStoreBegins(x: SendBuffer, y: SendBuffer)
    requires Carries(x)
    ensures LateStoreStepOk(x, y, 0) && LateStoreStepOk(x, y, 1)
  {
    TakeOne(x);
  }

  lemma LateStorePosts(x: SendBuffer, y: SendBuffer)
    requires Carries(x)
    ensures LateStoreStepOk(x, y, 2) && LateStoreStepOk(x, y, 3)
  {
    TakeOne(x);
  }

  lemma LateStoreGoesOn(x: SendBuffer, y: SendBuffer)
    requires Carries(x) && Carries(y)
    ensures LateStoreStepOk(x, y, 4) && LateStoreStepOk(x, y, 5) && LateStoreStepOk(x, y, 6) && LateStoreStepOk(x, y, 7)
  {
    TakeOne(y);
    assert [] + [y] == [y];
  }

  lemma LateStoreHappens(x: SendBuffer, y: SendBuffer)
    requires Carries(x) && Carries(y) && |x.unsent| > |y.unsent|
    ensures LateStoreStepOk(x, y, 8) && LateStoreStepOk(x, y, 9) && LateStoreStepOk(x, y, 10)
  {
    assert Requeued([x], |Bytes(y)|) == [x];
  }

  lemma LateStoreEnds(x: SendBuffer, y: SendBuffer)
    requires Carries(x) && Carries(y)
    ensures LateStoreStepOk(x, y, 11) && LateStoreStepOk(x, y, 12) && LateStoreStepOk(x, y, 13)
  {
    TakeOne(x);
    assert [x] + [] == [x];
  }

  /** Whole completions are not enough to conserve the bytes: for any first buffer longer than the
      second, its bytes go out twice. */
  lemma LateStoreRepeatsBytes(x: SendBuffer, y: SendBuffer)
    requires Carries(x) && Carries(y) && |x.unsent| > |y.unsent|
    ensures var run := LateStoreRun(x, y);
            && IsRun(run, LateStoreActs(x, y))
            && run[14].log == [x, y] && run[14].wire == Bytes(x) + Bytes(y) + Bytes(x)
  {
    LateStoreBegins(x, y);
    LateStorePosts(x, y);
    LateStoreGoesOn(x, y);
    LateStoreHappens(x, y);
    LateStoreEnds(x, y);
    forall i | 0 <= i < 14
      ensures LateStoreStepOk(x, y, i)
    {
    }
  }

  // ---- lost wakeups ----

  /** Something is queued and nobody will ever send it unless another Send comes. */
  ghost predicate LostWakeup(s: State) {
    && s.sendDeque != [] && s.posted == []
    && forall t :: 0 <= t < |s.threads| ==> !Active(s.threads[t])
  }

  ghost predicate AllCarry(q: seq<SendBuffer>) {
    forall b :: b in q ==> Carries(b)
  }

  /** The buffers a thread holds. */
  function Holding(p: Phase): seq<SendBuffer> {
    match p
    case Popped(batch) => batch
    case Storing(batch) => batch
    case Completing(requeue) => requeue
    case _ => []
  }

  /** The invariant of runs in which every buffer accepted carries bytes. */
  ghost predicate Awake(s: State) {
    && (s.sendDeque != [] ==> s.sending)
    && AllCarry(s.sendDeque) && AllCarry(s.buffers)
    && forall t :: 0 <= t < |s.threads| ==>
         !s.threads[t].Clearing? && (s.threads[t].Committed? ==> s.sendDeque != []) && AllCarry(Holding(s.threads[t]))
  }

  lemma {:induction false} RequeuedFromBatch(batch: seq<SendBuffer>, transferred: nat)
    ensures forall b :: b in Requeued(batch, transferred) ==> b in batch
    decreases |batch|
  {
    if batch != [] && transferred != 0 {
      if batch[0].Null? {
        RequeuedFromBatch(batch[1..], transferred);
      } else if transferred >= |batch[0].unsent| {
        RequeuedFromBatch(batch[1..], transferred - |batch[0].unsent|);
      }
    }
  }

  lemma StepKeepsAwake(s: State, h: Holder, a: Act)
    requires HeldBy(s, h) && Awake(s) && Enabled(s, a)
    requires a.step.Send? ==> Carries(a.step.b)
    ensures Awake(Do(s, a))
  {
    var s' := Do(s, a);
    assert Active(s.threads[a.t]) ==> h == Thread(a.t);
    assert AllCarry(Holding(s.threads[a.t]));
    assert forall u :: 0 <= u < |s.threads| && u != a.t ==> s'.threads[u] == s.threads[u];
    match a.step
    case TakeBatch => TakeBatchSplits(s.sendDeque, MAX_SEND_BUFFER_COUNT);
    case Complete(n) => RequeuedFromBatch(s.buffers, n);
    case _ =>
  }

  lemma LogGrows(s: State, a: Act)
    requires Enabled(s, a)
    ensures forall b :: b in s.log ==> b in Do(s, a).log
    ensures a.step.Send? ==> a.step.b in Do(s, a).log
  {
  }

  lemma {:induction false} RunStaysAwake(run: seq<State>, acts: seq<Act>, i: nat)
    requires IsRun(run, acts) && i < |run| && AllCarry(run[i].log)
    ensures Awake(run[i])
  {
    if i > 0 {
      var k := i - 1;
      assert run[k + 1] == Do(run[k], acts[k]);
      LogGrows(run[k], acts[k]);
      RunStaysAwake(run, acts, k);
      var h := RunKeepsHolder(run, acts, k);
      StepKeepsAwake(run[k], h, acts[k]);
    }
  }

  ghost predicate AllAllowed(q: seq<SendBuffer>, allowed: SendBuffer -> bool) {
    forall b :: b in q ==> allowed(b)
  }

  /** No run whose accepted buffers are all `allowed` ends with a lost wakeup. */
  ghost predicate NeverLosesWakeup(allowed: SendBuffer -> bool) {
    forall run: seq<State>, acts: seq<Act> ::
      IsRun(run, acts) && AllAllowed(run[|acts|].log, allowed) ==> !LostWakeup(run[|acts|])
  }

  /** A run that loses the wakeup of `x`: a buffer that carries nothing is found alone in the
      queue, `x` is queued before the flag is cleared, and the flag is cleared after. */
  ghost function LosingRun(empty: SendBuffer, x: SendBuffer): seq<State> {
    [State([], false, [], [], [Idle, Idle], [], []),
     State([empty], true, [], [], [Committed, Idle], [], [empty]),
     State([], true, [], [], [Clearing, Idle], [], [empty]),
     State([x], true, [], [], [Clearing, Idle], [], [empty, x]),
     State([x], false, [], [], [Idle, Idle], [], [empty, x])]
  }

  ghost function LosingActs(empty: SendBuffer, x: SendBuffer): seq<Act> {
    [Act(0, Send(empty)), Act(0, TakeBatch), Act(1, Send(x)), Act(0, Clear)]
  }

  lemma LosingRunBegins(empty: SendBuffer, x: SendBuffer)
    requires !Carries(empty)
    ensures var run, acts := LosingRun(empty, x), LosingActs(empty, x);
            forall i :: 0 <= i < 2 ==> Enabled(run[i], acts[i]) && run[i + 1] == Do(run[i], acts[i])
  {
    assert [empty][1..] == [];
    assert SendQueue.TakeBatch([empty], MAX_SEND_BUFFER_COUNT) == ([], []);
  }

  lemma LosingRunLoses(empty: SendBuffer, x: SendBuffer)
    requires !Carries(empty)
    ensures var run := LosingRun(empty, x);
            IsRun(run, LosingActs(empty, x)) && LostWakeup(run[4]) && run[4].log == [empty, x]
  {
    LosingRunBegins(empty, x);
  }

  /** Wakeups are never lost, whenever completions come, exactly when every buffer handed to
      Send is neither null nor empty: the flag is cleared outside the critical section that
      saw an empty queue. */
  lemma NoLostWakeupIff(allowed: SendBuffer -> bool)
    ensures NeverLosesWakeup(allowed) <==> forall b :: allowed(b) ==> Carries(b)
  {
    if b :| allowed(b) && !Carries(b) {
      LosingRunLoses(b, b);
      var run, acts := LosingRun(b, b), LosingActs(b, b);
      assert IsRun(run, acts) && AllAllowed(run[|acts|].log, allowed) && LostWakeup(run[|acts|]);
    } else {
      forall run: seq<State>, acts: seq<Act> | IsRun(run, acts) && AllAllowed(run[|acts|].log, allowed)
        ensures !LostWakeup(run[|acts|])
      {
        RunStaysAwake(run, acts, |acts|);
        var h := RunKeepsHolder(run, acts, |acts|);
      }
    }
  }

  /** Once no send is outstanding and no thread is sending, everything accepted was sent. */
  lemma QuietMeansSent(run: seq<State>, acts: seq<Act>, i: nat)
    requires IsOrderly(run, acts) && i < |run| && AllCarry(run[i].log) && !run[i].sending
    ensures run[i].sendDeque == [] && run[i].wire == BytesOf(run[i].log)
  {
    RunStaysAwake(run, acts, i);
    BytesConserved(run, acts, i);
  }

  // ---- exactly when whole completions conserve the bytes, whenever they come ----

  /** Completions cover their whole batch, and may come before it is stored. */
  ghost predicate IsWhole(run: seq<State>, acts: seq<Act>) {
    && IsRun(run, acts)
    && forall i :: 0 <= i < |acts| && acts[i].step.Complete? ==> acts[i].step.transferred == run[i].posted[0]
  }

  /** Every byte accepted is posted, in hand or queued, in order. */
  ghost predicate KeepsBytes(s: State) {
    exists h :: HeldBy(s, h) && Conserved(s, h)
  }

  ghost predicate AlwaysKeepsBytes(allowed: SendBuffer -> bool) {
    forall run: seq<State>, acts: seq<Act> ::
      IsWhole(run, acts) && AllAllowed(run[|acts|].log, allowed) ==> KeepsBytes(run[|acts|])
  }

  predicate Full(b: SendBuffer, n: nat) {
    Carries(b) && |b.unsent| == n
  }

  ghost predicate AllFull(q: seq<SendBuffer>, n: nat) {
    forall b :: b in q ==> Full(b, n)
  }

  /** The buffers that carry bytes are full. */
  ghost predicate FullOrNothing(q: seq<SendBuffer>, n: nat) {
    forall b :: b in q && Carries(b) ==> Full(b, n)
  }

  lemma {:induction false} FullBytes(q: seq<SendBuffer>, n: nat)
    requires AllFull(q, n)
    ensures |BytesOf(q)| == |q| * n
    decreases |q|
  {
    if q != [] {
      assert q[0] in q;
      FullBytes(q[1..], n);
      assert |q| * n == n + (|q| - 1) * n;
    }
  }

  /** A transfer of whole buffers leaves nothing of a batch of such buffers to requeue, even if
      it was the transfer of another batch. */
  lemma {:induction false} WholeBuffersRequeueNothing(q: seq<SendBuffer>, n: nat, k: nat)
    requires AllFull(q, n)
    ensures Requeued(q, k * n) == []
    decreases |q|
  {
    if q != [] && k * n > 0 {
      assert q[0] in q;
      assert k * n == (k - 1) * n + n;
      assert (k - 1) * n >= 0;
      WholeBuffersRequeueNothing(q[1..], n, k - 1);
    }
  }

  ghost predicate WholeBuffers(size: nat, n: nat) {
    exists k: nat :: size == k * n
  }

  /** All batches are of full buffers, and so are the sizes posted; nothing is requeued. */
  ghost predicate EvenBatches(s: State, n: nat) {
    && FullOrNothing(s.sendDeque, n) && AllFull(s.buffers, n) && NothingRequeued(s)
    && (forall i :: 0 <= i < |s.posted| ==> WholeBuffers(s.posted[i], n))
    && forall t :: 0 <= t < |s.threads| ==> AllFull(Holding(s.threads[t]), n)
  }

  lemma TakeBatchIsFull(q: seq<SendBuffer>, n: nat)
    requires FullOrNothing(q, n)
    ensures AllFull(SendQueue.TakeBatch(q, MAX_SEND_BUFFER_COUNT).0, n)
    ensures FullOrNothing(SendQueue.TakeBatch(q, MAX_SEND_BUFFER_COUNT).1, n)
  {
    TakeBatchSplits(q, MAX_SEND_BUFFER_COUNT);
  }

  lemma StepKeepsEvenBatches(s: State, a: Act, n: nat)
    requires EvenBatches(s, n) && Enabled(s, a)
    requires a.step.Send? && Carries(a.step.b) ==> Full(a.step.b, n)
    requires a.step.Complete? ==> a.step.transferred == s.posted[0]
    ensures EvenBatches(Do(s, a), n)
  {
    var s' := Do(s, a);
    assert AllFull(Holding(s.threads[a.t]), n);
    assert forall u :: 0 <= u < |s.threads| && u != a.t ==> s'.threads[u] == s.threads[u];
    match a.step
    case TakeBatch => TakeBatchIsFull(s.sendDeque, n);
    case Post =>
      FullBytes(s.threads[a.t].batch, n);
      assert WholeBuffers(|BytesOf(s.threads[a.t].batch)|, n);
    case Complete(size) =>
      var k: nat :| s.posted[0] == k * n;
      WholeBuffersRequeueNothing(s.buffers, n, k);
    case Requeue => assert s.threads[a.t].requeue + s.sendDeque == s.sendDeque;
    case _ =>
  }

  lemma {:induction false} EvenRunConserves(run: seq<State>, acts: seq<Act>, i: nat, n: nat) returns (h: Holder)
    requires IsWhole(run, acts) && i < |run| && FullOrNothing(run[i].log, n)
    ensures HeldBy(run[i], h) && Conserved(run[i], h) && EvenBatches(run[i], n)
  {
    if i == 0 {
      h := Nobody;
    } else {
      var k := i - 1;
      assert run[k + 1] == Do(run[k], acts[k]);
      LogGrows(run[k], acts[k]);
      h := EvenRunConserves(run, acts, k, n);
      StepKeepsHolder(run[k], h, acts[k]);
      StepConserves(run[k], h, acts[k]);
      StepKeepsEvenBatches(run[k], acts[k], n);
      h := NextHolder(run[k], h, acts[k]);
    }
  }

  lemma LateStoreIsWhole(x: SendBuffer, y: SendBuffer)
    requires Carries(x) && Carries(y) && |x.unsent| > |y.unsent|
    ensures IsWhole(LateStoreRun(x, y), LateStoreActs(x, y)) && !KeepsBytes(LateStoreRun(x, y)[14])
  {
    LateStoreRepeatsBytes(x, y);
    var run, acts := LateStoreRun(x, y), LateStoreActs(x, y);
    forall i | 0 <= i < |acts| && acts[i].step.Complete?
      ensures acts[i].step.transferred == run[i].posted[0]
    {
      assert i == 4 || i == 10;
    }
    assert BytesOf([x, y]) == Bytes(x) + Bytes(y) by {
      BytesOfAppend([x], [y]);
      BytesOfOne(x);
      BytesOfOne(y);
      assert [x] + [y] == [x, y];
    }
  }

  ghost predicate OneLength(allowed: SendBuffer -> bool) {
    forall b, c :: allowed(b) && allowed(c) && Carries(b) && Carries(c) ==> |b.unsent| == |c.unsent|
  }

  /** Whole completions conserve the bytes whenever they come, before or after the store,
      exactly when all buffers that carry bytes have one and the same length. */
  lemma WholeCompletionsConserveIff(allowed: SendBuffer -> bool)
    ensures AlwaysKeepsBytes(allowed) <==> OneLength(allowed)
  {
    if x, y :| allowed(x) && allowed(y) && Carries(x) && Carries(y) && |x.unsent| > |y.unsent| {
      LateStoreIsWhole(x, y);
      LateStoreRepeatsBytes(x, y);
      var run, acts := LateStoreRun(x, y), LateStoreActs(x, y);
      assert |acts| == 14 && AllAllowed(run[|acts|].log, allowed);
    } else {
      var n: nat := if c :| allowed(c) && Carries(c) then |c.unsent| else 1;
      forall run: seq<State>, acts: seq<Act> | IsWhole(run, acts) && AllAllowed(run[|acts|].log, allowed)
        ensures KeepsBytes(run[|acts|])
      {
        var h := EvenRunConserves(run, acts, |acts|, n);
      }
    }
  }
}
