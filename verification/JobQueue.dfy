/** One job group: its time-ordered queue, the threads that submit to it and its only worker
    (ServerCore/Job/JobPriorityQueue.cpp, ServerCore/Job/JobPriorityQueue.h, ServerCore/Job/Job.cpp). */
module JobQueue {

  type ThreadId = nat

  /** `order` is the number taken from the shared counter, so it identifies the job. */
  datatype Job = Job(executeTime: int, order: nat, submitter: ThreadId, delayMs: nat)

  /** The queue's order: earlier time first, then earlier number. */
  predicate Before(a: Job, b: Job) {
    if a.executeTime != b.executeTime then a.executeTime < b.executeTime else a.order < b.order
  }

  ghost predicate IsTop(queue: set<Job>, j: Job) {
    j in queue && forall k :: k in queue ==> k == j || Before(j, k)
  }

  ghost predicate NumbersDiffer(queue: set<Job>) {
    forall j, k :: j in queue && k in queue && j != k ==> j.order != k.order
  }

  lemma {:induction false} TopExists(queue: set<Job>) returns (top: Job)
    requires queue != {} && NumbersDiffer(queue)
    ensures IsTop(queue, top)
    decreases |queue|
  {
    var j :| j in queue;
    if queue == {j} {
      top := j;
    } else {
      assert queue - {j} != {} by {
        assert exists k :: k in queue && k != j;
      }
      var t := TopExists(queue - {j});
      top := if Before(j, t) then j else t;
      forall k | k in queue
        ensures k == top || Before(top, k)
      {
        assert k != j ==> k in queue - {j};
      }
    }
  }

  /** What a poll at time `now` takes out of the queue: its top, if that is due. */
  ghost predicate Polled(queue: set<Job>, now: int, job: Job) {
    IsTop(queue, job) && now >= job.executeTime
  }

  class GroupJobQueue {
    var jobQueue: set<Job>

    method Push(job: Job)
      modifies this
      ensures jobQueue == old(jobQueue) + {job}
    {
      jobQueue := jobQueue + {job};
    }

    /** Takes the top when it is due. Nothing is taken exactly when no queued job is due. */
    method Pop(now: int) returns (found: bool, job: Job)
      requires NumbersDiffer(jobQueue)
      modifies this
      ensures found ==> Polled(old(jobQueue), now, job) && jobQueue == old(jobQueue) - {job}
      ensures !found ==> jobQueue == old(jobQueue)
      ensures !found <==> forall j :: j in old(jobQueue) ==> now < j.executeTime
    {
      job := Job(0, 0, 0, 0);
      if jobQueue == {} {
        return false, job;
      }
      ghost var top := TopExists(jobQueue);
      job :| job in jobQueue && forall k :: k in jobQueue ==> k == job || Before(job, k);
      if now < job.executeTime {
        assert forall k :: k in jobQueue ==> k == job || Before(job, k);
        return false, job;
      }
      jobQueue := jobQueue - {job};
      return true, job;
    }
  }

  // ---- submitters and the worker, interleaved ----

  /** Where a submitter stands: a job's constructor reads the clock, then takes a number; then
      the job is pushed. */
  datatype Phase = Idle | Timed(executeTime: int, delayMs: nat) | Numbered(job: Job)

  /** `cleared` says that the worker saw the group running after it took a job, and will run it
      even if the group stops; `popped` and `executed` record what the worker took and ran, with the time it ran. */
  datatype State = State(
    now: int,
    counter: nat,
    queue: set<Job>,
    threads: seq<Phase>,
    running: bool,
    taken: set<Job>,
    cleared: bool,
    pushed: set<Job>,
    popped: seq<Job>,
    executed: seq<(Job, int)>)

  datatype Step =
    | Advance(ms: nat)
    | ReadClock(t: ThreadId, delayMs: nat)
    | TakeNumber(t: ThreadId)
    | Push(t: ThreadId)
    | Poll(job: Job)
    | CheckRunning
    | Execute(job: Job)
    | Stop

  ghost predicate Init(s: State) {
    && s.counter == 0 && s.queue == {} && s.taken == {} && !s.cleared
    && s.pushed == {} && s.popped == [] && s.executed == []
    && forall t :: 0 <= t < |s.threads| ==> s.threads[t] == Idle
  }

  /** The worker polls only with empty hands, and runs what it took only if it saw the group run. */
  ghost predicate Enabled(s: State, step: Step) {
    match step
    case Advance(_) => true
    case ReadClock(t, _) => t < |s.threads| && s.threads[t].Idle?
    case TakeNumber(t) => t < |s.threads| && s.threads[t].Timed?
    case Push(t) => t < |s.threads| && s.threads[t].Numbered?
    case Poll(job) => s.running && s.taken == {} && Polled(s.queue, s.now, job)
    case CheckRunning => s.running && s.taken != {}
    case Execute(job) => s.cleared && job in s.taken
    case Stop => true
  }

  ghost function Do(s: State, step: Step): State
    requires Enabled(s, step)
  {
    match step
    case Advance(ms) => s.(now := s.now + ms)
    case ReadClock(t, d) => s.(threads := s.threads[t := Timed(s.now + d, d)])
    case TakeNumber(t) =>
      s.(counter := s.counter + 1,
         threads := s.threads[t := Numbered(Job(s.threads[t].executeTime, s.counter, t, s.threads[t].delayMs))])
    case Push(t) =>
      s.(queue := s.queue + {s.threads[t].job}, pushed := s.pushed + {s.threads[t].job},
         threads := s.threads[t := Idle])
    case Poll(job) => s.(queue := s.queue - {job}, taken := {job}, popped := s.popped + [job])
    case CheckRunning => s.(cleared := true)
    case Execute(job) => s.(taken := s.taken - {job}, cleared := false, executed := s.executed + [(job, s.now)])
    case Stop => s.(running := false)
  }

  ghost predicate IsRun(run: seq<State>, steps: seq<Step>) {
    && |run| == |steps| + 1 && Init(run[0])
    && forall i :: 0 <= i < |steps| ==> Enabled(run[i], steps[i]) && run[i + 1] == Do(run[i], steps[i])
  }

  /** Numbers are below the counter and different for different jobs, pushed or about to be. */
  ghost predicate NumbersOk(s: State) {
    && NumbersDiffer(s.pushed)
    && (forall j :: j in s.pushed ==> j.order < s.counter)
    && (forall t :: 0 <= t < |s.threads| && s.threads[t].Numbered? ==>
          s.threads[t].job.order < s.counter && s.threads[t].job.submitter == t
          && forall j :: j in s.pushed ==> j.order != s.threads[t].job.order)
    && forall t, u :: 0 <= t < u < |s.threads| && s.threads[t].Numbered? && s.threads[u].Numbered? ==>
         s.threads[t].job.order != s.threads[u].job.order
  }

  /** When the clock was read for a job. */
  function ReadAt(j: Job): int {
    j.executeTime - j.delayMs
  }

  /** What a thread is about to submit comes after everything it submitted. */
  ghost predicate PhaseClockOk(p: Phase, t: ThreadId, now: int, pushed: set<Job>) {
    match p
    case Idle => true
    case Timed(executeTime, delayMs) =>
      && executeTime - delayMs <= now
      && forall j :: j in pushed && j.submitter == t ==> ReadAt(j) <= executeTime - delayMs
    case Numbered(job) =>
      && ReadAt(job) <= now
      && forall j :: j in pushed && j.submitter == t ==> j.order < job.order && ReadAt(j) <= ReadAt(job)
  }

  /** A submitter's clock readings grow. */
  ghost predicate ClockOk(s: State) {
    && (forall j :: j in s.pushed ==> ReadAt(j) <= s.now)
    && forall t :: 0 <= t < |s.threads| ==> PhaseClockOk(s.threads[t], t, s.now, s.pushed)
  }

  /** One thread submitted `a` before `b`, and `b` with no shorter delay. */
  ghost predicate Submitted(a: Job, b: Job) {
    a.submitter == b.submitter && a.order < b.order && a.delayMs <= b.delayMs
  }

  /** Such jobs are ordered in the queue as they were submitted. */
  ghost predicate KeysOk(s: State) {
    forall j, k :: j in s.pushed && k in s.pushed && Submitted(j, k) ==> Before(j, k)
  }

  /** Every pushed job is queued or was popped, once. */
  ghost predicate Accounted(s: State) {
    && (forall j :: j in s.pushed <==> j in s.queue || j in s.popped)
    && (forall j :: j in s.queue ==> j !in s.popped)
    && (forall i, k :: 0 <= i < k < |s.popped| ==> s.popped[i] != s.popped[k])
    && (forall i :: 0 <= i < |s.executed| ==> i < |s.popped| && s.executed[i].0 == s.popped[i])
    && |s.popped| == |s.executed| + |s.taken|
    && (s.taken != {} ==> s.popped != [] && s.taken == {s.popped[|s.popped| - 1]})
  }

  /** Nothing is taken or run before its time. */
  ghost predicate InTime(s: State) {
    && (forall j :: j in s.taken ==> j.executeTime <= s.now)
    && forall i :: 0 <= i < |s.executed| ==> s.executed[i].0.executeTime <= s.executed[i].1
  }

  /** A popped job comes after everything its submitter submitted before it with no longer delay. */
  ghost predicate InOrder(s: State) {
    forall k, j :: 0 <= k < |s.popped| && j in s.pushed && Submitted(j, s.popped[k]) ==> j in s.popped[..k]
  }

  lemma PushKeepsNumbers(s: State, t: ThreadId)
    requires NumbersOk(s) && Enabled(s, Push(t))
    ensures NumbersOk(Do(s, Push(t)))
  {
  }

  lemma TakeNumberKeepsNumbers(s: State, t: ThreadId)
    requires NumbersOk(s) && Enabled(s, TakeNumber(t))
    ensures NumbersOk(Do(s, TakeNumber(t)))
  {
  }

  lemma StepKeepsNumbers(s: State, step: Step)
    requires NumbersOk(s) && Enabled(s, step)
    ensures NumbersOk(Do(s, step))
  {
    match step
    case Push(t) => PushKeepsNumbers(s, t);
    case TakeNumber(t) => TakeNumberKeepsNumbers(s, t);
    case _ =>
  }

  lemma PushKeepsClock(s: State, t: ThreadId)
    requires NumbersOk(s) && ClockOk(s) && Enabled(s, Push(t))
    ensures ClockOk(Do(s, Push(t)))
  {
    var s' := Do(s, Push(t));
    assert PhaseClockOk(s.threads[t], t, s.now, s.pushed);
    forall u | 0 <= u < |s'.threads|
      ensures PhaseClockOk(s'.threads[u], u, s'.now, s'.pushed)
    {
      if u != t {
        assert PhaseClockOk(s.threads[u], u, s.now, s.pushed) && s.threads[t].job.submitter == t;
      }
    }
  }

  lemma StepKeepsClock(s: State, step: Step)
    requires NumbersOk(s) && ClockOk(s) && Enabled(s, step)
    ensures ClockOk(Do(s, step))
  {
    if step.Push? {
      PushKeepsClock(s, step.t);
    } else {
      var s' := Do(s, step);
      forall u | 0 <= u < |s'.threads|
        ensures PhaseClockOk(s'.threads[u], u, s'.now, s'.pushed)
      {
        assert PhaseClockOk(s.threads[u], u, s.now, s.pushed);
      }
    }
  }

  lemma StepKeepsKeys(s: State, step: Step)
    requires NumbersOk(s) && ClockOk(s) && KeysOk(s) && Enabled(s, step)
    ensures KeysOk(Do(s, step))
  {
  }

  lemma PushKeepsAccount(s: State, t: ThreadId)
    requires NumbersOk(s) && Accounted(s) && Enabled(s, Push(t))
    ensures Accounted(Do(s, Push(t)))
  {
  }

  lemma PollKeepsAccount(s: State, job: Job)
    requires Accounted(s) && Enabled(s, Poll(job))
    ensures Accounted(Do(s, Poll(job)))
  {
    assert job !in s.popped;
  }

  lemma ExecuteKeepsAccount(s: State, job: Job)
    requires Accounted(s) && Enabled(s, Execute(job))
    ensures Accounted(Do(s, Execute(job)))
  {
    assert s.taken == {job} && s.taken - {job} == {};
  }

  lemma StepKeepsAccount(s: State, step: Step)
    requires NumbersOk(s) && Accounted(s) && Enabled(s, step)
    ensures Accounted(Do(s, step))
  {
    match step
    case Push(t) => PushKeepsAccount(s, t);
    case Poll(job) => PollKeepsAccount(s, job);
    case Execute(job) => ExecuteKeepsAccount(s, job);
    case _ =>
  }

  lemma StepKeepsTime(s: State, step: Step)
    requires InTime(s) && Enabled(s, step)
    ensures InTime(Do(s, step))
  {
  }

  lemma StepKeepsOrder(s: State, step: Step)
    requires NumbersOk(s) && ClockOk(s) && KeysOk(s) && Accounted(s) && InOrder(s) && Enabled(s, step)
    ensures InOrder(Do(s, step))
  {
    var s' := Do(s, step);
    match step
    case Poll(job) =>
      forall k, j | 0 <= k < |s'.popped| && j in s'.pushed && Submitted(j, s'.popped[k])
        ensures j in s'.popped[..k]
      {
        if k < |s.popped| {
          assert s'.popped[k] == s.popped[k] && s'.popped[..k] == s.popped[..k];
        } else {
          assert s'.popped[..k] == s.popped;
          assert job in s.pushed && Before(j, job);
          assert j !in s.queue;
        }
      }
    case Push(t) =>
      forall k, j | 0 <= k < |s'.popped| && j in s'.pushed && Submitted(j, s'.popped[k])
        ensures j in s'.popped[..k]
      {
        assert s.popped[k] in s.popped;
        assert s.popped[k] in s.pushed;
        assert j in s.pushed;
      }
    case _ =>
      assert s'.popped == s.popped && s'.pushed == s.pushed;
  }

  // ---- every run ----

  ghost predicate Inv(s: State) {
    NumbersOk(s) && ClockOk(s) && KeysOk(s) && Accounted(s) && InTime(s) && InOrder(s)
  }

  lemma {:induction false} RunKeepsInv(run: seq<State>, steps: seq<Step>, i: nat)
    requires IsRun(run, steps) && i < |run|
    ensures Inv(run[i])
  {
    if i > 0 {
      var k := i - 1;
      RunKeepsInv(run, steps, k);
      StepKeepsNumbers(run[k], steps[k]);
      StepKeepsClock(run[k], steps[k]);
      StepKeepsKeys(run[k], steps[k]);
      StepKeepsAccount(run[k], steps[k]);
      StepKeepsTime(run[k], steps[k]);
      StepKeepsOrder(run[k], steps[k]);
      assert run[k + 1] == Do(run[k], steps[k]);
    }
  }

  /** When a job is taken, whatever is due before it, or at its very time with a lower number, was
      taken already, whichever threads submitted the two. */
  lemma TakenByTimeThenNumber(run: seq<State>, steps: seq<Step>, i: nat, a: Job, b: Job)
    requires IsRun(run, steps) && i < |steps| && steps[i] == Poll(b) && a in run[i].pushed
    requires a.executeTime < b.executeTime || (a.executeTime == b.executeTime && a.order < b.order)
    ensures a in run[i].popped
  {
    RunKeepsInv(run, steps, i);
    assert Enabled(run[i], Poll(b));
  }

  lemma {:induction false} PopsGrow(run: seq<State>, steps: seq<Step>, i: nat, j: nat)
    requires IsRun(run, steps) && i <= j < |run|
    ensures run[i].popped <= run[j].popped
    decreases j - i
  {
    if i < j {
      PopsGrow(run, steps, i, j - 1);
      assert run[j - 1 + 1] == Do(run[j - 1], steps[j - 1]);
    }
  }

  /** So it runs first, if both run. */
  lemma RunByTimeThenNumber(run: seq<State>, steps: seq<Step>, i: nat, j: nat, a: Job, b: Job, k: nat, l: nat)
    requires IsRun(run, steps) && i < |steps| && steps[i] == Poll(b) && a in run[i].pushed
    requires a.executeTime < b.executeTime || (a.executeTime == b.executeTime && a.order < b.order)
    requires i < j < |run| && k < |run[j].executed| && l < |run[j].executed|
    requires run[j].executed[k].0 == a && run[j].executed[l].0 == b
    ensures k < l
  {
    TakenByTimeThenNumber(run, steps, i, a, b);
    RunKeepsInv(run, steps, i);
    RunKeepsInv(run, steps, j);
    PopsGrow(run, steps, i, j);
    PopsGrow(run, steps, i + 1, j);
    assert run[i + 1] == Do(run[i], steps[i]);
    var was, now := run[i].popped, run[j].popped;
    assert now[|was|] == b && now[k] == a && now[l] == b;
    var n :| 0 <= n < |was| && was[n] == a;
    assert now[n] == a;
  }

  function Cleared(s: State): nat {
    if s.cleared then 1 else 0
  }

  /** After a stop, at most the one job runs that the worker had cleared before. */
  lemma {:induction false} StopHolds(run: seq<State>, steps: seq<Step>, i: nat, j: nat)
    requires IsRun(run, steps) && i <= j < |run| && !run[i].running
    ensures !run[j].running && run[j].popped == run[i].popped
    ensures |run[j].executed| + Cleared(run[j]) <= |run[i].executed| + Cleared(run[i])
    decreases j - i
  {
    if i < j {
      StopHolds(run, steps, i, j - 1);
      assert Enabled(run[j - 1], steps[j - 1]) && run[j - 1 + 1] == Do(run[j - 1], steps[j - 1]);
    }
  }

  /** No job runs before its time. */
  lemma NoJobRunsEarly(run: seq<State>, steps: seq<Step>, i: nat, k: nat)
    requires IsRun(run, steps) && i < |run| && k < |run[i].executed|
    ensures run[i].executed[k].0.executeTime <= run[i].executed[k].1
  {
    RunKeepsInv(run, steps, i);
  }

  /** The jobs submitted are those queued, those run and the one taken and not run, each in one
      place only and none run twice. */
  lemma JobsAreConserved(run: seq<State>, steps: seq<Step>, i: nat, j: Job)
    requires IsRun(run, steps) && i < |run|
    ensures var s := run[i];
            var ran := exists k :: 0 <= k < |s.executed| && s.executed[k].0 == j;
            && (j in s.pushed <==> j in s.queue || j in s.taken || ran)
            && !(j in s.queue && j in s.taken) && !(j in s.queue && ran) && !(j in s.taken && ran)
            && |s.taken| <= 1
            && forall k, l :: 0 <= k < l < |s.executed| ==> s.executed[k].0 != s.executed[l].0
  {
    RunKeepsInv(run, steps, i);
    var s := run[i];
    if j in s.popped {
      var k :| 0 <= k < |s.popped| && s.popped[k] == j;
      if k < |s.executed| {
        assert s.executed[k].0 == j;
      }
    }
    if k :| 0 <= k < |s.executed| && s.executed[k].0 == j {
      assert s.popped[k] == j && j in s.popped;
    }
  }

  /** When a job has run, every job submitted before it by the same thread with no longer delay ran
      earlier. In particular undelayed jobs of one thread run in the order of submission. */
  lemma SubmissionOrderIsKept(run: seq<State>, steps: seq<Step>, i: nat, j: Job, k: nat)
    requires IsRun(run, steps) && i < |run|
    requires j in run[i].pushed && k < |run[i].executed| && Submitted(j, run[i].executed[k].0)
    ensures exists l :: 0 <= l < k && run[i].executed[l].0 == j
  {
    RunKeepsInv(run, steps, i);
    var s := run[i];
    assert s.popped[k] == s.executed[k].0;
    var l :| 0 <= l < k && s.popped[..k][l] == j;
    assert s.executed[l].0 == j;
  }

  /** Where jobs of one thread, the earlier with delay `first` and the later with delay `second`, have
      run in the order of submission. */
  ghost predicate InSubmissionOrder(s: State, first: nat, second: nat) {
    forall j, k :: j in s.pushed && 0 <= k < |s.executed| && j.delayMs == first && s.executed[k].0.delayMs == second
                   && j.submitter == s.executed[k].0.submitter && j.order < s.executed[k].0.order
                   ==> exists l :: 0 <= l < k && s.executed[l].0 == j
  }

  ghost predicate KeepsSubmissionOrder(first: nat, second: nat) {
    forall run: seq<State>, steps: seq<Step> ::
      IsRun(run, steps) ==> InSubmissionOrder(run[|steps|], first, second)
  }

  /** One thread submits a job, and at once another with a shorter delay, which is due first. */
  ghost function OvertakingSteps(first: nat, second: nat): seq<Step> {
    [ReadClock(0, first), TakeNumber(0), Push(0), ReadClock(0, second), TakeNumber(0), Push(0),
     Advance(second), Poll(Job(second, 1, 0, second)), CheckRunning, Execute(Job(second, 1, 0, second))]
  }

  ghost function OvertakingState(first: nat, second: nat, i: nat): State {
    var a, b := Job(first, 0, 0, first), Job(second, 1, 0, second);
    match i
    case 0 => State(0, 0, {}, [Idle], true, {}, false, {}, [], [])
    case 1 => State(0, 0, {}, [Timed(first, first)], true, {}, false, {}, [], [])
    case 2 => State(0, 1, {}, [Numbered(a)], true, {}, false, {}, [], [])
    case 3 => State(0, 1, {a}, [Idle], true, {}, false, {a}, [], [])
    case 4 => State(0, 1, {a}, [Timed(second, second)], true, {}, false, {a}, [], [])
    case 5 => State(0, 2, {a}, [Numbered(b)], true, {}, false, {a}, [], [])
    case 6 => State(0, 2, {a, b}, [Idle], true, {}, false, {a, b}, [], [])
    case 7 => State(second, 2, {a, b}, [Idle], true, {}, false, {a, b}, [], [])
    case 8 => State(second, 2, {a}, [Idle], true, {b}, false, {a, b}, [b], [])
    case 9 => State(second, 2, {a}, [Idle], true, {b}, true, {a, b}, [b], [])
    case _ => State(second, 2, {a}, [Idle], true, {}, false, {a, b}, [b], [(b, second)])
  }

  ghost function OvertakingRun(first: nat, second: nat): seq<State> {
    seq(11, i requires 0 <= i < 11 => OvertakingState(first, second, i))
  }

  lemma OvertakingHappens(first: nat, second: nat)
    requires first > second
    ensures IsRun(OvertakingRun(first, second), OvertakingSteps(first, second))
  {
    var a, b := Job(first, 0, 0, first), Job(second, 1, 0, second);
    assert {a, b} - {b} == {a};
    assert {b} - {b} == {};
    assert IsTop({a, b}, b);
    forall i | 0 <= i < 10
      ensures Enabled(OvertakingState(first, second, i), OvertakingSteps(first, second)[i])
      ensures OvertakingState(first, second, i + 1)
           == Do(OvertakingState(first, second, i), OvertakingSteps(first, second)[i])
    {
    }
  }

  /** Jobs of one thread with these delays always run in the order of submission exactly when the
      later one's delay is not shorter. */
  lemma OrderIsKeptIff(first: nat, second: nat)
    ensures KeepsSubmissionOrder(first, second) <==> first <= second
  {
    if first <= second {
      forall run: seq<State>, steps: seq<Step> | IsRun(run, steps)
        ensures InSubmissionOrder(run[|steps|], first, second)
      {
        OrderedAtEnd(run, steps, first, second);
      }
    } else {
      var run, steps := OvertakingRun(first, second), OvertakingSteps(first, second);
      OvertakingHappens(first, second);
      assert Job(first, 0, 0, first) in run[|steps|].pushed && run[|steps|].executed[0].0 == Job(second, 1, 0, second);
      assert !InSubmissionOrder(run[|steps|], first, second);
    }
  }

  lemma OrderedAtEnd(run: seq<State>, steps: seq<Step>, first: nat, second: nat)
    requires IsRun(run, steps) && first <= second
    ensures InSubmissionOrder(run[|steps|], first, second)
  {
    var s := run[|steps|];
    forall j, k | j in s.pushed && 0 <= k < |s.executed| && j.delayMs == first && s.executed[k].0.delayMs == second
                  && j.submitter == s.executed[k].0.submitter && j.order < s.executed[k].0.order
      ensures exists l :: 0 <= l < k && s.executed[l].0 == j
    {
      SubmissionOrderIsKept(run, steps, |steps|, j, k);
    }
  }
}
