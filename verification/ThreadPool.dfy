/**
 The thread pool of the HTTP server as a step system (HTTP-server-cpp/src/thread_pool.cpp).

 The mutex makes the evaluation of the wait predicate and the act of falling asleep one
 step.  Notifications are sent after the mutex is released, so they are outstanding for a
 while.  A worker may wake up spuriously at any time.  A job is known by its position in
 `log`, the sequence of everything ever enqueued.
 */
module ThreadPool {

  datatype Worker<J> = Awake | Asleep | Running(id: nat, job: J) | Exited

  datatype State<J> = State(
    tasks: seq<J>,
    stop: bool,
    workers: seq<Worker<J>>,
    /** `notify_one` calls that follow a push and have not been made yet */
    notifyOne: nat,
    /** the destructor's `notify_all` has not been made yet */
    notifyAll: bool,
    log: seq<J>,
    started: nat,
    finished: seq<nat>)

  datatype Step<J> =
    | Enqueue(job: J)                 // by a client of the pool
    | EnqueueFrom(w: nat, job: J)     // by the job that worker `w` runs
    | NotifyOne(w: nat)
    | RequestStop
    | NotifyAll
    | Spurious(w: nat)
    | Check(w: nat)                   // lock the mutex and look at the queue
    | Finish(w: nat)

  function Initial<J>(n: nat): State<J> {
    State([], false, seq(n, _ => Awake), 0, false, [], 0, [])
  }

  predicate SomeAsleep<J>(ws: seq<Worker<J>>) {
    exists w | 0 <= w < |ws| :: ws[w].Asleep?
  }

  predicate AllExited<J>(ws: seq<Worker<J>>) {
    forall w | 0 <= w < |ws| :: ws[w].Exited?
  }

  predicate Enabled<J>(s: State<J>, st: Step<J>) {
    match st
    case Enqueue(_) => !s.stop
    case EnqueueFrom(w, _) => w < |s.workers| && s.workers[w].Running?
    case NotifyOne(w) => s.notifyOne > 0 && (SomeAsleep(s.workers) ==> w < |s.workers| && s.workers[w].Asleep?)
    case RequestStop => !s.stop
    case NotifyAll => s.notifyAll
    case Spurious(w) => w < |s.workers| && s.workers[w].Asleep?
    case Check(w) => w < |s.workers| && s.workers[w].Awake?
    case Finish(w) => w < |s.workers| && s.workers[w].Running?
  }

  function Pushed<J>(s: State<J>, job: J): State<J> {
    s.(tasks := s.tasks + [job], log := s.log + [job], notifyOne := s.notifyOne + 1)
  }

  function WakeAll<J>(ws: seq<Worker<J>>): seq<Worker<J>> {
    seq(|ws|, w requires 0 <= w < |ws| => if ws[w].Asleep? then Awake else ws[w])
  }

  function Next<J>(s: State<J>, st: Step<J>): State<J>
    requires Enabled(s, st)
  {
    match st
    case Enqueue(job) => Pushed(s, job)
    case EnqueueFrom(_, job) => Pushed(s, job)
    case NotifyOne(w) =>
      s.(notifyOne := s.notifyOne - 1, workers := if SomeAsleep(s.workers) then s.workers[w := Awake] else s.workers)
    case RequestStop => s.(stop := true, notifyAll := true)
    case NotifyAll => s.(notifyAll := false, workers := WakeAll(s.workers))
    case Spurious(w) => s.(workers := s.workers[w := Awake])
    case Check(w) =>
      if s.tasks == [] then s.(workers := s.workers[w := if s.stop then Exited else Asleep])
      else s.(tasks := s.tasks[1..], started := s.started + 1, workers := s.workers[w := Running(s.started, s.tasks[0])])
    case Finish(w) => s.(finished := s.finished + [s.workers[w].id], workers := s.workers[w := Awake])
  }

  ghost predicate IsRun<J>(s: State<J>, steps: seq<Step<J>>, s': State<J>)
    decreases |steps|
  {
    if steps == [] then s' == s
    else Enabled(s, steps[0]) && IsRun(Next(s, steps[0]), steps[1..], s')
  }

  // ---------- Counting workers ----------

  function Total<J>(ws: seq<Worker<J>>, weight: Worker<J> -> nat): nat {
    if ws == [] then 0 else Total(ws[..|ws| - 1], weight) + weight(ws[|ws| - 1])
  }

  function AwakeUnit<J>(w: Worker<J>): nat { if w.Awake? then 1 else 0 }

  function RunningUnit<J>(w: Worker<J>): nat { if w.Running? then 1 else 0 }

  /** How far a worker is from having exited. */
  function ExitDistance<J>(w: Worker<J>): nat {
    match w
    case Exited => 0
    case Awake => 1
    case _ => 2
  }

  lemma {:induction false} TotalUpdate<J>(ws: seq<Worker<J>>, weight: Worker<J> -> nat, w: nat, x: Worker<J>)
    requires w < |ws|
    ensures Total(ws[w := x], weight) + weight(ws[w]) == Total(ws, weight) + weight(x)
    decreases |ws|
  {
    var init := ws[..|ws| - 1];
    if w == |ws| - 1 {
      assert ws[w := x][..|ws| - 1] == init;
    } else {
      assert ws[w := x][..|ws| - 1] == init[w := x];
      TotalUpdate(init, weight, w, x);
    }
  }

  lemma {:induction false} TotalWakeAll<J>(ws: seq<Worker<J>>)
    ensures Total(WakeAll(ws), RunningUnit) == Total(ws, RunningUnit)
    ensures Total(WakeAll(ws), ExitDistance) <= Total(ws, ExitDistance)
    decreases |ws|
  {
    if ws != [] {
      TotalWakeAll(ws[..|ws| - 1]);
      assert WakeAll(ws)[..|ws| - 1] == WakeAll(ws[..|ws| - 1]);
    }
  }

  lemma {:induction false} TotalZero<J>(ws: seq<Worker<J>>, weight: Worker<J> -> nat)
    ensures Total(ws, weight) == 0 <==> forall w | 0 <= w < |ws| :: weight(ws[w]) == 0
    decreases |ws|
  {
    if ws != [] {
      TotalZero(ws[..|ws| - 1], weight);
      assert forall w | 0 <= w < |ws| - 1 :: ws[..|ws| - 1][w] == ws[w];
    }
  }

  // ---------- The invariant ----------

  /** Jobs leave the queue in the order in which they came, and are held by one place at a time. */
  ghost predicate JobInv<J>(s: State<J>) {
    && s.started <= |s.log| && s.tasks == s.log[s.started..]
    && (forall w | 0 <= w < |s.workers| && s.workers[w].Running? ::
          s.workers[w].id < s.started && s.log[s.workers[w].id] == s.workers[w].job && s.workers[w].id !in s.finished)
    && (forall v, w | 0 <= v < w < |s.workers| && s.workers[v].Running? && s.workers[w].Running? ::
          s.workers[v].id != s.workers[w].id)
    && (forall i, j | 0 <= i < j < |s.finished| :: s.finished[i] != s.finished[j])
    && (forall id | id in s.finished :: id < s.started)
    && s.started == Total(s.workers, RunningUnit) + |s.finished|
  }

  /** Enough workers are awake, or will be woken, for the queued jobs; and a stop is noticed. */
  ghost predicate WakeInv<J>(s: State<J>) {
    && (SomeAsleep(s.workers) ==> |s.tasks| <= s.notifyOne + Total(s.workers, AwakeUnit))
    && (s.stop && SomeAsleep(s.workers) ==> s.notifyAll)
  }

  ghost predicate ExitInv<J>(s: State<J>) {
    && (forall w | 0 <= w < |s.workers| && s.workers[w].Exited? :: s.stop)
    && (AllExited(s.workers) && s.workers != [] ==> s.tasks == [])
  }

  ghost predicate Inv<J>(s: State<J>) {
    JobInv(s) && WakeInv(s) && ExitInv(s)
  }

  lemma {:induction false} AllAwake<J>(n: nat)
    ensures Total(Initial<J>(n).workers, RunningUnit) == 0
  {
    TotalZero(Initial<J>(n).workers, RunningUnit);
  }

  lemma InitialInv<J>(n: nat)
    ensures Inv(Initial<J>(n))
  {
    AllAwake<J>(n);
  }

  lemma TakeStep<J>(s: State<J>, w: nat)
    requires JobInv(s) && Enabled(s, Check(w)) && s.tasks != []
    ensures JobInv(Next(s, Check(w)))
  {
    TotalUpdate(s.workers, RunningUnit, w, Running(s.started, s.tasks[0]));
    assert s.log[s.started..][1..] == s.log[s.started + 1..];
  }

  lemma FinishStep<J>(s: State<J>, w: nat)
    requires JobInv(s) && Enabled(s, Finish(w))
    ensures JobInv(Next(s, Finish(w)))
  {
    TotalUpdate(s.workers, RunningUnit, w, Awake);
  }

  /** Steps that change who is awake, but not which jobs are running. */
  lemma RestStep<J>(s: State<J>, st: Step<J>)
    requires JobInv(s) && Enabled(s, st)
    requires st.NotifyOne? || st.RequestStop? || st.Spurious? || (st.Check? && s.tasks == [])
    ensures JobInv(Next(s, st))
  {
    hide Total, SomeAsleep;
    var s' := Next(s, st);
    if s'.workers != s.workers {
      TotalUpdate(s.workers, RunningUnit, st.w, s'.workers[st.w]);
    }
  }

  lemma JobStep<J>(s: State<J>, st: Step<J>)
    requires JobInv(s) && Enabled(s, st)
    ensures JobInv(Next(s, st))
  {
    match st
    case Enqueue(job) =>
      assert (s.log + [job])[s.started..] == s.log[s.started..] + [job];
    case EnqueueFrom(_, job) =>
      assert (s.log + [job])[s.started..] == s.log[s.started..] + [job];
    case NotifyAll =>
      TotalWakeAll(s.workers);
    case Finish(w) =>
      FinishStep(s, w);
    case Check(w) =>
      if s.tasks != [] { TakeStep(s, w); } else { RestStep(s, st); }
    case _ =>
      RestStep(s, st);
  }

  lemma WakeCheck<J>(s: State<J>, w: nat)
    requires WakeInv(s) && Enabled(s, Check(w))
    ensures WakeInv(Next(s, Check(w)))
  {
    var s' := Next(s, Check(w));
    TotalUpdate(s.workers, AwakeUnit, w, s'.workers[w]);
    if s.tasks != [] && SomeAsleep(s'.workers) {
      var v :| 0 <= v < |s'.workers| && s'.workers[v].Asleep?;
      assert s.workers[v].Asleep?;
    }
  }

  lemma WakeStep<J>(s: State<J>, st: Step<J>)
    requires WakeInv(s) && Enabled(s, st)
    ensures WakeInv(Next(s, st))
  {
    if st.Check? {
      WakeCheck(s, st.w);
    } else if !st.NotifyAll? {
      var s' := Next(s, st);
      if s'.workers != s.workers {
        TotalUpdate(s.workers, AwakeUnit, st.w, s'.workers[st.w]);
      }
      if SomeAsleep(s'.workers) {
        var v :| 0 <= v < |s'.workers| && s'.workers[v].Asleep?;
        assert s.workers[v].Asleep?;
      }
    }
  }

  lemma ExitStep<J>(s: State<J>, st: Step<J>)
    requires Inv(s) && Enabled(s, st)
    ensures ExitInv(Next(s, st))
  {
    var s' := Next(s, st);
    if st.Enqueue? && s.workers != [] {
      assert !s.workers[0].Exited?;
    }
    if AllExited(s'.workers) && s.workers != [] && !st.Check? && !st.EnqueueFrom? && !st.Enqueue? {
      forall w | 0 <= w < |s.workers| ensures s.workers[w].Exited? { assert s'.workers[w].Exited?; }
    }
    if st.Check? {
      assert s'.workers[st.w].Exited? ==> s.tasks == [];
    }
  }

  lemma {:induction false} RunInv<J>(s: State<J>, steps: seq<Step<J>>, s': State<J>)
    requires Inv(s) && IsRun(s, steps, s')
    ensures Inv(s')
    decreases |steps|
  {
    if steps != [] {
      JobStep(s, steps[0]);
      WakeStep(s, steps[0]);
      ExitStep(s, steps[0]);
      RunInv(Next(s, steps[0]), steps[1..], s');
    }
  }

  ghost predicate Reachable<J>(n: nat, steps: seq<Step<J>>, s: State<J>) {
    IsRun(Initial(n), steps, s)
  }

  lemma ReachableInv<J>(n: nat, steps: seq<Step<J>>, s: State<J>)
    requires Reachable(n, steps, s)
    ensures Inv(s)
  {
    InitialInv<J>(n);
    RunInv(Initial(n), steps, s);
  }

  lemma {:induction false} RunWorkers<J>(s: State<J>, steps: seq<Step<J>>, s': State<J>)
    requires IsRun(s, steps, s')
    ensures |s'.workers| == |s.workers|
    decreases |steps|
  {
    if steps != [] {
      RunWorkers(Next(s, steps[0]), steps[1..], s');
    }
  }

  // ---------- Theorems ----------

  /** No wake-up is lost, whatever the schedule and the spurious wake-ups. */
  lemma NoLostWakeup<J>(n: nat, steps: seq<Step<J>>, s: State<J>)
    requires Reachable(n, steps, s) && SomeAsleep(s.workers)
    ensures |s.tasks| <= s.notifyOne + Total(s.workers, AwakeUnit)
    ensures s.stop ==> s.notifyAll
  {
    ReachableInv(n, steps, s);
  }

  /** With no notification outstanding, a job waits in the queue only while no worker sleeps, or one is
      already awake to take it. */
  lemma NoStrandedJob<J>(n: nat, steps: seq<Step<J>>, s: State<J>)
    requires Reachable(n, steps, s) && s.notifyOne == 0 && s.tasks != [] && SomeAsleep(s.workers)
    ensures exists w :: Enabled(s, Check(w))
  {
    ReachableInv(n, steps, s);
    TotalZero(s.workers, AwakeUnit);
    var w :| 0 <= w < |s.workers| && AwakeUnit(s.workers[w]) != 0;
    assert Enabled(s, Check(w));
  }

  /** Jobs are taken in FIFO order, each at most once, and none disappears. */
  lemma JobsConserved<J>(n: nat, steps: seq<Step<J>>, s: State<J>)
    requires Reachable(n, steps, s)
    ensures |s.log| == |s.tasks| + Total(s.workers, RunningUnit) + |s.finished|
    ensures s.started <= |s.log| && s.tasks == s.log[s.started..]
    ensures forall i, j | 0 <= i < j < |s.finished| :: s.finished[i] != s.finished[j]
    ensures forall w | 0 <= w < |s.workers| && s.workers[w].Running? ::
              var id := s.workers[w].id;
              id < s.started && s.log[id] == s.workers[w].job && id !in s.finished
    ensures forall v, w | 0 <= v < w < |s.workers| && s.workers[v].Running? && s.workers[w].Running? ::
              s.workers[v].id != s.workers[w].id
  {
    ReachableInv(n, steps, s);
  }

  lemma {:induction false} PigeonHole(xs: seq<nat>, n: nat, id: nat)
    requires |xs| == n && id < n
    requires forall i, j | 0 <= i < j < |xs| :: xs[i] != xs[j]
    requires forall x | x in xs :: x < n
    ensures id in xs
    decreases n
  {
    // if `id` were missing, closing the gap it leaves would fit n different numbers below n - 1
    if id !in xs {
      forall i | 0 <= i < n ensures xs[i] != id && xs[i] < n { assert xs[i] in xs; }
      var ys := seq(n, i requires 0 <= i < n => if xs[i] > id then xs[i] - 1 else xs[i]);
      TooMany(ys, n - 1);
    }
  }

  lemma {:induction false} TooMany(ys: seq<nat>, n: nat)
    requires |ys| == n + 1
    requires forall i, j | 0 <= i < j < |ys| :: ys[i] != ys[j]
    requires forall i | 0 <= i < |ys| :: ys[i] < n
    ensures false
    decreases n
  {
    if n > 0 {
      var zs := ys[..n];
      var last := ys[n];
      var shifted := seq(n, i requires 0 <= i < n => if zs[i] > last then zs[i] - 1 else zs[i]);
      assert forall i | 0 <= i < n :: zs[i] != last;
      TooMany(shifted, n - 1);
    }
  }

  /** Once all workers have gone, every job ever enqueued, also by other jobs, has run exactly once. */
  lemma DrainedAtExit<J>(n: nat, steps: seq<Step<J>>, s: State<J>)
    requires n > 0 && Reachable(n, steps, s) && AllExited(s.workers)
    ensures s.tasks == [] && |s.finished| == |s.log|
    ensures forall id: nat :: id in s.finished <==> id < |s.log|
  {
    ReachableInv(n, steps, s);
    RunWorkers(Initial(n), steps, s);
    TotalZero(s.workers, RunningUnit);
    forall id: nat | id < |s.log| ensures id in s.finished {
      PigeonHole(s.finished, |s.log|, id);
    }
  }

  // ---------- Shutdown terminates ----------

  /** How many more steps can follow a stop if no job enqueues another one. */
  function Measure<J>(s: State<J>): nat {
    2 * |s.tasks| + s.notifyOne + (if s.notifyAll then 1 else 0) + Total(s.workers, ExitDistance)
  }

  function Spawned<J>(steps: seq<Step<J>>): nat {
    if steps == [] then 0
    else Spawned(steps[..|steps| - 1]) + if steps[|steps| - 1].EnqueueFrom? then 1 else 0
  }

  lemma MeasureStep<J>(s: State<J>, st: Step<J>)
    requires s.stop && Enabled(s, st)
    ensures Next(s, st).stop
    ensures 1 + Measure(Next(s, st)) <= Measure(s) + if st.EnqueueFrom? then 4 else 0
  {
    var s' := Next(s, st);
    if st.NotifyAll? {
      TotalWakeAll(s.workers);
    } else if s'.workers != s.workers {
      TotalUpdate(s.workers, ExitDistance, st.w, s'.workers[st.w]);
    }
  }

  lemma {:induction false} SpawnedFront<J>(steps: seq<Step<J>>)
    requires steps != []
    ensures Spawned(steps) == Spawned(steps[1..]) + if steps[0].EnqueueFrom? then 1 else 0
    decreases |steps|
  {
    if |steps| > 1 {
      SpawnedFront(steps[..|steps| - 1]);
      assert steps[..|steps| - 1][1..] == steps[1..][..|steps| - 2];
    }
  }

  /** After a stop every run is finite: its length is bounded by the state and the jobs spawned on the way. */
  lemma {:induction false} ShutdownBound<J>(s: State<J>, steps: seq<Step<J>>, s': State<J>)
    requires s.stop && IsRun(s, steps, s')
    ensures |steps| + Measure(s') <= Measure(s) + 4 * Spawned(steps)
    decreases |steps|
  {
    if steps != [] {
      MeasureStep(s, steps[0]);
      SpawnedFront(steps);
      ShutdownBound(Next(s, steps[0]), steps[1..], s');
    }
  }

  /** After a stop the pool is never stuck before all workers have gone, so `join` returns. */
  lemma ShutdownProgress<J>(n: nat, steps: seq<Step<J>>, s: State<J>)
    requires Reachable(n, steps, s) && s.stop
    ensures AllExited(s.workers) || exists st :: Enabled(s, st) && !st.EnqueueFrom? && !st.Spurious?
  {
    ReachableInv(n, steps, s);
    if w :| 0 <= w < |s.workers| && !s.workers[w].Exited? {
      var st: Step<J> := if s.workers[w].Awake? then Check(w) else if s.workers[w].Running? then Finish(w) else NotifyAll;
      assert Enabled(s, st);
    }
  }

  /** The flag is set exactly by a request. */
  lemma {:induction false} StopSets<J>(s: State<J>, steps: seq<Step<J>>, s': State<J>)
    requires IsRun(s, steps, s')
    ensures s'.stop <==> s.stop || RequestStop in steps
    decreases |steps|
  {
    if steps != [] { StopSets(Next(s, steps[0]), steps[1..], s'); }
  }

  /** From every reachable state with a stop requested the workers can all exit without any further enqueueing. */
  lemma {:induction false} ShutdownCompletes<J>(s: State<J>) returns (steps: seq<Step<J>>, s': State<J>)
    requires Inv(s) && s.stop
    ensures IsRun(s, steps, s') && AllExited(s'.workers) && s'.log == s.log
    decreases Measure(s)
  {
    if AllExited(s.workers) {
      steps, s' := [], s;
    } else {
      var w :| 0 <= w < |s.workers| && !s.workers[w].Exited?;
      var st: Step<J> := if s.workers[w].Awake? then Check(w) else if s.workers[w].Running? then Finish(w) else NotifyAll;
      MeasureStep(s, st);
      JobStep(s, st);
      WakeStep(s, st);
      ExitStep(s, st);
      var rest;
      rest, s' := ShutdownCompletes(Next(s, st));
      steps := [st] + rest;
      assert steps[1..] == rest;
    }
  }

  /** Requested in any run, a stop ends with all workers gone and every job run. */
  lemma ShutdownRuns<J>(n: nat, steps: seq<Step<J>>, s: State<J>) returns (more: seq<Step<J>>, s': State<J>)
    requires n > 0 && Reachable(n, steps, s) && RequestStop in steps
    ensures IsRun(s, more, s') && AllExited(s'.workers) && s'.tasks == []
    ensures forall id: nat :: id in s'.finished <==> id < |s.log|
  {
    ReachableInv(n, steps, s);
    StopSets(Initial(n), steps, s);
    more, s' := ShutdownCompletes(s);
    RunConcat(Initial(n), steps, s, more, s');
    DrainedAtExit(n, steps + more, s');
  }

  lemma {:induction false} RunConcat<J>(s: State<J>, a: seq<Step<J>>, mid: State<J>, b: seq<Step<J>>, s': State<J>)
    requires IsRun(s, a, mid) && IsRun(mid, b, s')
    ensures IsRun(s, a + b, s')
    decreases |a|
  {
    if a == [] {
      assert a + b == b;
    } else {
      assert (a + b)[1..] == a[1..] + b;
      RunConcat(Next(s, a[0]), a[1..], mid, b, s');
    }
  }

  // ---------- What a run takes ----------

  /** The jobs that are enqueued in a run, in order. */
  function Arrivals<J>(steps: seq<Step<J>>): seq<J> {
    if steps == [] then []
    else
      var last := steps[|steps| - 1];
      Arrivals(steps[..|steps| - 1]) + if last.Enqueue? || last.EnqueueFrom? then [last.job] else []
  }

  /** The worker and the job, if a step takes one from the queue. */
  function Taking<J>(s: State<J>, st: Step<J>): seq<(nat, J)> {
    if st.Check? && s.tasks != [] then [(st.w, s.tasks[0])] else []
  }

  /** All takings of a run, in order. */
  function Takings<J>(s: State<J>, steps: seq<Step<J>>): seq<(nat, J)>
    decreases |steps|
  {
    if steps == [] || !Enabled(s, steps[0]) then []
    else Taking(s, steps[0]) + Takings(Next(s, steps[0]), steps[1..])
  }

  /** The jobs that worker `w` takes. */
  function JobsOf<J>(takings: seq<(nat, J)>, w: nat): seq<J> {
    if takings == [] then []
    else
      var last := takings[|takings| - 1];
      JobsOf(takings[..|takings| - 1], w) + if last.0 == w then [last.1] else []
  }

  function AllJobs<J>(takings: seq<(nat, J)>): seq<J> {
    seq(|takings|, i requires 0 <= i < |takings| => takings[i].1)
  }

  lemma {:induction false} RunSnoc<J>(s: State<J>, steps: seq<Step<J>>, s': State<J>, st: Step<J>)
    requires IsRun(s, steps, s') && Enabled(s', st)
    ensures IsRun(s, steps + [st], Next(s', st))
    ensures Takings(s, steps + [st]) == Takings(s, steps) + Taking(s', st)
    decreases |steps|
  {
    hide Enabled, Next, Taking;
    if steps == [] {
      assert [st][1..] == [];
    } else {
      assert (steps + [st])[1..] == steps[1..] + [st];
      RunSnoc(Next(s, steps[0]), steps[1..], s', st);
    }
  }

  lemma JobsOfSnoc<J>(takings: seq<(nat, J)>, t: (nat, J), w: nat)
    ensures JobsOf(takings + [t], w) == JobsOf(takings, w) + if t.0 == w then [t.1] else []
    ensures AllJobs(takings + [t]) == AllJobs(takings) + [t.1]
  {
    assert (takings + [t])[..|takings|] == takings;
  }

  /** One more step of a run: worker `w` gets a job only by its own critical section. */
  lemma RecordStep<J>(s: State<J>, steps: seq<Step<J>>, s': State<J>, st: Step<J>, w: nat)
    requires IsRun(s, steps, s') && Enabled(s', st)
    ensures IsRun(s, steps + [st], Next(s', st))
    ensures JobsOf(Takings(s, steps + [st]), w)
            == JobsOf(Takings(s, steps), w) + if st.Check? && st.w == w && s'.tasks != [] then [s'.tasks[0]] else []
  {
    hide JobsOf, IsRun, Takings;
    RunSnoc(s, steps, s', st);
    var before := Takings(s, steps);
    if st.Check? && s'.tasks != [] {
      JobsOfSnoc(before, (st.w, s'.tasks[0]), w);
    } else {
      assert before + [] == before;
    }
  }

  lemma AllJobsConcat<J>(a: seq<(nat, J)>, b: seq<(nat, J)>)
    ensures AllJobs(a + b) == AllJobs(a) + AllJobs(b)
  {
  }

  lemma {:induction false} ArrivalsFront<J>(steps: seq<Step<J>>)
    requires steps != []
    ensures Arrivals(steps) == Arrivals(steps[..1]) + Arrivals(steps[1..])
    decreases |steps|
  {
    if |steps| > 1 {
      var init := steps[..|steps| - 1];
      ArrivalsFront(init);
      assert init[..1] == steps[..1] && init[1..] == steps[1..][..|steps| - 2];
    } else {
      assert steps[..1] == steps;
    }
  }

  lemma FirstTaking<J>(s: State<J>, st: Step<J>)
    requires Enabled(s, st)
    ensures s.tasks + Arrivals([st]) == AllJobs(Taking(s, st)) + Next(s, st).tasks
  {
    assert [st][..0] == [];
    if st.Check? && s.tasks != [] { assert [s.tasks[0]] + s.tasks[1..] == s.tasks; }
  }

  /** In every run the takings followed by the queue are the first queue followed by the arrivals. */
  lemma {:induction false} QueueConserved<J>(s: State<J>, steps: seq<Step<J>>, s': State<J>)
    requires IsRun(s, steps, s')
    ensures s.tasks + Arrivals(steps) == AllJobs(Takings(s, steps)) + s'.tasks
    decreases |steps|
  {
    hide Arrivals, AllJobs;
    if steps != [] {
      var m := Next(s, steps[0]);
      FirstTaking(s, steps[0]);
      ArrivalsFront(steps);
      assert steps[..1] == [steps[0]];
      QueueConserved(m, steps[1..], s');
      AllJobsConcat(Taking(s, steps[0]), Takings(m, steps[1..]));
      QueueStep(s.tasks, Arrivals([steps[0]]), Arrivals(steps[1..]), AllJobs(Taking(s, steps[0])), m.tasks,
                AllJobs(Takings(m, steps[1..])), s'.tasks);
    } else {
      NothingTaken(s);
    }
  }

  lemma NothingTaken<J>(s: State<J>)
    ensures Arrivals<J>([]) == [] && AllJobs(Takings(s, [])) == []
  {
  }

  lemma QueueStep<T>(q: seq<T>, a1: seq<T>, a2: seq<T>, t1: seq<T>, mid: seq<T>, t2: seq<T>, q': seq<T>)
    requires q + a1 == t1 + mid && mid + a2 == t2 + q'
    ensures q + (a1 + a2) == (t1 + t2) + q'
  {
    assert q + (a1 + a2) == (q + a1) + a2 == t1 + (mid + a2) == (t1 + t2) + q';
  }

  // ---------- The class ----------

  class Pool<J> {
    var tasks: seq<J>
    var stop: bool

    constructor ()
      ensures tasks == [] && !stop
    {
      tasks, stop := [], false;
    }

    method Push(job: J)
      modifies this
      ensures tasks == old(tasks) + [job] && stop == old(stop)
    {
      tasks := tasks + [job];
    }

    method RequestStop()
      modifies this
      ensures stop && tasks == old(tasks)
    {
      stop := true;
    }

    /** The fields are those of a state of the step system. */
    ghost predicate Shows(s: State<J>)
      reads this
    {
      s.tasks == tasks && s.stop == stop
    }

    /** The worker's critical section is the step `Check`. */
    method Take(s: State<J>, w: nat) returns (leave: bool, job: seq<J>)
      requires Enabled(s, Check(w)) && Shows(s)
      modifies this
      ensures Shows(Next(s, Check(w)))
      ensures var worker := Next(s, Check(w)).workers[w];
              && leave == worker.Exited?
              && job == if worker.Running? then [worker.job] else []
    {
      leave := stop && tasks == [];
      if tasks == [] {
        job := [];
      } else {
        job := [tasks[0]];
        tasks := tasks[1..];
      }
    }

    /** The record of worker `w` is right: its steps and those of all others are a run from `start` to here. */
    ghost predicate Recorded(start: State<J>, steps: seq<Step<J>>, s: State<J>, w: nat, executed: seq<J>)
      reads this
    {
      IsRun(start, steps, s) && Shows(s) && w < |s.workers| && executed == JobsOf(Takings(start, steps), w)
    }

    /** A step of another thread, or a push of the job that runs on this worker, if it is possible now. */
    method Outside(st: Step<J>, s: State<J>, w: nat, ghost start: State<J>, ghost steps: seq<Step<J>>,
                   ghost executed: seq<J>)
      returns (s': State<J>, ghost steps': seq<Step<J>>)
      requires Recorded(start, steps, s, w, executed)
      modifies this
      ensures Recorded(start, steps', s', w, executed)
      ensures s'.workers[w] == s.workers[w] || (s.workers[w].Asleep? && s'.workers[w].Awake?)
    {
      hide JobsOf, IsRun, Takings;
      s', steps' := s, steps;
      if Enabled(s, st) && !((st.Check? || st.Finish?) && st.w == w) {
        match st {
          case Enqueue(job) => Push(job);
          case EnqueueFrom(_, job) => Push(job);
          case RequestStop => RequestStop();
          case Check(v) => var leave, job := Take(s, v);
          case _ =>
        }
        RecordStep(start, steps, s, st, w);
        s', steps' := Next(s, st), steps + [st];
      }
    }

    /** Everything the others do at one point where this worker does not hold the mutex. */
    method Batch(batch: seq<Step<J>>, s: State<J>, w: nat, ghost start: State<J>, ghost steps: seq<Step<J>>,
                 ghost executed: seq<J>)
      returns (s': State<J>, ghost steps': seq<Step<J>>)
      requires Recorded(start, steps, s, w, executed)
      modifies this
      ensures Recorded(start, steps', s', w, executed)
      ensures s'.workers[w] == s.workers[w] || (s.workers[w].Asleep? && s'.workers[w].Awake?)
    {
      s', steps' := s, steps;
      for i := 0 to |batch|
        invariant Recorded(start, steps', s', w, executed)
        invariant s'.workers[w] == s.workers[w] || (s.workers[w].Asleep? && s'.workers[w].Awake?)
      {
        s', steps' := Outside(batch[i], s', w, start, steps', executed);
      }
    }

    /** The next batch of the schedule, if any is left. */
    method Point(schedule: seq<seq<Step<J>>>, used: nat, s: State<J>, w: nat, ghost start: State<J>,
                 ghost steps: seq<Step<J>>, ghost executed: seq<J>)
      returns (used': nat, s': State<J>, ghost steps': seq<Step<J>>)
      requires used <= |schedule| && Recorded(start, steps, s, w, executed)
      modifies this
      ensures used' == (if used < |schedule| then used + 1 else used) && (used' == used ==> s' == s)
      ensures Recorded(start, steps', s', w, executed)
      ensures s'.workers[w] == s.workers[w] || (s.workers[w].Asleep? && s'.workers[w].Awake?)
    {
      used', s', steps' := used, s, steps;
      if used < |schedule| {
        s', steps' := Batch(schedule[used], s, w, start, steps, executed);
        used' := used + 1;
      }
    }

    /** The critical section of this worker, recorded. */
    method OwnCheck(s: State<J>, w: nat, ghost start: State<J>, ghost steps: seq<Step<J>>, executed: seq<J>)
      returns (s': State<J>, ghost steps': seq<Step<J>>, executed': seq<J>)
      requires Recorded(start, steps, s, w, executed) && s.workers[w].Awake?
      modifies this
      ensures s' == Next(s, Check(w)) && Recorded(start, steps', s', w, executed')
    {
      hide JobsOf, IsRun, Takings;
      var leave, job := Take(s, w);
      RecordStep(start, steps, s, Check(w), w);
      s', steps', executed' := Next(s, Check(w)), steps + [Check(w)], executed + job;
    }

    /** One turn of the loop: check the queue, and sleep until woken, or run the job that was taken. */
    method Turn(schedule: seq<seq<Step<J>>>, used: nat, s: State<J>, w: nat, ghost start: State<J>,
                ghost steps: seq<Step<J>>, executed: seq<J>)
      returns (used': nat, s': State<J>, ghost steps': seq<Step<J>>, executed': seq<J>)
      requires used <= |schedule| && Recorded(start, steps, s, w, executed) && s.workers[w].Awake?
      modifies this
      ensures used <= used' <= |schedule| && Recorded(start, steps', s', w, executed')
      ensures s'.workers[w].Exited? ==> stop && tasks == []
      ensures s'.workers[w].Asleep? ==> used' == |schedule|
      ensures !s'.workers[w].Running?
      ensures s'.workers[w].Awake? ==> used < used' || |s'.tasks| < |s.tasks|
    {
      hide JobsOf, IsRun, Takings;
      used', s', steps' := Point(schedule, used, s, w, start, steps, executed);
      s', steps', executed' := OwnCheck(s', w, start, steps', executed);
      while s'.workers[w].Asleep? && used' < |schedule|
        invariant used <= used' <= |schedule| && Recorded(start, steps', s', w, executed')
        invariant s'.workers[w].Exited? ==> stop && tasks == []
        invariant s'.workers[w].Awake? ==> used < used'
        invariant s'.workers[w].Running? && used' == used ==> |s'.tasks| < |s.tasks|
        decreases |schedule| - used'
      {
        used', s', steps' := Point(schedule, used', s', w, start, steps', executed');
      }
      if s'.workers[w].Running? {
        used', s', steps' := Point(schedule, used', s', w, start, steps', executed');
        RecordStep(start, steps', s', Finish(w), w);
        steps' := steps' + [Finish(w)];
        s' := Next(s', Finish(w));
      }
    }

    /** The loop of worker `w` under a schedule of what the others do: a batch before each of its steps, and more
        while it sleeps.  Whatever they do, everything together is a run of the step system.  The worker leaves
        only with a stop requested and nothing queued; it runs the jobs that it takes, in that order. */
    method WorkerLoop(schedule: seq<seq<Step<J>>>, start: State<J>, w: nat)
      returns (executed: seq<J>, used: nat, s: State<J>, ghost steps: seq<Step<J>>)
      requires Shows(start) && w < |start.workers| && start.workers[w].Awake?
      modifies this
      ensures IsRun(start, steps, s) && Shows(s) && (Inv(start) ==> Inv(s))
      ensures |s.workers| == |start.workers| && executed == JobsOf(Takings(start, steps), w)
      ensures AllJobs(Takings(start, steps)) + tasks == old(tasks) + Arrivals(steps)
      ensures s.workers[w].Exited? || (s.workers[w].Asleep? && used == |schedule|)
      ensures s.workers[w].Exited? ==> stop && tasks == []
    {
      executed, used, s, steps := [], 0, start, [];
      while s.workers[w].Awake?
        invariant used <= |schedule| && Recorded(start, steps, s, w, executed)
        invariant !s.workers[w].Running? && (s.workers[w].Exited? ==> stop && tasks == [])
        invariant s.workers[w].Asleep? ==> used == |schedule|
        decreases |schedule| - used, s.workers[w].Awake?, |s.tasks|
      {
        used, s, steps, executed := Turn(schedule, used, s, w, start, steps, executed);
      }
      RunWorkers(start, steps, s);
      QueueConserved(start, steps, s);
      if Inv(start) { RunInv(start, steps, s); }
    }
  }
}
