/**
 Sleeping and waking in one shard (cache/cache.h): `push_task`, the wait of the worker, and
 the destructor.

 The wait is split in two: the worker evaluates its predicate while it holds `tasks_mutex`,
 and only afterwards goes to sleep and releases the mutex.  `push_task` changes the queue
 under the mutex, so it cannot come in between; the destructor writes `stop` without it, so
 it can.  A notification is a step of its own, and sleeping workers may wake up for no reason.
 */
module ShardWaiting {

  /** `Checked`: the predicate was false and the worker is about to sleep. */
  datatype Worker = AtTest | AtWait | Checked | Asleep | Running | Exited

  /** How far the destructor has come. */
  datatype Destructor = NotStarted | StopWritten | Notified

  /** `notifyOne`: calls of `push_task` that have pushed but not yet notified. */
  datatype State = State(worker: Worker, queued: nat, notifyOne: nat, destructor: Destructor)

  datatype Step =
    | Push | NotifyOne
    | LoopTest | Evaluate | FallAsleep | FinishTask
    | Spurious
    | WriteStop | NotifyAll

  const INITIAL := State(AtTest, 0, 0, NotStarted)

  predicate Stopped(s: State) { !s.destructor.NotStarted? }

  /** The destructor may only begin when all calls have returned, and nothing is called afterwards. */
  predicate Enabled(s: State, st: Step) {
    match st
    case Push => s.worker != Checked && s.destructor == NotStarted
    case NotifyOne => s.notifyOne > 0
    case LoopTest => s.worker == AtTest
    case Evaluate => s.worker == AtWait
    case FallAsleep => s.worker == Checked
    case FinishTask => s.worker == Running
    case Spurious => s.worker == Asleep
    case WriteStop => s.destructor == NotStarted && s.notifyOne == 0
    case NotifyAll => s.destructor == StopWritten
  }

  function Woken(w: Worker): Worker { if w == Asleep then AtWait else w }

  function Next(s: State, st: Step): State
    requires Enabled(s, st)
  {
    match st
    case Push => s.(queued := s.queued + 1, notifyOne := s.notifyOne + 1)
    case NotifyOne => s.(notifyOne := s.notifyOne - 1, worker := Woken(s.worker))
    case LoopTest => s.(worker := if Stopped(s) then Exited else AtWait)
    case Evaluate =>
      if s.queued > 0 then s.(worker := Running, queued := s.queued - 1)
      else if Stopped(s) then s.(worker := Exited)
      else s.(worker := Checked)
    case FallAsleep => s.(worker := Asleep)
    case FinishTask => s.(worker := AtTest)
    case Spurious => s.(worker := AtWait)
    case WriteStop => s.(destructor := StopWritten)
    case NotifyAll => s.(destructor := Notified, worker := Woken(s.worker))
  }

  ghost predicate IsRun(s: State, steps: seq<Step>, s': State)
    decreases |steps|
  {
    if steps == [] then s' == s
    else Enabled(s, steps[0]) && IsRun(Next(s, steps[0]), steps[1..], s')
  }

  // ---------- No task is stranded ----------

  ghost predicate Inv(s: State) {
    && (s.worker == Checked ==> s.queued == 0)
    && (s.worker == Asleep && s.queued > 0 ==> s.notifyOne > 0)
    && (s.worker == Exited ==> Stopped(s))
    && (Stopped(s) ==> s.notifyOne == 0)
  }

  lemma {:induction false} RunInv(s: State, steps: seq<Step>, s': State)
    requires Inv(s) && IsRun(s, steps, s')
    ensures Inv(s')
    decreases |steps|
  {
    if steps != [] { RunInv(Next(s, steps[0]), steps[1..], s'); }
  }

  /** No wake-up is lost: a worker sleeps on a queued task only while the notification for it is outstanding. */
  lemma NoLostWakeup(steps: seq<Step>, s: State)
    requires IsRun(INITIAL, steps, s)
    ensures s.worker == Asleep && s.queued > 0 ==> s.notifyOne > 0
  {
    RunInv(INITIAL, steps, s);
  }

  /** The steps of the worker, and the notifications of calls that have pushed. */
  predicate Inner(st: Step) {
    st.NotifyOne? || st.LoopTest? || st.Evaluate? || st.FallAsleep? || st.FinishTask?
  }

  /** How many steps the worker is away from its sleep if the queue is empty. */
  function Distance(w: Worker): nat {
    match w
    case Running => 4
    case AtTest => 3
    case AtWait => 2
    case Checked => 1
    case Asleep => 0
    case Exited => 0
  }

  function Measure(s: State): nat {
    3 * s.queued + 3 * s.notifyOne + Distance(s.worker)
  }

  /** Left alone, the worker comes to rest. */
  lemma {:induction false} RestBound(s: State, steps: seq<Step>, s': State)
    requires IsRun(s, steps, s') && forall st | st in steps :: Inner(st)
    ensures |steps| + Measure(s') <= Measure(s)
    decreases |steps|
  {
    if steps != [] {
      assert Inner(steps[0]);
      RestBound(Next(s, steps[0]), steps[1..], s');
    }
  }

  /** Before the destructor the worker rests exactly when every task has been taken and it sleeps. */
  lemma RestsIff(steps: seq<Step>, s: State)
    requires IsRun(INITIAL, steps, s) && s.destructor == NotStarted
    ensures (forall st | Inner(st) :: !Enabled(s, st)) <==> s.queued == 0 && s.notifyOne == 0 && s.worker == Asleep
  {
    RunInv(INITIAL, steps, s);
    if forall st | Inner(st) :: !Enabled(s, st) {
      assert !Enabled(s, NotifyOne) && !Enabled(s, LoopTest) && !Enabled(s, Evaluate);
      assert !Enabled(s, FallAsleep) && !Enabled(s, FinishTask);
    }
  }

  // ---------- The destructor ----------

  /** Nothing but a wake-up for no reason can still happen: `join` has returned, or need never return. */
  ghost predicate Stuck(s: State) {
    forall st | st != Spurious :: !Enabled(s, st)
  }

  lemma StuckWorker(s: State)
    ensures Stuck(s) ==> s.worker == Asleep || s.worker == Exited
  {
    assert Stuck(s) ==> !Enabled(s, LoopTest) && !Enabled(s, Evaluate) && !Enabled(s, FallAsleep) && !Enabled(s, FinishTask);
  }

  function Remaining(w: Worker): nat {
    match w
    case Checked => 5
    case Asleep => 4
    case AtWait => 3
    case Running => 2
    case AtTest => 1
    case Exited => 0
  }

  /** After the notification every run is short, and one that cannot go on has the worker gone exactly when the
      notification did not find it between the evaluation of its predicate and its sleep, or it woke up for no
      reason. */
  lemma {:induction false} JoinReturnsIff(s: State, steps: seq<Step>, s': State)
    requires Inv(s) && s.destructor == Notified && IsRun(s, steps, s')
    ensures |steps| <= Remaining(s.worker)
    ensures Stuck(s') ==> (s'.worker == Exited <==> (s.worker != Checked && s.worker != Asleep) || Spurious in steps)
    decreases |steps|
  {
    if steps != [] {
      JoinReturnsIff(Next(s, steps[0]), steps[1..], s');
    } else {
      StuckWorker(s);
    }
  }

  /** Some run destroys the shard and ends with the worker asleep. */
  ghost predicate MayHang(s: State, spurious: bool) {
    exists steps, s' :: HangingRun(s, steps, s', spurious)
  }

  ghost predicate HangingRun(s: State, steps: seq<Step>, s': State, spurious: bool) {
    && IsRun(s, steps, s') && Push !in steps && (Spurious in steps ==> spurious)
    && s'.destructor == Notified && Stuck(s') && s'.worker != Exited
  }

  /** From everywhere but a sleep the worker can come to the point where the notification misses it. */
  lemma {:induction false} HangFrom(s: State) returns (steps: seq<Step>, s': State)
    requires Inv(s) && s.destructor == NotStarted && s.notifyOne == 0 && s.worker != Asleep
    ensures HangingRun(s, steps, s', false)
    decreases Measure(s)
  {
    if s.worker == Checked {
      steps := [WriteStop, NotifyAll, FallAsleep];
      s' := State(Asleep, 0, 0, Notified);
      var s1, s2 := Next(s, WriteStop), Next(Next(s, WriteStop), NotifyAll);
      assert IsRun(s', [], s');
      assert [FallAsleep][1..] == [] && IsRun(s2, [FallAsleep], s');
      assert [NotifyAll, FallAsleep][1..] == [FallAsleep] && IsRun(s1, [NotifyAll, FallAsleep], s');
      assert steps[1..] == [NotifyAll, FallAsleep];
    } else {
      var st := if s.worker == AtTest then LoopTest else if s.worker == AtWait then Evaluate else FinishTask;
      var rest;
      rest, s' := HangFrom(Next(s, st));
      steps := [st] + rest;
      assert steps[1..] == rest;
    }
  }

  /** A worker that sleeps is woken by the destructor and leaves. */
  lemma {:induction false} AsleepReturns(s: State, steps: seq<Step>, s': State)
    requires Inv(s) && IsRun(s, steps, s') && Push !in steps && Spurious !in steps && s.notifyOne == 0
    requires if s.destructor == Notified then s.worker != Asleep && s.worker != Checked else s.worker == Asleep
    ensures s'.destructor == Notified ==> s'.worker != Asleep && s'.worker != Checked
    decreases |steps|
  {
    if steps != [] { AsleepReturns(Next(s, steps[0]), steps[1..], s'); }
  }

  /** When no call is under way, destroying the shard may hang exactly if its worker is not asleep, and if it may
      wake up for no reason, in any case. */
  lemma MayHangIff(s: State)
    requires Inv(s) && s.destructor == NotStarted && s.notifyOne == 0
    ensures MayHang(s, false) <==> s.worker != Asleep
    ensures MayHang(s, true)
  {
    if s.worker != Asleep {
      var steps, s' := HangFrom(s);
      assert HangingRun(s, steps, s', false) && HangingRun(s, steps, s', true);
    } else {
      forall steps, s' ensures !HangingRun(s, steps, s', false) {
        StuckWorker(s');
        if HangingRun(s, steps, s', false) { AsleepReturns(s, steps, s'); }
      }
      var rest, s' := HangFrom(Next(s, Spurious));
      var steps := [Spurious] + rest;
      assert steps[1..] == rest;
      assert HangingRun(s, steps, s', true);
    }
  }

  /** A shard that is destroyed right after it was made can hang. */
  lemma FreshShardMayHang()
    ensures MayHang(INITIAL, false)
  {
    MayHangIff(INITIAL);
  }
}
