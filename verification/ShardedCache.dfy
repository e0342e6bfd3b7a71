/**
 The sharded asynchronous cache as a step system (cache/cache.h).

 Every key has a home shard.  A shard owns a map, a FIFO queue of tasks and one worker.
 The clients only append to queues; each worker repeats: test `stop`, wait for a task,
 pop it, run it.  All interleavings of these steps are runs of the system below.

 Two history components record what happened: `log` is the sequence of all submissions,
 in the order in which they were pushed, and `done[i]` counts the tasks shard `i` has run.
 The promise of a `get_async` is identified by its position in `log`.
 */
module ShardedCache {
  import opened Wrappers

  datatype Task<K, V> =
    | Set(key: K, value: V)
    | Remove(key: K)
    | Get(key: K, promise: nat)

  /** Where a worker is in its loop: at the `while (!stop)` test, at the wait, running a task, or gone. */
  datatype Worker<K, V> = AtTest | AtWait | Running(task: Task<K, V>) | Exited

  datatype ShardState<K, V> =
    ShardState(storage: map<K, V>, tasks: seq<Task<K, V>>, worker: Worker<K, V>, stop: bool)

  datatype State<K, V> =
    State(shards: seq<ShardState<K, V>>, resolved: map<nat, Option<V>>, log: seq<Task<K, V>>, done: seq<nat>)

  /** The hash function and the number of shards. */
  datatype Router<!K> = Router(hash: K -> nat, n: nat)

  ghost predicate ValidRouter<K>(r: Router<K>) { 0 < r.n }

  function Home<K>(r: Router<K>, key: K): (i: nat)
    requires ValidRouter(r)
    ensures i < r.n
  {
    r.hash(key) % r.n
  }

  /** The home shard is the remainder of the hash. */
  lemma HomeIs<K>(r: Router<K>, key: K) returns (q: nat)
    requires ValidRouter(r)
    ensures r.hash(key) == q * r.n + Home(r, key)
  {
    q := r.hash(key) / r.n;
  }

  // ---------- Plain maps ----------

  function Lookup<K, V>(m: map<K, V>, key: K): Option<V> {
    if key in m then Some(m[key]) else None
  }

  /** The effect of one task on a plain map. */
  function Apply<K, V>(m: map<K, V>, t: Task<K, V>): map<K, V> {
    match t
    case Set(k, v) => m[k := v]
    case Remove(k) => m - {k}
    case Get(_, _) => m
  }

  /** The effect of a sequence of tasks, run one after another on one plain map. */
  function Replay<K, V>(m: map<K, V>, ts: seq<Task<K, V>>): map<K, V> {
    if ts == [] then m else Apply(Replay(m, ts[..|ts| - 1]), ts[|ts| - 1])
  }

  // ---------- What one shard does ----------

  function Push<K, V>(sh: ShardState<K, V>, t: Task<K, V>): ShardState<K, V> {
    sh.(tasks := sh.tasks + [t])
  }

  /** The loop test `while (!stop)`. */
  function Test<K, V>(sh: ShardState<K, V>): ShardState<K, V> {
    sh.(worker := if sh.stop then Exited else AtWait)
  }

  predicate CanPop<K, V>(sh: ShardState<K, V>) {
    sh.worker == AtWait && (sh.tasks != [] || sh.stop)
  }

  /** The critical section after the wait: leave when there is nothing to do, else take the first task. */
  function Pop<K, V>(sh: ShardState<K, V>): ShardState<K, V>
    requires CanPop(sh)
  {
    if sh.tasks == [] then sh.(worker := Exited)
    else sh.(tasks := sh.tasks[1..], worker := Running(sh.tasks[0]))
  }

  function Exec<K, V>(sh: ShardState<K, V>): ShardState<K, V>
    requires sh.worker.Running?
  {
    sh.(storage := Apply(sh.storage, sh.worker.task), worker := AtTest)
  }

  /** The promises after `t` has run on a shard holding `m`. */
  function Resolve<K, V>(resolved: map<nat, Option<V>>, m: map<K, V>, t: Task<K, V>): map<nat, Option<V>> {
    if t.Get? then resolved[t.promise := Lookup(m, t.key)] else resolved
  }

  /** The task in flight followed by the queue. */
  function Pending<K, V>(sh: ShardState<K, V>): seq<Task<K, V>> {
    (if sh.worker.Running? then [sh.worker.task] else []) + sh.tasks
  }

  // ---------- The whole cache ----------

  datatype Step<K, V> =
    | SetAsync(key: K, value: V)
    | RemoveAsync(key: K)
    | GetAsync(key: K)
    | WorkerTest(i: nat)
    | WorkerPop(i: nat)
    | WorkerExec(i: nat)
    | Stop(i: nat)

  function Initial<K, V>(r: Router<K>): State<K, V> {
    State(seq(r.n, _ => ShardState(map[], [], AtTest, false)), map[], [], seq(r.n, _ => 0))
  }

  predicate IsSubmission<K, V>(st: Step<K, V>) {
    st.SetAsync? || st.RemoveAsync? || st.GetAsync?
  }

  /** The task a submission pushes when it is the `position`-th one. */
  function TaskOf<K, V>(st: Step<K, V>, position: nat): Task<K, V>
    requires IsSubmission(st)
  {
    match st
    case SetAsync(k, v) => Set(k, v)
    case RemoveAsync(k) => Remove(k)
    case GetAsync(k) => Get(k, position)
  }

  predicate Enabled<K, V>(r: Router<K>, s: State<K, V>, st: Step<K, V>) {
    && |s.shards| == |s.done| == r.n
    && (match st
        case WorkerTest(i) => i < r.n && s.shards[i].worker == AtTest
        case WorkerPop(i) => i < r.n && CanPop(s.shards[i])
        case WorkerExec(i) => i < r.n && s.shards[i].worker.Running?
        case Stop(i) => i < r.n
        case _ => true)
  }

  function Submit<K, V>(r: Router<K>, s: State<K, V>, t: Task<K, V>): State<K, V>
    requires ValidRouter(r) && |s.shards| == r.n
  {
    var i := Home(r, t.key);
    s.(shards := s.shards[i := Push(s.shards[i], t)], log := s.log + [t])
  }

  function Next<K, V>(r: Router<K>, s: State<K, V>, st: Step<K, V>): State<K, V>
    requires ValidRouter(r) && Enabled(r, s, st)
  {
    match st
    case WorkerTest(i) => s.(shards := s.shards[i := Test(s.shards[i])])
    case WorkerPop(i) => s.(shards := s.shards[i := Pop(s.shards[i])])
    case WorkerExec(i) =>
      s.(shards := s.shards[i := Exec(s.shards[i])],
         resolved := Resolve(s.resolved, s.shards[i].storage, s.shards[i].worker.task),
         done := s.done[i := s.done[i] + 1])
    case Stop(i) => s.(shards := s.shards[i := s.shards[i].(stop := true)])
    case _ => Submit(r, s, TaskOf(st, |s.log|))
  }

  /** A client is never made to wait: every submission is possible in every state, and so is a stop. */
  lemma ClientsNeverWait<K, V>(r: Router<K>, steps: seq<Step<K, V>>, s: State<K, V>, st: Step<K, V>)
    requires ValidRouter(r) && Reachable(r, steps, s)
    requires IsSubmission(st) || (st.Stop? && st.i < r.n)
    ensures Enabled(r, s, st)
  {
    ReachableInv(r, steps, s);
  }

  ghost predicate IsRun<K, V>(r: Router<K>, s: State<K, V>, steps: seq<Step<K, V>>, s': State<K, V>)
    requires ValidRouter(r)
    decreases |steps|
  {
    if steps == [] then s' == s
    else Enabled(r, s, steps[0]) && IsRun(r, Next(r, s, steps[0]), steps[1..], s')
  }

  ghost predicate Reachable<K, V>(r: Router<K>, steps: seq<Step<K, V>>, s: State<K, V>)
    requires ValidRouter(r)
  {
    IsRun(r, Initial(r), steps, s)
  }

  /** The submissions of a run as one sequence of tasks. */
  function Submitted<K, V>(log: seq<Task<K, V>>, steps: seq<Step<K, V>>): seq<Task<K, V>>
    decreases |steps|
  {
    if steps == [] then log
    else Submitted(if IsSubmission(steps[0]) then log + [TaskOf(steps[0], |log|)] else log, steps[1..])
  }

  /** The submissions whose key lives on shard `i`, in order. */
  function ShardLog<K, V>(r: Router<K>, log: seq<Task<K, V>>, i: nat): seq<Task<K, V>>
    requires ValidRouter(r)
  {
    if log == [] then []
    else
      var before := ShardLog(r, log[..|log| - 1], i);
      var t := log[|log| - 1];
      if Home(r, t.key) == i then before + [t] else before
  }

  /** All shards seen as one map. */
  function Union<K, V>(shards: seq<ShardState<K, V>>): map<K, V> {
    if shards == [] then map[] else Union(shards[..|shards| - 1]) + shards[|shards| - 1].storage
  }

  predicate Quiescent<K, V>(s: State<K, V>) {
    forall i | 0 <= i < |s.shards| :: Pending(s.shards[i]) == []
  }

  // ---------- Facts about logs ----------

  lemma {:induction false} ReplayConcat<K, V>(m: map<K, V>, a: seq<Task<K, V>>, b: seq<Task<K, V>>)
    ensures Replay(m, a + b) == Replay(Replay(m, a), b)
    decreases |b|
  {
    if b == [] {
      assert a + b == a;
    } else {
      assert (a + b)[..|a + b| - 1] == a + b[..|b| - 1];
      ReplayConcat(m, a, b[..|b| - 1]);
    }
  }

  lemma {:induction false} ShardLogPrefix<K, V>(r: Router<K>, log: seq<Task<K, V>>, j: nat, i: nat)
    requires ValidRouter(r) && j <= |log|
    ensures ShardLog(r, log[..j], i) <= ShardLog(r, log, i)
  {
    if j == |log| {
      assert log[..j] == log;
    } else {
      ShardLogPrefix(r, log[..|log| - 1], j, i);
      assert log[..|log| - 1][..j] == log[..j];
    }
  }

  /** A submission sits in its home shard's log right after the earlier submissions to that shard. */
  lemma ShardLogPosition<K, V>(r: Router<K>, log: seq<Task<K, V>>, j: nat)
    requires ValidRouter(r) && j < |log|
    ensures var i := Home(r, log[j].key);
            var before := ShardLog(r, log[..j], i);
            |before| < |ShardLog(r, log, i)|
            && ShardLog(r, log, i)[..|before|] == before
            && ShardLog(r, log, i)[|before|] == log[j]
  {
    var i := Home(r, log[j].key);
    ShardLogPrefix(r, log, j + 1, i);
    assert log[..j + 1][..j] == log[..j];
  }

  /** What key `k` maps to depends only on the submissions to its home shard. */
  lemma {:induction false} RoutedLookup<K, V>(r: Router<K>, log: seq<Task<K, V>>, k: K)
    requires ValidRouter(r)
    ensures Lookup(Replay(map[], log), k) == Lookup(Replay(map[], ShardLog(r, log, Home(r, k))), k)
  {
    if log != [] {
      var init, t := log[..|log| - 1], log[|log| - 1];
      var before := ShardLog(r, init, Home(r, k));
      RoutedLookup(r, init, k);
      assert (before + [t])[..|before + [t]| - 1] == before;
    }
  }

  /** A shard only ever holds keys that live on it. */
  lemma {:induction false} RoutedKeys<K, V>(r: Router<K>, log: seq<Task<K, V>>, i: nat, count: nat)
    requires ValidRouter(r) && count <= |ShardLog(r, log, i)|
    ensures forall k | k in Replay(map[], ShardLog(r, log, i)[..count]) :: Home(r, k) == i
    decreases count
  {
    if count > 0 {
      RoutedKeys(r, log, i, count - 1);
      var sub := ShardLog(r, log, i);
      assert sub[..count][..count - 1] == sub[..count - 1];
      ShardLogHome(r, log, i, count - 1);
    }
  }

  lemma {:induction false} ShardLogHome<K, V>(r: Router<K>, log: seq<Task<K, V>>, i: nat, p: nat)
    requires ValidRouter(r) && p < |ShardLog(r, log, i)|
    ensures Home(r, ShardLog(r, log, i)[p].key) == i
  {
    if p < |ShardLog(r, log[..|log| - 1], i)| {
      ShardLogHome(r, log[..|log| - 1], i, p);
    }
  }

  // ---------- The invariant ----------

  /** Shard `i` holds the effect of the first `done[i]` submissions to it and has all the others pending, in order. */
  ghost predicate ShardInv<K, V>(r: Router<K>, s: State<K, V>, i: nat)
    requires ValidRouter(r) && i < |s.shards| == |s.done|
  {
    var sub := ShardLog(r, s.log, i);
    && s.done[i] <= |sub|
    && Pending(s.shards[i]) == sub[s.done[i]..]
    && s.shards[i].storage == Replay(map[], sub[..s.done[i]])
    && (s.shards[i].worker.Exited? ==> s.shards[i].stop)
  }

  /** The submission at position `j` of the log has been run. */
  ghost predicate HasRun<K, V>(r: Router<K>, s: State<K, V>, j: nat)
    requires ValidRouter(r) && |s.done| == r.n && j < |s.log|
  {
    var i := Home(r, s.log[j].key);
    |ShardLog(r, s.log[..j], i)| < s.done[i]
  }

  /** A `get_async` is resolved exactly when it has run, and then with the value at its submission. */
  ghost predicate PromiseInv<K, V>(r: Router<K>, s: State<K, V>, j: nat)
    requires ValidRouter(r) && |s.done| == r.n && j < |s.log|
  {
    s.log[j].Get? ==>
      && s.log[j].promise == j
      && (j in s.resolved <==> HasRun(r, s, j))
      && (j in s.resolved ==> s.resolved[j] == Lookup(Replay(map[], s.log[..j]), s.log[j].key))
  }

  ghost predicate Inv<K, V>(r: Router<K>, s: State<K, V>)
    requires ValidRouter(r)
  {
    && |s.shards| == |s.done| == r.n
    && (forall i | 0 <= i < r.n :: ShardInv(r, s, i))
    && (forall j | 0 <= j < |s.log| :: PromiseInv(r, s, j))
    && (forall p | p in s.resolved :: p < |s.log| && s.log[p].Get?)
  }

  lemma InitialInv<K, V>(r: Router<K>)
    requires ValidRouter(r)
    ensures Inv(r, Initial<K, V>(r))
  {
  }

  lemma SubmitInv<K, V>(r: Router<K>, s: State<K, V>, t: Task<K, V>)
    requires ValidRouter(r) && Inv(r, s)
    requires t.Get? ==> t.promise == |s.log|
    ensures Inv(r, Submit(r, s, t))
  {
    var s' := Submit(r, s, t);
    assert s'.log[..|s.log|] == s.log;
    forall i | 0 <= i < r.n ensures ShardInv(r, s', i) {
      var sub, sub' := ShardLog(r, s.log, i), ShardLog(r, s'.log, i);
      assert ShardInv(r, s, i);
      assert sub'[..s.done[i]] == sub[..s.done[i]];
      if i == Home(r, t.key) {
        assert sub' == sub + [t];
        assert sub'[s.done[i]..] == sub[s.done[i]..] + [t];
      } else {
        assert sub' == sub;
      }
    }
    forall j | 0 <= j < |s'.log| ensures PromiseInv(r, s', j) {
      if j < |s.log| {
        assert s'.log[..j] == s.log[..j];
        assert PromiseInv(r, s, j);
      } else {
        assert s'.log[..j] == s.log;
        assert ShardInv(r, s, Home(r, t.key));
      }
    }
  }

  /** Running the task in flight: it is the next submission to its shard that has not run yet. */
  lemma ExecTask<K, V>(r: Router<K>, s: State<K, V>, i: nat)
    requires ValidRouter(r) && Inv(r, s) && i < r.n && s.shards[i].worker.Running?
    ensures var sub := ShardLog(r, s.log, i);
            s.done[i] < |sub| && sub[s.done[i]] == s.shards[i].worker.task
  {
    assert ShardInv(r, s, i);
    var sub := ShardLog(r, s.log, i);
    assert Pending(s.shards[i])[0] == sub[s.done[i]..][0];
  }

  lemma ReplayNext<K, V>(m: map<K, V>, ts: seq<Task<K, V>>, d: nat)
    requires d < |ts|
    ensures Replay(m, ts[..d + 1]) == Apply(Replay(m, ts[..d]), ts[d])
  {
    assert ts[..d + 1][..d] == ts[..d];
  }

  lemma ExecOwnShardInv<K, V>(r: Router<K>, s: State<K, V>, i: nat)
    requires ValidRouter(r) && Inv(r, s) && i < r.n && s.shards[i].worker.Running?
    ensures |s.shards| == |s.done| == r.n && ShardInv(r, Next(r, s, WorkerExec(i)), i)
  {
    hide ShardLog, PromiseInv, Replay, Apply;
    ExecTask(r, s, i);
    assert ShardInv(r, s, i);
    var s' := Next(r, s, WorkerExec(i));
    var sub, d := ShardLog(r, s.log, i), s.done[i];
    ReplayNext(map[], sub, d);
    assert sub[d..] == [sub[d]] + sub[d + 1..];
    assert Pending(s'.shards[i]) == Pending(s.shards[i])[1..];
  }

  lemma ExecShardInv<K, V>(r: Router<K>, s: State<K, V>, i: nat)
    requires ValidRouter(r) && Inv(r, s) && i < r.n && s.shards[i].worker.Running?
    ensures forall k | 0 <= k < r.n :: ShardInv(r, Next(r, s, WorkerExec(i)), k)
  {
    var s' := Next(r, s, WorkerExec(i));
    hide ShardLog, PromiseInv, Replay;
    ExecOwnShardInv(r, s, i);
    forall k | 0 <= k < r.n ensures ShardInv(r, s', k) { assert ShardInv(r, s, k); }
  }

  /** A log position is determined by its home shard and its rank there. */
  lemma RankInjective<K, V>(r: Router<K>, log: seq<Task<K, V>>, a: nat, b: nat)
    requires ValidRouter(r) && a < b < |log|
    requires Home(r, log[a].key) == Home(r, log[b].key)
    ensures |ShardLog(r, log[..a], Home(r, log[a].key))| < |ShardLog(r, log[..b], Home(r, log[b].key))|
  {
    ShardLogPosition(r, log[..b], a);
    assert log[..b][..a] == log[..a];
  }

  /** The task in flight on shard `i`, if it is a read, is the read whose rank is `done[i]`. */
  lemma ExecRank<K, V>(r: Router<K>, s: State<K, V>, i: nat, j: nat)
    requires ValidRouter(r) && Inv(r, s) && i < r.n && s.shards[i].worker.Running?
    requires j < |s.log| && Home(r, s.log[j].key) == i
    ensures s.log[j].Get? && |ShardLog(r, s.log[..j], i)| == s.done[i]
            ==> s.shards[i].worker.task == s.log[j]
                && s.shards[i].storage == Replay(map[], ShardLog(r, s.log[..j], i))
  {
    ExecTask(r, s, i);
    ShardLogPosition(r, s.log, j);
    assert ShardInv(r, s, i);
  }

  lemma {:induction false} RankExists<K, V>(r: Router<K>, log: seq<Task<K, V>>, i: nat, p: nat) returns (j: nat)
    requires ValidRouter(r) && p < |ShardLog(r, log, i)|
    ensures j < |log| && log[j] == ShardLog(r, log, i)[p] && Home(r, log[j].key) == i
    ensures |ShardLog(r, log[..j], i)| == p
  {
    var init := log[..|log| - 1];
    if p < |ShardLog(r, init, i)| {
      j := RankExists(r, init, i, p);
      assert init[..j] == log[..j];
    } else {
      j := |log| - 1;
    }
  }

  lemma ExecPromiseInv<K, V>(r: Router<K>, s: State<K, V>, i: nat, j: nat)
    requires ValidRouter(r) && Inv(r, s) && i < r.n && s.shards[i].worker.Running? && j < |s.log|
    ensures PromiseInv(r, Next(r, s, WorkerExec(i)), j)
  {
    var s' := Next(r, s, WorkerExec(i));
    assert PromiseInv(r, s, j);
    ExecTask(r, s, i);
    var q := RankExists(r, s.log, i, s.done[i]);
    assert PromiseInv(r, s, q);
    if s.log[j].Get? {
      if Home(r, s.log[j].key) == i {
        ExecRank(r, s, i, j);
        if j != q {
          RankInjective(r, s.log, if j < q then j else q, if j < q then q else j);
        } else {
          RoutedLookup(r, s.log[..j], s.log[j].key);
        }
      }
    }
  }

  lemma StepInv<K, V>(r: Router<K>, s: State<K, V>, st: Step<K, V>)
    requires ValidRouter(r) && Inv(r, s) && Enabled(r, s, st)
    ensures Inv(r, Next(r, s, st))
  {
    var s' := Next(r, s, st);
    if IsSubmission(st) {
      SubmitInv(r, s, TaskOf(st, |s.log|));
    } else if st.WorkerExec? {
      ExecShardInv(r, s, st.i);
      forall j | 0 <= j < |s.log| ensures PromiseInv(r, s', j) { ExecPromiseInv(r, s, st.i, j); }
      ExecTask(r, s, st.i);
      var q := RankExists(r, s.log, st.i, s.done[st.i]);
      assert PromiseInv(r, s, q);
    } else {
      forall k | 0 <= k < r.n ensures ShardInv(r, s', k) {
        assert ShardInv(r, s, k);
        assert Pending(s'.shards[k]) == Pending(s.shards[k]);
      }
      forall j | 0 <= j < |s.log| ensures PromiseInv(r, s', j) { assert PromiseInv(r, s, j); }
    }
  }

  // ---------- Theorems over all runs ----------

  lemma {:induction false} RunInv<K, V>(r: Router<K>, s: State<K, V>, steps: seq<Step<K, V>>, s': State<K, V>)
    requires ValidRouter(r) && Inv(r, s) && IsRun(r, s, steps, s')
    ensures Inv(r, s')
    decreases |steps|
  {
    if steps != [] {
      StepInv(r, s, steps[0]);
      RunInv(r, Next(r, s, steps[0]), steps[1..], s');
    }
  }

  lemma ReachableInv<K, V>(r: Router<K>, steps: seq<Step<K, V>>, s: State<K, V>)
    requires ValidRouter(r) && Reachable(r, steps, s)
    ensures Inv(r, s)
  {
    InitialInv<K, V>(r);
    RunInv(r, Initial(r), steps, s);
  }

  lemma {:induction false} RunLog<K, V>(r: Router<K>, s: State<K, V>, steps: seq<Step<K, V>>, s': State<K, V>)
    requires ValidRouter(r) && IsRun(r, s, steps, s')
    ensures s'.log == Submitted(s.log, steps)
    decreases |steps|
  {
    if steps != [] {
      RunLog(r, Next(r, s, steps[0]), steps[1..], s');
    }
  }

  lemma InvRefinement<K, V>(r: Router<K>, s: State<K, V>, i: nat)
    requires ValidRouter(r) && Inv(r, s) && i < r.n
    ensures Replay(s.shards[i].storage, Pending(s.shards[i])) == Replay(map[], ShardLog(r, s.log, i))
  {
    assert ShardInv(r, s, i);
    var sub, d := ShardLog(r, s.log, i), s.done[i];
    ReplayConcat(map[], sub[..d], sub[d..]);
    assert sub[..d] + sub[d..] == sub;
  }

  /** Running what is in flight and queued on a shard completes the effect of everything submitted to it. */
  lemma ShardRefinement<K, V>(r: Router<K>, steps: seq<Step<K, V>>, s: State<K, V>, i: nat)
    requires ValidRouter(r) && Reachable(r, steps, s) && i < r.n
    ensures |s.shards| == r.n
    ensures Replay(s.shards[i].storage, Pending(s.shards[i])) == Replay(map[], ShardLog(r, Submitted([], steps), i))
  {
    ReachableInv(r, steps, s);
    InvRefinement(r, s, i);
    RunLog(r, Initial(r), steps, s);
  }

  lemma {:induction false} UnionLookup<K, V>(shards: seq<ShardState<K, V>>, i: nat, k: K)
    requires forall j | 0 <= j < |shards| && j != i :: k !in shards[j].storage
    ensures Lookup(Union(shards), k) == if i < |shards| then Lookup(shards[i].storage, k) else None
    decreases |shards|
  {
    if shards != [] {
      UnionLookup(shards[..|shards| - 1], i, k);
    }
  }

  lemma MapsEqual<K(!new), V>(a: map<K, V>, b: map<K, V>)
    requires forall k :: Lookup(a, k) == Lookup(b, k)
    ensures a == b
  {
    forall k ensures k in a <==> k in b { assert Lookup(a, k) == Lookup(b, k); }
    forall k | k in a ensures a[k] == b[k] { assert Lookup(a, k) == Lookup(b, k); }
  }

  /** Once no task is pending, the shards together are the plain map fed all submissions in order. */
  lemma QuiescentUnion<K(!new), V>(r: Router<K>, steps: seq<Step<K, V>>, s: State<K, V>)
    requires ValidRouter(r) && Reachable(r, steps, s) && Quiescent(s)
    ensures Union(s.shards) == Replay(map[], Submitted([], steps))
  {
    ReachableInv(r, steps, s);
    RunLog(r, Initial(r), steps, s);
    forall k ensures Lookup(Union(s.shards), k) == Lookup(Replay(map[], s.log), k) {
      var h := Home(r, k);
      forall j | 0 <= j < r.n && j != h ensures k !in s.shards[j].storage {
        assert ShardInv(r, s, j);
        RoutedKeys(r, s.log, j, s.done[j]);
      }
      UnionLookup(s.shards, h, k);
      assert ShardInv(r, s, h);
      var sub := ShardLog(r, s.log, h);
      assert |Pending(s.shards[h])| == |sub| - s.done[h];
      assert sub[..s.done[h]] == sub;
      RoutedLookup(r, s.log, k);
    }
    MapsEqual(Union(s.shards), Replay(map[], s.log));
  }

  /** A read that is resolved returns the key's value in the plain map of exactly the earlier submissions. */
  lemma GetAsyncLinearised<K, V>(r: Router<K>, steps: seq<Step<K, V>>, s: State<K, V>, j: nat)
    requires ValidRouter(r) && Reachable(r, steps, s)
    requires var log := Submitted([], steps); j < |log| && log[j].Get?
    ensures |s.done| == r.n && s.log == Submitted([], steps)
    ensures j in s.resolved <==> HasRun(r, s, j)
    ensures j in s.resolved ==> s.resolved[j] == Lookup(Replay(map[], s.log[..j]), s.log[j].key)
  {
    ReachableInv(r, steps, s);
    RunLog(r, Initial(r), steps, s);
    assert PromiseInv(r, s, j);
  }

  /** When nothing is pending, exactly the submitted reads are resolved. */
  lemma QuiescentResolved<K, V>(r: Router<K>, steps: seq<Step<K, V>>, s: State<K, V>, p: nat)
    requires ValidRouter(r) && Reachable(r, steps, s) && Quiescent(s)
    ensures var log := Submitted([], steps); p in s.resolved <==> p < |log| && log[p].Get?
  {
    ReachableInv(r, steps, s);
    RunLog(r, Initial(r), steps, s);
    if p < |s.log| && s.log[p].Get? {
      var h := Home(r, s.log[p].key);
      assert PromiseInv(r, s, p) && ShardInv(r, s, h);
      assert |Pending(s.shards[h])| == |ShardLog(r, s.log, h)| - s.done[h];
      ShardLogPosition(r, s.log, p);
    }
  }

  // ---------- Submissions in the order of each key ----------

  /** A task without the name of its promise. */
  function Anonymous<K, V>(t: Task<K, V>): Task<K, V> {
    if t.Get? then Get(t.key, 0) else t
  }

  /** What was submitted for one key, in order. */
  ghost function KeyLog<K, V>(log: seq<Task<K, V>>, k: K): seq<Task<K, V>> {
    if log == [] then []
    else
      var before := KeyLog(log[..|log| - 1], k);
      var t := log[|log| - 1];
      if t.key == k then before + [Anonymous(t)] else before
  }

  /** How many submissions for its key come before the one at position `j`. */
  ghost function KeyRank<K, V>(log: seq<Task<K, V>>, j: nat): nat
    requires j < |log|
  {
    |KeyLog(log[..j], log[j].key)|
  }

  /** Two reads in two logs, of the same key and at the same place among the submissions for that key. */
  ghost predicate SameRead<K, V>(log1: seq<Task<K, V>>, p: nat, log2: seq<Task<K, V>>, q: nat) {
    && p < |log1| && q < |log2| && log1[p].Get? && log2[q].Get?
    && log1[p].key == log2[q].key && KeyRank(log1, p) == KeyRank(log2, q)
  }

  lemma {:induction false} KeyReplay<K, V>(log: seq<Task<K, V>>, k: K)
    ensures Lookup(Replay(map[], log), k) == Lookup(Replay(map[], KeyLog(log, k)), k)
  {
    if log != [] {
      var init, t := log[..|log| - 1], log[|log| - 1];
      var before := KeyLog(init, k);
      KeyReplay(init, k);
      assert (before + [Anonymous(t)])[..|before|] == before;
    }
  }

  lemma {:induction false} KeyLogPrefix<K, V>(log: seq<Task<K, V>>, j: nat, k: K)
    requires j <= |log|
    ensures KeyLog(log[..j], k) <= KeyLog(log, k)
  {
    if j == |log| {
      assert log[..j] == log;
    } else {
      KeyLogPrefix(log[..|log| - 1], j, k);
      assert log[..|log| - 1][..j] == log[..j];
    }
  }

  lemma {:induction false} KeyRankExists<K, V>(log: seq<Task<K, V>>, k: K, rank: nat) returns (j: nat)
    requires rank < |KeyLog(log, k)|
    ensures j < |log| && log[j].key == k && KeyRank(log, j) == rank && Anonymous(log[j]) == KeyLog(log, k)[rank]
    decreases |log|
  {
    var init := log[..|log| - 1];
    if rank < |KeyLog(init, k)| {
      j := KeyRankExists(init, k, rank);
      assert init[..j] == log[..j];
    } else {
      j := |log| - 1;
    }
  }

  lemma KeyLogPosition<K, V>(log: seq<Task<K, V>>, j: nat)
    requires j < |log|
    ensures var sub := KeyLog(log, log[j].key);
            KeyRank(log, j) < |sub| && sub[KeyRank(log, j)] == Anonymous(log[j])
            && KeyLog(log[..j], log[j].key) == sub[..KeyRank(log, j)]
  {
    KeyLogPrefix(log, j + 1, log[j].key);
    assert log[..j + 1][..j] == log[..j];
  }

  /** The same submissions for every key, in the same order: the same plain map. */
  lemma SameKeysSameMap<K(!new), V>(log1: seq<Task<K, V>>, log2: seq<Task<K, V>>)
    requires forall k :: KeyLog(log1, k) == KeyLog(log2, k)
    ensures Replay(map[], log1) == Replay(map[], log2)
  {
    forall k ensures Lookup(Replay(map[], log1), k) == Lookup(Replay(map[], log2), k) {
      KeyReplay(log1, k);
      KeyReplay(log2, k);
    }
    MapsEqual(Replay(map[], log1), Replay(map[], log2));
  }

  lemma SameReadSameValue<K, V>(log1: seq<Task<K, V>>, p: nat, log2: seq<Task<K, V>>, q: nat)
    requires SameRead(log1, p, log2, q) && KeyLog(log1, log1[p].key) == KeyLog(log2, log1[p].key)
    ensures Lookup(Replay(map[], log1[..p]), log1[p].key) == Lookup(Replay(map[], log2[..q]), log2[q].key)
  {
    KeyLogPosition(log1, p);
    KeyLogPosition(log2, q);
    KeyReplay(log1[..p], log1[p].key);
    KeyReplay(log2[..q], log2[q].key);
  }

  lemma SameReadExists<K, V>(log1: seq<Task<K, V>>, p: nat, log2: seq<Task<K, V>>) returns (q: nat)
    requires p < |log1| && log1[p].Get? && KeyLog(log1, log1[p].key) == KeyLog(log2, log1[p].key)
    ensures SameRead(log1, p, log2, q)
  {
    KeyLogPosition(log1, p);
    q := KeyRankExists(log2, log1[p].key, KeyRank(log1, p));
  }

  /** The final contents and all answers depend only on the order of the submissions for each key: not on the
      shards, the hash or the schedule, and not on the order of submissions for different keys.  Reads of two
      runs correspond if they have the same place among the submissions for their key. */
  lemma Confluence<K(!new), V>(r1: Router<K>, steps1: seq<Step<K, V>>, s1: State<K, V>,
                               r2: Router<K>, steps2: seq<Step<K, V>>, s2: State<K, V>)
    requires ValidRouter(r1) && Reachable(r1, steps1, s1) && Quiescent(s1)
    requires ValidRouter(r2) && Reachable(r2, steps2, s2) && Quiescent(s2)
    requires forall k :: KeyLog(Submitted([], steps1), k) == KeyLog(Submitted([], steps2), k)
    ensures Union(s1.shards) == Union(s2.shards)
    ensures var (log1, log2) := (Submitted([], steps1), Submitted([], steps2));
            && (forall p, q | SameRead(log1, p, log2, q) ::
                  p in s1.resolved && q in s2.resolved && s1.resolved[p] == s2.resolved[q])
            && (forall p | p in s1.resolved :: exists q :: SameRead(log1, p, log2, q))
            && (forall q | q in s2.resolved :: exists p :: SameRead(log1, p, log2, q))
  {
    var (log1, log2) := (Submitted([], steps1), Submitted([], steps2));
    QuiescentUnion(r1, steps1, s1);
    QuiescentUnion(r2, steps2, s2);
    SameKeysSameMap(log1, log2);
    forall p, q | SameRead(log1, p, log2, q)
      ensures p in s1.resolved && q in s2.resolved && s1.resolved[p] == s2.resolved[q]
    {
      QuiescentResolved(r1, steps1, s1, p);
      QuiescentResolved(r2, steps2, s2, q);
      GetAsyncLinearised(r1, steps1, s1, p);
      GetAsyncLinearised(r2, steps2, s2, q);
      SameReadSameValue(log1, p, log2, q);
    }
    forall p | p in s1.resolved ensures exists q :: SameRead(log1, p, log2, q) {
      QuiescentResolved(r1, steps1, s1, p);
      var q := SameReadExists(log1, p, log2);
    }
    forall q | q in s2.resolved ensures exists p :: SameRead(log1, p, log2, q) {
      QuiescentResolved(r2, steps2, s2, q);
      var p := SameReadExists(log2, q, log1);
      assert SameRead(log1, p, log2, q);
    }
  }

  /** With one order for all submissions the promises are the same one by one. */
  lemma SameOrderConfluence<K(!new), V>(r1: Router<K>, steps1: seq<Step<K, V>>, s1: State<K, V>,
                                        r2: Router<K>, steps2: seq<Step<K, V>>, s2: State<K, V>)
    requires ValidRouter(r1) && Reachable(r1, steps1, s1) && Quiescent(s1)
    requires ValidRouter(r2) && Reachable(r2, steps2, s2) && Quiescent(s2)
    requires Submitted([], steps1) == Submitted([], steps2)
    ensures Union(s1.shards) == Union(s2.shards)
    ensures s1.resolved == s2.resolved
  {
    QuiescentUnion(r1, steps1, s1);
    QuiescentUnion(r2, steps2, s2);
    forall p: nat ensures p in s1.resolved <==> p in s2.resolved {
      QuiescentResolved(r1, steps1, s1, p);
      QuiescentResolved(r2, steps2, s2, p);
    }
    forall p | p in s1.resolved ensures s1.resolved[p] == s2.resolved[p] {
      QuiescentResolved(r1, steps1, s1, p);
      GetAsyncLinearised(r1, steps1, s1, p);
      GetAsyncLinearised(r2, steps2, s2, p);
    }
  }

  /** No promise is set twice: the read in flight has not been resolved yet. */
  lemma PromiseSetOnce<K, V>(r: Router<K>, steps: seq<Step<K, V>>, s: State<K, V>, i: nat)
    requires ValidRouter(r) && Reachable(r, steps, s)
    requires Enabled(r, s, WorkerExec(i)) && s.shards[i].worker.task.Get?
    ensures s.shards[i].worker.task.promise !in s.resolved
  {
    ReachableInv(r, steps, s);
    ExecTask(r, s, i);
    var q := RankExists(r, s.log, i, s.done[i]);
    assert PromiseInv(r, s, q);
  }

  /** Along every run an answer that was given stays as it is, and counters and logs only grow. */
  lemma {:induction false} RunMonotone<K, V>(r: Router<K>, s: State<K, V>, steps: seq<Step<K, V>>, s': State<K, V>)
    requires ValidRouter(r) && Inv(r, s) && IsRun(r, s, steps, s')
    ensures |s.done| == |s'.done| == r.n
    ensures forall i | 0 <= i < r.n :: s.done[i] <= s'.done[i]
    ensures s.log <= s'.log
    ensures forall p | p in s.resolved :: p in s'.resolved && s'.resolved[p] == s.resolved[p]
    decreases |steps|
  {
    RunInv(r, s, steps, s');
    if steps != [] {
      var m := Next(r, s, steps[0]);
      StepInv(r, s, steps[0]);
      RunMonotone(r, m, steps[1..], s');
      forall p | p in s.resolved ensures p in m.resolved && m.resolved[p] == s.resolved[p] {
        assert PromiseInv(r, s, p) && PromiseInv(r, m, p);
        assert s.log[..p] == m.log[..p];
      }
    }
  }

  // ---------- get_sync ----------

  /** `get_sync` reads the shard's map and bypasses the queue. */
  function GetSync<K, V>(r: Router<K>, s: State<K, V>, k: K): Option<V>
    requires ValidRouter(r) && |s.shards| == r.n
  {
    Lookup(s.shards[Home(r, k)].storage, k)
  }

  /** `p` cuts the log so that the submissions to `k`'s shard before it are exactly those that have run. */
  ghost predicate ReadPoint<K, V>(r: Router<K>, s: State<K, V>, k: K, p: nat)
    requires ValidRouter(r) && |s.done| == r.n
  {
    p <= |s.log| && |ShardLog(r, s.log[..p], Home(r, k))| == s.done[Home(r, k)]
  }

  lemma ReadPointExists<K, V>(r: Router<K>, s: State<K, V>, k: K) returns (p: nat)
    requires ValidRouter(r) && Inv(r, s)
    ensures ReadPoint(r, s, k, p)
  {
    var h := Home(r, k);
    assert ShardInv(r, s, h);
    if s.done[h] < |ShardLog(r, s.log, h)| {
      p := RankExists(r, s.log, h, s.done[h]);
    } else {
      p := |s.log|;
      assert s.log[..p] == s.log;
    }
  }

  lemma ReadPointValue<K, V>(r: Router<K>, s: State<K, V>, k: K, p: nat)
    requires ValidRouter(r) && Inv(r, s) && ReadPoint(r, s, k, p)
    ensures GetSync(r, s, k) == Lookup(Replay(map[], s.log[..p]), k)
  {
    var h := Home(r, k);
    assert ShardInv(r, s, h);
    ShardLogPrefix(r, s.log, p, h);
    assert ShardLog(r, s.log[..p], h) == ShardLog(r, s.log, h)[..s.done[h]];
    RoutedLookup(r, s.log[..p], k);
  }

  /** Each `get_sync` sees a prefix of the submissions, and a later one never sees a shorter prefix. */
  lemma GetSyncReadsGrowingPrefix<K, V>(r: Router<K>, before: seq<Step<K, V>>, s: State<K, V>,
                                        steps: seq<Step<K, V>>, s': State<K, V>, k: K)
    returns (p: nat, p': nat)
    requires ValidRouter(r) && Reachable(r, before, s) && IsRun(r, s, steps, s')
    ensures |s.shards| == |s.done| == |s'.shards| == |s'.done| == r.n
    ensures s.log <= s'.log && ReadPoint(r, s, k, p) && ReadPoint(r, s', k, p') && p <= p'
    ensures GetSync(r, s, k) == Lookup(Replay(map[], s'.log[..p]), k)
    ensures GetSync(r, s', k) == Lookup(Replay(map[], s'.log[..p']), k)
  {
    ReachableInv(r, before, s);
    RunInv(r, s, steps, s');
    RunMonotone(r, s, steps, s');
    var h := Home(r, k);
    p := ReadPointExists(r, s, k);
    ReadPointValue(r, s, k, p);
    assert s.log[..p] == s'.log[..p];
    p' := ReadPointExists(r, s', k);
    if p' < p {
      ShardLogPrefix(r, s'.log[..p], p', h);
      assert s'.log[..p][..p'] == s'.log[..p'];
      p' := p;
    }
    ReadPointValue(r, s', k, p');
  }

  /** The last pending set or remove of `k`, if any. */
  function LastWrite<K(==), V>(ts: seq<Task<K, V>>, k: K): Option<Task<K, V>> {
    if ts == [] then None
    else
      var t := ts[|ts| - 1];
      if t.key == k && !t.Get? then Some(t) else LastWrite(ts[..|ts| - 1], k)
  }

  lemma {:induction false} LastWriteDecides<K, V>(m: map<K, V>, ts: seq<Task<K, V>>, k: K)
    ensures Lookup(Replay(m, ts), k) ==
            match LastWrite(ts, k)
            case None => Lookup(m, k)
            case Some(t) => if t.Set? then Some(t.value) else None
    decreases |ts|
  {
    if ts != [] {
      LastWriteDecides(m, ts[..|ts| - 1], k);
    }
  }

  /** Exactly when `get_sync` agrees with everything submitted so far: the last pending write of the key,
      if there is one, must not change what the shard already holds for it. */
  lemma GetSyncFreshIff<K, V>(r: Router<K>, steps: seq<Step<K, V>>, s: State<K, V>, k: K)
    requires ValidRouter(r) && Reachable(r, steps, s)
    ensures |s.shards| == r.n
    ensures var shard := s.shards[Home(r, k)];
            GetSync(r, s, k) == Lookup(Replay(map[], Submitted([], steps)), k)
            <==> match LastWrite(Pending(shard), k)
                 case None => true
                 case Some(t) => if t.Set? then k in shard.storage && shard.storage[k] == t.value
                                 else k !in shard.storage
  {
    var h := Home(r, k);
    ShardRefinement(r, steps, s, h);
    RoutedLookup(r, Submitted([], steps), k);
    LastWriteDecides(s.shards[h].storage, Pending(s.shards[h]), k);
  }

  /** Read-your-writes fails: right after `set_async(k, v)` on an empty cache `get_sync(k)` finds nothing. */
  lemma GetSyncCanBeStale<K, V>(r: Router<K>, k: K, v: V) returns (s: State<K, V>)
    requires ValidRouter(r)
    ensures Reachable(r, [SetAsync(k, v)], s) && |s.shards| == r.n
    ensures GetSync(r, s, k) == None
    ensures Lookup(Replay(map[], s.log), k) == Some(v)
  {
    var steps := [SetAsync(k, v)];
    s := Next(r, Initial(r), steps[0]);
    assert IsRun(r, s, steps[1..], s);
    assert s.log == [Set(k, v)];
    LastWriteDecides(map[], s.log, k);
  }

  // ---------- Stopping ----------

  /** How many more tasks a worker can run once `stop` is set. */
  function Budget<K, V>(w: Worker<K, V>): nat {
    if w.AtWait? || w.Running? then 1 else 0
  }

  /** After `stop` is set on a shard, its worker completes at most one more task; the rest is dropped as a suffix. */
  lemma {:induction false} AfterStop<K, V>(r: Router<K>, s: State<K, V>, steps: seq<Step<K, V>>, s': State<K, V>, i: nat)
    requires ValidRouter(r) && Inv(r, s) && IsRun(r, s, steps, s') && i < r.n && s.shards[i].stop
    ensures |s'.shards| == |s'.done| == r.n && s'.shards[i].stop
    ensures s'.done[i] + Budget(s'.shards[i].worker) <= s.done[i] + Budget(s.shards[i].worker) <= s.done[i] + 1
    ensures s'.done[i] <= |ShardLog(r, s'.log, i)|
    ensures s'.shards[i].storage == Replay(map[], ShardLog(r, s'.log, i)[..s'.done[i]])
    ensures s'.shards[i].worker.Exited? ==> s'.shards[i].tasks == ShardLog(r, s'.log, i)[s'.done[i]..]
    decreases |steps|
  {
    RunInv(r, s, steps, s');
    assert ShardInv(r, s', i);
    if steps != [] {
      StepInv(r, s, steps[0]);
      AfterStop(r, Next(r, s, steps[0]), steps[1..], s', i);
    }
  }

  /** The flag of a shard is set exactly by stopping that shard, and stays. */
  lemma {:induction false} StopSets<K, V>(r: Router<K>, s: State<K, V>, steps: seq<Step<K, V>>, s': State<K, V>, i: nat)
    requires ValidRouter(r) && Inv(r, s) && IsRun(r, s, steps, s') && i < r.n
    ensures |s'.shards| == r.n
    ensures s'.shards[i].stop <==> s.shards[i].stop || Stop(i) in steps
    decreases |steps|
  {
    if steps != [] {
      StepInv(r, s, steps[0]);
      StopSets(r, Next(r, s, steps[0]), steps[1..], s', i);
    }
  }

  /** When its worker is gone a stopped shard has completed the task that was in flight, or the first of the queue if
      the worker had already entered its wait, and otherwise none. */
  lemma {:induction false} AfterStopExactly<K, V>(r: Router<K>, s: State<K, V>, steps: seq<Step<K, V>>, s': State<K, V>, i: nat)
    requires ValidRouter(r) && Inv(r, s) && IsRun(r, s, steps, s') && i < r.n && s.shards[i].stop
    ensures |s'.shards| == |s'.done| == r.n
    ensures s'.shards[i].worker.Exited? ==>
              && (s.shards[i].worker.Running? || (s.shards[i].worker.AtWait? && s.shards[i].tasks != []) ==>
                    s'.done[i] == s.done[i] + 1)
              && (s.shards[i].worker.AtTest? || s.shards[i].worker.Exited? ==> s'.done[i] == s.done[i])
    decreases |steps|
  {
    if steps != [] {
      StepInv(r, s, steps[0]);
      AfterStopExactly(r, Next(r, s, steps[0]), steps[1..], s', i);
    }
  }

  // ---------- Draining ----------

  predicate IsWorkerStep<K, V>(st: Step<K, V>) {
    st.WorkerTest? || st.WorkerPop? || st.WorkerExec?
  }

  /** The steps a shard's worker still has to make before it sleeps on an empty queue. */
  function ShardWork<K, V>(sh: ShardState<K, V>): nat {
    3 * |sh.tasks| + match sh.worker
                     case AtWait => 0
                     case AtTest => 1
                     case Running(_) => 2
                     case Exited => 0
  }

  function Work<K, V>(shards: seq<ShardState<K, V>>): nat {
    if shards == [] then 0 else Work(shards[..|shards| - 1]) + ShardWork(shards[|shards| - 1])
  }

  ghost predicate NoneStopped<K, V>(s: State<K, V>) {
    forall i | 0 <= i < |s.shards| :: !s.shards[i].stop
  }

  lemma {:induction false} WorkUpdate<K, V>(shards: seq<ShardState<K, V>>, i: nat, sh: ShardState<K, V>)
    requires i < |shards|
    ensures Work(shards[i := sh]) + ShardWork(shards[i]) == Work(shards) + ShardWork(sh)
    decreases |shards|
  {
    var init := shards[..|shards| - 1];
    if i == |shards| - 1 {
      assert shards[i := sh][..|shards| - 1] == init;
    } else {
      assert shards[i := sh][..|shards| - 1] == init[i := sh];
      WorkUpdate(init, i, sh);
    }
  }

  lemma {:induction false} NoWork<K, V>(shards: seq<ShardState<K, V>>)
    ensures Work(shards) == 0 <==> forall i | 0 <= i < |shards| :: ShardWork(shards[i]) == 0
    decreases |shards|
  {
    if shards != [] {
      NoWork(shards[..|shards| - 1]);
      assert forall i | 0 <= i < |shards| - 1 :: shards[..|shards| - 1][i] == shards[i];
    }
  }

  lemma DrainStep<K, V>(r: Router<K>, s: State<K, V>, st: Step<K, V>)
    requires ValidRouter(r) && Inv(r, s) && NoneStopped(s) && Enabled(r, s, st) && IsWorkerStep(st)
    ensures Inv(r, Next(r, s, st)) && NoneStopped(Next(r, s, st))
    ensures 1 + Work(Next(r, s, st).shards) == Work(s.shards)
  {
    StepInv(r, s, st);
    assert ShardInv(r, s, st.i);
    WorkUpdate(s.shards, st.i, Next(r, s, st).shards[st.i]);
  }

  /** With no shard stopped, every run of worker steps is bounded by the outstanding work. */
  lemma {:induction false} DrainBound<K, V>(r: Router<K>, s: State<K, V>, steps: seq<Step<K, V>>, s': State<K, V>)
    requires ValidRouter(r) && Inv(r, s) && NoneStopped(s) && IsRun(r, s, steps, s')
    requires forall st | st in steps :: IsWorkerStep(st)
    ensures NoneStopped(s') && |steps| + Work(s'.shards) == Work(s.shards)
    decreases |steps|
  {
    if steps != [] {
      DrainStep(r, s, steps[0]);
      DrainBound(r, Next(r, s, steps[0]), steps[1..], s');
    }
  }

  /** The workers stop making steps exactly at quiescence with all of them waiting; until then one can move. */
  lemma DrainProgress<K, V>(r: Router<K>, steps: seq<Step<K, V>>, s: State<K, V>)
    requires ValidRouter(r) && Reachable(r, steps, s) && NoneStopped(s)
    ensures (exists st :: IsWorkerStep(st) && Enabled(r, s, st)) <==> Work(s.shards) != 0
    ensures Work(s.shards) == 0 ==> Quiescent(s)
  {
    ReachableInv(r, steps, s);
    NoWork(s.shards);
    forall i | 0 <= i < r.n ensures !s.shards[i].worker.Exited? { assert ShardInv(r, s, i); }
    if i :| 0 <= i < r.n && ShardWork(s.shards[i]) != 0 {
      var st: Step<K, V> := if s.shards[i].worker.AtTest? then WorkerTest(i)
                            else if s.shards[i].worker.AtWait? then WorkerPop(i) else WorkerExec(i);
      assert IsWorkerStep(st) && Enabled(r, s, st);
    }
  }
}
