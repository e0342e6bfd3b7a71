/**
 The classes of cache/cache.h with their fields updated in place, proved against the
 step functions of `ShardedCache`.

 Other threads act on a shard only by pushing a task or by setting `stop`.  The loop of
 the worker takes a schedule: a batch of such events, possibly none, before each of its
 three steps (the loop test, the taking of a task, its execution), and more while it waits.
 */
module ShardClasses {
  import opened Wrappers
  import opened ShardedCache

  datatype Event<K, V> = Pushed(task: Task<K, V>) | StopSet

  /** What can happen to one shard. */
  datatype Move<K, V> = Environment(event: Event<K, V>) | LoopTest | TakeTask | RunTask

  predicate MoveEnabled<K, V>(sh: ShardState<K, V>, m: Move<K, V>) {
    match m
    case Environment(_) => true
    case LoopTest => sh.worker == AtTest
    case TakeTask => CanPop(sh)
    case RunTask => sh.worker.Running?
  }

  function Moved<K, V>(sh: ShardState<K, V>, m: Move<K, V>): ShardState<K, V>
    requires MoveEnabled(sh, m)
  {
    match m
    case Environment(Pushed(t)) => Push(sh, t)
    case Environment(StopSet) => sh.(stop := true)
    case LoopTest => Test(sh)
    case TakeTask => Pop(sh)
    case RunTask => Exec(sh)
  }

  /** The shard after a sequence of moves, if each of them was possible. */
  function RunMoves<K, V>(sh: ShardState<K, V>, moves: seq<Move<K, V>>): Option<ShardState<K, V>>
    decreases |moves|
  {
    if moves == [] then Some(sh)
    else
      var last := moves[|moves| - 1];
      match RunMoves(sh, moves[..|moves| - 1])
      case None => None
      case Some(mid) => if MoveEnabled(mid, last) then Some(Moved(mid, last)) else None
  }

  lemma RunMovesSnoc<K, V>(sh: ShardState<K, V>, moves: seq<Move<K, V>>, m: Move<K, V>)
    requires RunMoves(sh, moves).Some? && MoveEnabled(RunMoves(sh, moves).value, m)
    ensures RunMoves(sh, moves + [m]) == Some(Moved(RunMoves(sh, moves).value, m))
  {
    assert (moves + [m])[..|moves + [m]| - 1] == moves;
  }

  function Tasks<K, V>(batch: seq<Event<K, V>>): seq<Task<K, V>> {
    if batch == [] then []
    else
      var last := batch[|batch| - 1];
      Tasks(batch[..|batch| - 1]) + if last.Pushed? then [last.task] else []
  }

  function AllTasks<K, V>(schedule: seq<seq<Event<K, V>>>): seq<Task<K, V>> {
    if schedule == [] then [] else AllTasks(schedule[..|schedule| - 1]) + Tasks(schedule[|schedule| - 1])
  }

  lemma AllTasksSnoc<K, V>(schedule: seq<seq<Event<K, V>>>, n: nat)
    requires n < |schedule|
    ensures AllTasks(schedule[..n + 1]) == AllTasks(schedule[..n]) + Tasks(schedule[n])
  {
    assert schedule[..n + 1][..n] == schedule[..n];
  }

  lemma Append<T>(a: seq<T>, b: seq<T>, c: seq<T>)
    ensures a + (b + c) == (a + b) + c
  {
  }

  /** The promises after a sequence of tasks has run on a shard that first held `m`. */
  function Answers<K, V>(promises: map<nat, Option<V>>, m: map<K, V>, ts: seq<Task<K, V>>): map<nat, Option<V>> {
    if ts == [] then promises
    else
      var init := ts[..|ts| - 1];
      Resolve(Answers(promises, m, init), Replay(m, init), ts[|ts| - 1])
  }

  lemma AnswersSnoc<K, V>(promises: map<nat, Option<V>>, m: map<K, V>, ts: seq<Task<K, V>>, t: Task<K, V>)
    ensures Answers(promises, m, ts + [t]) == Resolve(Answers(promises, m, ts), Replay(m, ts), t)
  {
    assert (ts + [t])[..|ts|] == ts;
  }

  class Shard<K(==), V(==)> {
    var storage: map<K, V>
    var tasks: seq<Task<K, V>>
    var stop: bool

    constructor ()
      ensures storage == map[] && tasks == [] && !stop
    {
      storage, tasks, stop := map[], [], false;
    }

    /** The shard as a state of the step system, with its worker at `w`. */
    function View(w: Worker<K, V>): ShardState<K, V>
      reads this
    {
      ShardState(storage, tasks, w, stop)
    }

    method Find(key: K) returns (value: Option<V>)
      ensures value == Lookup(storage, key)
    {
      if key in storage {
        value := Some(storage[key]);
      } else {
        value := None;
      }
    }

    method Store(key: K, value: V)
      modifies this
      ensures storage == old(storage)[key := value] && tasks == old(tasks) && stop == old(stop)
    {
      storage := storage[key := value];
    }

    method Erase(key: K)
      modifies this
      ensures storage == old(storage) - {key} && tasks == old(tasks) && stop == old(stop)
    {
      storage := storage - {key};
    }

    method PushTask(task: Task<K, V>)
      modifies this
      ensures View(AtTest) == Push(old(View(AtTest)), task)
    {
      tasks := tasks + [task];
    }

    /** The bodies of the closures that `set_async`, `remove_async` and `get_async` enqueue. */
    method RunTask(task: Task<K, V>, promises: map<nat, Option<V>>) returns (promises': map<nat, Option<V>>)
      modifies this
      ensures View(AtTest) == Exec(old(View(Running(task))))
      ensures promises' == Resolve(promises, old(storage), task)
    {
      promises' := promises;
      match task
      case Set(k, v) => Store(k, v);
      case Remove(k) => Erase(k);
      case Get(k, p) =>
        var value := Find(k);
        promises' := promises[p := value];
    }

    /** Everything the other threads do at one point where the worker does not hold the lock. */
    method Interfere(batch: seq<Event<K, V>>, w: Worker<K, V>, ghost start: ShardState<K, V>,
                     ghost moves: seq<Move<K, V>>)
      returns (ghost moves': seq<Move<K, V>>)
      requires RunMoves(start, moves) == Some(View(w))
      modifies this
      ensures RunMoves(start, moves') == Some(View(w))
      ensures tasks == old(tasks) + Tasks(batch) && storage == old(storage)
      ensures stop == (old(stop) || StopSet in batch)
    {
      moves' := moves;
      for i := 0 to |batch|
        invariant RunMoves(start, moves') == Some(View(w))
        invariant tasks == old(tasks) + Tasks(batch[..i]) && storage == old(storage)
        invariant stop == (old(stop) || StopSet in batch[..i])
      {
        RunMovesSnoc(start, moves', Environment(batch[i]));
        moves' := moves' + [Environment(batch[i])];
        assert batch[..i + 1][..i] == batch[..i];
        match batch[i]
        case Pushed(t) => PushTask(t);
        case StopSet => stop := true;
      }
      assert batch[..|batch|] == batch;
    }

    /** The worker's record is right: its moves are a run from `start` to here, and what it executed,
        followed by the queue, is the first queue followed by everything pushed so far. */
    ghost predicate Recorded(w: Worker<K, V>, start: ShardState<K, V>, moves: seq<Move<K, V>>,
                             executed: seq<Task<K, V>>, pushed: seq<Task<K, V>>)
      reads this
    {
      && RunMoves(start, moves) == Some(View(w))
      && executed + tasks == start.tasks + pushed
      && (w.Running? ==> executed != [] && executed[|executed| - 1] == w.task)
      && storage == Replay(start.storage, if w.Running? then executed[..|executed| - 1] else executed)
    }

    /** One point of the schedule: the next batch happens, if any is left. */
    method Point(schedule: seq<seq<Event<K, V>>>, used: nat, w: Worker<K, V>, ghost start: ShardState<K, V>,
                 ghost moves: seq<Move<K, V>>, ghost executed: seq<Task<K, V>>)
      returns (used': nat, ghost moves': seq<Move<K, V>>)
      requires used <= |schedule|
      requires Recorded(w, start, moves, executed, AllTasks(schedule[..used]))
      modifies this
      ensures used' == if used < |schedule| then used + 1 else used
      ensures Recorded(w, start, moves', executed, AllTasks(schedule[..used']))
      ensures old(tasks) <= tasks && (used' == used ==> tasks == old(tasks))
      ensures old(stop) ==> stop
    {
      hide Tasks, RunMoves, Replay, AllTasks;
      used', moves' := used, moves;
      if used < |schedule| {
        moves' := Interfere(schedule[used], w, start, moves);
        used' := used + 1;
        AllTasksSnoc(schedule, used);
        Append(executed, old(tasks), Tasks(schedule[used]));
        Append(start.tasks, AllTasks(schedule[..used]), Tasks(schedule[used]));
      }
    }

    /** `tasks_cv.wait`: batches happen until the predicate holds or the schedule is over. */
    method Await(schedule: seq<seq<Event<K, V>>>, used: nat, ghost start: ShardState<K, V>,
                 ghost moves: seq<Move<K, V>>, ghost executed: seq<Task<K, V>>)
      returns (used': nat, ghost moves': seq<Move<K, V>>)
      requires used <= |schedule| && Recorded(AtWait, start, moves, executed, AllTasks(schedule[..used]))
      modifies this
      ensures used <= used' <= |schedule|
      ensures Recorded(AtWait, start, moves', executed, AllTasks(schedule[..used']))
      ensures tasks != [] || stop || used' == |schedule|
      ensures used' == used ==> tasks == old(tasks)
    {
      used', moves' := used, moves;
      while tasks == [] && !stop && used' < |schedule|
        invariant used <= used' <= |schedule|
        invariant Recorded(AtWait, start, moves', executed, AllTasks(schedule[..used']))
        invariant used' == used ==> tasks == old(tasks)
      {
        used', moves' := Point(schedule, used', AtWait, start, moves', executed);
      }
    }

    /** Take the first task and run it, with other threads acting in between. */
    method TakeAndRun(schedule: seq<seq<Event<K, V>>>, used: nat, promises: map<nat, Option<V>>,
                      ghost start: ShardState<K, V>, ghost moves: seq<Move<K, V>>, executed: seq<Task<K, V>>)
      returns (used': nat, promises': map<nat, Option<V>>, ghost moves': seq<Move<K, V>>, executed': seq<Task<K, V>>)
      requires used <= |schedule| && Recorded(AtWait, start, moves, executed, AllTasks(schedule[..used]))
      requires tasks != []
      modifies this
      ensures used <= used' <= |schedule|
      ensures executed' == executed + [old(tasks)[0]]
      ensures Recorded(AtTest, start, moves', executed', AllTasks(schedule[..used']))
      ensures promises' == Resolve(promises, Replay(start.storage, executed), old(tasks)[0])
      ensures used' == used ==> tasks == old(tasks)[1..]
    {
      RunMovesSnoc(start, moves, TakeTask);
      moves' := moves + [TakeTask];
      var task := tasks[0];
      tasks := tasks[1..];
      executed' := executed + [task];
      assert executed'[..|executed'| - 1] == executed;
      used', moves' := Point(schedule, used, Running(task), start, moves', executed');
      RunMovesSnoc(start, moves', Move.RunTask);
      moves' := moves' + [Move.RunTask];
      promises' := RunTask(task, promises);
    }

    /** The worker's record, and the promises as those tasks leave them. */
    ghost predicate Answered(w: Worker<K, V>, start: ShardState<K, V>, first: map<nat, Option<V>>,
                             moves: seq<Move<K, V>>, executed: seq<Task<K, V>>, pushed: seq<Task<K, V>>,
                             promises: map<nat, Option<V>>)
      reads this
    {
      Recorded(w, start, moves, executed, pushed) && promises == Answers(first, start.storage, executed)
    }

    /** One turn of the loop.  `Exited`: the worker left; `AtWait`: it sleeps; `AtTest`: it goes on. */
    method Turn(schedule: seq<seq<Event<K, V>>>, used: nat, promises: map<nat, Option<V>>,
                ghost start: ShardState<K, V>, ghost first: map<nat, Option<V>>,
                ghost moves: seq<Move<K, V>>, executed: seq<Task<K, V>>)
      returns (used': nat, promises': map<nat, Option<V>>, ghost moves': seq<Move<K, V>>, executed': seq<Task<K, V>>,
               w: Worker<K, V>)
      requires used <= |schedule|
      requires Answered(AtTest, start, first, moves, executed, AllTasks(schedule[..used]), promises)
      modifies this
      ensures used <= used' <= |schedule|
      ensures Answered(w, start, first, moves', executed', AllTasks(schedule[..used']), promises')
      ensures w.Exited? ==> stop
      ensures w.AtWait? ==> tasks == [] && !stop && used' == |schedule|
      ensures !w.Running? && (old(stop) ==> w.Exited? && executed' == executed)
      ensures w.AtTest? ==> used < used' || |tasks| < |old(tasks)|
    {
      hide RunMoves, Replay, AllTasks, Answers, Resolve;
      promises', executed' := promises, executed;
      used', moves' := Point(schedule, used, AtTest, start, moves, executed);
      RunMovesSnoc(start, moves', LoopTest);
      moves' := moves' + [LoopTest];
      if stop { return used', promises', moves', executed', Exited; }
      used', moves' := Point(schedule, used', AtWait, start, moves', executed);
      used', moves' := Await(schedule, used', start, moves', executed);
      if tasks == [] && !stop { return used', promises', moves', executed', AtWait; }
      if tasks == [] {
        RunMovesSnoc(start, moves', TakeTask);
        moves' := moves' + [TakeTask];
        return used', promises', moves', executed', Exited;
      }
      AnswersSnoc(first, start.storage, executed, tasks[0]);
      used', promises', moves', executed' := TakeAndRun(schedule, used', promises, start, moves', executed);
      w := AtTest;
    }

    /** `worker_loop` under a schedule of outside events.  It ends when the worker leaves the loop, or when
        it sleeps on an empty queue and nothing more happens.  Its actions form a run of the step system;
        tasks run in the order of arrival, and those not run stay queued in order. */
    method WorkerLoop(schedule: seq<seq<Event<K, V>>>, promises: map<nat, Option<V>>)
      returns (promises': map<nat, Option<V>>, executed: seq<Task<K, V>>, used: nat, asleep: bool,
               ghost moves: seq<Move<K, V>>)
      modifies this
      ensures RunMoves(old(View(AtTest)), moves) == Some(View(if asleep then AtWait else Exited))
      ensures used <= |schedule|
      ensures executed + tasks == old(tasks) + AllTasks(schedule[..used])
      ensures storage == Replay(old(storage), executed)
      ensures promises' == Answers(promises, old(storage), executed)
      ensures asleep ==> tasks == [] && !stop && used == |schedule|
      ensures !asleep ==> stop
      ensures old(stop) ==> executed == [] && !asleep
    {
      ghost var start := View(AtTest);
      var w: Worker<K, V> := AtTest;
      promises', executed, used, moves := promises, [], 0, [];
      while w.AtTest?
        invariant used <= |schedule| && !w.Running?
        invariant Answered(w, start, promises, moves, executed, AllTasks(schedule[..used]), promises')
        invariant w.Exited? ==> stop
        invariant w.AtWait? ==> tasks == [] && !stop && used == |schedule|
        invariant old(stop) ==> stop && executed == [] && !w.AtWait?
        decreases w.AtTest?, |schedule| - used, |tasks|
      {
        used, promises', moves, executed, w := Turn(schedule, used, promises', start, promises, moves, executed);
      }
      asleep := w.AtWait?;
    }
  }

  class Cache<K(==, !new), V(==)> {
    const shards: seq<Shard<K, V>>
    const hash: K -> nat
    /** How many submissions were made: the name of the next promise. */
    var issued: nat

    ghost predicate Valid() {
      && 0 < |shards|
      && (forall i, j | 0 <= i < j < |shards| :: shards[i] != shards[j])
    }

    function GetRouter(): Router<K> {
      Router(hash, |shards|)
    }

    /** The shards as states of the step system, all workers at their loop test. */
    ghost function Views(): seq<ShardState<K, V>>
      reads shards
    {
      seq(|shards|, i requires 0 <= i < |shards| reads shards => shards[i].View(AtTest))
    }

    constructor (hash: K -> nat, shardCount: nat)
      requires 0 < shardCount
      ensures Valid() && this.hash == hash && issued == 0
      ensures fresh(set s | s in shards) && Views() == Initial<K, V>(Router(hash, shardCount)).shards
    {
      var made: seq<Shard<K, V>> := [];
      for i := 0 to shardCount
        invariant |made| == i && fresh(set s | s in made)
        invariant forall a | 0 <= a < i :: made[a].View(AtTest) == ShardState(map[], [], AtTest, false)
        invariant forall a, b | 0 <= a < b < i :: made[a] != made[b]
      {
        var shard := new Shard<K, V>();
        made := made + [shard];
      }
      shards, this.hash, issued := made, hash, 0;
    }

    method GetSync(key: K) returns (value: Option<V>)
      requires Valid()
      ensures value == Lookup(Views()[Home(GetRouter(), key)].storage, key)
    {
      value := shards[Home(GetRouter(), key)].Find(key);
    }

    /** Append a submission to the queue of its key's home shard; no other shard is touched. */
    method Submit(task: Task<K, V>)
      requires Valid()
      modifies this`issued, shards
      ensures issued == old(issued) + 1
      ensures var i := Home(GetRouter(), task.key); Views() == old(Views())[i := Push(old(Views())[i], task)]
    {
      var id := Home(GetRouter(), task.key);
      shards[id].PushTask(task);
      issued := issued + 1;
    }

    method SetAsync(key: K, value: V)
      requires Valid()
      modifies this`issued, shards
      ensures issued == old(issued) + 1
      ensures forall s: State<K, V> | s.shards == old(Views()) && |s.log| == old(issued) ::
                Views() == ShardedCache.Submit(GetRouter(), s, TaskOf(Step<K, V>.SetAsync(key, value), |s.log|)).shards
    {
      Submit(Set(key, value));
    }

    method RemoveAsync(key: K)
      requires Valid()
      modifies this`issued, shards
      ensures issued == old(issued) + 1
      ensures forall s: State<K, V> | s.shards == old(Views()) && |s.log| == old(issued) ::
                Views() == ShardedCache.Submit(GetRouter(), s, TaskOf(Step<K, V>.RemoveAsync(key), |s.log|)).shards
    {
      Submit(Remove(key));
    }

    method GetAsync(key: K) returns (promise: nat)
      requires Valid()
      modifies this`issued, shards
      ensures promise == old(issued) && issued == old(issued) + 1
      ensures forall s: State<K, V> | s.shards == old(Views()) && |s.log| == old(issued) ::
                Views() == ShardedCache.Submit(GetRouter(), s, TaskOf(Step<K, V>.GetAsync(key), |s.log|)).shards
    {
      promise := issued;
      Submit(Get(key, promise));
    }
  }
}
