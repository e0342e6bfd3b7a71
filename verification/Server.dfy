/**
 Socket ownership in the HTTP server (HTTP-server-cpp/src/server.cpp).

 The event loop watches descriptors with `select`, accepts connections and hands ready
 ones to the pool; each pool job answers and closes its descriptor.  Jobs run while the
 loop scans, so the system may reuse a closed number within the same scan.

 `trace` records what happened to client descriptors.
 */
module Server {
  import opened Wrappers

  datatype Event = Accepted(fd: nat) | HandedOff(fd: nat) | Closed(fd: nat)

  datatype State = State(
    listenFd: nat,
    masterSet: set<nat>,
    readSet: set<nat>,
    maxFd: nat,
    scanning: bool,
    /** the index of the scan over 0..maxFd */
    i: nat,
    /** descriptors of the queued and running pool jobs */
    jobs: seq<nat>,
    /** the descriptors that are open in the system */
    open: set<nat>,
    trace: seq<Event>,
    /** length of the trace when the current pass began */
    mark: nat)

  datatype Step =
    | Select(ready: set<nat>)
    | Scan(accepted: Option<nat>)     // one index of the scan; what `accept` would return
    | EndScan
    | Close(j: nat)                   // pool job `j` ends

  function Initial(listenFd: nat): State {
    State(listenFd, {listenFd}, {}, listenFd, false, 0, [], {listenFd}, [], 0)
  }

  predicate Enabled(s: State, st: Step) {
    match st
    case Select(ready) => !s.scanning && ready <= s.masterSet
    case Scan(accepted) => s.scanning && s.i <= s.maxFd && (accepted.Some? ==> accepted.value !in s.open)
    case EndScan => s.scanning && s.i > s.maxFd
    case Close(j) => j < |s.jobs|
  }

  function Accept(s: State, fd: nat): State {
    s.(masterSet := s.masterSet + {fd}, maxFd := if fd > s.maxFd then fd else s.maxFd,
       open := s.open + {fd}, trace := s.trace + [Accepted(fd)])
  }

  function HandOff(s: State, fd: nat): State {
    s.(masterSet := s.masterSet - {fd}, jobs := s.jobs + [fd], trace := s.trace + [HandedOff(fd)])
  }

  function Next(s: State, st: Step): State
    requires Enabled(s, st)
  {
    match st
    case Select(ready) => s.(readSet := ready, scanning := true, i := 0, mark := |s.trace|)
    case Scan(accepted) =>
      var s' := if s.i !in s.readSet then s
                else if s.i != s.listenFd then HandOff(s, s.i)
                else if accepted.Some? then Accept(s, accepted.value)
                else s;
      s'.(i := s.i + 1)
    case EndScan => s.(scanning := false)
    case Close(j) =>
      s.(jobs := s.jobs[..j] + s.jobs[j + 1..], open := s.open - {s.jobs[j]}, trace := s.trace + [Closed(s.jobs[j])])
  }

  ghost predicate IsRun(s: State, steps: seq<Step>, s': State)
    decreases |steps|
  {
    if steps == [] then s' == s
    else Enabled(s, steps[0]) && IsRun(Next(s, steps[0]), steps[1..], s')
  }

  // ---------- The life of a descriptor number ----------

  datatype Stage = Free | Watched | Owned | Broken

  /** A number goes round the cycle accepted, handed off, closed; anything out of turn breaks it for good. */
  function StageOf(trace: seq<Event>, fd: nat): Stage {
    if trace == [] then Free
    else
      var before, e := StageOf(trace[..|trace| - 1], fd), trace[|trace| - 1];
      if e.fd != fd then before
      else if before.Free? && e.Accepted? then Watched
      else if before.Watched? && e.HandedOff? then Owned
      else if before.Owned? && e.Closed? then Free
      else Broken
  }

  lemma StageSnoc(trace: seq<Event>, e: Event, fd: nat)
    ensures StageOf(trace + [e], fd) ==
            var before := StageOf(trace, fd);
            if e.fd != fd then before
            else if before.Free? && e.Accepted? then Watched
            else if before.Watched? && e.HandedOff? then Owned
            else if before.Owned? && e.Closed? then Free
            else Broken
  {
    assert (trace + [e])[..|trace + [e]| - 1] == trace;
  }

  ghost predicate StageInv(s: State, fd: nat) {
    var stage := StageOf(s.trace, fd);
    && stage != Broken
    && (fd in s.masterSet <==> stage.Watched? || fd == s.listenFd)
    && (fd in s.jobs <==> stage.Owned?)
    && (fd in s.open <==> stage.Watched? || stage.Owned? || fd == s.listenFd)
    && (fd == s.listenFd ==> stage.Free?)
  }

  ghost predicate ScanInv(s: State) {
    && s.mark <= |s.trace|
    // a ready descriptor that the scan has not reached is still watched
    && (s.scanning ==> forall fd | fd in s.readSet && s.i <= fd :: fd in s.masterSet)
    // a ready descriptor that the scan has passed was handed to the pool in this pass
    && (s.scanning ==> forall fd | fd in s.readSet && fd < s.i && fd != s.listenFd :: HandedOff(fd) in s.trace[s.mark..])
  }

  ghost predicate Inv(s: State) {
    && (forall fd: nat :: StageInv(s, fd))
    && (forall a, b | 0 <= a < b < |s.jobs| :: s.jobs[a] != s.jobs[b])
    && (forall fd | fd in s.masterSet :: fd <= s.maxFd)
    && ScanInv(s)
  }

  lemma TailSnoc(trace: seq<Event>, e: Event, mark: nat)
    requires mark <= |trace|
    ensures (trace + [e])[mark..] == trace[mark..] + [e]
  {
  }

  lemma AcceptInv(s: State, fd: nat)
    requires Inv(s) && s.scanning && fd !in s.open
    ensures Inv(Accept(s, fd))
  {
    var s' := Accept(s, fd);
    forall x: nat ensures StageInv(s', x) {
      assert StageInv(s, x);
      StageSnoc(s.trace, Accepted(fd), x);
    }
    TailSnoc(s.trace, Accepted(fd), s.mark);
  }

  lemma HandOffInv(s: State)
    requires Inv(s) && s.scanning && s.i in s.readSet && s.i != s.listenFd
    ensures Inv(HandOff(s, s.i).(i := s.i + 1))
  {
    var fd := s.i;
    var s' := HandOff(s, fd).(i := s.i + 1);
    assert StageInv(s, fd);
    forall x: nat ensures StageInv(s', x) {
      assert StageInv(s, x);
      StageSnoc(s.trace, HandedOff(fd), x);
    }
    TailSnoc(s.trace, HandedOff(fd), s.mark);
  }

  lemma CloseInv(s: State, j: nat)
    requires Inv(s) && j < |s.jobs|
    ensures Inv(Next(s, Close(j)))
  {
    var s' := Next(s, Close(j));
    var fd := s.jobs[j];
    assert StageInv(s, fd);
    forall x: nat ensures StageInv(s', x) {
      assert StageInv(s, x);
      StageSnoc(s.trace, Closed(fd), x);
      if x in s.jobs && x != fd {
        var k :| 0 <= k < |s.jobs| && s.jobs[k] == x;
        assert s'.jobs[if k < j then k else k - 1] == x;
      }
    }
    TailSnoc(s.trace, Closed(fd), s.mark);
  }

  lemma StepInv(s: State, st: Step)
    requires Inv(s) && Enabled(s, st)
    ensures Inv(Next(s, st))
  {
    match st
    case Close(j) => CloseInv(s, j);
    case Scan(accepted) =>
      assert StageInv(s, s.i);
      if s.i in s.readSet && s.i != s.listenFd {
        HandOffInv(s);
      } else {
        if s.i in s.readSet && accepted.Some? { AcceptInv(s, accepted.value); }
        var s' := Next(s, st);
        var mid := s'.(i := s.i);
        forall x: nat ensures StageInv(s', x) { assert StageInv(mid, x); }
      }
    case _ =>
      forall x: nat ensures StageInv(Next(s, st), x) { assert StageInv(s, x); }
  }

  lemma {:induction false} RunInv(s: State, steps: seq<Step>, s': State)
    requires Inv(s) && IsRun(s, steps, s')
    ensures Inv(s')
    decreases |steps|
  {
    if steps != [] {
      StepInv(s, steps[0]);
      RunInv(Next(s, steps[0]), steps[1..], s');
    }
  }

  lemma ReachableInv(listenFd: nat, steps: seq<Step>, s: State)
    requires IsRun(Initial(listenFd), steps, s)
    ensures Inv(s)
  {
    RunInv(Initial(listenFd), steps, s);
  }

  // ---------- Theorems ----------

  /** No descriptor is both watched and owned by a job, no two jobs own the same one, and all are open. */
  lemma SingleOwner(listenFd: nat, steps: seq<Step>, s: State)
    requires IsRun(Initial(listenFd), steps, s)
    ensures forall fd | fd in s.jobs :: fd !in s.masterSet && fd in s.open
    ensures forall fd | fd in s.masterSet :: fd in s.open && fd <= s.maxFd
    ensures forall a, b | 0 <= a < b < |s.jobs| :: s.jobs[a] != s.jobs[b]
    ensures forall fd | fd in s.open :: fd in s.masterSet || fd in s.jobs
  {
    ReachableInv(listenFd, steps, s);
    RunListen(Initial(listenFd), steps, s);
    forall fd: nat
      ensures fd in s.jobs ==> fd !in s.masterSet && fd in s.open
      ensures fd in s.masterSet ==> fd in s.open && fd <= s.maxFd
      ensures fd in s.open ==> fd in s.masterSet || fd in s.jobs
    {
      assert StageInv(s, fd);
    }
  }

  lemma {:induction false} RunListen(s: State, steps: seq<Step>, s': State)
    requires IsRun(s, steps, s')
    ensures s'.listenFd == s.listenFd
    decreases |steps|
  {
    if steps != [] {
      RunListen(Next(s, steps[0]), steps[1..], s');
    }
  }

  function Count(trace: seq<Event>, e: Event): nat {
    if trace == [] then 0 else Count(trace[..|trace| - 1], e) + if trace[|trace| - 1] == e then 1 else 0
  }

  lemma {:induction false} StageCounts(trace: seq<Event>, fd: nat)
    requires StageOf(trace, fd) != Broken
    ensures Count(trace, Accepted(fd)) == Count(trace, HandedOff(fd)) + if StageOf(trace, fd).Watched? then 1 else 0
    ensures Count(trace, HandedOff(fd)) == Count(trace, Closed(fd)) + if StageOf(trace, fd).Owned? then 1 else 0
    decreases |trace|
  {
    if trace != [] {
      StageCounts(trace[..|trace| - 1], fd);
    }
  }

  /** At every moment of every run each accept has led to at most one job and at most one close, also when the
      number is reused: the three counts differ by what is watched or owned right now. */
  lemma OncePerAccept(listenFd: nat, steps: seq<Step>, s: State, fd: nat)
    requires IsRun(Initial(listenFd), steps, s) && fd != listenFd
    ensures Count(s.trace, Accepted(fd)) == Count(s.trace, HandedOff(fd)) + if fd in s.masterSet then 1 else 0
    ensures Count(s.trace, HandedOff(fd)) == Count(s.trace, Closed(fd)) + if fd in s.jobs then 1 else 0
  {
    ReachableInv(listenFd, steps, s);
    RunListen(Initial(listenFd), steps, s);
    assert StageInv(s, fd);
    StageCounts(s.trace, fd);
  }

  /** When a scan ends, every client that `select` reported was handed to the pool in this pass. */
  lemma ScanDispatchesAll(listenFd: nat, steps: seq<Step>, s: State, fd: nat)
    requires IsRun(Initial(listenFd), steps, s) && Enabled(s, EndScan)
    requires fd in s.readSet && fd != listenFd
    ensures s.mark <= |s.trace| && HandedOff(fd) in s.trace[s.mark..]
  {
    ReachableInv(listenFd, steps, s);
    RunListen(Initial(listenFd), steps, s);
    assert s.i <= fd ==> fd in s.masterSet;
  }

  /** An accepted client is watched from then on: open, in the set, and within reach of the next scan. */
  lemma AcceptedIsWatched(listenFd: nat, steps: seq<Step>, s: State, fd: nat)
    requires IsRun(Initial(listenFd), steps, s) && Enabled(s, Scan(Some(fd)))
    requires s.i == s.listenFd && s.listenFd in s.readSet
    ensures var s' := Next(s, Scan(Some(fd)));
            && fd in s'.masterSet && fd in s'.open && fd <= s'.maxFd && s'.i == s.i + 1
            && s'.trace == s.trace + [Accepted(fd)] && StageOf(s'.trace, fd) == Watched
  {
    ReachableInv(listenFd, steps, s);
    assert StageInv(s, fd);
    StageSnoc(s.trace, Accepted(fd), fd);
  }

  // ---------- The class ----------

  /** A finite set of descriptors never uses up all numbers. */
  lemma {:induction false} Bounded(used: set<nat>) returns (bound: nat)
    ensures forall x | x in used :: x < bound
    decreases |used|
  {
    if used == {} {
      bound := 0;
    } else {
      var x :| x in used;
      var b := Bounded(used - {x});
      bound := if x < b then b else x + 1;
      forall y | y in used ensures y < bound { assert y == x || y in used - {x}; }
    }
  }

  class EventLoop {
    const listenFd: nat
    var masterSet: set<nat>
    var readSet: set<nat>
    var maxFd: nat
    var jobs: seq<nat>
    var open: set<nat>
    ghost var trace: seq<Event>
    ghost var mark: nat

    ghost function View(scanning: bool, i: nat): State
      reads this
    {
      State(listenFd, masterSet, readSet, maxFd, scanning, i, jobs, open, trace, mark)
    }

    constructor (listenFd: nat)
      ensures View(false, 0) == Initial(listenFd)
    {
      this.listenFd, masterSet, readSet, maxFd := listenFd, {listenFd}, {}, listenFd;
      jobs, open, trace, mark := [], {listenFd}, [], 0;
    }

    /** `accept`: fails, or returns a number that is not open. */
    method AcceptConnection() returns (client: Option<nat>)
      ensures client.Some? ==> client.value !in open
    {
      var succeeds: bool := *;
      if succeeds {
        ghost var bound := Bounded(open);
        assert bound !in open;
        var fd: nat :| fd !in open;
        client := Some(fd);
      } else {
        client := None;
      }
    }

    /** `handle_client`: receive, answer, close.  What reaches the client is a prefix of the response, all of
        it unless a `send` fails; the descriptor is closed exactly once whatever happens. */
    method HandleClient(j: nat, received: int, response: seq<bv8>, ghost scanning: bool, ghost i: nat)
      returns (wire: seq<bv8>, failed: bool)
      requires j < |jobs| && Inv(View(scanning, i))
      modifies this`jobs, this`open, this`trace
      ensures View(scanning, i) == Next(old(View(scanning, i)), Close(j)) && Inv(View(scanning, i))
      ensures wire <= response
      ensures received > 0 && !failed ==> wire == response
      ensures received <= 0 ==> wire == []
    {
      wire, failed := [], false;
      if received > 0 {
        var totalSent := 0;
        while totalSent < |response|
          invariant totalSent <= |response| && wire == response[..totalSent]
          decreases |response| - totalSent, !failed
        {
          var sent: int :| -1 <= sent <= |response| - totalSent;
          if sent <= 0 {
            failed := true;
            break;
          }
          wire := wire + response[totalSent..totalSent + sent];
          totalSent := totalSent + sent;
        }
      }
      StepInv(View(scanning, i), Close(j));
      open := open - {jobs[j]};
      trace := trace + [Closed(jobs[j])];
      jobs := jobs[..j] + jobs[j + 1..];
    }

    /** Meanwhile any of the pool's jobs may end. */
    method PoolRuns(ghost i: nat)
      requires Inv(View(true, i))
      modifies this`jobs, this`open, this`trace
      ensures Inv(View(true, i)) && old(trace) <= trace
    {
      var another: bool := *;
      while another && jobs != []
        invariant Inv(View(true, i)) && old(trace) <= trace
        decreases |jobs|
      {
        var j: nat :| j < |jobs|;
        var received: int := *;
        var response: seq<bv8> := *;
        var wire, failed := HandleClient(j, received, response, true, i);
        another := *;
      }
    }

    /** One index of the scan. */
    method ScanIndex(i: nat) returns (ghost accepted: Option<nat>)
      requires Inv(View(true, i)) && i <= maxFd
      modifies this`masterSet, this`maxFd, this`jobs, this`open, this`trace
      ensures old(Enabled(View(true, i), Scan(accepted)))
      ensures View(true, i + 1) == Next(old(View(true, i)), Scan(accepted)) && Inv(View(true, i + 1))
    {
      ghost var before := View(true, i);
      accepted := None;
      if i in readSet {
        if i == listenFd {
          var client := AcceptConnection();
          accepted := client;
          if client.Some? {
            masterSet := masterSet + {client.value};
            if client.value > maxFd { maxFd := client.value; }
            open := open + {client.value};
            trace := trace + [Accepted(client.value)];
          }
        } else {
          masterSet := masterSet - {i};
          jobs := jobs + [i];
          trace := trace + [HandedOff(i)];
        }
      }
      StepInv(before, Scan(accepted));
    }

    /** One turn of `event_loop` after a successful `select`.  Ownership is kept whatever the pool does
        meanwhile, and every client reported ready is handed to the pool. */
    method Pass(ready: set<nat>)
      requires Inv(View(false, 0)) && ready <= masterSet
      modifies this
      ensures Inv(View(false, 0)) && old(trace) <= trace
      ensures forall fd | fd in ready && fd != listenFd :: HandedOff(fd) in trace[|old(trace)|..]
    {
      StepInv(View(false, 0), Select(ready));
      readSet := ready;
      mark := |trace|;
      var i := 0;
      while i <= maxFd
        invariant Inv(View(true, i)) && old(trace) <= trace
        invariant readSet == ready && mark == |old(trace)|
        decreases if i <= listenFd then 1 else 0, maxFd + 1 - i
      {
        PoolRuns(i);
        ghost var accepted := ScanIndex(i);
        i := i + 1;
      }
      forall fd | fd in ready && fd != listenFd ensures HandedOff(fd) in trace[mark..] {
        assert StageInv(View(true, i), fd);
        assert i <= fd ==> fd in masterSet;
      }
      StepInv(View(true, i), EndScan);
      forall x: nat ensures StageInv(View(false, 0), x) { assert StageInv(View(false, i), x); }
    }
  }
}
