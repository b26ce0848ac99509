/**
 * Manager-issued restarts and shutdowns of one kernel. A request runs from one await to the next as one
 * step; time passes between steps.
 */
module Restart {
  import opened Arithmetic
  import opened Collections

  /** Where a request is suspended. A waiting request remembers when it began to wait. */
  datatype Task =
    | RestartBody
    | RestartWaiting(since: real)
    | ShutdownWaiting(since: real)
    | ShutdownBody
    | Finished

  datatype State = State(restarting: bool, tasks: map<nat, Task>, now: real)

  const INITIAL := State(false, map[], 0.0)

  datatype Step =
    | Tick(now: real)
    | Restart(task: nat)
    | Shutdown(task: nat)
    | Poll(task: nat)
    | EndBody(task: nat)

  /** The wait loop goes round again: the flag is still up and the launch timeout has not passed. */
  predicate KeepsWaiting(s: State, since: real, timeout: real) {
    s.restarting && s.now - since <= timeout
  }

  /** What the request does next once it is not, or no longer, kept waiting. */
  function Resumed(task: Task): Task {
    if task.RestartWaiting? then Finished else ShutdownBody
  }

  function Waiting(s: State, t: nat, task: Task, since: real, timeout: real): State {
    s.(tasks := s.tasks[t := if KeepsWaiting(s, since, timeout) then task else Resumed(task)])
  }

  function Next(s: State, step: Step, timeout: real): State {
    match step
    case Tick(now) =>
      if now >= s.now then s.(now := now) else s
    case Restart(t) =>
      if t in s.tasks then s
      else if s.restarting then Waiting(s, t, RestartWaiting(s.now), s.now, timeout)
      else s.(restarting := true, tasks := s.tasks[t := RestartBody])
    case Shutdown(t) =>
      if t in s.tasks then s
      else if s.restarting then Waiting(s, t, ShutdownWaiting(s.now), s.now, timeout)
      else s.(tasks := s.tasks[t := ShutdownBody])
    case Poll(t) =>
      if t in s.tasks && (s.tasks[t].RestartWaiting? || s.tasks[t].ShutdownWaiting?)
      then Waiting(s, t, s.tasks[t], s.tasks[t].since, timeout)
      else s
    case EndBody(t) =>
      if t !in s.tasks then s
      else if s.tasks[t].RestartBody? then s.(restarting := false, tasks := s.tasks[t := Finished])
      else if s.tasks[t].ShutdownBody? then s.(tasks := s.tasks[t := Finished])
      else s
  }

  function Run(steps: seq<Step>, timeout: real): State {
    if steps == [] then INITIAL
    else Next(Run(steps[..|steps| - 1], timeout), steps[|steps| - 1], timeout)
  }

  function Bodies(s: State): set<nat> {
    set t | t in s.tasks && s.tasks[t].RestartBody?
  }

  /** The flag is up exactly while a restart body is in flight, and only one ever is. */
  ghost predicate Exclusive(s: State) {
    |Bodies(s)| == if s.restarting then 1 else 0
  }

  lemma BodiesAfterUpdate(s: State, t: nat, task: Task)
    ensures Bodies(s.(tasks := s.tasks[t := task])) == if task.RestartBody? then Bodies(s) + {t} else Bodies(s) - {t}
  {
  }

  lemma NextKeepsExclusive(s: State, step: Step, timeout: real)
    requires Exclusive(s)
    ensures Exclusive(Next(s, step, timeout))
  {
    var s' := Next(s, step, timeout);
    if step.Tick? {
      assert Bodies(s') == Bodies(s);
    } else if s' != s {
      var t := step.task;
      BodiesAfterUpdate(s, t, s'.tasks[t]);
      assert Bodies(s') == Bodies(s.(tasks := s.tasks[t := s'.tasks[t]]));
      if t in Bodies(s) {
        SubsetCardinality({t}, Bodies(s));
      }
    }
  }

  /** In every interleaving at most one restart body is in flight, and the flag says whether one is. */
  lemma {:induction false} RestartsExclude(steps: seq<Step>, timeout: real)
    ensures var s := Run(steps, timeout);
      |Bodies(s)| <= 1 && (s.restarting <==> Bodies(s) != {})
    ensures Exclusive(Run(steps, timeout))
  {
    if steps == [] {
      assert Bodies(INITIAL) == {};
    } else {
      RestartsExclude(steps[..|steps| - 1], timeout);
      NextKeepsExclusive(Run(steps[..|steps| - 1], timeout), steps[|steps| - 1], timeout);
    }
    var s := Run(steps, timeout);
    if Bodies(s) != {} {
      var t :| t in Bodies(s);
      SubsetCardinality({t}, Bodies(s));
    }
  }

  /** Since when a request has been waiting; one that never waited counts from now. */
  function WaitingSince(s: State, t: nat): real {
    if t in s.tasks && s.tasks[t].ShutdownWaiting? then s.tasks[t].since else s.now
  }

  /**
   * On every run, the step that begins a shutdown's body finds no restart body in flight, or comes after
   * the request has waited longer than the launch timeout.
   */
  lemma ShutdownBeginsAfterRestart(steps: seq<Step>, step: Step, timeout: real, t: nat)
    requires var s, s' := Run(steps, timeout), Next(Run(steps, timeout), step, timeout);
      && t in s'.tasks && s'.tasks[t].ShutdownBody?
      && !(t in s.tasks && s.tasks[t].ShutdownBody?)
    ensures var s := Run(steps, timeout);
      Bodies(s) == {} || s.now - WaitingSince(s, t) > timeout
  {
    RestartsExclude(steps, timeout);
  }

  /**
   * On every run a new shutdown enters its body at once if and only if no restart body is in flight, or the
   * launch timeout is negative; otherwise it waits from then on.
   */
  lemma NewShutdown(steps: seq<Step>, timeout: real, t: nat)
    requires t !in Run(steps, timeout).tasks
    ensures var s := Run(steps, timeout);
      var task := if Bodies(s) == {} || timeout < 0.0 then ShutdownBody else ShutdownWaiting(s.now);
      Next(s, Shutdown(t), timeout) == s.(tasks := s.tasks[t := task])
  {
    RestartsExclude(steps, timeout);
  }

  /** A waiting one enters it at the first look that finds no restart body in flight or the timeout passed. */
  lemma WaitingShutdown(steps: seq<Step>, timeout: real, t: nat, since: real)
    requires var s := Run(steps, timeout); t in s.tasks && s.tasks[t] == ShutdownWaiting(since)
    ensures var s := Run(steps, timeout);
      var task := if Bodies(s) == {} || s.now - since > timeout then ShutdownBody else ShutdownWaiting(since);
      Next(s, Poll(t), timeout) == s.(tasks := s.tasks[t := task])
  {
    RestartsExclude(steps, timeout);
  }

  /** A new restart enters its body if and only if no restart body is in flight; its body is then the only one. */
  lemma NewRestart(steps: seq<Step>, timeout: real, t: nat)
    requires t !in Run(steps, timeout).tasks
    ensures var s := Run(steps, timeout);
      var s' := Next(s, Restart(t), timeout);
      && (Bodies(s) == {} ==> s' == State(true, s.tasks[t := RestartBody], s.now) && Bodies(s') == {t})
      && (Bodies(s) != {} ==>
            s' == s.(tasks := s.tasks[t := if timeout < 0.0 then Finished else RestartWaiting(s.now)]))
  {
    RestartsExclude(steps, timeout);
    BodiesAfterUpdate(Run(steps, timeout), t, RestartBody);
  }

  /** A waiting one is dropped at the first look that finds no restart body in flight or the timeout passed. */
  lemma WaitingRestart(steps: seq<Step>, timeout: real, t: nat, since: real)
    requires var s := Run(steps, timeout); t in s.tasks && s.tasks[t] == RestartWaiting(since)
    ensures var s := Run(steps, timeout);
      var task := if Bodies(s) == {} || s.now - since > timeout then Finished else RestartWaiting(since);
      Next(s, Poll(t), timeout) == s.(tasks := s.tasks[t := task])
  {
    RestartsExclude(steps, timeout);
  }

  /** A body's end is the end of its request; that of a restart leaves no restart body in flight. */
  lemma BodyEnds(steps: seq<Step>, timeout: real, t: nat)
    requires var s := Run(steps, timeout); t in s.tasks && (s.tasks[t].RestartBody? || s.tasks[t].ShutdownBody?)
    ensures var s := Run(steps, timeout);
      var s' := Next(s, EndBody(t), timeout);
      && s'.tasks == s.tasks[t := Finished] && s'.now == s.now
      && (s.tasks[t].RestartBody? ==> Bodies(s') == {} && !s'.restarting)
      && (s.tasks[t].ShutdownBody? ==> Bodies(s') == Bodies(s) && s'.restarting == s.restarting)
  {
    RestartsExclude(steps, timeout);
    RestartsExclude(steps + [EndBody(t)], timeout);
    assert (steps + [EndBody(t)])[..|steps|] == steps;
  }

  /** Nothing else moves a request: not the clock, nor a step of another request. */
  lemma OthersStay(s: State, step: Step, timeout: real, t: nat)
    requires step.Tick? || step.task != t
    ensures var s' := Next(s, step, timeout);
      && (t in s'.tasks <==> t in s.tasks)
      && (t in s.tasks ==> s'.tasks[t] == s.tasks[t])
  {
  }

  /** Some state of the run, before its end, has the body of `t`'s shutdown in flight. */
  ghost predicate ShutDown(steps: seq<Step>, timeout: real, t: nat) {
    exists i :: 0 <= i <= |steps| && InBody(Run(steps[..i], timeout), t)
  }

  predicate InBody(s: State, t: nat) {
    t in s.tasks && s.tasks[t] == ShutdownBody
  }

  lemma ShutDownLonger(steps: seq<Step>, step: Step, timeout: real, t: nat)
    ensures ShutDown(steps, timeout, t) ==> ShutDown(steps + [step], timeout, t)
    ensures InBody(Run(steps, timeout), t) ==> ShutDown(steps, timeout, t)
  {
    if i :| 0 <= i <= |steps| && InBody(Run(steps[..i], timeout), t) {
      assert (steps + [step])[..i] == steps[..i];
    }
    assert steps[..|steps|] == steps;
  }

  /** A request for shutdown is still waiting, or its body is or was in flight. */
  ghost predicate ShutdownServed(steps: seq<Step>, timeout: real, t: nat) {
    var s := Run(steps, timeout);
    && t in s.tasks && (s.tasks[t].ShutdownWaiting? || s.tasks[t].ShutdownBody? || s.tasks[t].Finished?)
    && (!s.tasks[t].ShutdownWaiting? ==> ShutDown(steps, timeout, t))
  }

  lemma StaysServed(steps: seq<Step>, step: Step, timeout: real, t: nat)
    requires ShutdownServed(steps, timeout, t)
    ensures ShutdownServed(steps + [step], timeout, t)
  {
    assert (steps + [step])[..|steps|] == steps;
    ShutDownLonger(steps, step, timeout, t);
    ShutDownLonger(steps + [step], step, timeout, t);
  }

  /** None is finished without its body: a shutdown once requested is served, whatever happens. */
  lemma {:induction false} ShutdownRuns(before: seq<Step>, after: seq<Step>, timeout: real, t: nat)
    requires t !in Run(before, timeout).tasks
    ensures ShutdownServed(before + [Shutdown(t)] + after, timeout, t)
  {
    if after == [] {
      assert (before + [Shutdown(t)])[..|before|] == before;
      ShutDownLonger(before + [Shutdown(t)], Shutdown(t), timeout, t);
      assert before + [Shutdown(t)] + after == before + [Shutdown(t)];
    } else {
      var rest, last := after[..|after| - 1], after[|after| - 1];
      ShutdownRuns(before, rest, timeout, t);
      StaysServed(before + [Shutdown(t)] + rest, last, timeout, t);
      assert before + [Shutdown(t)] + rest + [last] == before + [Shutdown(t)] + after;
    }
  }

  /** A restart that begins at rest stays in its body until that ends, and is finished ever after. */
  lemma {:induction false} RestartRunsToItsEnd(before: seq<Step>, after: seq<Step>, timeout: real, t: nat)
    requires t !in Run(before, timeout).tasks && Bodies(Run(before, timeout)) == {}
    ensures var s := Run(before + [Restart(t)] + after, timeout);
      t in s.tasks && s.tasks[t] == if EndBody(t) in after then Finished else RestartBody
  {
    var steps := before + [Restart(t)] + after;
    if after == [] {
      assert steps[..|steps| - 1] == before;
      NewRestart(before, timeout, t);
    } else {
      var rest, last := after[..|after| - 1], after[|after| - 1];
      RestartRunsToItsEnd(before, rest, timeout, t);
      assert steps[..|steps| - 1] == before + [Restart(t)] + rest;
      assert after == rest + [last];
    }
  }

  /** A restart that arrives while another is in flight never runs a body of its own. */
  lemma {:induction false} DuplicateRestartIsSkipped(before: seq<Step>, after: seq<Step>, timeout: real, t: nat)
    requires t !in Run(before, timeout).tasks && Run(before, timeout).restarting
    ensures var s := Run(before + [Restart(t)] + after, timeout);
      t in s.tasks && (s.tasks[t].RestartWaiting? || s.tasks[t].Finished?)
  {
    var steps := before + [Restart(t)] + after;
    if after == [] {
      assert steps[..|steps| - 1] == before;
    } else {
      var rest := after[..|after| - 1];
      DuplicateRestartIsSkipped(before, rest, timeout, t);
      assert steps[..|steps| - 1] == before + [Restart(t)] + rest;
    }
  }

  /**
   * The polling loop itself. `restarting(k)` and `clock(k)` are what its `k`th check reads; sleeping
   * moves the clock by at least the poll interval. It stops at the first check at which the flag is down
   * or the timeout has passed, after no more sleeps than fit into the timeout, plus one.
   */
  method WaitForRestartFinish(
      restarting: nat -> bool, clock: nat -> real, start: real, timeout: real, pollTime: real)
    returns (sleeps: nat)
    requires pollTime > 0.0 && forall k: nat :: clock(k) >= start + k as real * pollTime
    ensures !restarting(sleeps) || clock(sleeps) - start > timeout
    ensures forall k: nat :: k < sleeps ==> restarting(k) && clock(k) - start <= timeout
    ensures sleeps == 0 || (sleeps - 1) as real * pollTime <= timeout
  {
    sleeps := 0;
    while restarting(sleeps)
      invariant forall k: nat :: k < sleeps ==> restarting(k) && clock(k) - start <= timeout
      invariant sleeps == 0 || (sleeps - 1) as real * pollTime <= timeout
      decreases (timeout / pollTime).Floor + 2 - sleeps
    {
      var now := clock(sleeps);
      if now - start > timeout {
        break;
      }
      assert sleeps as real * pollTime <= timeout;
      WithinQuotient(sleeps, pollTime, timeout);
      sleeps := sleeps + 1;
    }
  }

  /** One kernel's manager, with its flag and its clock; requests are its methods. */
  class KernelManager {
    const launchTimeout: real
    var restarting: bool
    var tasks: map<nat, Task>
    var now: real

    constructor (launchTimeout: real)
      ensures Current() == INITIAL && this.launchTimeout == launchTimeout
    {
      this.launchTimeout := launchTimeout;
      this.restarting := false;
      this.tasks := map[];
      this.now := 0.0;
    }

    function Current(): State
      reads this
    {
      State(restarting, tasks, now)
    }

    method BeginRestart(t: nat)
      requires t !in tasks
      modifies this`restarting, this`tasks
      ensures Current() == Next(old(Current()), Restart(t), launchTimeout)
      ensures restarting
      ensures tasks == old(tasks)[t := if !old(restarting) then RestartBody
                                       else if launchTimeout >= 0.0 then RestartWaiting(now) else Finished]
    {
      if restarting {
        tasks := tasks[t := if 0.0 <= launchTimeout then RestartWaiting(now) else Finished];
        return;
      }
      restarting := true;
      tasks := tasks[t := RestartBody];
    }

    /** The `finally` of a restart, reached whether or not its body raised. */
    method EndRestart(t: nat)
      requires t in tasks && tasks[t].RestartBody?
      modifies this`restarting, this`tasks
      ensures Current() == Next(old(Current()), EndBody(t), launchTimeout)
    {
      restarting := false;
      tasks := tasks[t := Finished];
    }

    method BeginShutdown(t: nat)
      requires t !in tasks
      modifies this`tasks
      ensures Current() == Next(old(Current()), Shutdown(t), launchTimeout)
      ensures tasks == old(tasks)[t := if restarting && launchTimeout >= 0.0
                                       then ShutdownWaiting(now) else ShutdownBody]
    {
      if restarting && 0.0 <= launchTimeout {
        tasks := tasks[t := ShutdownWaiting(now)];
        return;
      }
      tasks := tasks[t := ShutdownBody];
    }

    /** A waiting request wakes up from its sleep and looks again. */
    method WakeUp(t: nat)
      requires t in tasks && (tasks[t].RestartWaiting? || tasks[t].ShutdownWaiting?)
      modifies this`tasks
      ensures Current() == Next(old(Current()), Poll(t), launchTimeout)
    {
      if !restarting || now - tasks[t].since > launchTimeout {
        tasks := tasks[t := if tasks[t].RestartWaiting? then Finished else ShutdownBody];
      } else {
        assert tasks == tasks[t := tasks[t]];
      }
    }
  }
}
