/**
 * What becomes of starts, kernels and sessions, told from the steps of a run: which starts are admitted,
 * which kernels are registered, which sessions are live and whose they are.
 */
module Lifecycle {
  import opened Collections
  import opened Ids
  import opened Sessions
  import opened Gateway
  import Utf8

  // ----- Admission -----

  /**
   * On every run a new request is admitted if and only if the registered kernels and all starts in flight
   * are fewer than the one limit, and the user's listed sessions and starts in flight fewer than the other.
   */
  lemma AdmittedIff(
      limits: Limits, files: map<KernelId, File>, persistent: bool, steps: seq<Step>, start: nat, user: User)
    requires start !in Run(limits, Initial(files, persistent), steps).starts
    ensures var g := Run(limits, Initial(files, persistent), steps);
      var g' := Next(limits, g, Admit(start, user));
      && (start in g'.starts <==>
            && (limits.maxKernels.Some? ==> |g.kernels| + |g.starts| < limits.maxKernels.value)
            && (limits.maxPerUser >= 0 ==>
                  |Listed(g.table.byUser, user)| + |StartsOf(g.starts, user)| < limits.maxPerUser))
      && g'.starts == (if start in g'.starts then g.starts[start := Start(user, false)] else g.starts)
      && g'.kernels == g.kernels && g'.table == g.table
  {
    PendingCountsStarts(limits, files, persistent, steps);
  }

  /** The id of the `i`th kernel of a run that fills the gateway. */
  function NthId(i: nat): KernelId {
    seq(i, _ => 'k')
  }

  /** `n` starts of one user, each admitted, registered and finished before the next. */
  function Filling(n: nat, user: User, session: Session): seq<Step> {
    if n == 0 then []
    else
      Filling(n - 1, user, session)
      + [Admit(n - 1, user), Register(n - 1, NthId(n - 1)), Finish(n - 1, session.(kernelId := NthId(n - 1)))]
  }

  lemma RunOneMore(limits: Limits, g: State, steps: seq<Step>, step: Step)
    ensures Run(limits, g, steps + [step]) == Next(limits, Run(limits, g, steps), step)
  {
    assert (steps + [step])[..|steps|] == steps;
  }

  lemma RunThreeMore(limits: Limits, g: State, steps: seq<Step>, a: Step, b: Step, c: Step)
    ensures Run(limits, g, steps + [a, b, c])
         == Next(limits, Next(limits, Next(limits, Run(limits, g, steps), a), b), c)
  {
    var one := steps + [a];
    var two := one + [b];
    assert steps + [a, b, c] == two + [c];
    RunOneMore(limits, g, steps, a);
    RunOneMore(limits, g, one, b);
    RunOneMore(limits, g, two, c);
  }

  /** `n` kernels are registered and `n` sessions of the user listed, with nothing in flight. */
  ghost predicate Filled(g: State, n: nat, user: User) {
    && |g.kernels| == n && (forall id :: id in g.kernels ==> |id| < n)
    && ActiveSessions(g.table, user) == n && (forall id :: id in Listed(g.table.byUser, user) ==> |id| < n)
    && g.starts == map[] && g.pendingAll == 0 && PendingOf(g.pendingByUser, user) == 0
    && !g.table.persistent
  }

  /** Both limits are reached, and only just: as many starts go through as they allow. */
  lemma {:induction false} LimitsAreReached(limits: Limits, n: nat, user: User, session: Session)
    requires limits.maxKernels.Some? ==> n <= limits.maxKernels.value
    requires limits.maxPerUser >= 0 ==> n <= limits.maxPerUser
    ensures Filled(Run(limits, Initial(map[], false), Filling(n, user, session)), n, user)
  {
    if n == 0 {
    } else {
      var steps, i := Filling(n - 1, user, session), n - 1;
      LimitsAreReached(limits, i, user, session);
      var s := session.(kernelId := NthId(i));
      RunThreeMore(
        limits, Initial(map[], false), steps, Admit(i, user), Register(i, s.kernelId), Finish(i, s));
      FillingStep(limits, Run(limits, Initial(map[], false), steps), i, user, s);
    }
  }

  lemma FillingStep(limits: Limits, g: State, i: nat, user: User, s: Session)
    requires limits.maxKernels.Some? ==> i < limits.maxKernels.value
    requires limits.maxPerUser >= 0 ==> i < limits.maxPerUser
    requires Filled(g, i, user) && s.kernelId == NthId(i)
    ensures var g1 := Next(limits, g, Admit(i, user));
      var g2 := Next(limits, g1, Register(i, s.kernelId));
      Filled(Next(limits, g2, Finish(i, s)), i + 1, user)
  {
    var g1 := Next(limits, g, Admit(i, user));
    assert g1.starts == map[i := Start(user, false)];
    var g2 := Next(limits, g1, Register(i, s.kernelId));
    assert g2.starts == map[i := Start(user, true)] && g2.kernels == g.kernels + {s.kernelId};
    var g3 := Next(limits, g2, Finish(i, s));
    assert g3.starts == map[];
    assert s.kernelId !in Listed(g.table.byUser, user) && s.kernelId !in g.kernels;
    assert Listed(g3.table.byUser, user) == Listed(g.table.byUser, user) + [s.kernelId] by {
      assert [] + [s.kernelId] == [s.kernelId];
    }
  }

  // ----- One step at a time -----

  /** What a save makes of the connection: a key of bytes that decode is now text. */
  function Shared(connection: Fields): Fields {
    if "key" in connection && connection["key"].Data? && connection["key"].bytes != []
       && Utf8.Decode(connection["key"].bytes).Some?
    then connection["key" := Text(Utf8.Decode(connection["key"].bytes).value)]
    else connection
  }

  /** What the session of a finished start looks like: as handed over, but for what saving does to the key. */
  predicate Became(live: Session, handed: Session, persistent: bool) {
    && live.kernelId == handed.kernelId && live.username == handed.username && live.kernelName == handed.kernelName
    && live.launchArgs == handed.launchArgs && live.processInfo == handed.processInfo
    && live.connection == if persistent then Shared(handed.connection) else handed.connection
  }

  lemma RewrittenBecame(s: Session)
    ensures Became(Rewritten(s), s, true)
  {
  }

  /** Saving changes one session, one file and one entry of one user's list. */
  lemma SavedOnly(t: Table, s: Session)
    ensures var t', id := SaveSession(t, s.kernelId, s), s.kernelId;
      && id in t'.sessions && Became(t'.sessions[id], s, t.persistent)
      && id in Listed(t'.byUser, s.username)
      && t'.sessions - {id} == t.sessions - {id} && t'.files - {id} == t.files - {id}
      && (forall u, i :: u != s.username || i != id ==>
            (i in Listed(t'.byUser, u) <==> i in Listed(t.byUser, u)))
      && (t.persistent && Saveable(s) ==> id in t'.files && Loaded(t'.files[id]) == Some(s))
      && (!t.persistent ==> t'.files == t.files)
  {
    RewrittenBecame(s);
    SavedLoadsBackIffSaveable(s);
  }

  /**
   * The end of a start whose kernel is registered leaves that kernel's session live, under the user who was
   * admitted and otherwise as handed over, in that user's list, and with persistence in its file, from which
   * it is read back if it can be saved. No other session, file or entry changes.
   */
  lemma FinishLeavesSession(limits: Limits, g: State, start: nat, session: Session)
    requires start in g.starts && session.kernelId in g.kernels
    ensures var g' := Next(limits, g, Finish(start, session));
      var id, user := session.kernelId, g.starts[start].user;
      var handed := session.(username := user);
      && g'.starts == g.starts - {start} && g'.kernels == g.kernels
      && id in g'.table.sessions && Became(g'.table.sessions[id], handed, g.table.persistent)
      && id in Listed(g'.table.byUser, user)
      && g'.table.sessions - {id} == g.table.sessions - {id}
      && (forall u, i :: u != user || i != id ==>
            (i in Listed(g'.table.byUser, u) <==> i in Listed(g.table.byUser, u)))
      && g'.table.files - {id} == g.table.files - {id}
      && (g.table.persistent && Saveable(handed) ==>
            id in g'.table.files && Loaded(g'.table.files[id]) == Some(handed))
      && (!g.table.persistent ==> g'.table.files == g.table.files)
  {
    SavedOnly(g.table, session.(username := g.starts[start].user));
  }

  /** If the kernel is gone by then, only the start ends. */
  lemma FinishWithoutKernel(limits: Limits, g: State, start: nat, session: Session)
    requires start in g.starts && session.kernelId !in g.kernels
    ensures var g' := Next(limits, g, Finish(start, session));
      g'.starts == g.starts - {start} && g'.kernels == g.kernels && g'.table == g.table
  {
  }

  /** Registration adds the kernel, once for each start; a failing start takes nothing away but itself. */
  lemma RegisterAddsKernel(limits: Limits, g: State, start: nat, id: KernelId)
    requires start in g.starts && !g.starts[start].registered
    ensures var g' := Next(limits, g, Register(start, id));
      && g'.kernels == g.kernels + {id} && g'.table == g.table
      && start in g'.starts && g'.starts[start].registered && g'.starts - {start} == g.starts - {start}
    ensures var g' := Next(limits, g, Fail(start));
      g'.starts == g.starts - {start} && g'.kernels == g.kernels && g'.table == g.table
  {
  }

  /** Removal takes the kernel out, and its session and file with it, and nothing else. */
  lemma RemoveTakesKernel(limits: Limits, g: State, id: KernelId)
    ensures var g' := Next(limits, g, Remove(id));
      && g'.kernels == g.kernels - {id} && g'.starts == g.starts
      && g'.table.sessions == g.table.sessions - {id}
      && g'.table.files == if g.table.persistent then g.table.files - {id} else g.table.files
  {
    DeletedSessions(g.table, [id]);
    ForgetAll(g.table, [id]);
    assert Elements([id]) == {id};
  }

  /** The lookup's reading of the store: one file's session enters the map, if there is one to read. */
  lemma LookupReads(t: Table, id: KernelId, replication: bool)
    ensures var t' := Looked(t, id, replication);
      var loads := replication && t.persistent && id in Readable(t.files);
      && t'.files == t.files && t'.persistent == t.persistent
      && t'.sessions == if loads then t.sessions[id := Readable(t.files)[id]] else t.sessions
  {
  }

  predicate CanRevive(g: State, id: KernelId, replication: bool, alive: bool) {
    replication && alive && ((g.table.persistent && id in Readable(g.table.files)) || id in g.table.sessions)
  }

  /**
   * A lookup of an unregistered id revives its kernel if lookups may revive, the kernel answers and its
   * session is live or readable in the store; the session is then what the file holds, if it was read.
   */
  lemma CheckRevives(limits: Limits, g: State, id: KernelId, replication: bool, alive: bool)
    requires g.table.persistent && id in Readable(g.table.files) ==> Readable(g.table.files)[id].kernelId == id
    requires id in g.table.sessions ==> g.table.sessions[id].kernelId == id
    requires id !in g.kernels && CanRevive(g, id, replication, alive)
    ensures var g' := Next(limits, g, Check(id, replication, alive));
      && g'.kernels == g.kernels + {id} && g'.starts == g.starts && g'.table.files == g.table.files
      && id in g'.table.sessions && g'.table.sessions - {id} == g.table.sessions - {id}
      && g'.table.sessions[id] == if g.table.persistent && id in Readable(g.table.files)
                                  then Readable(g.table.files)[id] else g.table.sessions[id]
  {
    LookupReads(g.table, id, replication);
  }

  /** Otherwise the session and its file are gone, and a registered id changes nothing. */
  lemma CheckForgets(limits: Limits, g: State, id: KernelId, replication: bool, alive: bool)
    requires id in g.kernels || !CanRevive(g, id, replication, alive)
    ensures var g' := Next(limits, g, Check(id, replication, alive));
      && g'.kernels == g.kernels && g'.starts == g.starts
      && (id in g.kernels ==> g' == g)
      && (id !in g.kernels ==>
            && g'.table.sessions == g.table.sessions - {id}
            && g'.table.files == if g.table.persistent then g.table.files - {id} else g.table.files)
  {
    if id !in g.kernels {
      LookupReads(g.table, id, replication);
      var t := Looked(g.table, id, replication);
      DeletedSessions(t, [id]);
      ForgetAll(t, [id]);
      assert Elements([id]) == {id};
      assert t.sessions - {id} == g.table.sessions - {id};
    }
  }

  /** A restart of a registered kernel gives its live session the new information; of another, nothing. */
  lemma RestartRefreshes(limits: Limits, g: State, id: KernelId, connection: Fields, processInfo: Fields)
    ensures var g' := Next(limits, g, Restart(id, connection, processInfo));
      && g'.kernels == g.kernels && g'.starts == g.starts
      && g'.table.sessions - {id} == g.table.sessions - {id} && g'.table.files - {id} == g.table.files - {id}
      && (id !in g.kernels || id !in g.table.sessions ==> g'.table == g.table)
      && (id in g.kernels && id in g.table.sessions && g.table.sessions[id].kernelId == id ==>
            var was, live := g.table.sessions[id], g'.table.sessions[id];
            var handed := Session(id, was.username, was.kernelName, connection, processInfo, was.launchArgs);
            && Became(live, handed, g.table.persistent)
            && (g.table.persistent && Saveable(handed) ==> Loaded(g'.table.files[id]) == Some(handed)))
  {
    if id in g.kernels && id in g.table.sessions {
      var handed := Refreshed(g.table, id, connection, processInfo);
      RewrittenBecame(handed);
      SavedLoadsBackIffSaveable(handed);
    }
  }

  // ----- Whole runs without persistence -----

  /** The state before step `i`. */
  function At(limits: Limits, steps: seq<Step>, i: nat): State
    requires i <= |steps|
  {
    Run(limits, Initial(map[], false), steps[..i])
  }

  /** Step `i` admits `start` for `user`. */
  predicate Admits(limits: Limits, steps: seq<Step>, i: nat, start: nat, user: User)
    requires i < |steps|
  {
    var g := At(limits, steps, i);
    && steps[i] == Admit(start, user) && start !in g.starts
    && (limits.maxKernels.Some? ==> |g.kernels| + |g.starts| < limits.maxKernels.value)
    && (limits.maxPerUser >= 0 ==>
          |Listed(g.table.byUser, user)| + |StartsOf(g.starts, user)| < limits.maxPerUser)
  }

  predicate Ends(step: Step, start: nat) {
    (step.Finish? || step.Fail?) && step.start == start
  }

  /** Step `i` registers `id`, for a start in flight that registered nothing before. */
  predicate Registers(limits: Limits, steps: seq<Step>, i: nat, id: KernelId)
    requires i < |steps|
  {
    var g := At(limits, steps, i);
    && steps[i].Register? && steps[i].id == id
    && steps[i].start in g.starts && !g.starts[steps[i].start].registered
  }

  /** Step `i` ends a start of `user` whose kernel `id` is registered then. */
  predicate Finishes(limits: Limits, steps: seq<Step>, i: nat, id: KernelId, user: User)
    requires i < |steps|
  {
    var g := At(limits, steps, i);
    && steps[i].Finish? && steps[i].session.kernelId == id && id in g.kernels
    && steps[i].start in g.starts && g.starts[steps[i].start].user == user
  }

  /** Step `i` removes `id`, or looks it up in vain. */
  predicate Forgets(limits: Limits, steps: seq<Step>, i: nat, id: KernelId)
    requires i < |steps|
  {
    steps[i] == Remove(id) || (steps[i].Check? && steps[i].id == id && id !in At(limits, steps, i).kernels)
  }

  /** No step after `i` ends `start`. */
  predicate Unended(steps: seq<Step>, i: nat, start: nat) {
    forall j :: i < j < |steps| ==> !Ends(steps[j], start)
  }

  /** No step after `i` removes `id`. */
  predicate Unremoved(steps: seq<Step>, i: nat, id: KernelId) {
    forall j :: i < j < |steps| ==> steps[j] != Remove(id)
  }

  predicate InFlightSince(limits: Limits, steps: seq<Step>, i: nat, start: nat, user: User) {
    i < |steps| && Admits(limits, steps, i, start, user) && Unended(steps, i, start)
  }

  predicate RegisteredSince(limits: Limits, steps: seq<Step>, i: nat, id: KernelId) {
    i < |steps| && Registers(limits, steps, i, id) && Unremoved(steps, i, id)
  }

  /** Step `i` neither forgets `id` nor ends a start of it. */
  ghost predicate Quiet(limits: Limits, steps: seq<Step>, i: nat, id: KernelId)
    requires i < |steps|
  {
    !Forgets(limits, steps, i, id) && forall u :: !Finishes(limits, steps, i, id, u)
  }

  ghost predicate QuietSince(limits: Limits, steps: seq<Step>, i: nat, id: KernelId) {
    forall j :: i < j < |steps| ==> Quiet(limits, steps, j, id)
  }

  /** Step `i` is the last to end a start of kernel `id`, and the kernel was not forgotten since. */
  ghost predicate LastFinish(limits: Limits, steps: seq<Step>, i: nat, id: KernelId, user: User) {
    i < |steps| && Finishes(limits, steps, i, id, user) && QuietSince(limits, steps, i, id)
  }

  lemma AtBefore(limits: Limits, steps: seq<Step>, i: nat)
    requires steps != [] && i < |steps|
    ensures At(limits, steps, i) == At(limits, steps[..|steps| - 1], i)
  {
    assert steps[..|steps| - 1][..i] == steps[..i];
  }

  lemma AtEnd(limits: Limits, steps: seq<Step>)
    ensures At(limits, steps, |steps|) == Run(limits, Initial(map[], false), steps)
    ensures steps != [] ==>
              Run(limits, Initial(map[], false), steps)
              == Next(limits, At(limits, steps, |steps| - 1), steps[|steps| - 1])
  {
    assert steps[..|steps|] == steps;
  }

  /** A start is in flight for a user if and only if some step admitted it for the user and none ended it since. */
  lemma {:induction false} InFlightIff(limits: Limits, steps: seq<Step>, start: nat, user: User)
    ensures var g := Run(limits, Initial(map[], false), steps);
      (start in g.starts && g.starts[start].user == user)
      <==> exists i: nat :: InFlightSince(limits, steps, i, start, user)
  {
    if steps == [] {
    } else {
      var n, init := |steps| - 1, steps[..|steps| - 1];
      InFlightIff(limits, init, start, user);
      AtEnd(limits, steps);
      AdmittedIffAt(limits, steps, start, user);
      if i: nat :| InFlightSince(limits, steps, i, start, user) {
        InFlightStep(limits, steps, i, start, user);
      }
      if Admits(limits, steps, n, start, user) {
        InFlightStep(limits, steps, n, start, user);
      }
      if i: nat :| InFlightSince(limits, init, i, start, user) && !Ends(steps[n], start) {
        InFlightStep(limits, steps, i, start, user);
      }
    }
  }

  /** What the last step does to a start in flight. */
  lemma AdmittedIffAt(limits: Limits, steps: seq<Step>, start: nat, user: User)
    requires steps != []
    ensures var n := |steps| - 1;
      var g, g' := At(limits, steps, n), Next(limits, At(limits, steps, n), steps[n]);
      (start in g'.starts && g'.starts[start].user == user)
      <==> || Admits(limits, steps, n, start, user)
           || (start in g.starts && g.starts[start].user == user && !Ends(steps[n], start))
  {
    var n := |steps| - 1;
    if steps[n].Admit? && steps[n].start !in At(limits, steps, n).starts {
      AdmittedIff(limits, map[], false, steps[..n], steps[n].start, steps[n].user);
    }
  }

  /** A step is judged by the steps before it, not by those after. */
  lemma AdmitsBefore(limits: Limits, steps: seq<Step>, i: nat, start: nat, user: User)
    requires i < |steps| - 1
    ensures Admits(limits, steps, i, start, user) == Admits(limits, steps[..|steps| - 1], i, start, user)
  {
    AtBefore(limits, steps, i);
  }

  lemma UnendedStep(steps: seq<Step>, i: nat, start: nat)
    requires i < |steps| - 1
    ensures Unended(steps, i, start)
       <==> Unended(steps[..|steps| - 1], i, start) && !Ends(steps[|steps| - 1], start)
  {
    var n, init := |steps| - 1, steps[..|steps| - 1];
    assert forall j :: i < j < n ==> init[j] == steps[j];
  }

  lemma InFlightStep(limits: Limits, steps: seq<Step>, i: nat, start: nat, user: User)
    requires steps != []
    ensures var n := |steps| - 1;
      InFlightSince(limits, steps, i, start, user)
      <==> || (i == n && Admits(limits, steps, n, start, user))
           || (InFlightSince(limits, steps[..n], i, start, user) && !Ends(steps[n], start))
  {
    if i < |steps| - 1 {
      AdmitsBefore(limits, steps, i, start, user);
      UnendedStep(steps, i, start);
    }
  }

  /** Without persistence nothing is revived: lookups and start-up leave the registry alone. */
  lemma {:induction false} NothingRevived(limits: Limits, steps: seq<Step>)
    ensures var g := Run(limits, Initial(map[], false), steps);
      !g.table.persistent && g.table.sessions.Keys <= g.kernels
  {
    if steps == [] {
    } else {
      NothingRevived(limits, steps[..|steps| - 1]);
      NextRevivesNothing(limits, Run(limits, Initial(map[], false), steps[..|steps| - 1]), steps[|steps| - 1]);
    }
  }

  lemma NextRevivesNothing(limits: Limits, g: State, step: Step)
    requires !g.table.persistent && g.table.sessions.Keys <= g.kernels
    ensures var g' := Next(limits, g, step);
      !g'.table.persistent && g'.table.sessions.Keys <= g'.kernels
    ensures step.Check? ==> Next(limits, g, step).kernels == g.kernels
    ensures step.Resume? ==> Next(limits, g, step) == g
  {
    match step
    case Remove(id) => RemoveTakesKernel(limits, g, id); DeletedSessions(g.table, [id]);
    case Check(id, replication, alive) =>
      if id !in g.kernels {
        CheckForgets(limits, g, id, replication, alive);
        DeletedSessions(Looked(g.table, id, replication), [id]);
      }
    case _ =>
  }

  /** On runs without persistence a kernel is registered if and only if a start registered it, unremoved since. */
  lemma {:induction false} RegisteredIff(limits: Limits, steps: seq<Step>, id: KernelId)
    ensures id in Run(limits, Initial(map[], false), steps).kernels
       <==> exists i: nat :: RegisteredSince(limits, steps, i, id)
  {
    if steps == [] {
    } else {
      var n, init := |steps| - 1, steps[..|steps| - 1];
      RegisteredIff(limits, init, id);
      RegisteredAt(limits, steps, id);
      if i: nat :| RegisteredSince(limits, steps, i, id) {
        RegisteredStep(limits, steps, i, id);
      }
      if Registers(limits, steps, n, id) {
        RegisteredStep(limits, steps, n, id);
      }
      if i: nat :| RegisteredSince(limits, init, i, id) && steps[n] != Remove(id) {
        RegisteredStep(limits, steps, i, id);
      }
    }
  }

  /** What the last step does to a registered kernel. */
  lemma RegisteredAt(limits: Limits, steps: seq<Step>, id: KernelId)
    requires steps != []
    ensures var n := |steps| - 1;
      id in Run(limits, Initial(map[], false), steps).kernels
      <==> || Registers(limits, steps, n, id)
           || (id in Run(limits, Initial(map[], false), steps[..n]).kernels && steps[n] != Remove(id))
  {
    var n := |steps| - 1;
    AtEnd(limits, steps);
    NothingRevived(limits, steps[..n]);
    NextRevivesNothing(limits, At(limits, steps, n), steps[n]);
  }

  lemma RegistersBefore(limits: Limits, steps: seq<Step>, i: nat, id: KernelId)
    requires i < |steps| - 1
    ensures Registers(limits, steps, i, id) == Registers(limits, steps[..|steps| - 1], i, id)
  {
    AtBefore(limits, steps, i);
  }

  lemma RegisteredStep(limits: Limits, steps: seq<Step>, i: nat, id: KernelId)
    requires steps != []
    ensures var n := |steps| - 1;
      RegisteredSince(limits, steps, i, id)
      <==> || (i == n && Registers(limits, steps, n, id))
           || (RegisteredSince(limits, steps[..n], i, id) && steps[n] != Remove(id))
  {
    var n, init := |steps| - 1, steps[..|steps| - 1];
    if i < n {
      RegistersBefore(limits, steps, i, id);
      assert forall j :: i < j < n ==> init[j] == steps[j];
    }
  }

  lemma QuietBefore(limits: Limits, steps: seq<Step>, i: nat, id: KernelId)
    requires i < |steps| - 1
    ensures Quiet(limits, steps, i, id) <==> Quiet(limits, steps[..|steps| - 1], i, id)
  {
    var init := steps[..|steps| - 1];
    AtBefore(limits, steps, i);
    assert steps[i] == init[i];
    assert Forgets(limits, steps, i, id) == Forgets(limits, init, i, id);
    if u :| Finishes(limits, steps, i, id, u) {
      FinishesBefore(limits, steps, i, id, u);
    }
    if u :| Finishes(limits, init, i, id, u) {
      FinishesBefore(limits, steps, i, id, u);
    }
  }

  lemma FinishesBefore(limits: Limits, steps: seq<Step>, i: nat, id: KernelId, user: User)
    requires i < |steps| - 1
    ensures Finishes(limits, steps, i, id, user) == Finishes(limits, steps[..|steps| - 1], i, id, user)
  {
    AtBefore(limits, steps, i);
    assert steps[i] == steps[..|steps| - 1][i];
  }

  lemma QuietSinceStep(limits: Limits, steps: seq<Step>, i: nat, id: KernelId)
    requires i < |steps| - 1
    ensures QuietSince(limits, steps, i, id)
       <==> QuietSince(limits, steps[..|steps| - 1], i, id) && Quiet(limits, steps, |steps| - 1, id)
  {
    var n, init := |steps| - 1, steps[..|steps| - 1];
    if QuietSince(limits, steps, i, id) {
      forall j | i < j < n
        ensures Quiet(limits, init, j, id)
      {
        assert Quiet(limits, steps, j, id);
        QuietBefore(limits, steps, j, id);
      }
    }
    if QuietSince(limits, init, i, id) && Quiet(limits, steps, n, id) {
      forall j | i < j <= n
        ensures Quiet(limits, steps, j, id)
      {
        if j < n {
          assert Quiet(limits, init, j, id);
          QuietBefore(limits, steps, j, id);
        }
      }
    }
  }

  lemma LastFinishStep(limits: Limits, steps: seq<Step>, i: nat, id: KernelId, user: User)
    requires steps != []
    ensures var n := |steps| - 1;
      LastFinish(limits, steps, i, id, user)
      <==> || (i == n && Finishes(limits, steps, n, id, user))
           || (LastFinish(limits, steps[..n], i, id, user) && Quiet(limits, steps, n, id))
  {
    if i < |steps| - 1 {
      FinishesBefore(limits, steps, i, id, user);
      QuietSinceStep(limits, steps, i, id);
    }
  }

  /** The session of `id`, in what a start hands over and a restart leaves alone. */
  predicate Holds(t: Table, id: KernelId, user: User, session: Session) {
    && id in t.sessions && t.sessions[id].username == user
    && t.sessions[id].kernelName == session.kernelName && t.sessions[id].launchArgs == session.launchArgs
  }

  predicate LiveFor(t: Table, id: KernelId, user: User) {
    id in t.sessions && t.sessions[id].username == user
  }

  /** The last step leaves the session of a start it ends live; and only then, or by leaving it alone. */
  lemma LiveStep(limits: Limits, steps: seq<Step>, id: KernelId, user: User, session: Session)
    requires steps != []
    ensures var n := |steps| - 1;
      var t, t' := At(limits, steps, n).table, Run(limits, Initial(map[], false), steps).table;
      && (Finishes(limits, steps, n, id, user) && steps[n].session == session ==> Holds(t', id, user, session))
      && (LiveFor(t', id, user) ==>
            (Finishes(limits, steps, n, id, user) || (LiveFor(t, id, user) && Quiet(limits, steps, n, id))))
      && (Holds(t, id, user, session) && Quiet(limits, steps, n, id) ==> Holds(t', id, user, session))
  {
    var n := |steps| - 1;
    AtEnd(limits, steps);
    NothingRevived(limits, steps[..n]);
    var g := At(limits, steps, n);
    match steps[n]
    case Finish(start, s) =>
      FinishStepLive(limits, steps, id, user, session);
    case Remove(other) =>
      RemoveTakesKernel(limits, g, other);
    case Check(other, replication, alive) =>
      CheckStepLive(limits, g, other, replication, alive);
    case Restart(other, connection, processInfo) =>
      RestartStepLive(limits, g, other, connection, processInfo);
    case Resume(_, _) =>
      NextRevivesNothing(limits, g, steps[n]);
    case _ =>
  }

  lemma CheckStepLive(limits: Limits, g: State, id: KernelId, replication: bool, alive: bool)
    requires !g.table.persistent && g.table.sessions.Keys <= g.kernels
    ensures Next(limits, g, Check(id, replication, alive)).table.sessions
         == if id in g.kernels then g.table.sessions else g.table.sessions - {id}
  {
    if id !in g.kernels {
      CheckForgets(limits, g, id, replication, alive);
    }
  }

  lemma RestartStepLive(limits: Limits, g: State, id: KernelId, connection: Fields, processInfo: Fields)
    requires !g.table.persistent
    ensures var t, t' := g.table, Next(limits, g, Restart(id, connection, processInfo)).table;
      && t'.sessions.Keys == t.sessions.Keys && t'.sessions - {id} == t.sessions - {id}
      && (id in t.sessions ==>
            && t'.sessions[id].username == t.sessions[id].username
            && t'.sessions[id].kernelName == t.sessions[id].kernelName
            && t'.sessions[id].launchArgs == t.sessions[id].launchArgs)
  {
  }

  lemma FinishStepLive(limits: Limits, steps: seq<Step>, id: KernelId, user: User, session: Session)
    requires steps != [] && steps[|steps| - 1].Finish?
    ensures var n := |steps| - 1;
      var t, t' := At(limits, steps, n).table, Next(limits, At(limits, steps, n), steps[n]).table;
      && (Finishes(limits, steps, n, id, user) && steps[n].session == session ==> Holds(t', id, user, session))
      && (LiveFor(t', id, user) ==>
            (Finishes(limits, steps, n, id, user) || (LiveFor(t, id, user) && Quiet(limits, steps, n, id))))
      && (Holds(t, id, user, session) && Quiet(limits, steps, n, id) ==> Holds(t', id, user, session))
  {
    var n := |steps| - 1;
    var g, s := At(limits, steps, n), steps[n].session;
    if steps[n].start in g.starts {
      if s.kernelId in g.kernels {
        FinishLeavesSession(limits, g, steps[n].start, s);
        assert Finishes(limits, steps, n, s.kernelId, g.starts[steps[n].start].user);
        if id != s.kernelId {
          KeptApart(g.table.sessions, Next(limits, g, steps[n]).table.sessions, s.kernelId, id);
        }
      } else {
        FinishWithoutKernel(limits, g, steps[n].start, s);
      }
    }
  }

  lemma KeptApart<V>(m: map<KernelId, V>, m': map<KernelId, V>, changed: KernelId, id: KernelId)
    requires m - {changed} == m' - {changed} && id != changed
    ensures id in m <==> id in m'
    ensures id in m ==> m[id] == m'[id]
  {
    assert id in m ==> id in m - {changed} && (m - {changed})[id] == m[id];
    assert id in m' ==> id in m' - {changed} && (m' - {changed})[id] == m'[id];
  }

  /**
   * On every run without persistence: a session is live for a user if and only if it is that of the last
   * finished start of its kernel, the start was the user's, the kernel was registered at the time, and no
   * later removal or vain lookup forgot it. Kernel name and launch arguments are then as handed over.
   */
  lemma {:induction false} LiveIff(limits: Limits, steps: seq<Step>, id: KernelId, user: User)
    ensures LiveFor(Run(limits, Initial(map[], false), steps).table, id, user)
       <==> exists i: nat :: LastFinish(limits, steps, i, id, user)
    ensures var t := Run(limits, Initial(map[], false), steps).table;
      forall i: nat :: LastFinish(limits, steps, i, id, user) ==> Holds(t, id, user, steps[i].session)
  {
    if steps == [] {
    } else {
      var n, init := |steps| - 1, steps[..|steps| - 1];
      LiveIff(limits, init, id, user);
      AtEnd(limits, steps);
      forall i: nat | LastFinish(limits, steps, i, id, user)
        ensures Holds(Run(limits, Initial(map[], false), steps).table, id, user, steps[i].session)
      {
        LastFinishStep(limits, steps, i, id, user);
        LiveStep(limits, steps, id, user, steps[i].session);
        assert i < n ==> init[i] == steps[i];
      }
      var t := Run(limits, Initial(map[], false), steps).table;
      if LiveFor(t, id, user) {
        LiveStep(limits, steps, id, user, t.sessions[id]);
        if Finishes(limits, steps, n, id, user) {
          LastFinishStep(limits, steps, n, id, user);
        } else {
          var i: nat :| LastFinish(limits, init, i, id, user);
          LastFinishStep(limits, steps, i, id, user);
        }
      }
    }
  }
}
