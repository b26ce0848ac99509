/** The mapping kernel manager and its pending-request counters as objects, one method an atomic step. */
module RemoteManager {
  import opened Collections
  import opened Ids
  import opened Sessions
  import opened Gateway
  import opened SessionManager

  class TrackPendingRequests {
    var all: int
    var byUser: map<User, int>

    constructor ()
      ensures all == 0 && byUser == map[]
    {
      all := 0;
      byUser := map[];
    }

    method Increment(username: User)
      modifies this
      ensures all == old(all) + 1
      ensures byUser == old(byUser)[username := PendingOf(old(byUser), username) + 1]
    {
      all := all + 1;
      var current := if username in byUser then byUser[username] else 0;
      byUser := byUser[username := current + 1];
    }

    /** A user never counted is an error in the original; the manager below never decrements one. */
    method Decrement(username: User)
      requires username in byUser
      modifies this
      ensures all == old(all) - 1
      ensures byUser == old(byUser)[username := PendingOf(old(byUser), username) - 1]
    {
      all := all - 1;
      byUser := byUser[username := byUser[username] - 1];
    }

    method GetCounts(username: User) returns (total: int, ofUser: int)
      ensures total == all && ofUser == PendingOf(byUser, username)
    {
      total := all;
      ofUser := if username in byUser then byUser[username] else 0;
    }
  }

  /**
   * `starts` stands for the suspended `start_kernel` coroutines: each remembers its user and whether the
   * base class has registered its kernel yet.
   */
  class RemoteMappingKernelManager {
    const limits: Limits
    const registry: KernelRegistry
    const pending: TrackPendingRequests
    const manager: FileKernelSessionManager
    var starts: map<nat, Start>

    ghost function Current(): State
      reads this, registry, pending, manager
    {
      State(registry.kernels, pending.all, pending.byUser, starts, manager.State())
    }

    ghost predicate Valid()
      reads this, registry, pending, manager
    {
      manager.kernelManager == registry && CountersExact(Current())
    }

    constructor (limits: Limits, persistent: bool, files: map<KernelId, File>)
      ensures Valid() && this.limits == limits
      ensures fresh(registry) && fresh(pending) && fresh(manager)
      ensures Current() == Initial(files, persistent)
    {
      this.limits := limits;
      var r := new KernelRegistry();
      this.registry := r;
      this.pending := new TrackPendingRequests();
      this.manager := new FileKernelSessionManager(persistent, r, files);
      this.starts := map[];
      new;
      assert forall u :: StartsOf(starts, u) == {};
    }

    /** True when the start may go ahead; otherwise the request is refused with 403. */
    method EnforceKernelLimits(username: User) returns (ok: bool)
      requires Valid()
      ensures ok == Admissible(limits, Current(), username)
    {
      if limits.maxKernels.Some? || limits.maxPerUser >= 0 {
        var pendingAll, pendingUser := pending.GetCounts(username);
        if limits.maxKernels.Some? {
          var activeAndPending := |registry.kernels| + pendingAll;
          if activeAndPending >= limits.maxKernels.value {
            return false;
          }
        }
        if limits.maxPerUser >= 0 {
          var active := manager.CountActive(username);
          var activeAndPending := active + pendingUser;
          if activeAndPending >= limits.maxPerUser {
            return false;
          }
        }
      }
      ok := true;
    }

    /** `start_kernel` up to its await. */
    method BeginStart(start: nat, username: User) returns (admitted: bool)
      requires Valid() && start !in starts
      modifies this, pending
      ensures Valid() && admitted == Admissible(limits, old(Current()), username)
      ensures Current() == Next(limits, old(Current()), Admit(start, username))
    {
      admitted := EnforceKernelLimits(username);
      if admitted {
        IncrementExact(Current(), start, username);
        pending.Increment(username);
        starts := starts[start := Start(username, false)];
      }
    }

    /** The base class enters the started kernel into the registry while the request is still awaiting. */
    method RegisterKernel(start: nat, id: KernelId)
      requires Valid() && start in starts && !starts[start].registered
      modifies this, registry
      ensures Valid() && Current() == Next(limits, old(Current()), Register(start, id))
    {
      NextKeepsCounters(limits, Current(), Register(start, id));
      registry.kernels := registry.kernels + {id};
      starts := starts[start := Start(starts[start].user, true)];
    }

    /** `start_kernel` after its await: the counters go down and the session is created in one stretch. */
    method EndStart(start: nat, session: Session) returns (ok: bool)
      requires Valid() && start in starts
      modifies this, pending, manager
      ensures Valid() && Current() == Next(limits, old(Current()), Finish(start, session))
      ensures starts == old(starts) - {start}
      ensures session.kernelId in registry.kernels ==>
                && session.kernelId in manager.sessions
                && manager.sessions[session.kernelId].username == old(starts[start].user)
                && session.kernelId in Listed(manager.sessionsByUser, old(starts[start].user))
    {
      NextKeepsCounters(limits, Current(), Finish(start, session));
      FinishedIsLive(limits, Current(), start, session);
      var username := starts[start].user;
      Decrement(start);
      ok := manager.CreateSession(session.(username := username));
    }

    /** The awaited start raised: only the counters go down. */
    method FailStart(start: nat)
      requires Valid() && start in starts
      modifies this, pending
      ensures Valid() && Current() == Next(limits, old(Current()), Fail(start))
    {
      NextKeepsCounters(limits, Current(), Fail(start));
      Decrement(start);
    }

    method Decrement(start: nat)
      requires Valid() && start in starts
      modifies this`starts, pending
      ensures starts == old(starts) - {start}
      ensures pending.all == old(pending.all) - 1
      ensures pending.byUser ==
              old(pending.byUser)[
                old(starts[start].user) := PendingOf(old(pending.byUser), old(starts[start].user)) - 1]
    {
      var username := starts[start].user;
      assert username in pending.byUser by {
        assert start in StartsOf(starts, username);
        assert PendingOf(pending.byUser, username) == |StartsOf(starts, username)|;
      }
      pending.Decrement(username);
      starts := starts - {start};
    }

    /** A kernel already removed is tolerated; its session is deleted either way. */
    method RemoveKernel(id: KernelId)
      requires Valid()
      modifies registry, manager
      ensures Valid() && Current() == Next(limits, old(Current()), Remove(id))
    {
      registry.kernels := registry.kernels - {id};
      manager.DeleteSession(id);
    }

    /** The end of a restart: the session is refreshed from the restarted kernel. */
    method RefreshKernel(id: KernelId, connection: Fields, processInfo: Fields) returns (ok: bool)
      requires Valid()
      modifies manager
      ensures Valid() && Current() == Next(limits, old(Current()), Restart(id, connection, processInfo))
    {
      ok := manager.RefreshSession(id, connection, processInfo);
    }

    /** `check_kernel_id`: false is the 404, raised after the session has been deleted. */
    method CheckKernelId(id: KernelId, replication: bool, alive: bool) returns (found: bool)
      requires Valid()
      modifies registry, manager
      ensures Valid() && Current() == Next(limits, old(Current()), Check(id, replication, alive))
      ensures found == (id in old(registry.kernels) || Revives(old(manager.State()), id, replication, alive))
    {
      if id in registry.kernels {
        return true;
      }
      ghost var before := Current();
      found := false;
      if replication {
        manager.LoadSession(id);
        found := manager.StartSession(id, alive);
      }
      if !found {
        manager.DeleteSession(id);
      }
      CheckYields(before, id, replication, alive, Current());
    }

    /** Start-up of the gateway. */
    method ResumeSessions(living: set<KernelId>) returns (ghost order: seq<KernelId>)
      requires Valid()
      modifies registry, manager
      ensures Valid() && Current() == Next(limits, old(Current()), Resume(order, living))
    {
      if !manager.enablePersistence {
        order := manager.StartSessions(living);
        return;
      }
      ghost var before := Current();
      order := manager.StartSessions(living);
      ResumeYields(before, order, living, Current());
      ResumeApplies(limits, before, order, living);
    }
  }

  lemma FinishedIsLive(limits: Limits, g: State, start: nat, session: Session)
    requires start in g.starts
    ensures var g' := Next(limits, g, Finish(start, session));
      && g'.starts == g.starts - {start}
      && (session.kernelId in g.kernels ==>
            && session.kernelId in g'.table.sessions
            && g'.table.sessions[session.kernelId].username == g.starts[start].user
            && session.kernelId in Listed(g'.table.byUser, g.starts[start].user))
  {
  }

  lemma CheckYields(g: State, id: KernelId, replication: bool, alive: bool, g': State)
    requires id !in g.kernels
    requires var t := Looked(g.table, id, replication);
             if Revives(g.table, id, replication, alive)
             then g'.table == t && g'.kernels == g.kernels + {t.sessions[id].kernelId}
             else g'.table == DeleteSession(t, id) && g'.kernels == g.kernels
    requires g'.(table := g.table, kernels := g.kernels) == g
    ensures g' == Checked(g, id, replication, alive)
  {
    var r := Checked(g, id, replication, alive);
    assert r.kernels == g'.kernels && r.table == g'.table;
    assert r.starts == g'.starts && r.pendingAll == g'.pendingAll && r.pendingByUser == g'.pendingByUser;
  }

  lemma ResumeYields(g: State, order: seq<KernelId>, living: set<KernelId>, g': State)
    requires g'.table == DeleteSessions(LoadSessions(g.table), Dead(order, living))
    requires g'.kernels == g.kernels + Revived(LoadSessions(g.table), living)
    requires g'.(table := g.table, kernels := g.kernels) == g
    ensures g' == Resumed(g, order, living)
  {
    var r := Resumed(g, order, living);
    assert r.kernels == g'.kernels && r.table == g'.table;
    assert r.starts == g'.starts && r.pendingAll == g'.pendingAll && r.pendingByUser == g'.pendingByUser;
  }
}
