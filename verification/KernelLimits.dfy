/**
 * The limits on kernels, in all and per user, over whole runs. Starts pass through admission; kernels
 * revived from stored sessions do not, so what the store offers, at first or from other gateways that share
 * it, decides how far a limit can be exceeded.
 */
module KernelLimits {
  import opened Collections
  import opened Ids
  import opened Sessions
  import SessionRuns
  import opened Gateway

  // ----- What revival can bring in -----

  /** A readable file of the store: one found at first, or one that another gateway wrote since. */
  type Offer = (KernelId, File)

  function FirstOffers(files: map<KernelId, File>): set<Offer> {
    set id | id in Readable(files) :: (id, files[id])
  }

  function ForeignOffers(steps: seq<Step>): set<Offer> {
    if steps == [] then {}
    else
      var last := steps[|steps| - 1];
      ForeignOffers(steps[..|steps| - 1])
      + if last.Foreign? && last.file.Some? && Loaded(last.file.value).Some?
        then {(last.id, last.file.value)} else {}
  }

  /** All that the store offers for revival during a run; without persistence it is never read. */
  function Offered(files: map<KernelId, File>, persistent: bool, steps: seq<Step>): set<Offer> {
    if persistent then FirstOffers(files) + ForeignOffers(steps) else {}
  }

  predicate IsReadable(o: Offer) {
    Loaded(o.1).Some?
  }

  /** The step reads `id`'s file if there is one. */
  predicate Reads(step: Step, id: KernelId) {
    step.Resume? || (step.Check? && step.replication && step.id == id)
  }

  /** The offers whose ids a run looks up. */
  function Revivable(offered: set<Offer>, steps: seq<Step>): set<Offer> {
    set o | o in offered && exists i :: 0 <= i < |steps| && Reads(steps[i], o.0)
  }

  function IdsOf(a: set<Offer>): set<KernelId> {
    set o | o in a :: o.0
  }

  function Naming(a: set<Offer>, u: User): set<KernelId> {
    set o | o in a && IsReadable(o) && Loaded(o.1).value.username == u :: o.0
  }

  /** Stored under their own kernel ids, as gateways store them. */
  predicate WellStored(a: set<Offer>) {
    forall o :: o in a && IsReadable(o) ==> Loaded(o.1).value.kernelId == o.0
  }

  /** Every offer that the step may read is among `a`. */
  ghost predicate CoversStep(a: set<Offer>, offered: set<Offer>, step: Step) {
    forall o :: o in offered && Reads(step, o.0) ==> o in a
  }

  ghost predicate Covers(a: set<Offer>, offered: set<Offer>, steps: seq<Step>) {
    forall i :: 0 <= i < |steps| ==> CoversStep(a, offered, steps[i])
  }

  /** What another gateway writes is offered. */
  ghost predicate OffersStep(offered: set<Offer>, persistent: bool, step: Step) {
    persistent && step.Foreign? && step.file.Some? && Loaded(step.file.value).Some? ==>
      (step.id, step.file.value) in offered
  }

  /** Live sessions sit under their own ids; a readable file agrees with the live session or was offered. */
  ghost predicate Tidy(offered: set<Offer>, t: Table) {
    && (forall id :: id in t.sessions ==> t.sessions[id].kernelId == id)
    && (t.persistent ==> forall id :: id in Readable(t.files) ==>
          || (id, t.files[id]) in offered
          || (&& id in t.sessions
              && Readable(t.files)[id].kernelId == id
              && Readable(t.files)[id].username == t.sessions[id].username))
  }

  lemma SaveKeepsTidy(offered: set<Offer>, t: Table, s: Session)
    requires Tidy(offered, t)
    ensures Tidy(offered, SaveSession(t, s.kernelId, s))
  {
    var t' := SaveSession(t, s.kernelId, s);
    if t.persistent {
      forall id | id in Readable(t'.files)
        ensures || (id, t'.files[id]) in offered
                || (&& id in t'.sessions
                    && Readable(t'.files)[id].kernelId == id
                    && Readable(t'.files)[id].username == t'.sessions[id].username)
      {
        if id == s.kernelId {
          SessionRuns.WrittenKeepsOwner(s);
        } else {
          assert id in Readable(t.files) && t'.files[id] == t.files[id];
        }
      }
    }
  }

  lemma RefreshKeepsTidy(offered: set<Offer>, t: Table, id: KernelId, connection: Fields, processInfo: Fields)
    requires Tidy(offered, t)
    ensures Tidy(offered, RefreshSession(t, id, connection, processInfo))
  {
    if id in t.sessions {
      SaveKeepsTidy(offered, t, Refreshed(t, id, connection, processInfo));
    }
  }

  lemma DeleteKeepsTidy(offered: set<Offer>, t: Table, ids: seq<KernelId>)
    requires Tidy(offered, t)
    ensures Tidy(offered, DeleteSessions(t, ids))
  {
    DeletedSessions(t, ids);
    var t' := DeleteSessions(t, ids);
    if t.persistent {
      forall id | id in Readable(t'.files)
        ensures id in Readable(t.files) && Readable(t'.files)[id] == Readable(t.files)[id]
        ensures id in t'.sessions <==> id in t.sessions
      {
        assert id !in Elements(ids);
      }
    }
  }

  lemma ForeignKeepsTidy(offered: set<Offer>, t: Table, id: KernelId, file: Option<File>)
    requires Tidy(offered, t) && OffersStep(offered, t.persistent, Foreign(id, file))
    ensures Tidy(offered, Overwritten(t, id, file))
  {
    var t' := Overwritten(t, id, file);
    if t.persistent {
      forall i | i in Readable(t'.files) && i != id
        ensures i in Readable(t.files) && t'.files[i] == t.files[i]
      {
      }
    }
  }

  /** Reading brings in, or gives to `u`, only sessions that were offered. */
  lemma LoadIsOffered(offered: set<Offer>, t: Table, t': Table, read: set<KernelId>, a: set<Offer>)
    requires Tidy(offered, t) && WellStored(a)
    requires t' == if t.persistent
                   then t.(sessions := t.sessions + (Readable(t.files) - (t.files.Keys - read))) else t
    requires forall o :: o in offered && o.0 in read ==> o in a
    ensures Tidy(offered, t')
    ensures t'.sessions.Keys <= t.sessions.Keys + IdsOf(a)
    ensures forall u :: Owned(t', u) <= Owned(t, u) + Naming(a, u)
  {
    forall id | id in t'.sessions
      ensures t'.sessions[id].kernelId == id
      ensures || (id in t.sessions && t'.sessions[id].username == t.sessions[id].username)
              || (id in IdsOf(a) && id in Naming(a, t'.sessions[id].username))
    {
      if t.persistent && id in Readable(t.files) && id in read {
        var o := (id, t.files[id]);
        if o in offered {
          assert o in a && o.0 == id && IsReadable(o);
        }
      }
    }
  }

  lemma OneIsRead(t: Table, id: KernelId)
    ensures LoadSession(t, id) == if t.persistent
            then t.(sessions := t.sessions + (Readable(t.files) - (t.files.Keys - {id}))) else t
  {
    if t.persistent {
      var one := Readable(t.files) - (t.files.Keys - {id});
      assert LoadSession(t, id).sessions == t.sessions + one;
    }
  }

  lemma AllAreRead(t: Table)
    ensures LoadSessions(t) == if t.persistent
            then t.(sessions := t.sessions + (Readable(t.files) - (t.files.Keys - t.files.Keys))) else t
  {
    assert Readable(t.files) - (t.files.Keys - t.files.Keys) == Readable(t.files);
  }

  lemma CheckReads(
      offered: set<Offer>, t: Table, id: KernelId, replication: bool, alive: bool, a: set<Offer>)
    requires Tidy(offered, t) && WellStored(a) && CoversStep(a, offered, Check(id, replication, alive))
    ensures var t' := Looked(t, id, replication);
      && Tidy(offered, t') && t'.sessions.Keys <= t.sessions.Keys + IdsOf(a) && t'.byUser == t.byUser
      && forall u :: Owned(t', u) <= Owned(t, u) + Naming(a, u)
  {
    if replication {
      OneIsRead(t, id);
      assert forall o :: o in offered && o.0 in {id} ==> Reads(Check(id, replication, alive), o.0);
      LoadIsOffered(offered, t, LoadSession(t, id), {id}, a);
    }
  }

  lemma ResumeReads(
      offered: set<Offer>, t: Table, order: seq<KernelId>, living: set<KernelId>, a: set<Offer>)
    requires Tidy(offered, t) && WellStored(a) && CoversStep(a, offered, Resume(order, living))
    ensures var t' := LoadSessions(t);
      && Tidy(offered, t') && t'.sessions.Keys <= t.sessions.Keys + IdsOf(a) && t'.byUser == t.byUser
      && forall u :: Owned(t', u) <= Owned(t, u) + Naming(a, u)
  {
    AllAreRead(t);
    assert forall o :: o in offered ==> Reads(Resume(order, living), o.0);
    LoadIsOffered(offered, t, LoadSessions(t), t.files.Keys, a);
  }

  /** The bookkeeping that every step keeps, whatever the limits are. */
  ghost predicate Booked(offered: set<Offer>, g: State) {
    CountersExact(g) && Tidy(offered, g.table) && g.table.sessions.Keys <= g.kernels && ListsNoDup(g.table)
  }

  lemma NextKeepsTidy(limits: Limits, offered: set<Offer>, g: State, step: Step, a: set<Offer>)
    requires Tidy(offered, g.table) && WellStored(a) && CoversStep(a, offered, step)
    requires OffersStep(offered, g.table.persistent, step)
    ensures Tidy(offered, Next(limits, g, step).table)
  {
    match step
    case Finish(start, session) =>
      if start in g.starts {
        SaveKeepsTidy(offered, g.table, session.(username := g.starts[start].user));
      }
    case Remove(id) =>
      DeleteKeepsTidy(offered, g.table, [id]);
    case Restart(id, connection, processInfo) =>
      RefreshKeepsTidy(offered, g.table, id, connection, processInfo);
    case Check(id, replication, alive) =>
      CheckReads(offered, g.table, id, replication, alive, a);
      DeleteKeepsTidy(offered, Looked(g.table, id, replication), [id]);
    case Resume(order, living) =>
      ResumeReads(offered, g.table, order, living, a);
      DeleteKeepsTidy(offered, LoadSessions(g.table), Dead(order, living));
    case Foreign(id, file) =>
      ForeignKeepsTidy(offered, g.table, id, file);
    case _ =>
  }

  lemma LookedRegistered(g: State, id: KernelId, replication: bool)
    requires g.table.sessions.Keys <= g.kernels
    ensures Looked(g.table, id, replication).sessions.Keys <= g.kernels + {id}
  {
  }

  lemma ResumeRegisters(g: State, order: seq<KernelId>, living: set<KernelId>)
    requires Resumes(g, order)
    requires var t := LoadSessions(g.table); forall id :: id in t.sessions ==> t.sessions[id].kernelId == id
    ensures Resumed(g, order, living).table.sessions.Keys <= Resumed(g, order, living).kernels
  {
    var t := LoadSessions(g.table);
    DeletedSessions(t, Dead(order, living));
    DeadAre(order, living);
    forall id | id in t.sessions && id in living
      ensures id in Revived(t, living)
    {
      assert t.sessions[id].kernelId == id;
    }
  }

  lemma NextKeepsRegistered(limits: Limits, offered: set<Offer>, g: State, step: Step, a: set<Offer>)
    requires Tidy(offered, g.table) && WellStored(a) && CoversStep(a, offered, step)
    requires g.table.sessions.Keys <= g.kernels
    ensures Next(limits, g, step).table.sessions.Keys <= Next(limits, g, step).kernels
  {
    match step
    case Remove(id) =>
      DeletedSessions(g.table, [id]);
    case Check(id, replication, alive) =>
      CheckReads(offered, g.table, id, replication, alive, a);
      DeletedSessions(Looked(g.table, id, replication), [id]);
      if id !in g.kernels {
        LookedRegistered(g, id, replication);
      }
    case Resume(order, living) =>
      if Resumes(g, order) {
        ResumeReads(offered, g.table, order, living, a);
        ResumeRegisters(g, order, living);
        ResumeApplies(limits, g, order, living);
      }
    case _ =>
  }

  // ----- The limit on all kernels -----

  function Cap(limit: int): nat {
    if limit < 0 then 0 else limit
  }

  /** Kernels outside `a` and admitted starts not yet registered stay within the limit. */
  ghost predicate TotalBounded(limits: Limits, g: State, a: set<Offer>) {
    limits.maxKernels.Some? ==>
      |g.kernels - IdsOf(a)| + |Unregistered(g.starts)| <= Cap(limits.maxKernels.value)
  }

  lemma UnregisteredAdmitted(starts: map<nat, Start>, start: nat, user: User)
    requires start !in starts
    ensures |Unregistered(starts[start := Start(user, false)])| == |Unregistered(starts)| + 1
  {
    assert Unregistered(starts[start := Start(user, false)]) == Unregistered(starts) + {start};
  }

  lemma AdmitKeepsTotal(limits: Limits, g: State, start: nat, user: User, a: set<Offer>)
    requires CountersExact(g) && start !in g.starts && Admissible(limits, g, user)
    ensures TotalBounded(limits, Next(limits, g, Admit(start, user)), a)
  {
    SubsetCardinality(Unregistered(g.starts), g.starts.Keys);
    SubsetCardinality(g.kernels - IdsOf(a), g.kernels);
    UnregisteredAdmitted(g.starts, start, user);
  }

  /** Starts only end, and only kernels of `a` are added. */
  lemma ShrinkKeepsTotal(limits: Limits, g: State, g': State, a: set<Offer>)
    requires TotalBounded(limits, g, a)
    requires g'.kernels <= g.kernels + IdsOf(a)
    requires Unregistered(g'.starts) <= Unregistered(g.starts)
    ensures TotalBounded(limits, g', a)
  {
    SubsetCardinality(g'.kernels - IdsOf(a), g.kernels - IdsOf(a));
    SubsetCardinality(Unregistered(g'.starts), Unregistered(g.starts));
  }

  lemma RegisterKeepsTotal(limits: Limits, g: State, start: nat, id: KernelId, a: set<Offer>)
    requires CountersExact(g) && TotalBounded(limits, g, a)
    ensures TotalBounded(limits, Next(limits, g, Register(start, id)), a)
  {
    if start in g.starts && !g.starts[start].registered {
      RegisterExact(g, start, id);
      CardinalityPlusOne(g.kernels + {id} - IdsOf(a), g.kernels - IdsOf(a), id);
    }
  }

  lemma FinishKeepsTotal(limits: Limits, g: State, start: nat, session: Session, a: set<Offer>)
    requires TotalBounded(limits, g, a)
    ensures TotalBounded(limits, Next(limits, g, Finish(start, session)), a)
  {
    ShrinkKeepsTotal(limits, g, Finished(g, start, session), a);
  }

  lemma FailKeepsTotal(limits: Limits, g: State, start: nat, a: set<Offer>)
    requires TotalBounded(limits, g, a)
    ensures TotalBounded(limits, Next(limits, g, Fail(start)), a)
  {
    ShrinkKeepsTotal(limits, g, Next(limits, g, Fail(start)), a);
  }

  lemma RemoveKeepsTotal(limits: Limits, g: State, id: KernelId, a: set<Offer>)
    requires TotalBounded(limits, g, a)
    ensures TotalBounded(limits, Next(limits, g, Remove(id)), a)
  {
    ShrinkKeepsTotal(limits, g, Next(limits, g, Remove(id)), a);
  }

  lemma CheckRegisters(
      offered: set<Offer>, g: State, id: KernelId, replication: bool, alive: bool, a: set<Offer>)
    requires Tidy(offered, g.table) && WellStored(a) && CoversStep(a, offered, Check(id, replication, alive))
    requires g.table.sessions.Keys <= g.kernels
    ensures Checked(g, id, replication, alive).kernels <= g.kernels + IdsOf(a)
    ensures Checked(g, id, replication, alive).starts == g.starts
  {
    CheckReads(offered, g.table, id, replication, alive, a);
    var t := Looked(g.table, id, replication);
    if id !in g.kernels && Revives(g.table, id, replication, alive) {
      assert t == LoadSession(g.table, id);
      assert id in t.sessions.Keys && t.sessions[id].kernelId == id;
      assert id in IdsOf(a);
    }
  }

  lemma CheckKeepsTotal(
      limits: Limits, offered: set<Offer>, g: State, id: KernelId, replication: bool, alive: bool,
      a: set<Offer>)
    requires Tidy(offered, g.table) && WellStored(a) && CoversStep(a, offered, Check(id, replication, alive))
    requires g.table.sessions.Keys <= g.kernels && TotalBounded(limits, g, a)
    ensures TotalBounded(limits, Next(limits, g, Check(id, replication, alive)), a)
  {
    CheckRegisters(offered, g, id, replication, alive, a);
    ShrinkKeepsTotal(limits, g, Checked(g, id, replication, alive), a);
  }

  lemma ResumeKeepsTotal(
      limits: Limits, offered: set<Offer>, g: State, order: seq<KernelId>, living: set<KernelId>,
      a: set<Offer>)
    requires Tidy(offered, g.table) && WellStored(a) && CoversStep(a, offered, Resume(order, living))
    requires g.table.sessions.Keys <= g.kernels && TotalBounded(limits, g, a)
    ensures TotalBounded(limits, Resumed(g, order, living), a)
  {
    ResumeReads(offered, g.table, order, living, a);
    var g' := Resumed(g, order, living);
    assert g'.kernels <= g.kernels + IdsOf(a);
    ShrinkKeepsTotal(limits, g, g', a);
  }

  lemma NextKeepsTotal(
      limits: Limits, offered: set<Offer>, g: State, step: Step, a: set<Offer>)
    requires Booked(offered, g) && WellStored(a) && CoversStep(a, offered, step)
    requires TotalBounded(limits, g, a)
    ensures TotalBounded(limits, Next(limits, g, step), a)
  {
    match step
    case Admit(start, user) =>
      if start !in g.starts && Admissible(limits, g, user) {
        AdmitKeepsTotal(limits, g, start, user, a);
      }
    case Register(start, id) => RegisterKeepsTotal(limits, g, start, id, a);
    case Finish(start, session) => FinishKeepsTotal(limits, g, start, session, a);
    case Fail(start) => FailKeepsTotal(limits, g, start, a);
    case Remove(id) => RemoveKeepsTotal(limits, g, id, a);
    case Restart(_, _, _) =>
    case Check(id, replication, alive) => CheckKeepsTotal(limits, offered, g, id, replication, alive, a);
    case Resume(order, living) =>
      if Resumes(g, order) {
        ResumeKeepsTotal(limits, offered, g, order, living, a);
      }
    case Foreign(_, _) =>
  }

  // ----- The limit per user -----

  /** Ids that count, or can come to count, against `u`: listed or live. */
  function Claimed(t: Table, u: User): set<KernelId> {
    Elements(Listed(t.byUser, u)) + Owned(t, u)
  }

  /** Live sessions of `u` that no list counts. */
  function Orphans(t: Table, u: User): set<KernelId> {
    Owned(t, u) - Elements(Listed(t.byUser, u))
  }

  /** `t'` claims and orphans nothing for `u` that `t` did not, apart from `extra`. */
  ghost predicate GrowsBy(t: Table, t': Table, u: User, claimed: set<KernelId>, orphaned: set<KernelId>) {
    && Claimed(t', u) <= Claimed(t, u) + claimed
    && Orphans(t', u) <= Orphans(t, u) + orphaned
  }

  lemma SaveGrows(t: Table, id: KernelId, s: Session, u: User)
    requires ListsNoDup(t)
    ensures ListsNoDup(SaveSession(t, id, s))
    ensures GrowsBy(t, SaveSession(t, id, s), u, if u == s.username then {id} else {}, {})
  {
    var t' := SaveSession(t, id, s);
    forall v
      ensures NoDup(Listed(t'.byUser, v))
    {
      assert NoDup(Listed(t.byUser, v));
      IndexedLists(t.byUser, s.username, id, v);
    }
    assert NoDup(Listed(t.byUser, u));
    IndexedLists(t.byUser, s.username, id, u);
    SavedOwned(t, id, s, u);
  }

  /** A restart hands over a session its user already claims. */
  lemma RefreshGrows(t: Table, id: KernelId, connection: Fields, processInfo: Fields, u: User)
    requires ListsNoDup(t)
    ensures ListsNoDup(RefreshSession(t, id, connection, processInfo))
    ensures GrowsBy(t, RefreshSession(t, id, connection, processInfo), u, {}, {})
  {
    if id in t.sessions {
      var s := Refreshed(t, id, connection, processInfo);
      SaveGrows(t, id, s, u);
      assert u == s.username ==> id in Owned(t, u);
    }
  }

  lemma {:induction false} ForgetGrows(t: Table, ids: seq<KernelId>, u: User)
    requires ListsNoDup(t)
    ensures ListsNoDup(ForgetSessions(t, ids))
    ensures GrowsBy(t, ForgetSessions(t, ids), u, {}, {})
  {
    if ids == [] {
    } else {
      var init, last := ids[..|ids| - 1], ids[|ids| - 1];
      ForgetGrows(t, init, u);
      var t1 := ForgetSessions(t, init);
      ForgetKeepsIndex(t1, last);
      assert NoDup(Listed(t1.byUser, u));
      ForgottenLists(t1, last, u);
      ForgottenOwned(t1, last, u);
    }
  }

  lemma DeleteGrows(t: Table, ids: seq<KernelId>, u: User)
    requires ListsNoDup(t)
    ensures ListsNoDup(DeleteSessions(t, ids))
    ensures GrowsBy(t, DeleteSessions(t, ids), u, {}, {})
  {
    ForgetGrows(t, ids, u);
    SessionRuns.DeletedIndex(t, ids);
    assert Owned(DeleteSessions(t, ids), u) == Owned(ForgetSessions(t, ids), u);
  }

  /** Ids claimed by `u` outside `b`, and its pending starts, stay within the limit; orphans are in `b`. */
  ghost predicate UserBounded(limits: Limits, g: State, u: User, b: set<KernelId>) {
    && Orphans(g.table, u) <= b
    && (limits.maxPerUser >= 0 ==>
          |Claimed(g.table, u) - b| + PendingOf(g.pendingByUser, u) <= limits.maxPerUser)
  }

  /** A table step that claims and orphans nothing outside `b` keeps the bound. */
  lemma GrowthKeepsBound(limits: Limits, g: State, g': State, u: User, b: set<KernelId>)
    requires UserBounded(limits, g, u, b)
    requires GrowsBy(g.table, g'.table, u, b, b)
    requires PendingOf(g'.pendingByUser, u) <= PendingOf(g.pendingByUser, u)
    ensures UserBounded(limits, g', u, b)
  {
    SubsetCardinality(Claimed(g'.table, u) - b, Claimed(g.table, u) - b);
  }

  lemma AdmitKeepsUser(limits: Limits, g: State, start: nat, user: User, u: User, b: set<KernelId>)
    requires ListsNoDup(g.table) && UserBounded(limits, g, u, b)
    ensures UserBounded(limits, Next(limits, g, Admit(start, user)), u, b)
  {
    if u == user && start !in g.starts && Admissible(limits, g, user) {
      assert NoDup(Listed(g.table.byUser, u));
      NoDupCardinality(Listed(g.table.byUser, u));
      SubsetCardinality(Claimed(g.table, u) - b, Elements(Listed(g.table.byUser, u)));
    }
  }

  /** One pending slot pays for one more claimed id. */
  lemma HandOver(limits: Limits, g: State, g': State, u: User, b: set<KernelId>, id: KernelId)
    requires UserBounded(limits, g, u, b)
    requires GrowsBy(g.table, g'.table, u, {id}, {})
    requires PendingOf(g'.pendingByUser, u) == PendingOf(g.pendingByUser, u) - 1
    ensures UserBounded(limits, g', u, b)
  {
    CardinalityPlusOne(Claimed(g'.table, u) - b, Claimed(g.table, u) - b, id);
  }

  lemma FinishPending(g: State, start: nat, session: Session, u: User)
    requires start in g.starts
    ensures PendingOf(Finished(g, start, session).pendingByUser, u)
         == PendingOf(g.pendingByUser, u) - if u == g.starts[start].user then 1 else 0
  {
  }

  lemma FinishKeepsUser(limits: Limits, g: State, start: nat, session: Session, u: User, b: set<KernelId>)
    requires ListsNoDup(g.table) && UserBounded(limits, g, u, b)
    ensures UserBounded(limits, Next(limits, g, Finish(start, session)), u, b)
    ensures ListsNoDup(Next(limits, g, Finish(start, session)).table)
  {
    if start in g.starts {
      FinishPending(g, start, session, u);
      if session.kernelId in g.kernels {
        var s := session.(username := g.starts[start].user);
        SaveGrows(g.table, s.kernelId, s, u);
        SavedKeepsUser(limits, g, Finished(g, start, session), u, b, s);
      }
    }
  }

  lemma SavedKeepsUser(limits: Limits, g: State, g': State, u: User, b: set<KernelId>, s: Session)
    requires UserBounded(limits, g, u, b)
    requires GrowsBy(g.table, g'.table, u, if u == s.username then {s.kernelId} else {}, {})
    requires PendingOf(g'.pendingByUser, u)
          == PendingOf(g.pendingByUser, u) - if u == s.username then 1 else 0
    ensures UserBounded(limits, g', u, b)
  {
    if u == s.username {
      HandOver(limits, g, g', u, b, s.kernelId);
    } else {
      GrowthKeepsBound(limits, g, g', u, b);
    }
  }

  lemma SameLists(t: Table, t': Table)
    requires ListsNoDup(t) && t'.byUser == t.byUser
    ensures ListsNoDup(t')
  {
    assert forall u :: Listed(t'.byUser, u) == Listed(t.byUser, u);
  }

  /** Reading sessions and then forgetting some claims and orphans nothing outside what was stored. */
  lemma ReadGrows(t: Table, read: Table, ids: seq<KernelId>, u: User, b: set<KernelId>)
    requires ListsNoDup(t) && read.byUser == t.byUser && Owned(read, u) <= Owned(t, u) + b
    ensures ListsNoDup(read) && ListsNoDup(DeleteSessions(read, ids))
    ensures GrowsBy(t, read, u, b, b) && GrowsBy(t, DeleteSessions(read, ids), u, b, b)
  {
    SameLists(t, read);
    DeleteGrows(read, ids, u);
  }

  lemma CheckKeepsUser(
      limits: Limits, offered: set<Offer>, g: State, id: KernelId, replication: bool, alive: bool,
      u: User, a: set<Offer>)
    requires ListsNoDup(g.table) && UserBounded(limits, g, u, Naming(a, u))
    requires Tidy(offered, g.table) && WellStored(a) && CoversStep(a, offered, Check(id, replication, alive))
    ensures UserBounded(limits, Checked(g, id, replication, alive), u, Naming(a, u))
    ensures ListsNoDup(Checked(g, id, replication, alive).table)
  {
    if id !in g.kernels {
      CheckReads(offered, g.table, id, replication, alive, a);
      ReadGrows(g.table, Looked(g.table, id, replication), [id], u, Naming(a, u));
      GrowthKeepsBound(limits, g, Checked(g, id, replication, alive), u, Naming(a, u));
    }
  }

  lemma ResumeKeepsUser(
      limits: Limits, offered: set<Offer>, g: State, order: seq<KernelId>, living: set<KernelId>,
      u: User, a: set<Offer>)
    requires ListsNoDup(g.table) && UserBounded(limits, g, u, Naming(a, u))
    requires Tidy(offered, g.table) && WellStored(a) && CoversStep(a, offered, Resume(order, living))
    ensures UserBounded(limits, Resumed(g, order, living), u, Naming(a, u))
    ensures ListsNoDup(Resumed(g, order, living).table)
  {
    ResumeReads(offered, g.table, order, living, a);
    ReadGrows(g.table, LoadSessions(g.table), Dead(order, living), u, Naming(a, u));
    GrowthKeepsBound(limits, g, Resumed(g, order, living), u, Naming(a, u));
  }

  lemma RegisterKeepsUser(limits: Limits, g: State, start: nat, id: KernelId, u: User, b: set<KernelId>)
    requires UserBounded(limits, g, u, b)
    ensures UserBounded(limits, Next(limits, g, Register(start, id)), u, b)
  {
  }

  lemma FailKeepsUser(limits: Limits, g: State, start: nat, u: User, b: set<KernelId>)
    requires UserBounded(limits, g, u, b)
    ensures UserBounded(limits, Next(limits, g, Fail(start)), u, b)
  {
  }

  /** A table step that claims and orphans nothing at all. */
  lemma QuietKeepsUser(limits: Limits, g: State, t: Table, u: User, b: set<KernelId>)
    requires UserBounded(limits, g, u, b)
    requires GrowsBy(g.table, t, u, {}, {})
    ensures UserBounded(limits, g.(table := t), u, b)
  {
    GrowthKeepsBound(limits, g, g.(table := t), u, b);
  }

  lemma RemoveKeepsUser(limits: Limits, g: State, id: KernelId, u: User, b: set<KernelId>)
    requires ListsNoDup(g.table) && UserBounded(limits, g, u, b)
    ensures UserBounded(limits, Next(limits, g, Remove(id)), u, b)
    ensures ListsNoDup(Next(limits, g, Remove(id)).table)
  {
    DeleteGrows(g.table, [id], u);
    GrowthKeepsBound(limits, g, Next(limits, g, Remove(id)), u, b);
  }

  lemma RestartKeepsUser(
      limits: Limits, g: State, id: KernelId, connection: Fields, processInfo: Fields, u: User, b: set<KernelId>)
    requires ListsNoDup(g.table) && UserBounded(limits, g, u, b)
    ensures UserBounded(limits, Next(limits, g, Restart(id, connection, processInfo)), u, b)
    ensures ListsNoDup(Next(limits, g, Restart(id, connection, processInfo)).table)
  {
    if id in g.kernels {
      RefreshGrows(g.table, id, connection, processInfo, u);
      QuietKeepsUser(limits, g, RefreshSession(g.table, id, connection, processInfo), u, b);
    }
  }

  lemma ForeignKeepsUser(
      limits: Limits, g: State, id: KernelId, file: Option<File>, u: User, b: set<KernelId>)
    requires ListsNoDup(g.table) && UserBounded(limits, g, u, b)
    ensures UserBounded(limits, Next(limits, g, Foreign(id, file)), u, b)
    ensures ListsNoDup(Next(limits, g, Foreign(id, file)).table)
  {
    ForeignGrows(g.table, id, file, u);
    QuietKeepsUser(limits, g, Overwritten(g.table, id, file), u, b);
  }

  lemma ForeignGrows(t: Table, id: KernelId, file: Option<File>, u: User)
    requires ListsNoDup(t)
    ensures ListsNoDup(Overwritten(t, id, file))
    ensures GrowsBy(t, Overwritten(t, id, file), u, {}, {})
  {
    SameLists(t, Overwritten(t, id, file));
    assert Owned(Overwritten(t, id, file), u) == Owned(t, u);
  }

  lemma NextKeepsUser(
      limits: Limits, offered: set<Offer>, g: State, step: Step, u: User, a: set<Offer>)
    requires ListsNoDup(g.table) && Tidy(offered, g.table) && WellStored(a) && CoversStep(a, offered, step)
    requires UserBounded(limits, g, u, Naming(a, u))
    ensures UserBounded(limits, Next(limits, g, step), u, Naming(a, u))
    ensures ListsNoDup(Next(limits, g, step).table)
  {
    var b := Naming(a, u);
    match step
    case Admit(start, user) =>
      AdmitKeepsUser(limits, g, start, user, u, b);
    case Register(start, id) =>
      RegisterKeepsUser(limits, g, start, id, u, b);
    case Finish(start, session) =>
      FinishKeepsUser(limits, g, start, session, u, b);
    case Fail(start) =>
      FailKeepsUser(limits, g, start, u, b);
    case Remove(id) =>
      RemoveKeepsUser(limits, g, id, u, b);
    case Restart(id, connection, processInfo) =>
      RestartKeepsUser(limits, g, id, connection, processInfo, u, b);
    case Check(id, replication, alive) =>
      CheckKeepsUser(limits, offered, g, id, replication, alive, u, a);
    case Resume(order, living) =>
      if Resumes(g, order) {
        ResumeKeepsUser(limits, offered, g, order, living, u, a);
        ResumeApplies(limits, g, order, living);
      }
    case Foreign(id, file) =>
      ForeignKeepsUser(limits, g, id, file, u, b);
  }

  // ----- Whole runs -----

  ghost predicate Bounded(limits: Limits, offered: set<Offer>, g: State, a: set<Offer>) {
    && Booked(offered, g)
    && TotalBounded(limits, g, a)
    && forall u :: UserBounded(limits, g, u, Naming(a, u))
  }

  lemma InitiallyBounded(
      limits: Limits, files: map<KernelId, File>, persistent: bool, offered: set<Offer>, a: set<Offer>)
    requires persistent ==> FirstOffers(files) <= offered
    ensures Bounded(limits, offered, Initial(files, persistent), a)
  {
    var g := Initial(files, persistent);
    assert CountersExact(g) by {
      assert forall u :: StartsOf(g.starts, u) == {};
    }
    forall u
      ensures UserBounded(limits, g, u, Naming(a, u))
    {
      assert Claimed(g.table, u) == {} && Orphans(g.table, u) == {};
      assert Claimed(g.table, u) - Naming(a, u) == {};
    }
    assert Unregistered(g.starts) == {} && g.kernels - IdsOf(a) == {};
    forall id | persistent && id in Readable(files)
      ensures (id, files[id]) in offered
    {
      assert (id, files[id]) in FirstOffers(files);
    }
  }

  lemma NextKeepsBounded(limits: Limits, offered: set<Offer>, g: State, step: Step, a: set<Offer>)
    requires Bounded(limits, offered, g, a) && WellStored(a) && CoversStep(a, offered, step)
    requires OffersStep(offered, g.table.persistent, step)
    ensures Bounded(limits, offered, Next(limits, g, step), a)
  {
    NextKeepsCounters(limits, g, step);
    NextKeepsTidy(limits, offered, g, step, a);
    NextKeepsRegistered(limits, offered, g, step, a);
    NextKeepsTotal(limits, offered, g, step, a);
    forall u
      ensures UserBounded(limits, Next(limits, g, step), u, Naming(a, u))
    {
      NextKeepsUser(limits, offered, g, step, u, a);
    }
    NextKeepsUser(limits, offered, g, step, "", a);
  }

  lemma NextKeepsPersistence(limits: Limits, g: State, step: Step)
    ensures Next(limits, g, step).table.persistent == g.table.persistent
  {
    match step
    case Remove(id) => DeletedSessions(g.table, [id]);
    case Check(id, replication, _) => DeletedSessions(Looked(g.table, id, replication), [id]);
    case Resume(order, living) => DeletedSessions(LoadSessions(g.table), Dead(order, living));
    case _ =>
  }

  /** All that is offered up to the run's end is covered from the start. */
  ghost predicate OffersRun(offered: set<Offer>, persistent: bool, steps: seq<Step>) {
    forall i :: 0 <= i < |steps| ==> OffersStep(offered, persistent, steps[i])
  }

  lemma {:induction false} RunInvariant(
      limits: Limits, files: map<KernelId, File>, persistent: bool, steps: seq<Step>,
      offered: set<Offer>, a: set<Offer>)
    requires persistent ==> FirstOffers(files) <= offered
    requires OffersRun(offered, persistent, steps)
    requires WellStored(a) && Covers(a, offered, steps)
    ensures var g := Run(limits, Initial(files, persistent), steps);
      Bounded(limits, offered, g, a) && g.table.persistent == persistent
  {
    if steps == [] {
      InitiallyBounded(limits, files, persistent, offered, a);
    } else {
      var init, last := steps[..|steps| - 1], steps[|steps| - 1];
      RunInvariant(limits, files, persistent, init, offered, a);
      assert OffersStep(offered, persistent, last) && CoversStep(a, offered, last);
      NextKeepsBounded(limits, offered, Run(limits, Initial(files, persistent), init), last, a);
      NextKeepsPersistence(limits, Run(limits, Initial(files, persistent), init), last);
    }
  }

  lemma {:induction false} ForeignAreOffered(steps: seq<Step>, i: nat)
    requires i < |steps|
    ensures OffersStep(ForeignOffers(steps), true, steps[i])
  {
    if i < |steps| - 1 {
      ForeignAreOffered(steps[..|steps| - 1], i);
    }
  }

  lemma OfferedIsOffered(files: map<KernelId, File>, persistent: bool, steps: seq<Step>)
    ensures OffersRun(Offered(files, persistent, steps), persistent, steps)
  {
    forall i | 0 <= i < |steps|
      ensures OffersStep(Offered(files, persistent, steps), persistent, steps[i])
    {
      ForeignAreOffered(steps, i);
    }
  }

  /** What a run can revive: the offers, first or foreign, whose ids it looks up. */
  function RevivableIn(files: map<KernelId, File>, persistent: bool, steps: seq<Step>): set<Offer> {
    Revivable(Offered(files, persistent, steps), steps)
  }

  lemma RunIsBounded(limits: Limits, files: map<KernelId, File>, persistent: bool, steps: seq<Step>)
    requires WellStored(RevivableIn(files, persistent, steps))
    ensures Bounded(limits, Offered(files, persistent, steps), Run(limits, Initial(files, persistent), steps),
                    RevivableIn(files, persistent, steps))
  {
    var offered := Offered(files, persistent, steps);
    OfferedIsOffered(files, persistent, steps);
    assert Covers(RevivableIn(files, persistent, steps), offered, steps);
    RunInvariant(limits, files, persistent, steps, offered, RevivableIn(files, persistent, steps));
  }

  /**
   * In every interleaving, registered kernels and admitted starts not yet registered together stay
   * within the limit, not counting the kernels that the run can revive.
   */
  lemma KernelLimitHolds(limits: Limits, files: map<KernelId, File>, persistent: bool, steps: seq<Step>)
    requires limits.maxKernels.Some? && WellStored(RevivableIn(files, persistent, steps))
    ensures var g := Run(limits, Initial(files, persistent), steps);
      |g.kernels - IdsOf(RevivableIn(files, persistent, steps))| + |Unregistered(g.starts)|
      <= Cap(limits.maxKernels.value)
  {
    RunIsBounded(limits, files, persistent, steps);
  }

  /**
   * Likewise each user's counted sessions and pending starts exceed the limit by no more than the sessions
   * of that user that the run can revive.
   */
  lemma UserLimitHolds(limits: Limits, files: map<KernelId, File>, persistent: bool, steps: seq<Step>, u: User)
    requires limits.maxPerUser >= 0 && WellStored(RevivableIn(files, persistent, steps))
    ensures var g := Run(limits, Initial(files, persistent), steps);
      ActiveSessions(g.table, u) + PendingOf(g.pendingByUser, u)
      <= limits.maxPerUser + |Naming(RevivableIn(files, persistent, steps), u)|
  {
    RunIsBounded(limits, files, persistent, steps);
    var g := Run(limits, Initial(files, persistent), steps);
    var b := Naming(RevivableIn(files, persistent, steps), u);
    assert UserBounded(limits, g, u, b);
    assert NoDup(Listed(g.table.byUser, u));
    NoDupCardinality(Listed(g.table.byUser, u));
    UnionCardinality(Elements(Listed(g.table.byUser, u)), Claimed(g.table, u) - b, b);
  }

  ghost predicate KernelsWithin(limits: Limits, g: State) {
    limits.maxKernels.Some? ==> |g.kernels| + |Unregistered(g.starts)| <= Cap(limits.maxKernels.value)
  }

  ghost predicate UserWithin(limits: Limits, g: State, u: User) {
    limits.maxPerUser >= 0 ==>
      ActiveSessions(g.table, u) + PendingOf(g.pendingByUser, u) <= limits.maxPerUser
  }

  /** A run that can revive nothing keeps both limits outright. */
  lemma LimitsHoldWithoutRevival(
      limits: Limits, files: map<KernelId, File>, persistent: bool, steps: seq<Step>, u: User)
    requires RevivableIn(files, persistent, steps) == {}
    ensures KernelsWithin(limits, Run(limits, Initial(files, persistent), steps))
    ensures UserWithin(limits, Run(limits, Initial(files, persistent), steps), u)
  {
    var g := Run(limits, Initial(files, persistent), steps);
    if limits.maxKernels.Some? {
      KernelLimitHolds(limits, files, persistent, steps);
      assert IdsOf({}) == {} && g.kernels - {} == g.kernels;
    }
    if limits.maxPerUser >= 0 {
      UserLimitHolds(limits, files, persistent, steps, u);
      assert Naming({}, u) == {};
    }
  }

  /** Another gateway stores a session, a lookup revives it, and its kernel is restarted. */
  function RevivalOf(o: Offer, connection: Fields, processInfo: Fields): seq<Step> {
    [Foreign(o.0, Some(o.1)), Check(o.0, true, true), Restart(o.0, connection, processInfo)]
  }

  lemma RunThree(limits: Limits, g: State, a: Step, b: Step, c: Step)
    ensures Run(limits, g, [a]) == Next(limits, g, a)
    ensures Run(limits, g, [a, b]) == Next(limits, Next(limits, g, a), b)
    ensures Run(limits, g, [a, b, c]) == Next(limits, Next(limits, Next(limits, g, a), b), c)
  {
    assert [a][..0] == [] && [a, b][..1] == [a] && [a, b, c][..2] == [a, b];
  }

  /**
   * Revival passes no admission. Whatever a gateway finds stored: with both limits zero, once another
   * gateway has stored a session whose kernel answers, looking it up brings that kernel in, and its first
   * restart makes its user's session count.
   */
  lemma RevivalIgnoresLimits(files: map<KernelId, File>, o: Offer, connection: Fields, processInfo: Fields)
    requires IsReadable(o) && Loaded(o.1).value.kernelId == o.0
    ensures var limits, u := Limits(Some(0), 0), Loaded(o.1).value.username;
      var steps := RevivalOf(o, connection, processInfo);
      && Run(limits, Initial(files, true), steps).kernels == {o.0}
      && Run(limits, Initial(files, true), steps).pendingByUser == map[]
      && ActiveSessions(Run(limits, Initial(files, true), steps).table, u) == 1
  {
    var limits, g, steps := Limits(Some(0), 0), Initial(files, true), RevivalOf(o, connection, processInfo);
    RunThree(limits, g, steps[0], steps[1], steps[2]);
    var g1 := Next(limits, g, steps[0]);
    var g2 := Next(limits, g1, steps[1]);
    assert g1.table.files[o.0] == o.1;
    assert g2.table.sessions[o.0] == Loaded(o.1).value && g2.kernels == {o.0};
  }

  /** What is found stored at first is as good: no other gateway is needed to exceed a limit. */
  lemma StoredRevivalIgnoresLimits(files: map<KernelId, File>, id: KernelId)
    requires id in Readable(files) && Readable(files)[id].kernelId == id
    ensures Run(Limits(Some(0), 0), Initial(files, true), [Check(id, true, true)]).kernels == {id}
  {
    assert [Check(id, true, true)][..0] == [];
    assert Looked(Initial(files, true).table, id, true).sessions[id] == Readable(files)[id];
  }

  lemma RevivalOffers(files: map<KernelId, File>, o: Offer, connection: Fields, processInfo: Fields)
    requires IsReadable(o)
    ensures Offered(files, true, RevivalOf(o, connection, processInfo)) == FirstOffers(files) + {o}
  {
    var steps := RevivalOf(o, connection, processInfo);
    assert steps[..2] == [steps[0], steps[1]] && steps[..2][..1] == [steps[0]] && [steps[0]][..0] == [];
    assert ForeignOffers([steps[0]]) == {} + {(o.0, o.1)};
    assert ForeignOffers(steps[..2]) == {o};
  }

  /** The run's store offers nothing but `offers`. */
  ghost predicate Within(files: map<KernelId, File>, persistent: bool, steps: seq<Step>, offers: set<Offer>) {
    Offered(files, persistent, steps) <= offers
  }

  ghost predicate AllReadable(offers: set<Offer>) {
    forall o :: o in offers ==> IsReadable(o)
  }

  /**
   * Over all runs in which the store, at first and from other gateways, offers nothing but `offers`: the
   * kernel limit holds, whatever it is, if and only if there are no offers or persistence is off.
   */
  lemma KernelLimitIsOutrightIff(files: map<KernelId, File>, persistent: bool, offers: set<Offer>)
    requires FirstOffers(files) <= offers && AllReadable(offers) && WellStored(offers)
    ensures (forall limits, steps :: Within(files, persistent, steps, offers) ==>
               KernelsWithin(limits, Run(limits, Initial(files, persistent), steps)))
       <==> !persistent || offers == {}
  {
    if !persistent || offers == {} {
      forall limits, steps | Within(files, persistent, steps, offers)
        ensures KernelsWithin(limits, Run(limits, Initial(files, persistent), steps))
      {
        assert Offered(files, persistent, steps) == {};
        LimitsHoldWithoutRevival(limits, files, persistent, steps, "");
      }
    } else {
      var o :| o in offers;
      RevivalIgnoresLimits(files, o, map[], map[]);
      RevivalOffers(files, o, map[], map[]);
      var limits, steps := Limits(Some(0), 0), RevivalOf(o, map[], map[]);
      assert Within(files, persistent, steps, offers);
      assert !KernelsWithin(limits, Run(limits, Initial(files, persistent), steps));
    }
  }

  /** Over the same runs a user's limit holds if and only if no offer names the user or persistence is off. */
  lemma UserLimitIsOutrightIff(files: map<KernelId, File>, persistent: bool, offers: set<Offer>, u: User)
    requires FirstOffers(files) <= offers && AllReadable(offers) && WellStored(offers)
    ensures (forall limits, steps :: Within(files, persistent, steps, offers) ==>
               UserWithin(limits, Run(limits, Initial(files, persistent), steps), u))
       <==> !persistent || Naming(offers, u) == {}
  {
    if !persistent || Naming(offers, u) == {} {
      forall limits, steps | Within(files, persistent, steps, offers)
        ensures UserWithin(limits, Run(limits, Initial(files, persistent), steps), u)
      {
        NamingIsWithin(files, persistent, steps, offers, u);
        if limits.maxPerUser >= 0 {
          UserLimitHolds(limits, files, persistent, steps, u);
          assert Naming({}, u) == {};
        }
      }
    } else {
      var id :| id in Naming(offers, u);
      var o :| o in offers && IsReadable(o) && Loaded(o.1).value.username == u && o.0 == id;
      RevivalIgnoresLimits(files, o, map[], map[]);
      RevivalOffers(files, o, map[], map[]);
      var limits, steps := Limits(Some(0), 0), RevivalOf(o, map[], map[]);
      assert Within(files, persistent, steps, offers);
      assert !UserWithin(limits, Run(limits, Initial(files, persistent), steps), u);
    }
  }

  lemma NamingIsWithin(
      files: map<KernelId, File>, persistent: bool, steps: seq<Step>, offers: set<Offer>, u: User)
    requires Within(files, persistent, steps, offers) && WellStored(offers)
    ensures WellStored(RevivableIn(files, persistent, steps))
    ensures Naming(RevivableIn(files, persistent, steps), u) <= Naming(offers, u)
    ensures !persistent ==> RevivableIn(files, persistent, steps) == {}
  {
    assert RevivableIn(files, persistent, steps) <= offers;
  }
}
