/**
 * The gateway's bookkeeping as a state machine. A step is a stretch of code between two awaits: admitting
 * a start, the start's registration, its end, a removal, a restart's refresh, a lookup that may revive a
 * kernel from its file, and the resumption of stored sessions at start-up. Another gateway on the same store
 * may write or remove a file at any time.
 */
module Gateway {
  import opened Collections
  import opened Ids
  import opened Sessions
  import opened SessionRuns

  /** `maxPerUser` is off when negative, `maxKernels` when `None`. */
  datatype Limits = Limits(maxKernels: Option<int>, maxPerUser: int)

  /** A start between its admission and its end; `registered` once its kernel entered the registry. */
  datatype Start = Start(user: User, registered: bool)

  datatype State = State(
    kernels: set<KernelId>,
    pendingAll: int,
    pendingByUser: map<User, int>,
    starts: map<nat, Start>,
    table: Table)

  function Initial(files: map<KernelId, File>, persistent: bool): State {
    State({}, 0, map[], map[], Fresh(files, persistent))
  }

  datatype Step =
    | Admit(start: nat, user: User)
    | Register(start: nat, id: KernelId)
    | Finish(start: nat, session: Session)
    | Fail(start: nat)
    | Remove(id: KernelId)
    | Restart(id: KernelId, connection: Fields, processInfo: Fields)
    | Check(id: KernelId, replication: bool, alive: bool)
    | Resume(order: seq<KernelId>, living: set<KernelId>)
    | Foreign(id: KernelId, file: Option<File>)

  function PendingOf(pendingByUser: map<User, int>, u: User): int {
    if u in pendingByUser then pendingByUser[u] else 0
  }

  function Incremented(g: State, u: User): State {
    g.(pendingAll := g.pendingAll + 1,
       pendingByUser := g.pendingByUser[u := PendingOf(g.pendingByUser, u) + 1])
  }

  function Decremented(g: State, u: User): State {
    g.(pendingAll := g.pendingAll - 1,
       pendingByUser := g.pendingByUser[u := PendingOf(g.pendingByUser, u) - 1])
  }

  /** The limit check made before a start is counted as pending. */
  predicate WithinLimits(limits: Limits, kernelCount: nat, pendingAll: int, activeOfUser: nat, pendingOfUser: int) {
    && (limits.maxKernels.Some? ==> kernelCount + pendingAll < limits.maxKernels.value)
    && (limits.maxPerUser >= 0 ==> activeOfUser + pendingOfUser < limits.maxPerUser)
  }

  predicate Admissible(limits: Limits, g: State, u: User) {
    WithinLimits(limits, |g.kernels|, g.pendingAll, ActiveSessions(g.table, u), PendingOf(g.pendingByUser, u))
  }

  /** A start's end returns its kernel's session only if the kernel is still in the registry. */
  function Finished(g: State, start: nat, session: Session): State {
    if start !in g.starts then g
    else
      var u := g.starts[start].user;
      var done := Decremented(g.(starts := g.starts - {start}), u);
      if session.kernelId in g.kernels
      then done.(table := SaveSession(g.table, session.kernelId, session.(username := u)))
      else done
  }

  predicate Revives(t: Table, id: KernelId, replication: bool, alive: bool) {
    replication && alive && id in LoadSession(t, id).sessions
  }

  function Looked(t: Table, id: KernelId, replication: bool): Table {
    if replication then LoadSession(t, id) else t
  }

  /** The lookup of a kernel id; it ends in "not found" unless the id is registered afterwards. */
  function Checked(g: State, id: KernelId, replication: bool, alive: bool): State {
    if id in g.kernels then g
    else
      var t := Looked(g.table, id, replication);
      if Revives(g.table, id, replication, alive)
      then g.(table := t, kernels := g.kernels + {t.sessions[id].kernelId})
      else g.(table := DeleteSession(t, id))
  }

  /** The ids, in visiting order, whose kernels did not answer. */
  function Dead(order: seq<KernelId>, living: set<KernelId>): seq<KernelId> {
    if order == [] then []
    else
      var init, last := Dead(order[..|order| - 1], living), order[|order| - 1];
      if last in living then init else init + [last]
  }

  predicate Enumerates(order: seq<KernelId>, ids: set<KernelId>) {
    NoDup(order) && Elements(order) == ids
  }

  function RevivedAmong(t: Table, ids: set<KernelId>, living: set<KernelId>): set<KernelId> {
    set id | id in t.sessions && id in ids && id in living :: t.sessions[id].kernelId
  }

  /** One turn of the start-up loop. */
  lemma VisitStep(t: Table, order: seq<KernelId>, id: KernelId, living: set<KernelId>)
    requires id in t.sessions
    ensures Dead(order + [id], living) == Dead(order, living) + (if id in living then [] else [id])
    ensures RevivedAmong(t, Elements(order + [id]), living)
         == RevivedAmong(t, Elements(order), living) + (if id in living then {t.sessions[id].kernelId} else {})
  {
    assert (order + [id])[..|order|] == order;
    ElementsAppend(order, id);
  }

  function Revived(t: Table, living: set<KernelId>): set<KernelId> {
    RevivedAmong(t, t.sessions.Keys, living)
  }

  /** Start-up: load every file, try to revive each session, delete the sessions that could not be. */
  function Resumed(g: State, order: seq<KernelId>, living: set<KernelId>): State {
    var t := LoadSessions(g.table);
    g.(table := DeleteSessions(t, Dead(order, living)),
       kernels := g.kernels + Revived(t, living))
  }

  /** Start-up does something only with persistence on; `order` is how it visited the sessions. */
  predicate Resumes(g: State, order: seq<KernelId>) {
    g.table.persistent && Enumerates(order, LoadSessions(g.table).sessions.Keys)
  }

  /** What another gateway does to a file of the shared store. */
  function Overwritten(t: Table, id: KernelId, file: Option<File>): Table {
    t.(files := if file.Some? then t.files[id := file.value] else t.files - {id})
  }

  function Next(limits: Limits, g: State, step: Step): State {
    match step
    case Admit(start, user) =>
      if start !in g.starts && Admissible(limits, g, user)
      then Incremented(g.(starts := g.starts[start := Start(user, false)]), user)
      else g
    case Register(start, id) =>
      if start in g.starts && !g.starts[start].registered
      then g.(kernels := g.kernels + {id}, starts := g.starts[start := Start(g.starts[start].user, true)])
      else g
    case Finish(start, session) => Finished(g, start, session)
    case Fail(start) =>
      if start in g.starts then Decremented(g.(starts := g.starts - {start}), g.starts[start].user) else g
    case Remove(id) =>
      g.(kernels := g.kernels - {id}, table := DeleteSession(g.table, id))
    case Restart(id, connection, processInfo) =>
      if id in g.kernels then g.(table := RefreshSession(g.table, id, connection, processInfo)) else g
    case Check(id, replication, alive) => Checked(g, id, replication, alive)
    case Resume(order, living) => if Resumes(g, order) then Resumed(g, order, living) else g
    case Foreign(id, file) => g.(table := Overwritten(g.table, id, file))
  }

  function Run(limits: Limits, g: State, steps: seq<Step>): State {
    if steps == [] then g
    else Next(limits, Run(limits, g, steps[..|steps| - 1]), steps[|steps| - 1])
  }

  lemma ResumeApplies(limits: Limits, g: State, order: seq<KernelId>, living: set<KernelId>)
    requires Resumes(g, order)
    ensures Next(limits, g, Resume(order, living)) == Resumed(g, order, living)
  {
  }

  // ----- Pending counters -----

  function StartsOf(starts: map<nat, Start>, u: User): set<nat> {
    set i | i in starts && starts[i].user == u
  }

  function Unregistered(starts: map<nat, Start>): set<nat> {
    set i | i in starts && !starts[i].registered
  }

  /** The counters are exact: in total, for each user, and the total is the sum over the users. */
  ghost predicate CountersExact(g: State) {
    && g.pendingAll == |g.starts|
    && (forall u :: PendingOf(g.pendingByUser, u) == |StartsOf(g.starts, u)|)
    && Sum(g.pendingByUser) == g.pendingAll
  }

  lemma StartAdded(starts: map<nat, Start>, start: nat, s: Start, u: User)
    requires start !in starts
    ensures |starts[start := s]| == |starts| + 1
    ensures |StartsOf(starts[start := s], u)| == |StartsOf(starts, u)| + (if u == s.user then 1 else 0)
  {
    var before, after := StartsOf(starts, u), StartsOf(starts[start := s], u);
    forall i
      ensures i in after <==> i in before || (i == start && u == s.user)
    {
    }
    assert start !in before;
    assert after == if u == s.user then before + {start} else before;
  }

  lemma StartRemoved(starts: map<nat, Start>, start: nat, u: User)
    requires start in starts
    ensures |starts - {start}| == |starts| - 1
    ensures |StartsOf(starts - {start}, u)| == |StartsOf(starts, u)| - (if u == starts[start].user then 1 else 0)
  {
    StartAdded(starts - {start}, start, starts[start], u);
    assert (starts - {start})[start := starts[start]] == starts;
  }

  lemma IncrementExact(g: State, start: nat, u: User)
    requires CountersExact(g) && start !in g.starts
    ensures CountersExact(Incremented(g.(starts := g.starts[start := Start(u, false)]), u))
  {
    var s := Start(u, false);
    var pending' := g.pendingByUser[u := PendingOf(g.pendingByUser, u) + 1];
    forall v
      ensures PendingOf(pending', v) == |StartsOf(g.starts[start := s], v)|
    {
      StartAdded(g.starts, start, s, v);
    }
    StartAdded(g.starts, start, s, u);
    SumUpdate(g.pendingByUser, u, PendingOf(g.pendingByUser, u) + 1);
  }

  lemma DecrementExact(g: State, start: nat)
    requires CountersExact(g) && start in g.starts
    ensures CountersExact(Decremented(g.(starts := g.starts - {start}), g.starts[start].user))
  {
    var u := g.starts[start].user;
    var pending' := g.pendingByUser[u := PendingOf(g.pendingByUser, u) - 1];
    forall v
      ensures PendingOf(pending', v) == |StartsOf(g.starts - {start}, v)|
    {
      StartRemoved(g.starts, start, v);
    }
    StartRemoved(g.starts, start, u);
    SumUpdate(g.pendingByUser, u, PendingOf(g.pendingByUser, u) - 1);
  }

  lemma RegisterExact(g: State, start: nat, id: KernelId)
    requires CountersExact(g) && start in g.starts && !g.starts[start].registered
    ensures var g' := g.(kernels := g.kernels + {id}, starts := g.starts[start := Start(g.starts[start].user, true)]);
      CountersExact(g') && |Unregistered(g'.starts)| == |Unregistered(g.starts)| - 1
  {
    var starts' := g.starts[start := Start(g.starts[start].user, true)];
    assert forall v :: StartsOf(starts', v) == StartsOf(g.starts, v);
    assert starts'.Keys == g.starts.Keys;
    assert Unregistered(starts') == Unregistered(g.starts) - {start};
  }

  lemma AdmitKeepsCounters(limits: Limits, g: State, start: nat, user: User)
    requires CountersExact(g)
    ensures CountersExact(Next(limits, g, Admit(start, user)))
  {
    if start !in g.starts {
      IncrementExact(g, start, user);
    }
  }

  lemma RegisterKeepsCounters(limits: Limits, g: State, start: nat, id: KernelId)
    requires CountersExact(g)
    ensures CountersExact(Next(limits, g, Register(start, id)))
  {
    if start in g.starts && !g.starts[start].registered {
      RegisterExact(g, start, id);
    }
  }

  lemma FailKeepsCounters(limits: Limits, g: State, start: nat)
    requires CountersExact(g)
    ensures CountersExact(Next(limits, g, Fail(start)))
  {
    if start in g.starts {
      DecrementExact(g, start);
    }
  }

  lemma NextKeepsCounters(limits: Limits, g: State, step: Step)
    requires CountersExact(g)
    ensures CountersExact(Next(limits, g, step))
  {
    match step
    case Admit(start, user) => AdmitKeepsCounters(limits, g, start, user);
    case Register(start, id) => RegisterKeepsCounters(limits, g, start, id);
    case Finish(start, session) => FinishKeepsCounters(g, start, session);
    case Fail(start) => FailKeepsCounters(limits, g, start);
    case _ => SameCounters(g, Next(limits, g, step));
  }

  lemma FinishKeepsCounters(g: State, start: nat, session: Session)
    requires CountersExact(g)
    ensures CountersExact(Finished(g, start, session))
  {
    if start in g.starts {
      DecrementExact(g, start);
      SameCounters(Decremented(g.(starts := g.starts - {start}), g.starts[start].user), Finished(g, start, session));
    }
  }

  lemma SameCounters(g: State, g': State)
    requires CountersExact(g)
    requires g'.pendingAll == g.pendingAll && g'.pendingByUser == g.pendingByUser && g'.starts == g.starts
    ensures CountersExact(g')
  {
  }

  /**
   * In every interleaving, the pending total is the number of starts in flight and the sum of the
   * per-user counters, each of which is the number of that user's starts; so all are zero at rest.
   */
  lemma {:induction false} PendingCountsStarts(
      limits: Limits, files: map<KernelId, File>, persistent: bool, steps: seq<Step>)
    ensures var g := Run(limits, Initial(files, persistent), steps);
      && CountersExact(g)
      && (g.starts == map[] ==> g.pendingAll == 0 && forall u :: PendingOf(g.pendingByUser, u) == 0)
  {
    if steps == [] {
      assert forall u :: StartsOf(map[], u) == {};
    } else {
      PendingCountsStarts(limits, files, persistent, steps[..|steps| - 1]);
      NextKeepsCounters(limits, Run(limits, Initial(files, persistent), steps[..|steps| - 1]), steps[|steps| - 1]);
    }
    assert forall u :: StartsOf(map[], u) == {};
  }

  // ----- Index, files and registry over whole runs -----

  /**
   * The end of a start does not create a session whose id is live under another user, nor does another
   * gateway store one, or one under another id.
   */
  predicate KeepsOwner(g: State, step: Step) {
    && (step.Finish? && step.start in g.starts && step.session.kernelId in g.kernels ==>
          CreateKeepsOwner(g.table, step.session.(username := g.starts[step.start].user)))
    && (step.Foreign? && step.file.Some? && Loaded(step.file.value).Some? ==>
          var s := Loaded(step.file.value).value;
          s.kernelId == step.id && CreateKeepsOwner(g.table, s))
  }

  predicate NeverTakesOver(limits: Limits, g: State, steps: seq<Step>) {
    steps == [] ||
    (var init, last := steps[..|steps| - 1], steps[|steps| - 1];
     NeverTakesOver(limits, g, init) && KeepsOwner(Run(limits, g, init), last))
  }

  ghost predicate TableSound(t: Table) {
    WellKeyed(t) && FilesAgree(t) && SubIndex(t)
  }

  lemma {:induction false} DeadAre(order: seq<KernelId>, living: set<KernelId>)
    ensures Elements(Dead(order, living)) == Elements(order) - living
  {
    if order == [] {
    } else {
      var init, last := order[..|order| - 1], order[|order| - 1];
      DeadAre(init, living);
      assert order == init + [last];
      ElementsAppend(init, last);
      ElementsAppend(Dead(init, living), last);
    }
  }

  lemma ForeignKeepsTable(g: State, id: KernelId, file: Option<File>)
    requires TableSound(g.table) && KeepsOwner(g, Foreign(id, file))
    ensures TableSound(Overwritten(g.table, id, file))
  {
    var t, t' := g.table, Overwritten(g.table, id, file);
    assert forall u :: Owned(t', u) == Owned(t, u);
  }

  lemma CheckKeepsTable(g: State, id: KernelId, replication: bool, alive: bool)
    requires TableSound(g.table)
    ensures TableSound(Checked(g, id, replication, alive).table)
  {
    ApplyKeepsIndex(g.table, Load(id));
    ApplyKeepsIndex(Looked(g.table, id, replication), Delete([id]));
  }

  lemma ResumeKeepsTable(g: State, order: seq<KernelId>, living: set<KernelId>)
    requires TableSound(g.table)
    ensures TableSound(Resumed(g, order, living).table)
  {
    ApplyKeepsIndex(g.table, LoadAll);
    ApplyKeepsIndex(LoadSessions(g.table), Delete(Dead(order, living)));
  }

  lemma NextKeepsTable(limits: Limits, g: State, step: Step)
    requires TableSound(g.table) && KeepsOwner(g, step)
    ensures TableSound(Next(limits, g, step).table)
  {
    match step
    case Finish(start, session) =>
      if start in g.starts && session.kernelId in g.kernels {
        ApplyKeepsIndex(g.table, Create(session.(username := g.starts[start].user)));
      }
    case Remove(id) =>
      ApplyKeepsIndex(g.table, Delete([id]));
    case Restart(id, connection, processInfo) =>
      ApplyKeepsIndex(g.table, Refresh(id, connection, processInfo));
    case Check(id, replication, alive) =>
      CheckKeepsTable(g, id, replication, alive);
    case Resume(order, living) =>
      ResumeKeepsTable(g, order, living);
    case Foreign(id, file) =>
      ForeignKeepsTable(g, id, file);
    case _ =>
  }

  lemma DeletedSessions(t: Table, ids: seq<KernelId>)
    ensures DeleteSessions(t, ids).sessions == t.sessions - Elements(ids)
    ensures t.persistent ==> DeleteSessions(t, ids).files == t.files - Elements(ids)
    ensures DeleteSessions(t, ids).persistent == t.persistent
  {
    ForgetAll(t, ids);
  }

  lemma CheckKeepsRegistry(g: State, id: KernelId, replication: bool, alive: bool)
    requires WellKeyed(g.table) && g.table.sessions.Keys <= g.kernels
    ensures Checked(g, id, replication, alive).table.sessions.Keys <= Checked(g, id, replication, alive).kernels
  {
    var t := Looked(g.table, id, replication);
    DeletedSessions(t, [id]);
    assert t.sessions.Keys <= g.kernels + {id};
    assert Elements([id]) == {id};
  }

  lemma ResumeKeepsRegistry(g: State, order: seq<KernelId>, living: set<KernelId>)
    requires WellKeyed(g.table) && g.table.sessions.Keys <= g.kernels && Resumes(g, order)
    ensures Resumed(g, order, living).table.sessions.Keys <= Resumed(g, order, living).kernels
  {
    var t := LoadSessions(g.table);
    DeletedSessions(t, Dead(order, living));
    DeadAre(order, living);
    forall id | id in t.sessions && id in living
      ensures id in Revived(t, living)
    {
      assert t.sessions[id].kernelId == id;
    }
  }

  lemma NextKeepsRegistry(limits: Limits, g: State, step: Step)
    requires WellKeyed(g.table) && g.table.sessions.Keys <= g.kernels
    ensures Next(limits, g, step).table.sessions.Keys <= Next(limits, g, step).kernels
  {
    match step
    case Remove(id) =>
      DeletedSessions(g.table, [id]);
    case Check(id, replication, alive) =>
      CheckKeepsRegistry(g, id, replication, alive);
    case Resume(order, living) =>
      if Resumes(g, order) {
        ResumeKeepsRegistry(g, order, living);
        ResumeApplies(limits, g, order, living);
      }
    case _ =>
  }

  lemma {:induction false} RunKeepsTables(
      limits: Limits, files: map<KernelId, File>, persistent: bool, steps: seq<Step>)
    requires WellKeyed(Fresh(files, persistent))
    requires NeverTakesOver(limits, Initial(files, persistent), steps)
    ensures var g := Run(limits, Initial(files, persistent), steps);
      TableSound(g.table) && g.table.sessions.Keys <= g.kernels
  {
    if steps == [] {
    } else {
      RunKeepsTables(limits, files, persistent, steps[..|steps| - 1]);
      var g := Run(limits, Initial(files, persistent), steps[..|steps| - 1]);
      NextKeepsTable(limits, g, steps[|steps| - 1]);
      NextKeepsRegistry(limits, g, steps[|steps| - 1]);
    }
  }

  predicate Gone(t: Table, id: KernelId, u: User) {
    id !in t.sessions && id !in Listed(t.byUser, u) && (t.persistent ==> id !in t.files)
  }

  /**
   * After any run, the lookup of an id ends with its kernel registered, or with the id gone from the
   * session map, from every user's list and, with persistence, from the files.
   */
  lemma CheckFindsOrForgets(
      limits: Limits, files: map<KernelId, File>, persistent: bool, steps: seq<Step>,
      id: KernelId, replication: bool, alive: bool, u: User)
    requires WellKeyed(Fresh(files, persistent))
    requires NeverTakesOver(limits, Initial(files, persistent), steps)
    ensures var g := Checked(Run(limits, Initial(files, persistent), steps), id, replication, alive);
      id in g.kernels || Gone(g.table, id, u)
  {
    RunKeepsTables(limits, files, persistent, steps);
    var g := Run(limits, Initial(files, persistent), steps);
    NextKeepsTable(limits, g, Check(id, replication, alive));
    var t := Looked(g.table, id, replication);
    DeletedSessions(t, [id]);
    if id !in g.kernels && !Revives(g.table, id, replication, alive) {
      var t' := DeleteSession(t, id);
      assert Checked(g, id, replication, alive).table == t';
      assert id in Elements([id]);
      assert id !in Owned(t', u);
      assert Elements(Listed(t'.byUser, u)) <= Owned(t', u);
      assert id !in Elements(Listed(t'.byUser, u));
    } else if id !in g.kernels {
      ApplyKeepsIndex(g.table, Load(id));
      assert t.sessions[id].kernelId == id;
    }
  }

  /**
   * Start-up from the files of an earlier gateway: the live sessions are the readable ones whose kernel
   * answered, each registered; of the files only those of readable sessions that did not answer are gone.
   */
  lemma ResumeKeepsTheLiving(files: map<KernelId, File>, order: seq<KernelId>, living: set<KernelId>)
    requires WellKeyed(Fresh(files, true))
    requires Enumerates(order, Readable(files).Keys)
    ensures var g := Resumed(Initial(files, true), order, living);
      && g.kernels == g.table.sessions.Keys == Readable(files).Keys * living
      && (forall id :: id in g.table.sessions ==> g.table.sessions[id] == Readable(files)[id])
      && g.table.files == files - (Readable(files).Keys - living)
  {
    var t := Table(Readable(files), map[], files, true);
    FreshLoads(files);
    ResumedFromFresh(t, order, living);
  }

  lemma FreshLoads(files: map<KernelId, File>)
    ensures LoadSessions(Fresh(files, true)) == Table(Readable(files), map[], files, true)
    ensures WellKeyed(Fresh(files, true)) ==> WellKeyed(Table(Readable(files), map[], files, true))
  {
    assert map[] + Readable(files) == Readable(files);
  }

  lemma ResumedFromFresh(t: Table, order: seq<KernelId>, living: set<KernelId>)
    requires WellKeyed(t) && t.persistent && LoadSessions(Fresh(t.files, true)) == t
    requires Enumerates(order, t.sessions.Keys)
    ensures var g := Resumed(Initial(t.files, true), order, living);
      && g.kernels == g.table.sessions.Keys == t.sessions.Keys * living
      && (forall id :: id in g.table.sessions ==> g.table.sessions[id] == t.sessions[id])
      && g.table.files == t.files - (t.sessions.Keys - living)
  {
    DeadDeleted(t, order, living);
    RevivedAre(t, living);
    assert {} + Revived(t, living) == Revived(t, living);
  }

  lemma DeadDeleted(t: Table, order: seq<KernelId>, living: set<KernelId>)
    requires t.persistent && Enumerates(order, t.sessions.Keys)
    ensures var t' := DeleteSessions(t, Dead(order, living));
      && t'.sessions.Keys == t.sessions.Keys * living
      && (forall id :: id in t'.sessions ==> t'.sessions[id] == t.sessions[id])
      && t'.files == t.files - (t.sessions.Keys - living)
  {
    DeadAre(order, living);
    DeletedSessions(t, Dead(order, living));
  }

  lemma RevivedAre(t: Table, living: set<KernelId>)
    requires forall id :: id in t.sessions ==> t.sessions[id].kernelId == id
    ensures Revived(t, living) == t.sessions.Keys * living
  {
  }

  // ----- What the guards rule out -----

  /**
   * An id created again under another user while live leaves the first user's slot taken for good: after
   * both sessions are gone the first user still counts one active session.
   */
  lemma TakeoverLeaksASlot(s: Session, other: User)
    requires other != s.username
    ensures var t := DeleteSession(
                       SaveSession(SaveSession(Fresh(map[], false), s.kernelId, s), s.kernelId, s.(username := other)),
                       s.kernelId);
      s.kernelId !in t.sessions && ActiveSessions(t, s.username) == 1
  {
    var t1 := SaveSession(Fresh(map[], false), s.kernelId, s);
    var t2 := SaveSession(t1, s.kernelId, s.(username := other));
    assert [s.kernelId][..0] == [];
    assert ForgetSessions(t2, [s.kernelId]) == ForgetSession(t2, s.kernelId);
    assert Listed(ForgetSession(t2, s.kernelId).byUser, s.username) == [s.kernelId];
  }
}
