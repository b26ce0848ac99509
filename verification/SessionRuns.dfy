/** Whole runs of the session manager: what its index and its files say after any sequence of operations. */
module SessionRuns {
  import opened Collections
  import opened Ids
  import opened Sessions

  datatype Op =
    | Create(session: Session)
    | Refresh(id: KernelId, connection: Fields, processInfo: Fields)
    | Delete(ids: seq<KernelId>)
    | Load(id: KernelId)
    | LoadAll

  function Apply(t: Table, op: Op): Table {
    match op
    case Create(s) => SaveSession(t, s.kernelId, s)
    case Refresh(id, connection, processInfo) => RefreshSession(t, id, connection, processInfo)
    case Delete(ids) => DeleteSessions(t, ids)
    case Load(id) => LoadSession(t, id)
    case LoadAll => LoadSessions(t)
  }

  function Run(t: Table, ops: seq<Op>): Table {
    if ops == [] then t else Apply(Run(t, ops[..|ops| - 1]), ops[|ops| - 1])
  }

  function Fresh(files: map<KernelId, File>, persistent: bool): Table {
    Table(map[], map[], files, persistent)
  }

  /** No operation of the run creates an id that is live under another user. */
  predicate NeverTakesOver(t: Table, ops: seq<Op>) {
    ops == [] ||
    (var init, last := ops[..|ops| - 1], ops[|ops| - 1];
     NeverTakesOver(t, init) && (last.Create? ==> CreateKeepsOwner(Run(t, init), last.session)))
  }

  predicate CreateKeepsOwner(t: Table, s: Session) {
    s.kernelId in t.sessions ==> t.sessions[s.kernelId].username == s.username
  }

  predicate NoLoads(ops: seq<Op>) {
    forall i :: 0 <= i < |ops| ==> !ops[i].Load? && !ops[i].LoadAll?
  }

  // ----- The index over runs -----

  /** Entries sit under their own kernel id, in memory and in the files. */
  ghost predicate WellKeyed(t: Table) {
    && (forall id :: id in t.sessions ==> t.sessions[id].kernelId == id)
    && (forall id :: id in t.files && Loaded(t.files[id]).Some? ==> Loaded(t.files[id]).value.kernelId == id)
  }

  /** Where a session is both in memory and in a readable file, both name the same user. */
  ghost predicate FilesAgree(t: Table) {
    forall id :: t.persistent && id in t.sessions && id in t.files && Loaded(t.files[id]).Some? ==>
      Loaded(t.files[id]).value.username == t.sessions[id].username
  }

  lemma WrittenKeepsOwner(s: Session)
    requires Loaded(Written(s)).Some?
    ensures Loaded(Written(s)).value.username == s.username
    ensures Loaded(Written(s)).value.kernelId == s.kernelId
  {
  }

  lemma SaveAgrees(t: Table, s: Session)
    requires WellKeyed(t) && FilesAgree(t)
    ensures WellKeyed(SaveSession(t, s.kernelId, s)) && FilesAgree(SaveSession(t, s.kernelId, s))
  {
    if Loaded(Written(s)).Some? {
      WrittenKeepsOwner(s);
    }
  }

  lemma LoadKeepsIndex(t: Table, t': Table)
    requires WellKeyed(t) && FilesAgree(t) && SubIndex(t)
    requires t' == LoadSessions(t) || exists id :: t' == LoadSession(t, id)
    ensures WellKeyed(t') && FilesAgree(t') && SubIndex(t')
  {
    assert t'.byUser == t.byUser && t'.files == t.files && t'.persistent == t.persistent;
    forall id | id in t.sessions
      ensures id in t'.sessions && t'.sessions[id].username == t.sessions[id].username
    {
      if t.persistent && id in t.files && Loaded(t.files[id]).Some? {
        assert id in Readable(t.files);
      }
    }
    forall u
      ensures NoDup(Listed(t'.byUser, u)) && Elements(Listed(t'.byUser, u)) <= Owned(t', u)
    {
      assert Owned(t, u) <= Owned(t', u);
    }
  }

  lemma ApplyKeepsIndex(t: Table, op: Op)
    requires WellKeyed(t) && FilesAgree(t) && SubIndex(t)
    requires op.Create? ==> CreateKeepsOwner(t, op.session)
    ensures var t' := Apply(t, op);
      && WellKeyed(t') && FilesAgree(t') && SubIndex(t') && t'.persistent == t.persistent
      && (ExactIndex(t) && !op.Load? && !op.LoadAll? ==> ExactIndex(t'))
  {
    match op
    case Create(s) =>
      SaveAgrees(t, s);
      SaveKeepsSubIndex(t, s.kernelId, s);
      if ExactIndex(t) {
        SaveKeepsExactIff(t, s.kernelId, s);
      }
    case Refresh(id, connection, processInfo) =>
      if id in t.sessions {
        var s := Refreshed(t, id, connection, processInfo);
        SaveAgrees(t, s);
        SaveKeepsSubIndex(t, id, s);
        if ExactIndex(t) {
          SaveKeepsExactIff(t, id, s);
        }
      }
    case Delete(ids) =>
      ForgetAll(t, ids);
      DeletedIndex(t, ids);
    case Load(id) =>
      LoadKeepsIndex(t, Apply(t, op));
    case LoadAll =>
      LoadKeepsIndex(t, Apply(t, op));
  }

  /** The index predicates look only at the session map and the lists. */
  lemma DeletedIndex(t: Table, ids: seq<KernelId>)
    ensures SubIndex(ForgetSessions(t, ids)) ==> SubIndex(DeleteSessions(t, ids))
    ensures ExactIndex(ForgetSessions(t, ids)) ==> ExactIndex(DeleteSessions(t, ids))
    ensures ListsNoDup(ForgetSessions(t, ids)) ==> ListsNoDup(DeleteSessions(t, ids))
  {
    var forgot, deleted := ForgetSessions(t, ids), DeleteSessions(t, ids);
    assert deleted.sessions == forgot.sessions && deleted.byUser == forgot.byUser;
    assert forall u :: Owned(deleted, u) == Owned(forgot, u);
  }

  lemma {:induction false} RunKeepsIndex(files: map<KernelId, File>, persistent: bool, ops: seq<Op>)
    requires WellKeyed(Fresh(files, persistent)) && NeverTakesOver(Fresh(files, persistent), ops)
    ensures var t := Run(Fresh(files, persistent), ops);
      WellKeyed(t) && FilesAgree(t) && SubIndex(t) && (NoLoads(ops) ==> ExactIndex(t))
  {
    if ops == [] {
    } else {
      var init := ops[..|ops| - 1];
      RunKeepsIndex(files, persistent, init);
      assert NoLoads(ops) ==> NoLoads(init);
      ApplyKeepsIndex(Run(Fresh(files, persistent), init), ops[|ops| - 1]);
    }
  }

  /**
   * Over all runs in which no id is taken over from another user: without loads `ActiveSessions` is the
   * number of the user's live sessions; with loads it is at most that.
   */
  lemma ActiveSessionsOverRuns(files: map<KernelId, File>, persistent: bool, ops: seq<Op>, u: User)
    requires WellKeyed(Fresh(files, persistent)) && NeverTakesOver(Fresh(files, persistent), ops)
    ensures var t := Run(Fresh(files, persistent), ops);
      && ActiveSessions(t, u) <= |Owned(t, u)|
      && (NoLoads(ops) ==> ActiveSessions(t, u) == |Owned(t, u)|)
  {
    RunKeepsIndex(files, persistent, ops);
    var t := Run(Fresh(files, persistent), ops);
    ActiveSessionsBounded(t, u);
    if NoLoads(ops) {
      ActiveSessionsCounts(t, u);
    }
  }

  /**
   * The ids that a run brought in by a load while they were not live, and that were not created, refreshed
   * or deleted since.
   */
  function Uncounted(t: Table, ops: seq<Op>): set<KernelId> {
    if ops == [] then {}
    else
      var (init, op) := (ops[..|ops| - 1], ops[|ops| - 1]);
      var (before, ids) := (Run(t, init), Uncounted(t, init));
      match op
      case Create(s) => ids - {s.kernelId}
      case Refresh(id, _, _) => if id in before.sessions then ids - {id} else ids
      case Delete(gone) => ids - Elements(gone)
      case Load(_) => ids + (Apply(before, op).sessions.Keys - before.sessions.Keys)
      case LoadAll => ids + (Apply(before, op).sessions.Keys - before.sessions.Keys)
  }

  /** The live sessions of `u` that its list does not count. */
  function Missed(t: Table, u: User): set<KernelId> {
    Owned(t, u) - Elements(Listed(t.byUser, u))
  }

  lemma SaveMisses(t: Table, id: KernelId, s: Session, u: User)
    requires NoDup(Listed(t.byUser, u))
    ensures Missed(SaveSession(t, id, s), u) == Missed(t, u) - {id}
    ensures Owned(SaveSession(t, id, s), u) - {id} == Owned(t, u) - {id}
  {
    IndexedLists(t.byUser, s.username, id, u);
    SavedOwned(t, id, s, u);
  }

  lemma ForgetMisses(t: Table, id: KernelId, u: User)
    requires NoDup(Listed(t.byUser, u))
    ensures Missed(ForgetSession(t, id), u) == Missed(t, u) - {id}
  {
    ForgottenLists(t, id, u);
    ForgottenOwned(t, id, u);
  }

  lemma {:induction false} DeleteMisses(t: Table, ids: seq<KernelId>, u: User)
    requires ListsNoDup(t)
    ensures Missed(ForgetSessions(t, ids), u) == Missed(t, u) - Elements(ids)
    ensures Owned(ForgetSessions(t, ids), u) == Owned(t, u) - Elements(ids)
  {
    if ids == [] {
    } else {
      var init, last := ids[..|ids| - 1], ids[|ids| - 1];
      DeleteMisses(t, init, u);
      ForgetAll(t, init);
      assert NoDup(Listed(ForgetSessions(t, init).byUser, u));
      ForgetMisses(ForgetSessions(t, init), last, u);
      ForgottenOwned(ForgetSessions(t, init), last, u);
      assert ids == init + [last];
      ElementsAppend(init, last);
    }
  }

  /** A load changes no live session's user, and lists nothing. */
  lemma LoadMisses(t: Table, t': Table, u: User)
    requires FilesAgree(t) && SubIndex(t)
    requires t' == LoadSessions(t) || exists id :: t' == LoadSession(t, id)
    ensures Owned(t, u) == Owned(t', u) * t.sessions.Keys
    ensures Missed(t', u) == Missed(t, u) + (Owned(t', u) - t.sessions.Keys)
  {
    forall id | id in t.sessions
      ensures id in t'.sessions && t'.sessions[id].username == t.sessions[id].username
    {
      if t.persistent && id in t.files && Loaded(t.files[id]).Some? {
        assert id in Readable(t.files);
      }
    }
    assert Elements(Listed(t.byUser, u)) <= Owned(t, u) <= t.sessions.Keys;
  }

  lemma ApplyMisses(t: Table, op: Op, ids: set<KernelId>, ids': set<KernelId>, u: User)
    requires FilesAgree(t) && SubIndex(t)
    requires Missed(t, u) == Owned(t, u) * ids && ids <= t.sessions.Keys
    requires ids' == match op
             case Create(s) => ids - {s.kernelId}
             case Refresh(id, _, _) => if id in t.sessions then ids - {id} else ids
             case Delete(gone) => ids - Elements(gone)
             case Load(_) => ids + (Apply(t, op).sessions.Keys - t.sessions.Keys)
             case LoadAll => ids + (Apply(t, op).sessions.Keys - t.sessions.Keys)
    ensures Missed(Apply(t, op), u) == Owned(Apply(t, op), u) * ids'
    ensures ids' <= Apply(t, op).sessions.Keys
  {
    assert NoDup(Listed(t.byUser, u));
    match op
    case Create(s) =>
      SaveMisses(t, s.kernelId, s, u);
      SplitOff(Missed(t, u), Owned(t, u), Owned(Apply(t, op), u), ids, s.kernelId);
    case Refresh(id, connection, processInfo) =>
      if id in t.sessions {
        SaveMisses(t, id, Refreshed(t, id, connection, processInfo), u);
        SplitOff(Missed(t, u), Owned(t, u), Owned(Apply(t, op), u), ids, id);
      }
    case Delete(gone) =>
      DeleteMisses(t, gone, u);
      ForgetAll(t, gone);
      assert Owned(DeleteSessions(t, gone), u) == Owned(ForgetSessions(t, gone), u);
    case Load(id) =>
      LoadMisses(t, Apply(t, op), u);
    case LoadAll =>
      LoadMisses(t, Apply(t, op), u);
  }

  lemma SplitOff(missed: set<KernelId>, owned: set<KernelId>, owned': set<KernelId>, ids: set<KernelId>, id: KernelId)
    requires missed == owned * ids && owned' - {id} == owned - {id}
    ensures missed - {id} == owned' * (ids - {id})
  {
    assert owned' * (ids - {id}) == (owned' - {id}) * ids;
  }

  lemma {:induction false} RunMisses(files: map<KernelId, File>, persistent: bool, ops: seq<Op>, u: User)
    requires WellKeyed(Fresh(files, persistent)) && NeverTakesOver(Fresh(files, persistent), ops)
    ensures var t := Run(Fresh(files, persistent), ops);
      && Missed(t, u) == Owned(t, u) * Uncounted(Fresh(files, persistent), ops)
      && Uncounted(Fresh(files, persistent), ops) <= t.sessions.Keys
  {
    if ops == [] {
    } else {
      var init, t0 := ops[..|ops| - 1], Fresh(files, persistent);
      RunMisses(files, persistent, init, u);
      RunKeepsIndex(files, persistent, init);
      ApplyMisses(Run(t0, init), ops[|ops| - 1], Uncounted(t0, init), Uncounted(t0, ops), u);
    }
  }

  /**
   * Over all runs without takeovers, with loads or without: the count is short of the user's live sessions
   * by exactly those that were loaded and not saved since, so it is right if and only if there are none.
   */
  lemma CountIsShortByUncounted(files: map<KernelId, File>, persistent: bool, ops: seq<Op>, u: User)
    requires WellKeyed(Fresh(files, persistent)) && NeverTakesOver(Fresh(files, persistent), ops)
    ensures var t := Run(Fresh(files, persistent), ops);
      var uncounted := Owned(t, u) * Uncounted(Fresh(files, persistent), ops);
      && ActiveSessions(t, u) == |Owned(t, u)| - |uncounted|
      && (ActiveSessions(t, u) == |Owned(t, u)| <==> uncounted == {})
  {
    RunMisses(files, persistent, ops, u);
    RunKeepsIndex(files, persistent, ops);
    var t := Run(Fresh(files, persistent), ops);
    var listed := Elements(Listed(t.byUser, u));
    assert NoDup(Listed(t.byUser, u)) && listed <= Owned(t, u);
    NoDupCardinality(Listed(t.byUser, u));
    assert Owned(t, u) == listed + Missed(t, u);
  }

  /** A loaded session is live but not counted: a load is why the inverse is only a sub-index. */
  lemma LoadedSessionIsNotCounted(s: Session)
    requires Saveable(s)
    ensures var t := Run(Fresh(map[s.kernelId := Written(s)], true), [LoadAll]);
      s.kernelId in Owned(t, s.username) && ActiveSessions(t, s.username) == 0
  {
    SavedLoadsBackIffSaveable(s);
    var t0 := Fresh(map[s.kernelId := Written(s)], true);
    assert [LoadAll][..0] == [];
    assert Run(t0, [LoadAll]) == LoadSessions(t0);
    assert s.kernelId in Readable(t0.files);
  }

  // ----- The files over runs -----

  /** A table together with the sessions last handed to the save operation, before the hook rewrote them. */
  datatype Tracked = Tracked(table: Table, handed: map<KernelId, Session>)

  function Track(x: Tracked, op: Op): Tracked {
    Tracked(
      Apply(x.table, op),
      match op
      case Create(s) => x.handed[s.kernelId := s]
      case Refresh(id, connection, processInfo) =>
        if id in x.table.sessions then x.handed[id := Refreshed(x.table, id, connection, processInfo)] else x.handed
      case Delete(ids) => x.handed - Elements(ids)
      case Load(_) => x.handed
      case LoadAll => x.handed)
  }

  function TrackRun(ops: seq<Op>): Tracked {
    if ops == [] then Tracked(Fresh(map[], true), map[])
    else Track(TrackRun(ops[..|ops| - 1]), ops[|ops| - 1])
  }

  lemma {:induction false} TrackRunIsRun(ops: seq<Op>)
    ensures TrackRun(ops).table == Run(Fresh(map[], true), ops)
  {
    if ops == [] {
    } else {
      TrackRunIsRun(ops[..|ops| - 1]);
    }
  }

  /** Memory and files hold the same ids, and each file is what saving the handed session writes. */
  ghost predicate FilesTrack(x: Tracked) {
    && x.table.persistent
    && x.table.sessions.Keys == x.handed.Keys
    && x.table.files.Keys == x.handed.Keys
    && (forall id :: id in x.handed ==>
          && x.table.files[id] == Written(x.handed[id])
          && x.table.sessions[id] in {x.handed[id], Rewritten(x.handed[id])})
  }

  lemma LoadedIsHanded(s: Session)
    requires Loaded(Written(s)).Some?
    ensures Loaded(Written(s)) == Some(s)
  {
    var key := "key";
    if key in s.connection && Truthy(s.connection[key]) {
      var b := s.connection[key].bytes;
      Utf8.EncodeDecode(b);
      var text := Utf8.Decode(b).value;
      assert text != "";
      assert s.connection[key := Text(text)][key := Data(Utf8.Encode(text))] == s.connection;
    }
  }

  lemma LoadTracks(x: Tracked, op: Op)
    requires FilesTrack(x) && (op.Load? || op.LoadAll?)
    ensures FilesTrack(Track(x, op))
  {
    forall id | id in x.handed && Loaded(x.table.files[id]).Some?
      ensures Loaded(x.table.files[id]) == Some(x.handed[id])
    {
      LoadedIsHanded(x.handed[id]);
    }
    assert Readable(x.table.files).Keys <= x.handed.Keys;
    assert Track(x, op).table.sessions.Keys == x.handed.Keys;
  }

  lemma DeleteTracks(x: Tracked, ids: seq<KernelId>)
    requires FilesTrack(x)
    ensures FilesTrack(Track(x, Delete(ids)))
  {
    ForgetAll(x.table, ids);
  }

  lemma {:induction false} RunTracks(ops: seq<Op>)
    ensures FilesTrack(TrackRun(ops))
  {
    if ops == [] {
    } else {
      var op := ops[|ops| - 1];
      RunTracks(ops[..|ops| - 1]);
      var x := TrackRun(ops[..|ops| - 1]);
      match op
      case Create(s) =>
      case Refresh(id, connection, processInfo) =>
      case Delete(ids) => DeleteTracks(x, ids);
      case Load(_) => LoadTracks(x, op);
      case LoadAll => LoadTracks(x, op);
    }
  }

  /** The sessions a new manager holds after loading `files`. */
  function LoadedByFreshManager(files: map<KernelId, File>): map<KernelId, Session> {
    LoadSessions(Fresh(files, true)).sessions
  }

  /**
   * With persistence on, after every run: the stored ids are the live ids, and a fresh manager gets a
   * session back exactly when the session last handed over was saveable, and then just as it was handed.
   */
  lemma FilesRecoverEveryRun(ops: seq<Op>)
    ensures var x := TrackRun(ops);
      && x.table.files.Keys == x.table.sessions.Keys == x.handed.Keys
      && (forall id :: id in LoadedByFreshManager(x.table.files) <==> id in x.handed && Saveable(x.handed[id]))
      && (forall id :: id in LoadedByFreshManager(x.table.files) ==>
            LoadedByFreshManager(x.table.files)[id] == x.handed[id])
  {
    RunTracks(ops);
    var x := TrackRun(ops);
    forall id | id in x.handed
      ensures Loaded(x.table.files[id]) == if Saveable(x.handed[id]) then Some(x.handed[id]) else None
    {
      HandedLoadsBack(x.handed[id]);
    }
    FreshManagerLoads(x.table.files);
  }

  lemma FreshManagerLoads(files: map<KernelId, File>)
    ensures forall id :: id in LoadedByFreshManager(files) <==> id in files && Loaded(files[id]).Some?
    ensures forall id :: id in LoadedByFreshManager(files) ==>
              LoadedByFreshManager(files)[id] == Loaded(files[id]).value
  {
    assert LoadedByFreshManager(files) == Readable(files);
  }

  lemma HandedLoadsBack(s: Session)
    ensures Loaded(Written(s)) == if Saveable(s) then Some(s) else None
  {
    SavedLoadsBackIffSaveable(s);
    if Loaded(Written(s)).Some? {
      LoadedIsHanded(s);
    }
  }
}
