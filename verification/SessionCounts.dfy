/**
 * What `ActiveSessions` counts on every run at all, ids taken over from another user included: it misses
 * sessions that were loaded and not saved since, and it keeps counting ids that another user took over.
 */
module SessionCounts {
  import opened Collections
  import opened Ids
  import opened Sessions
  import opened SessionRuns

  /** Live sessions that no list counts, and list entries that stand for no session of their user. */
  datatype Debt = Debt(uncounted: set<KernelId>, stale: set<(User, KernelId)>)

  const NO_DEBT := Debt({}, {})

  /** Saving lists the id under its user; the user it was live and listed under before keeps its entry. */
  function SavedDebt(t: Table, d: Debt, id: KernelId, u: User): Debt {
    var left := if id in t.sessions && t.sessions[id].username != u && id !in d.uncounted
      then {(t.sessions[id].username, id)} else {};
    Debt(d.uncounted - {id}, d.stale + left - {(u, id)})
  }

  /** A load lists nothing: an id it brings in is counted only if its user still has an entry for it. */
  function LoadedDebt(t: Table, t': Table, d: Debt): Debt {
    var brought := set id | id in t'.sessions && id !in t.sessions :: (t'.sessions[id].username, id);
    Debt(d.uncounted + (set entry | entry in brought - d.stale :: entry.1), d.stale - brought)
  }

  function DebtAfter(t: Table, d: Debt, op: Op): Debt {
    match op
    case Create(s) => SavedDebt(t, d, s.kernelId, s.username)
    case Refresh(id, _, _) => if id in t.sessions then SavedDebt(t, d, id, t.sessions[id].username) else d
    case Delete(ids) => d.(uncounted := d.uncounted - Elements(ids))
    case Load(_) => LoadedDebt(t, Apply(t, op), d)
    case LoadAll => LoadedDebt(t, Apply(t, op), d)
  }

  function DebtOf(t: Table, ops: seq<Op>): Debt {
    if ops == [] then NO_DEBT
    else DebtAfter(Run(t, ops[..|ops| - 1]), DebtOf(t, ops[..|ops| - 1]), ops[|ops| - 1])
  }

  function StaleOf(d: Debt, u: User): set<KernelId> {
    set entry | entry in d.stale && entry.0 == u :: entry.1
  }

  /** List entries of `u` that stand for no live session of `u`. */
  function Extra(t: Table, u: User): set<KernelId> {
    Elements(Listed(t.byUser, u)) - Owned(t, u)
  }

  /** The debt says, for every user, what the list misses and what it counts too much. */
  ghost predicate Accounted(t: Table, d: Debt, u: User) {
    Missed(t, u) == Owned(t, u) * d.uncounted && Extra(t, u) == StaleOf(d, u)
  }

  ghost predicate Sound(t: Table) {
    WellKeyed(t) && FilesAgree(t) && ListsNoDup(t)
  }

  // ----- What every operation keeps -----

  lemma SaveKeepsSound(t: Table, s: Session)
    requires Sound(t)
    ensures Sound(SaveSession(t, s.kernelId, s))
  {
    SaveAgrees(t, s);
    var t' := SaveSession(t, s.kernelId, s);
    forall u
      ensures NoDup(Listed(t'.byUser, u))
    {
      assert NoDup(Listed(t.byUser, u));
      IndexedLists(t.byUser, s.username, s.kernelId, u);
    }
  }

  lemma DeleteKeepsSound(t: Table, ids: seq<KernelId>)
    requires Sound(t)
    ensures Sound(DeleteSessions(t, ids))
  {
    ForgetAll(t, ids);
    DeletedIndex(t, ids);
  }

  lemma LoadKeepsSound(t: Table, t': Table)
    requires Sound(t)
    requires t' == LoadSessions(t) || exists id :: t' == LoadSession(t, id)
    ensures Sound(t')
  {
    LoadKeepsOwners(t, t');
    LoadKeepsKeys(t, t');
    LoadKeepsAgreement(t, t');
    assert forall u :: Listed(t'.byUser, u) == Listed(t.byUser, u);
  }

  lemma LoadKeepsKeys(t: Table, t': Table)
    requires WellKeyed(t)
    requires t' == LoadSessions(t) || exists id :: t' == LoadSession(t, id)
    ensures WellKeyed(t')
  {
  }

  lemma LoadKeepsAgreement(t: Table, t': Table)
    requires FilesAgree(t)
    requires t' == LoadSessions(t) || exists id :: t' == LoadSession(t, id)
    ensures FilesAgree(t')
  {
  }

  lemma LoadKeepsOwners(t: Table, t': Table)
    requires FilesAgree(t)
    requires t' == LoadSessions(t) || exists id :: t' == LoadSession(t, id)
    ensures t'.byUser == t.byUser && t'.files == t.files
    ensures forall id :: id in t.sessions ==> id in t'.sessions && t'.sessions[id].username == t.sessions[id].username
  {
    forall id | id in t.sessions
      ensures id in t'.sessions && t'.sessions[id].username == t.sessions[id].username
    {
      if t.persistent && id in t.files && Loaded(t.files[id]).Some? {
        assert id in Readable(t.files);
      }
    }
  }

  lemma SaveAccounts(t: Table, d: Debt, id: KernelId, s: Session, u: User)
    requires ListsNoDup(t) && Accounted(t, d, u)
    ensures Accounted(SaveSession(t, id, s), SavedDebt(t, d, id, s.username), u)
  {
    assert NoDup(Listed(t.byUser, u));
    IndexedLists(t.byUser, s.username, id, u);
    SavedOwned(t, id, s, u);
    SaveMisses(t, id, s, u);
    var t', d' := SaveSession(t, id, s), SavedDebt(t, d, id, s.username);
    assert Missed(t', u) == Owned(t', u) * d'.uncounted by {
      SplitOff(Missed(t, u), Owned(t, u), Owned(t', u), d.uncounted, id);
    }
    assert id in Missed(t, u) <==> id in Owned(t, u) && id in d.uncounted;
    SaveExtra(t, d, id, s, u);
  }

  lemma SaveExtra(t: Table, d: Debt, id: KernelId, s: Session, u: User)
    requires Extra(t, u) == StaleOf(d, u)
    requires id in Missed(t, u) <==> id in Owned(t, u) && id in d.uncounted
    requires var t' := SaveSession(t, id, s);
             && Elements(Listed(t'.byUser, u)) == Elements(Listed(t.byUser, u)) + (if u == s.username then {id} else {})
             && Owned(t', u) == (Owned(t, u) - {id}) + (if s.username == u then {id} else {})
    ensures Extra(SaveSession(t, id, s), u) == StaleOf(SavedDebt(t, d, id, s.username), u)
  {
    var t', d' := SaveSession(t, id, s), SavedDebt(t, d, id, s.username);
    forall i
      ensures i in Extra(t', u) <==> (u, i) in d'.stale
      ensures i in StaleOf(d', u) <==> (u, i) in d'.stale
    {
      assert i in StaleOf(d, u) <==> (u, i) in d.stale by {
        assert (u, i) in d.stale ==> (u, i).1 in StaleOf(d, u);
      }
      assert (u, i) in d'.stale ==> (u, i).1 in StaleOf(d', u);
    }
  }

  lemma DeleteAccounts(t: Table, d: Debt, ids: seq<KernelId>, u: User)
    requires ListsNoDup(t) && Accounted(t, d, u)
    ensures Accounted(DeleteSessions(t, ids), d.(uncounted := d.uncounted - Elements(ids)), u)
  {
    DeleteMisses(t, ids, u);
    ForgetExtra(t, ids, u);
    var t', f := DeleteSessions(t, ids), ForgetSessions(t, ids);
    assert Owned(t', u) == Owned(f, u);
    assert Missed(t', u) == Missed(f, u) && Extra(t', u) == Extra(f, u);
  }

  lemma {:induction false} ForgetExtra(t: Table, ids: seq<KernelId>, u: User)
    requires ListsNoDup(t)
    ensures Extra(ForgetSessions(t, ids), u) == Extra(t, u)
  {
    if ids == [] {
    } else {
      var init, last := ids[..|ids| - 1], ids[|ids| - 1];
      ForgetExtra(t, init, u);
      ForgetAll(t, init);
      var f := ForgetSessions(t, init);
      assert NoDup(Listed(f.byUser, u));
      ForgottenLists(f, last, u);
      ForgottenOwned(f, last, u);
    }
  }

  lemma LoadAccounts(t: Table, t': Table, d: Debt, u: User)
    requires Accounted(t, d, u) && t'.byUser == t.byUser && d.uncounted <= t.sessions.Keys
    requires forall id :: id in t.sessions ==> id in t'.sessions && t'.sessions[id].username == t.sessions[id].username
    ensures Accounted(t', LoadedDebt(t, t', d), u)
  {
    var d' := LoadedDebt(t, t', d);
    forall i
      ensures i in Extra(t', u) <==> i in StaleOf(d', u)
      ensures i in Missed(t', u) <==> i in Owned(t', u) * d'.uncounted
    {
      LoadedEntry(t, t', d, u, i);
    }
  }

  /** What a load does to one id in one user's account. */
  lemma LoadedEntry(t: Table, t': Table, d: Debt, u: User, i: KernelId)
    requires Accounted(t, d, u) && t'.byUser == t.byUser && d.uncounted <= t.sessions.Keys
    requires forall id :: id in t.sessions ==> id in t'.sessions && t'.sessions[id].username == t.sessions[id].username
    ensures i in Extra(t', u) <==> i in StaleOf(LoadedDebt(t, t', d), u)
    ensures i in Missed(t', u) <==> i in Owned(t', u) * LoadedDebt(t, t', d).uncounted
  {
    var d' := LoadedDebt(t, t', d);
    var brought := set id | id in t'.sessions && id !in t.sessions :: (t'.sessions[id].username, id);
    assert i in StaleOf(d, u) <==> (u, i) in d.stale by {
      assert (u, i) in d.stale ==> (u, i).1 in StaleOf(d, u);
    }
    assert i in StaleOf(d', u) <==> (u, i) in d'.stale by {
      assert (u, i) in d'.stale ==> (u, i).1 in StaleOf(d', u);
    }
    assert (u, i) in brought <==> i in Owned(t', u) && i !in t.sessions;
    assert i in Owned(t, u) <==> i in Owned(t', u) && i in t.sessions;
    assert i in Extra(t, u) <==> i in StaleOf(d, u);
    assert i in Missed(t, u) <==> i in Owned(t, u) && i in d.uncounted;
    if i in Owned(t', u) && i !in t.sessions {
      assert (u, i) !in d.stale ==> (u, i) in brought - d.stale && (u, i).1 in d'.uncounted;
      if i in d'.uncounted {
        var entry :| entry in brought - d.stale && entry.1 == i;
        assert entry == (u, i);
      }
    } else if i in d'.uncounted && i !in d.uncounted {
      var entry :| entry in brought - d.stale && entry.1 == i;
    }
  }

  lemma ApplyAccounts(t: Table, d: Debt, op: Op)
    requires Sound(t) && d.uncounted <= t.sessions.Keys && forall u :: Accounted(t, d, u)
    ensures var t', d' := Apply(t, op), DebtAfter(t, d, op);
      Sound(t') && d'.uncounted <= t'.sessions.Keys && forall u :: Accounted(t', d', u)
  {
    match op
    case Create(s) =>
      SaveKeepsSound(t, s);
      forall u
        ensures Accounted(Apply(t, op), DebtAfter(t, d, op), u)
      {
        SaveAccounts(t, d, s.kernelId, s, u);
      }
    case Refresh(id, connection, processInfo) =>
      if id in t.sessions {
        var s := Refreshed(t, id, connection, processInfo);
        SaveKeepsSound(t, s);
        forall u
          ensures Accounted(Apply(t, op), DebtAfter(t, d, op), u)
        {
          SaveAccounts(t, d, id, s, u);
        }
      }
    case Delete(ids) =>
      DeleteKeepsSound(t, ids);
      ForgetAll(t, ids);
      forall u
        ensures Accounted(Apply(t, op), DebtAfter(t, d, op), u)
      {
        DeleteAccounts(t, d, ids, u);
      }
    case Load(_) => ApplyLoadAccounts(t, Apply(t, op), d);
    case LoadAll => ApplyLoadAccounts(t, Apply(t, op), d);
  }

  lemma ApplyLoadAccounts(t: Table, t': Table, d: Debt)
    requires Sound(t) && d.uncounted <= t.sessions.Keys && forall u :: Accounted(t, d, u)
    requires t' == LoadSessions(t) || exists id :: t' == LoadSession(t, id)
    ensures Sound(t') && LoadedDebt(t, t', d).uncounted <= t'.sessions.Keys
    ensures forall u :: Accounted(t', LoadedDebt(t, t', d), u)
  {
    LoadKeepsSound(t, t');
    LoadKeepsOwners(t, t');
    forall u
      ensures Accounted(t', LoadedDebt(t, t', d), u)
    {
      LoadAccounts(t, t', d, u);
    }
  }

  lemma {:induction false} RunAccounts(files: map<KernelId, File>, persistent: bool, ops: seq<Op>)
    requires WellKeyed(Fresh(files, persistent))
    ensures var t, d := Run(Fresh(files, persistent), ops), DebtOf(Fresh(files, persistent), ops);
      Sound(t) && d.uncounted <= t.sessions.Keys && forall u :: Accounted(t, d, u)
  {
    if ops == [] {
      assert forall u :: Owned(Fresh(files, persistent), u) == {};
    } else {
      RunAccounts(files, persistent, ops[..|ops| - 1]);
      var t := Run(Fresh(files, persistent), ops[..|ops| - 1]);
      ApplyAccounts(t, DebtOf(Fresh(files, persistent), ops[..|ops| - 1]), ops[|ops| - 1]);
    }
  }

  /**
   * On every run, takeovers and loads included: the count is the number of the user's live sessions, less
   * those loaded and not saved since, plus the entries for ids that other users took over.
   */
  lemma CountOnEveryRun(files: map<KernelId, File>, persistent: bool, ops: seq<Op>, u: User)
    requires WellKeyed(Fresh(files, persistent))
    ensures var t, d := Run(Fresh(files, persistent), ops), DebtOf(Fresh(files, persistent), ops);
      ActiveSessions(t, u) == |Owned(t, u)| - |Owned(t, u) * d.uncounted| + |StaleOf(d, u)|
  {
    RunAccounts(files, persistent, ops);
    var t, d := Run(Fresh(files, persistent), ops), DebtOf(Fresh(files, persistent), ops);
    assert Accounted(t, d, u) && NoDup(Listed(t.byUser, u));
    NoDupCardinality(Listed(t.byUser, u));
    var listed, owned := Elements(Listed(t.byUser, u)), Owned(t, u);
    Overlap(listed, owned);
  }

  lemma Overlap(a: set<KernelId>, b: set<KernelId>)
    ensures |a| == |b| - |b - a| + |a - b|
  {
    assert a == (a * b) + (a - b) && b == (a * b) + (b - a);
  }
}
