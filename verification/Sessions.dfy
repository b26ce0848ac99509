/**
 * The kernel session table on values: the session map, the per-user index and the session files. Each
 * function is one operation of the file session manager, run under its lock.
 */
module Sessions {
  import opened Collections
  import opened Ids
  import opened Utf8

  type User = string

  /** A field of a session's inner dictionaries; `Data` is a Python `bytes`, which JSON cannot carry. */
  datatype Value = Text(text: string) | Data(bytes: seq<Byte>) | Number(n: int) | Flag(b: bool) | Null

  type Fields = map<string, Value>

  datatype Session = Session(
    kernelId: KernelId,
    username: User,
    kernelName: string,
    connection: Fields,
    processInfo: Fields,
    launchArgs: Fields)

  /** A session file: JSON holding one session, or what an interrupted write left behind. */
  datatype File = Saved(session: Session) | Corrupt

  datatype Table = Table(
    sessions: map<KernelId, Session>,
    byUser: map<User, seq<KernelId>>,
    files: map<KernelId, File>,
    persistent: bool)

  // ----- Saving and loading one session -----

  predicate Truthy(v: Value) {
    match v
    case Text(s) => s != ""
    case Data(b) => b != []
    case Number(n) => n != 0
    case Flag(b) => b
    case Null => false
  }

  predicate Dumpable(f: Fields) {
    forall name :: name in f ==> !f[name].Data?
  }

  /** The save hook: a truthy key must be bytes that decode, and becomes text. `None` is an exception. */
  function PreSave(connection: Fields): Option<Fields> {
    if "key" !in connection || !Truthy(connection["key"]) then Some(connection)
    else
      match connection["key"]
      case Data(b) =>
        (match Utf8.Decode(b)
         case None => None
         case Some(s) => Some(connection["key" := Text(s)]))
      case _ => None
  }

  /** The load hook, the other way around. */
  function PostLoad(connection: Fields): Option<Fields> {
    if "key" !in connection || !Truthy(connection["key"]) then Some(connection)
    else
      match connection["key"]
      case Text(s) => Some(connection["key" := Data(Utf8.Encode(s))])
      case _ => None
  }

  /** The session as it stands in memory after a save: the hook rewrites the shared dictionary. */
  function Rewritten(s: Session): Session {
    match PreSave(s.connection)
    case None => s
    case Some(c) => s.(connection := c)
  }

  /** The file a save leaves: it is truncated first, so a failing hook or dump leaves it corrupt. */
  function Written(s: Session): File {
    match PreSave(s.connection)
    case None => Corrupt
    case Some(c) =>
      if Dumpable(c) && Dumpable(s.processInfo) && Dumpable(s.launchArgs)
      then Saved(s.(connection := c)) else Corrupt
  }

  function Loaded(f: File): Option<Session> {
    match f
    case Corrupt => None
    case Saved(s) =>
      match PostLoad(s.connection)
      case None => None
      case Some(c) => Some(s.(connection := c))
  }

  /** What a caller can check of a session before handing it over. */
  predicate Saveable(s: Session) {
    && Dumpable(s.processInfo)
    && Dumpable(s.launchArgs)
    && Dumpable(s.connection - {"key"})
    && ("key" in s.connection ==>
          match s.connection["key"]
          case Data(b) => b != [] && Utf8.Decode(b).Some?
          case v => !Truthy(v))
  }

  /** A saved session is loaded back unchanged exactly when it is saveable. */
  lemma SavedLoadsBackIffSaveable(s: Session)
    ensures Loaded(Written(s)) == Some(s) <==> Saveable(s)
  {
    var c := s.connection;
    if "key" in c && c["key"].Data? && c["key"].bytes != [] && Utf8.Decode(c["key"].bytes).Some? {
      var text := Utf8.Decode(c["key"].bytes).value;
      Utf8.EncodeDecode(c["key"].bytes);
      assert text != "";
      var saved := c["key" := Text(text)];
      assert PostLoad(saved) == Some(c) by {
        assert saved["key" := Data(Utf8.Encode(text))] == c;
      }
      assert saved - {"key"} == c - {"key"};
      assert Dumpable(saved) <==> Dumpable(c - {"key"}) by {
        forall name | name in saved && name != "key"
          ensures name in c - {"key"} && (c - {"key"})[name] == saved[name]
        {
        }
      }
    } else {
      assert Dumpable(c) ==> Dumpable(c - {"key"});
      if "key" !in c {
        assert c - {"key"} == c;
      } else if !Truthy(c["key"]) && !c["key"].Data? {
        assert Dumpable(c - {"key"}) ==> Dumpable(c) by {
          if Dumpable(c - {"key"}) {
            forall name | name in c
              ensures !c[name].Data?
            {
              assert name == "key" || name in c - {"key"};
            }
          }
        }
      } else if c["key"] == Data([]) {
        assert !Dumpable(c);
      }
    }
  }

  // ----- Table operations -----

  function Listed(byUser: map<User, seq<KernelId>>, u: User): seq<KernelId> {
    if u in byUser then byUser[u] else []
  }

  function Indexed(byUser: map<User, seq<KernelId>>, u: User, id: KernelId): map<User, seq<KernelId>> {
    if u !in byUser then byUser[u := [id]]
    else if id !in byUser[u] then byUser[u := byUser[u] + [id]]
    else byUser
  }

  function SaveSession(t: Table, id: KernelId, s: Session): Table {
    if t.persistent then
      Table(t.sessions[id := Rewritten(s)], Indexed(t.byUser, s.username, id), t.files[id := Written(s)], true)
    else
      Table(t.sessions[id := s], Indexed(t.byUser, s.username, id), t.files, false)
  }

  /** The session a restart hands over: the live entry with fresh connection and process information. */
  function Refreshed(t: Table, id: KernelId, connection: Fields, processInfo: Fields): Session
    requires id in t.sessions
  {
    t.sessions[id].(connection := connection, processInfo := processInfo)
  }

  function RefreshSession(t: Table, id: KernelId, connection: Fields, processInfo: Fields): Table {
    if id in t.sessions then SaveSession(t, id, Refreshed(t, id, connection, processInfo)) else t
  }

  function Unindexed(byUser: map<User, seq<KernelId>>, u: User, id: KernelId): map<User, seq<KernelId>> {
    if u in byUser && id in byUser[u] then byUser[u := RemoveFirst(byUser[u], id)] else byUser
  }

  /** One turn of the deletion loop, in memory only. */
  function ForgetSession(t: Table, id: KernelId): Table {
    if id in t.sessions
    then t.(sessions := t.sessions - {id}, byUser := Unindexed(t.byUser, t.sessions[id].username, id))
    else t
  }

  function ForgetSessions(t: Table, ids: seq<KernelId>): Table {
    if ids == [] then t
    else ForgetSession(ForgetSessions(t, ids[..|ids| - 1]), ids[|ids| - 1])
  }

  function DeleteSessions(t: Table, ids: seq<KernelId>): Table {
    var forgot := ForgetSessions(t, ids);
    if t.persistent then forgot.(files := t.files - Elements(ids)) else forgot
  }

  function DeleteSession(t: Table, id: KernelId): Table {
    DeleteSessions(t, [id])
  }

  function LoadSession(t: Table, id: KernelId): Table {
    if t.persistent && id in t.files && Loaded(t.files[id]).Some?
    then t.(sessions := t.sessions[id := Loaded(t.files[id]).value])
    else t
  }

  /** Every readable file's session, by id. */
  function Readable(files: map<KernelId, File>): map<KernelId, Session> {
    map id | id in files && Loaded(files[id]).Some? :: Loaded(files[id]).value
  }

  /** Reading one more file adds its session, if it has one. */
  lemma ReadableStep(files: map<KernelId, File>, unread: set<KernelId>, id: KernelId)
    requires id in unread && id in files
    ensures Readable(files - (unread - {id}))
         == if id in Readable(files) then Readable(files - unread)[id := Readable(files)[id]]
            else Readable(files - unread)
  {
    var before, after := files - unread, files - (unread - {id});
    assert after.Keys == before.Keys + {id};
    assert forall i :: i in before ==> before[i] == files[i] == after[i];
  }

  function LoadSessions(t: Table): Table {
    if t.persistent then t.(sessions := t.sessions + Readable(t.files)) else t
  }

  function ActiveSessions(t: Table, u: User): nat {
    |Listed(t.byUser, u)|
  }

  // ----- The per-user index -----

  /** The ids of live sessions of `u`: what the per-user list is meant to hold. */
  function Owned(t: Table, u: User): set<KernelId> {
    set id | id in t.sessions && t.sessions[id].username == u
  }

  ghost predicate ListsNoDup(t: Table) {
    forall u :: NoDup(Listed(t.byUser, u))
  }

  /** Every listed id is a live session of that user. */
  ghost predicate SubIndex(t: Table) {
    ListsNoDup(t) && forall u :: Elements(Listed(t.byUser, u)) <= Owned(t, u)
  }

  /** The lists are the exact inverse of the session map. */
  ghost predicate ExactIndex(t: Table) {
    ListsNoDup(t) && forall u :: Elements(Listed(t.byUser, u)) == Owned(t, u)
  }

  lemma IndexedLists(byUser: map<User, seq<KernelId>>, user: User, id: KernelId, u: User)
    requires NoDup(Listed(byUser, u))
    ensures NoDup(Listed(Indexed(byUser, user, id), u))
    ensures Elements(Listed(Indexed(byUser, user, id), u))
         == Elements(Listed(byUser, u)) + (if u == user then {id} else {})
  {
  }

  lemma ForgottenLists(t: Table, id: KernelId, u: User)
    requires NoDup(Listed(t.byUser, u))
    ensures NoDup(Listed(ForgetSession(t, id).byUser, u))
    ensures Elements(Listed(ForgetSession(t, id).byUser, u))
         == Elements(Listed(t.byUser, u)) - (if id in Owned(t, u) then {id} else {})
  {
    RemoveFirstFromNoDup(Listed(t.byUser, u), id);
  }

  lemma ForgottenOwned(t: Table, id: KernelId, u: User)
    ensures Owned(ForgetSession(t, id), u) == Owned(t, u) - {id}
  {
  }

  lemma SavedOwned(t: Table, id: KernelId, s: Session, u: User)
    ensures Owned(SaveSession(t, id, s), u) == (Owned(t, u) - {id}) + (if s.username == u then {id} else {})
  {
    assert Rewritten(s).username == s.username;
  }

  /** Saving keeps the index exact if and only if the id is not live under another user. */
  lemma SaveKeepsExactIff(t: Table, id: KernelId, s: Session)
    requires ExactIndex(t)
    ensures ExactIndex(SaveSession(t, id, s))
       <==> (id in t.sessions ==> t.sessions[id].username == s.username)
  {
    var t' := SaveSession(t, id, s);
    forall u
      ensures NoDup(Listed(t'.byUser, u))
      ensures Elements(Listed(t'.byUser, u)) == Owned(t, u) + (if u == s.username then {id} else {})
      ensures Owned(t', u) == (Owned(t, u) - {id}) + (if s.username == u then {id} else {})
    {
      IndexedLists(t.byUser, s.username, id, u);
      SavedOwned(t, id, s, u);
    }
    if id in t.sessions && t.sessions[id].username != s.username {
      var u := t.sessions[id].username;
      assert id in Owned(t, u) && id in Elements(Listed(t'.byUser, u)) && id !in Owned(t', u);
    }
  }

  lemma SaveKeepsSubIndex(t: Table, id: KernelId, s: Session)
    requires SubIndex(t)
    requires id in t.sessions ==> t.sessions[id].username == s.username
    ensures SubIndex(SaveSession(t, id, s))
  {
    var t' := SaveSession(t, id, s);
    forall u
      ensures NoDup(Listed(t'.byUser, u)) && Elements(Listed(t'.byUser, u)) <= Owned(t', u)
    {
      IndexedLists(t.byUser, s.username, id, u);
      SavedOwned(t, id, s, u);
      assert id in Owned(t, u) ==> u == s.username;
    }
  }

  lemma ForgetKeepsIndex(t: Table, id: KernelId)
    ensures ListsNoDup(t) ==> ListsNoDup(ForgetSession(t, id))
    ensures SubIndex(t) ==> SubIndex(ForgetSession(t, id))
    ensures ExactIndex(t) ==> ExactIndex(ForgetSession(t, id))
  {
    var t' := ForgetSession(t, id);
    if ListsNoDup(t) {
      forall u
        ensures NoDup(Listed(t'.byUser, u))
        ensures Elements(Listed(t'.byUser, u))
             == Elements(Listed(t.byUser, u)) - (if id in Owned(t, u) then {id} else {})
        ensures Owned(t', u) == Owned(t, u) - {id}
      {
        assert NoDup(Listed(t.byUser, u));
        ForgottenLists(t, id, u);
        ForgottenOwned(t, id, u);
      }
    }
  }

  lemma {:induction false} ForgetAll(t: Table, ids: seq<KernelId>)
    ensures var t' := ForgetSessions(t, ids);
      && t'.sessions == t.sessions - Elements(ids)
      && t'.files == t.files && t'.persistent == t.persistent
      && (ListsNoDup(t) ==> ListsNoDup(t'))
      && (SubIndex(t) ==> SubIndex(t'))
      && (ExactIndex(t) ==> ExactIndex(t'))
      && forall u :: ListsNoDup(t) ==> Elements(Listed(t'.byUser, u)) <= Elements(Listed(t.byUser, u))
  {
    if ids == [] {
    } else {
      var init, last := ids[..|ids| - 1], ids[|ids| - 1];
      ForgetAll(t, init);
      var t1 := ForgetSessions(t, init);
      ForgetKeepsIndex(t1, last);
      assert Elements(ids) == Elements(init) + {last} by {
        assert ids == init + [last];
      }
      assert ForgetSession(t1, last).sessions == t1.sessions - {last};
      if ListsNoDup(t) {
        forall u
          ensures Elements(Listed(ForgetSession(t1, last).byUser, u)) <= Elements(Listed(t.byUser, u))
        {
          assert NoDup(Listed(t1.byUser, u));
          ForgottenLists(t1, last, u);
        }
      }
    }
  }

  /** With an exact index, counting a user's list counts the user's sessions. */
  lemma ActiveSessionsCounts(t: Table, u: User)
    requires ExactIndex(t)
    ensures ActiveSessions(t, u) == |Owned(t, u)|
  {
    assert NoDup(Listed(t.byUser, u)) && Elements(Listed(t.byUser, u)) == Owned(t, u);
    NoDupCardinality(Listed(t.byUser, u));
  }

  /** In general the lists, duplicate-free and sound, never over-count. */
  lemma ActiveSessionsBounded(t: Table, u: User)
    requires SubIndex(t)
    ensures ActiveSessions(t, u) <= |Owned(t, u)|
  {
    assert NoDup(Listed(t.byUser, u)) && Elements(Listed(t.byUser, u)) <= Owned(t, u);
    NoDupCardinality(Listed(t.byUser, u));
    SubsetCardinality(Elements(Listed(t.byUser, u)), Owned(t, u));
  }
}
