/** The file session manager as an object: its dictionaries are fields, its directory is a map of files. */
module SessionManager {
  import opened Collections
  import opened Ids
  import opened Sessions
  import Gateway

  /** The part of the kernel manager the session manager calls back into: the registry of kernels. */
  class KernelRegistry {
    var kernels: set<KernelId>

    constructor ()
      ensures kernels == {}
    {
      kernels := {};
    }

    /** Revives a kernel from its session; `alive` is what polling its process answered. */
    method StartKernelFromSession(session: Session, alive: bool) returns (started: bool)
      modifies this
      ensures started == alive
      ensures kernels == old(kernels) + (if alive then {session.kernelId} else {})
    {
      if !alive {
        return false;
      }
      kernels := kernels + {session.kernelId};
      started := true;
    }
  }

  class FileKernelSessionManager {
    const enablePersistence: bool
    const kernelManager: KernelRegistry
    var sessions: map<KernelId, Session>
    var sessionsByUser: map<User, seq<KernelId>>
    var files: map<KernelId, File>

    constructor (enablePersistence: bool, kernelManager: KernelRegistry, files: map<KernelId, File>)
      ensures State() == Table(map[], map[], files, enablePersistence)
      ensures this.kernelManager == kernelManager
    {
      this.enablePersistence := enablePersistence;
      this.kernelManager := kernelManager;
      this.sessions := map[];
      this.sessionsByUser := map[];
      this.files := files;
    }

    function State(): Table
      reads this
    {
      Table(sessions, sessionsByUser, files, enablePersistence)
    }

    /** Called at a start's end; a kernel no longer registered is a lookup error before anything changes. */
    method CreateSession(session: Session) returns (ok: bool)
      modifies this
      ensures ok ==> session.kernelId in kernelManager.kernels
      ensures session.kernelId in kernelManager.kernels ==>
                && State() == SaveSession(old(State()), session.kernelId, session)
                && ok == (enablePersistence ==> Written(session).Saved?)
      ensures session.kernelId !in kernelManager.kernels ==> State() == old(State())
    {
      if session.kernelId !in kernelManager.kernels {
        return false;
      }
      ok := Save(session.kernelId, session);
    }

    /** Called on restarts; an unregistered kernel or an unknown session is a lookup error. */
    method RefreshSession(id: KernelId, connection: Fields, processInfo: Fields) returns (ok: bool)
      modifies this
      ensures State() == if id in kernelManager.kernels
                         then Sessions.RefreshSession(old(State()), id, connection, processInfo)
                         else old(State())
      ensures ok ==> id in kernelManager.kernels && id in old(sessions)
    {
      if id !in kernelManager.kernels || id !in sessions {
        return false;
      }
      var session := sessions[id].(connection := connection, processInfo := processInfo);
      ok := Save(id, session);
    }

    /** `_save_session`: the map, the user's list, then the file. */
    method Save(id: KernelId, session: Session) returns (ok: bool)
      modifies this
      ensures State() == SaveSession(old(State()), id, session)
      ensures ok == (enablePersistence ==> Written(session).Saved?)
    {
      sessions := sessions[id := session];
      var username := session.username;
      if username !in sessionsByUser {
        sessionsByUser := sessionsByUser[username := []];
        sessionsByUser := sessionsByUser[username := sessionsByUser[username] + [id]];
        assert [] + [id] == [id];
        assert sessionsByUser == old(sessionsByUser)[username := [id]];
      } else if id !in sessionsByUser[username] {
        sessionsByUser := sessionsByUser[username := sessionsByUser[username] + [id]];
      }
      assert sessionsByUser == Indexed(old(sessionsByUser), username, id);
      ok := SaveToFile(id);
      assert old(sessions)[id := session][id := Rewritten(session)] == old(sessions)[id := Rewritten(session)];
    }

    /** `save_session`: opening truncates the file, and the save hook rewrites the live dictionary. */
    method SaveToFile(id: KernelId) returns (ok: bool)
      requires id in sessions
      modifies this`sessions, this`files
      ensures sessions == if enablePersistence
                          then old(sessions)[id := Rewritten(old(sessions[id]))] else old(sessions)
      ensures files == if enablePersistence then old(files)[id := Written(old(sessions[id]))] else old(files)
      ensures ok == (enablePersistence ==> Written(old(sessions[id])).Saved?)
    {
      if !enablePersistence {
        return true;
      }
      ghost var before := files;
      files := files[id := Corrupt];
      match PreSave(sessions[id].connection)
      case None =>
        assert sessions == sessions[id := Rewritten(sessions[id])];
        return false;
      case Some(connection) =>
        sessions := sessions[id := sessions[id].(connection := connection)];
        var s := sessions[id];
        if !Dumpable(s.connection) || !Dumpable(s.processInfo) || !Dumpable(s.launchArgs) {
          return false;
        }
        files := files[id := Saved(s)];
        assert files == before[id := Saved(s)];
        ok := true;
    }

    method DeleteSession(id: KernelId)
      modifies this
      ensures State() == Sessions.DeleteSession(old(State()), id)
    {
      DeleteSessions([id]);
    }

    /** `_delete_sessions`: forget each session and its list entry, then remove the files. */
    method DeleteSessions(ids: seq<KernelId>)
      modifies this
      ensures State() == Sessions.DeleteSessions(old(State()), ids)
    {
      var i := 0;
      while i < |ids|
        invariant 0 <= i <= |ids|
        invariant State() == ForgetSessions(old(State()), ids[..i])
      {
        var id := ids[i];
        if id in sessions {
          var username := sessions[id].username;
          if username in sessionsByUser && id in sessionsByUser[username] {
            sessionsByUser := sessionsByUser[username := RemoveFirst(sessionsByUser[username], id)];
          }
          sessions := sessions - {id};
        }
        assert ids[..i + 1][..i] == ids[..i];
        i := i + 1;
      }
      assert ids[..i] == ids;
      ForgetAll(old(State()), ids);
      DeleteFiles(ids);
    }

    method DeleteFiles(ids: seq<KernelId>)
      modifies this`files
      ensures files == if enablePersistence then old(files) - Elements(ids) else old(files)
    {
      if enablePersistence {
        var i := 0;
        while i < |ids|
          invariant 0 <= i <= |ids|
          invariant files == old(files) - Elements(ids[..i])
        {
          if ids[i] in files {
            files := files - {ids[i]};
          }
          assert ids[..i + 1] == ids[..i] + [ids[i]];
          ElementsAppend(ids[..i], ids[i]);
          i := i + 1;
        }
        assert ids[..i] == ids;
      }
    }

    method LoadSession(id: KernelId)
      modifies this`sessions
      ensures State() == Sessions.LoadSession(old(State()), id)
    {
      if enablePersistence {
        LoadFromFile(id);
      }
    }

    /** A missing or unreadable file leaves the session map as it is. */
    method LoadFromFile(id: KernelId)
      modifies this`sessions
      ensures sessions == if id in Readable(files) then old(sessions)[id := Readable(files)[id]] else old(sessions)
    {
      if id in files {
        match Loaded(files[id])
        case None => return;
        case Some(s) => sessions := sessions[id := s];
      }
    }

    /** Loads every file, in whatever order the directory lists them. */
    method LoadSessions()
      modifies this`sessions
      ensures State() == Sessions.LoadSessions(old(State()))
    {
      if enablePersistence {
        var listing := files.Keys;
        while listing != {}
          invariant listing <= files.Keys
          invariant sessions == old(sessions) + Readable(files - listing)
          decreases |listing|
        {
          var id :| id in listing;
          LoadFromFile(id);
          ReadableStep(files, listing, id);
          if id in Readable(files) {
            MergeThenUpdate(old(sessions), Readable(files - listing), id, Readable(files)[id]);
          }
          listing := listing - {id};
        }
        assert files - {} == files;
        assert sessions == old(sessions) + Readable(files);
      }
    }

    method StartSession(id: KernelId, alive: bool) returns (started: bool)
      modifies kernelManager
      ensures started == (id in sessions && alive)
      ensures kernelManager.kernels ==
              old(kernelManager.kernels) + (if id in sessions && alive then {sessions[id].kernelId} else {})
    {
      if id !in sessions {
        return false;
      }
      started := kernelManager.StartKernelFromSession(sessions[id], alive);
    }

    /** `start_sessions`: `living` is the set of sessions whose kernel process answers. */
    method StartSessions(living: set<KernelId>) returns (order: seq<KernelId>)
      modifies this, kernelManager
      ensures enablePersistence ==>
                var t := Sessions.LoadSessions(old(State()));
                && Gateway.Enumerates(order, t.sessions.Keys)
                && State() == Sessions.DeleteSessions(t, Gateway.Dead(order, living))
                && kernelManager.kernels == old(kernelManager.kernels) + Gateway.Revived(t, living)
      ensures !enablePersistence ==> State() == old(State()) && kernelManager.kernels == old(kernelManager.kernels)
    {
      order := [];
      if enablePersistence {
        LoadSessions();
        var toRemove;
        toRemove, order := TryToStartAll(living);
        DeleteSessions(toRemove);
      }
    }

    /** The loop over the loaded sessions; the sessions that could not be started are returned. */
    method TryToStartAll(living: set<KernelId>) returns (toRemove: seq<KernelId>, order: seq<KernelId>)
      modifies kernelManager
      ensures Gateway.Enumerates(order, sessions.Keys)
      ensures toRemove == Gateway.Dead(order, living)
      ensures kernelManager.kernels == old(kernelManager.kernels) + Gateway.Revived(State(), living)
    {
      order := Enumerate(sessions.Keys);
      toRemove := [];
      ghost var before, t := kernelManager.kernels, State();
      for i := 0 to |order|
        invariant toRemove == Gateway.Dead(order[..i], living)
        invariant kernelManager.kernels == before + Gateway.RevivedAmong(t, Elements(order[..i]), living)
      {
        var id := order[i];
        VisitOneMore(t, order, i, living, before);
        var started := kernelManager.StartKernelFromSession(sessions[id], id in living);
        if !started {
          toRemove := toRemove + [id];
        }
      }
      assert order[..|order|] == order;
    }

    static lemma VisitOneMore(t: Table, order: seq<KernelId>, i: nat, living: set<KernelId>, before: set<KernelId>)
      requires i < |order| && Elements(order) == t.sessions.Keys
      ensures order[i] in t.sessions
      ensures Gateway.Dead(order[..i + 1], living)
           == Gateway.Dead(order[..i], living) + (if order[i] in living then [] else [order[i]])
      ensures before + Gateway.RevivedAmong(t, Elements(order[..i + 1]), living)
           == before + Gateway.RevivedAmong(t, Elements(order[..i]), living)
              + (if order[i] in living then {t.sessions[order[i]].kernelId} else {})
    {
      var id := order[i];
      assert id in Elements(order);
      assert order[..i + 1] == order[..i] + [id];
      Gateway.VisitStep(t, order[..i], id, living);
      UnionAssociative(
        before, Gateway.RevivedAmong(t, Elements(order[..i]), living),
        if id in living then {t.sessions[id].kernelId} else {});
    }

    method CountActive(username: User) returns (n: nat)
      ensures n == ActiveSessions(State(), username)
    {
      if username in sessionsByUser {
        return |sessionsByUser[username]|;
      }
      n := 0;
    }
  }
}
