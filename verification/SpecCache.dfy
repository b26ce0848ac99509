/**
 * The kernelspec cache against the disk. Disk changes in observed directories queue events for one
 * watcher thread; handlers look at the disk as it is when they run. Lookups, with their miss path, and
 * handlers are atomic steps.
 */
module SpecCache {
  import opened Collections

  type Name = string

  /** A kernelspec: its content and the kernels directory its resource directory lies in. */
  datatype Spec = Spec(content: string, dir: string)

  function LowerChar(c: char): char {
    if 'A' <= c <= 'Z' then (c as int + 32) as char else c
  }

  /** Kernel names are ASCII; they are compared and stored in lower case. */
  function Lower(name: Name): (lower: Name)
    ensures |lower| == |name|
    ensures forall i :: 0 <= i < |name| ==> lower[i] == LowerChar(name[i])
  {
    if name == "" then "" else [LowerChar(name[0])] + Lower(name[1..])
  }

  predicate SameButForCase(c: char, d: char) {
    c == d || ('A' <= c <= 'Z' && c as int + 32 == d as int) || ('A' <= d <= 'Z' && d as int + 32 == c as int)
  }

  predicate DifferInCaseOnly(a: Name, b: Name) {
    |a| == |b| && forall i :: 0 <= i < |a| ==> SameButForCase(a[i], b[i])
  }

  lemma LoweredAlikeIff(c: char, d: char)
    ensures LowerChar(c) == LowerChar(d) <==> SameButForCase(c, d)
  {
  }

  lemma LoweredApart(a: Name, b: Name, i: nat)
    requires |a| == |b| && i < |a|
    ensures Lower(a)[i] == Lower(b)[i] <==> SameButForCase(a[i], b[i])
  {
    LoweredAlikeIff(a[i], b[i]);
  }

  /** Two names are filed under one if and only if they differ in case only. */
  lemma FiledTogetherIff(a: Name, b: Name)
    ensures Lower(a) == Lower(b) <==> DifferInCaseOnly(a, b)
  {
    var la, lb := Lower(a), Lower(b);
    if |a| == |b| {
      forall i | 0 <= i < |a|
        ensures la[i] == lb[i] <==> SameButForCase(a[i], b[i])
      {
        LoweredApart(a, b, i);
      }
    } else {
      assert |la| != |lb|;
    }
  }

  /** A name without upper-case letters is filed under itself. */
  lemma {:induction false} LowerCaseStays(a: Name)
    requires forall i :: 0 <= i < |a| ==> !('A' <= a[i] <= 'Z')
    ensures Lower(a) == a
  {
    var la := Lower(a);
    assert forall i :: 0 <= i < |a| ==> la[i] == a[i];
  }

  datatype Event =
    | Created(name: Name)
    | Modified(name: Name)
    | Deleted(name: Name)
    | Moved(name: Name, to: Name)

  predicate Mentions(e: Event, n: Name) {
    Lower(e.name) == n || (e.Moved? && Lower(e.to) == n)
  }

  /** The queued events about `n`, oldest first. */
  function Pending(queue: seq<Event>, n: Name): seq<Event> {
    if queue == [] then []
    else (if Mentions(queue[0], n) then [queue[0]] else []) + Pending(queue[1..], n)
  }

  lemma {:induction false} PendingAppend(queue: seq<Event>, e: Event, n: Name)
    ensures Pending(queue + [e], n) == Pending(queue, n) + (if Mentions(e, n) then [e] else [])
  {
    if queue == [] {
      assert queue + [e] == [e];
      assert [e][1..] == [];
    } else {
      PendingAppend(queue[1..], e, n);
      assert (queue + [e])[1..] == queue[1..] + [e];
    }
  }

  // ----- The cache alone -----

  datatype Cache = Cache(items: map<Name, Spec>, observed: set<string>)

  function Put(c: Cache, name: Name, spec: Spec): Cache {
    Cache(c.items[Lower(name) := spec], c.observed + {spec.dir})
  }

  function Dirs(specs: map<Name, Spec>): set<string> {
    set n | n in specs :: specs[n].dir
  }

  /** Putting every spec the manager lists, whose names are already in lower case. */
  function PutAll(c: Cache, specs: map<Name, Spec>): Cache {
    Cache(c.items + specs, c.observed + Dirs(specs))
  }

  function Remove(c: Cache, name: Name): Cache {
    c.(items := c.items - {Lower(name)})
  }

  /** One handler call against the disk as it now is. */
  function Handled(c: Cache, disk: map<Name, Spec>, e: Event): Cache {
    match e
    case Created(name) => if Lower(name) in disk then Put(c, name, disk[Lower(name)]) else c
    case Modified(name) => if Lower(name) in disk then Put(c, name, disk[Lower(name)]) else c
    case Deleted(name) => Remove(c, name)
    case Moved(name, to) =>
      if Lower(name) in c.items then Put(Remove(c, name), to, c.items[Lower(name)]) else c
  }

  function Looked(c: Cache, disk: map<Name, Spec>, name: Name, vanished: bool): Cache {
    if Lower(name) in c.items && !vanished then c
    else if Lower(name) in disk then Put(c, name, disk[Lower(name)])
    else c
  }

  /** What a lookup returns; `None` is the manager's no-such-kernel error. */
  function Found(c: Cache, disk: map<Name, Spec>, name: Name, vanished: bool): Option<Spec> {
    if Lower(name) in c.items && !vanished then Some(c.items[Lower(name)]) else Uncached(disk, name)
  }

  /** The manager without a cache. */
  function Uncached(disk: map<Name, Spec>, name: Name): Option<Spec> {
    if Lower(name) in disk then Some(disk[Lower(name)]) else None
  }

  /** Names that differ in case only find the same spec, in the cache and in the manager. */
  lemma CaseDoesNotMatter(c: Cache, disk: map<Name, Spec>, a: Name, b: Name, vanished: bool)
    requires DifferInCaseOnly(a, b)
    ensures Found(c, disk, a, vanished) == Found(c, disk, b, vanished) && Uncached(disk, a) == Uncached(disk, b)
    ensures Looked(c, disk, a, vanished) == Looked(c, disk, b, vanished)
  {
    FiledTogetherIff(a, b);
  }

  function LookedAll(c: Cache, disk: map<Name, Spec>): Cache {
    if c.items == map[] then PutAll(c, disk) else c
  }

  function FoundAll(c: Cache, disk: map<Name, Spec>): map<Name, Spec> {
    if c.items == map[] then disk else c.items
  }

  // ----- Disk, watcher and callers together -----

  datatype State = State(disk: map<Name, Spec>, cache: Cache, queue: seq<Event>)

  datatype Step =
    | Create(name: Name, spec: Spec)
    | Modify(name: Name, content: string)
    | Delete(name: Name)
    | Move(name: Name, to: Name)
    | Dispatch
    | Lookup(name: Name, vanished: bool)
    | LookupAll

  /** A change in an unobserved directory queues nothing. */
  function Notify(s: State, dir: string, e: Event): State {
    if dir in s.cache.observed then s.(queue := s.queue + [e]) else s
  }

  predicate NoMovePending(s: State, n: Name) {
    forall i :: 0 <= i < |s.queue| ==> !(s.queue[i].Moved? && Mentions(s.queue[i], n))
  }

  /**
   * When a step may be taken. Moves are those of a cached spec to a free name, inside its directory and
   * away from other events about either name.
   */
  predicate Enabled(s: State, step: Step) {
    match step
    case Create(name, spec) => Lower(name) !in s.disk && NoMovePending(s, Lower(name))
    case Modify(name, _) => Lower(name) in s.disk && NoMovePending(s, Lower(name))
    case Delete(name) => Lower(name) in s.disk && NoMovePending(s, Lower(name))
    case Move(name, to) =>
      && Lower(name) in s.disk && Lower(name) in s.cache.items && Lower(to) !in s.disk
      && Pending(s.queue, Lower(name)) == Pending(s.queue, Lower(to)) == []
    case Dispatch => s.queue != []
    case Lookup(_, _) => true
    case LookupAll => true
  }

  function Next(s: State, step: Step): State {
    if Enabled(s, step) then Taken(s, step) else s
  }

  function Taken(s: State, step: Step): State
    requires Enabled(s, step)
  {
    match step
    case Create(name, spec) =>
      Notify(s.(disk := s.disk[Lower(name) := spec]), spec.dir, Created(name))
    case Modify(name, content) =>
      var spec := s.disk[Lower(name)];
      Notify(s.(disk := s.disk[Lower(name) := spec.(content := content)]), spec.dir, Modified(name))
    case Delete(name) =>
      Notify(s.(disk := s.disk - {Lower(name)}), s.disk[Lower(name)].dir, Deleted(name))
    case Move(name, to) =>
      var spec := s.disk[Lower(name)];
      Notify(s.(disk := (s.disk - {Lower(name)})[Lower(to) := spec]), spec.dir, Moved(name, to))
    case Dispatch =>
      State(s.disk, Handled(s.cache, s.disk, s.queue[0]), s.queue[1..])
    case Lookup(name, vanished) =>
      s.(cache := Looked(s.cache, s.disk, name, vanished))
    case LookupAll =>
      s.(cache := LookedAll(s.cache, s.disk))
  }

  /** The cache as constructed: every spec on disk, watching their directories and the manager's own. */
  function Seeded(disk: map<Name, Spec>, kernelDirs: set<string>): State {
    State(disk, PutAll(Cache(map[], kernelDirs), disk), [])
  }

  function Run(s: State, steps: seq<Step>): State {
    if steps == [] then s else Next(Run(s, steps[..|steps| - 1]), steps[|steps| - 1])
  }

  // ----- Coherence -----

  /**
   * The names on disk that the cache got to know: those whose last change happened in a directory watched
   * at that moment, and those looked up since with no event about them pending.
   */
  function KnownAfter(s: State, known: set<Name>, step: Step): set<Name> {
    if !Enabled(s, step) then known
    else
      match step
      case Create(name, spec) =>
        if spec.dir in s.cache.observed then known + {Lower(name)} else known - {Lower(name)}
      case Modify(name, _) =>
        if s.disk[Lower(name)].dir in s.cache.observed then known + {Lower(name)} else known
      case Delete(name) => known - {Lower(name)}
      case Move(name, to) => known - {Lower(name)} + {Lower(to)}
      case Dispatch => known
      case Lookup(name, _) =>
        if Lower(name) in s.disk && Pending(s.queue, Lower(name)) == [] then known + {Lower(name)} else known
      case LookupAll =>
        if s.cache.items == map[] then known + set n | n in s.disk && Pending(s.queue, n) == [] else known
  }

  function KnownRun(s: State, known: set<Name>, steps: seq<Step>): set<Name> {
    if steps == [] then known
    else
      var before := steps[..|steps| - 1];
      KnownAfter(Run(s, before), KnownRun(s, known, before), steps[|steps| - 1])
  }

  /** Cached means cached right, and the known names are cached. */
  predicate Coherent(s: State, known: set<Name>, n: Name) {
    && (n in s.cache.items ==> n in s.disk && s.disk[n] == s.cache.items[n])
    && (n in known <==> n in s.cache.items)
  }

  predicate MoveReady(s: State, e: Event) {
    && e.Moved?
    && Lower(e.name) != Lower(e.to)
    && Pending(s.queue, Lower(e.name)) == Pending(s.queue, Lower(e.to)) == [e]
    && Lower(e.name) in s.cache.items
    && Lower(e.name) !in s.disk
    && Lower(e.to) in s.disk
    && s.disk[Lower(e.to)] == s.cache.items[Lower(e.name)]
  }

  /** What the queued events about `n`, and the last of them above all, promise of the disk. */
  ghost predicate NameOk(s: State, known: set<Name>, n: Name) {
    var p := Pending(s.queue, n);
    && (forall e :: e in p && e.Moved? ==> MoveReady(s, e))
    && (if p == [] then Coherent(s, known, n)
        else if p[|p| - 1].Deleted? then n !in known
        else if p[|p| - 1].Moved? then n in known <==> n == Lower(p[|p| - 1].to)
        else n in known && n in s.disk && s.disk[n].dir in s.cache.observed)
  }

  ghost predicate DirsOk(s: State) {
    forall n :: n in s.cache.items ==> s.cache.items[n].dir in s.cache.observed
  }

  ghost predicate Inv(s: State, known: set<Name>) {
    DirsOk(s) && forall n :: NameOk(s, known, n)
  }

  lemma {:induction false} PendingMember(queue: seq<Event>, n: Name, e: Event)
    ensures e in Pending(queue, n) <==> e in queue && Mentions(e, n)
  {
    if queue == [] {
    } else {
      PendingMember(queue[1..], n, e);
      assert queue == [queue[0]] + queue[1..];
    }
  }

  /** A pending move and the names it is about. */
  lemma MoveNames(s: State, e: Event, n: Name)
    requires MoveReady(s, e) && Pending(s.queue, n) != [] && n in {Lower(e.name), Lower(e.to)}
    ensures Pending(s.queue, n) == [e] && e in s.queue && !NoMovePending(s, n)
  {
    PendingMember(s.queue, n, e);
  }

  /** A disk change at `k`, with or without its event, does not touch the standing of another name. */
  lemma ChangeElsewhere(
      s: State, s': State, known: set<Name>, known': set<Name>, k: Name, e: Event, n: Name)
    requires NameOk(s, known, n) && n != k && NoMovePending(s, k)
    requires s'.cache == s.cache && s'.disk - {k} == s.disk - {k}
    requires !e.Moved? && Lower(e.name) == k && s'.queue in {s.queue, s.queue + [e]}
    requires n in known' <==> n in known
    ensures NameOk(s', known', n)
  {
    forall m | m != k
      ensures Pending(s'.queue, m) == Pending(s.queue, m)
      ensures m in s'.disk <==> m in s.disk
      ensures m in s.disk ==> s'.disk[m] == s.disk[m]
    {
      PendingAppend(s.queue, e, m);
      assert m in s.disk <==> m in s.disk - {k};
      assert m in s'.disk <==> m in s'.disk - {k};
    }
    forall move | move in Pending(s'.queue, n) && move.Moved?
      ensures MoveReady(s', move)
    {
      assert MoveReady(s, move);
      if k in {Lower(move.name), Lower(move.to)} {
        MoveNames(s, move, k);
      }
    }
  }

  /** The standing of the changed name itself: its event, if queued, is now the last one about it. */
  lemma ChangeHere(s: State, s': State, known: set<Name>, e: Event, n: Name)
    requires Lower(e.name) == n && !e.Moved? && NoMovePending(s, n)
    requires s'.queue == s.queue + [e]
    requires if e.Deleted? then n !in known
             else n in known && n in s'.disk && s'.disk[n].dir in s'.cache.observed
    ensures NameOk(s', known, n)
  {
    PendingAppend(s.queue, e, n);
    NoMoveAmong(s, n);
    assert Pending(s'.queue, n)[|Pending(s.queue, n)|] == e;
  }

  lemma NoMoveAmong(s: State, n: Name)
    requires NoMovePending(s, n)
    ensures forall e :: e in Pending(s.queue, n) ==> !e.Moved?
  {
    forall e | e in Pending(s.queue, n)
      ensures !e.Moved?
    {
      PendingMember(s.queue, n, e);
    }
  }

  /** An unobserved change: nothing cached stands for it, and no promise is broken. */
  lemma ChangeUnseen(s: State, s': State, known: set<Name>, known': set<Name>, n: Name)
    requires Inv(s, known) && NoMovePending(s, n)
    requires s'.cache == s.cache && s'.queue == s.queue
    requires n in s.disk ==> s.disk[n].dir !in s.cache.observed
    requires n in s'.disk ==> s'.disk[n].dir !in s.cache.observed
    requires n in known' ==> n in known
    ensures NameOk(s', known', n)
  {
    assert NameOk(s, known, n);
    NoMoveAmong(s, n);
  }

  lemma DiskStepKeeps(s: State, step: Step, known: set<Name>, n: Name)
    requires Inv(s, known) && Enabled(s, step)
    requires step.Create? || step.Modify? || step.Delete?
    ensures NameOk(Next(s, step), KnownAfter(s, known, step), n)
  {
    var s', known' := Next(s, step), KnownAfter(s, known, step);
    var k := Lower(step.name);
    var e :=
      if step.Create? then Created(step.name)
      else if step.Modify? then Modified(step.name)
      else Deleted(step.name);
    assert NameOk(s, known, n);
    assert s'.disk - {k} == s.disk - {k};
    if n != k {
      ChangeElsewhere(s, s', known, known', k, e, n);
    } else if s'.queue == s.queue + [e] {
      ChangeHere(s, s', known', e, n);
    } else {
      ChangeUnseen(s, s', known, known', n);
    }
  }

  /** A move pending before a step stays ready when the step leaves its two names alone. */
  lemma StaysReady(s: State, s': State, move: Event)
    requires MoveReady(s, move)
    requires forall m :: m in {Lower(move.name), Lower(move.to)} ==>
               && Pending(s'.queue, m) == Pending(s.queue, m)
               && (m in s'.disk <==> m in s.disk) && (m in s.disk ==> s'.disk[m] == s.disk[m])
    requires var src := Lower(move.name);
               src in s'.cache.items && s'.cache.items[src] == s.cache.items[src]
    ensures MoveReady(s', move)
  {
  }

  lemma MoveIsReady(s: State, step: Step, known: set<Name>)
    requires Enabled(s, step) && step.Move? && NameOk(s, known, Lower(step.name))
    requires s.disk[Lower(step.name)].dir in s.cache.observed
    ensures Next(s, step).queue == s.queue + [Moved(step.name, step.to)]
    ensures MoveReady(Next(s, step), Moved(step.name, step.to))
  {
    var e := Moved(step.name, step.to);
    PendingAppend(s.queue, e, Lower(step.name));
    PendingAppend(s.queue, e, Lower(step.to));
  }

  lemma MoveStepKeeps(s: State, step: Step, known: set<Name>, n: Name)
    requires Inv(s, known) && Enabled(s, step) && step.Move?
    ensures NameOk(Next(s, step), KnownAfter(s, known, step), n)
  {
    var s' := Next(s, step);
    var src, dst, e := Lower(step.name), Lower(step.to), Moved(step.name, step.to);
    assert NameOk(s, known, src) && Coherent(s, known, src);
    MoveIsReady(s, step, known);
    PendingAppend(s.queue, e, n);
    assert NameOk(s, known, n);
    if n == src || n == dst {
      assert Pending(s'.queue, n) == [e];
    } else {
      assert Pending(s'.queue, n) == Pending(s.queue, n);
      forall move | move in Pending(s.queue, n) && move.Moved?
        ensures MoveReady(s', move)
      {
        assert MoveReady(s, move);
        MoveLeavesMove(s, step, move);
      }
    }
  }

  lemma MoveLeavesMove(s: State, step: Step, move: Event)
    requires Enabled(s, step) && step.Move? && MoveReady(s, move)
    requires Next(s, step).queue == s.queue + [Moved(step.name, step.to)]
    ensures MoveReady(Next(s, step), move)
  {
    var e := Moved(step.name, step.to);
    PendingAppend(s.queue, e, Lower(move.name));
    PendingAppend(s.queue, e, Lower(move.to));
    StaysReady(s, Next(s, step), move);
  }

  lemma LookupKeeps(s: State, step: Step, known: set<Name>, n: Name)
    requires Inv(s, known) && step.Lookup?
    ensures NameOk(Next(s, step), KnownAfter(s, known, step), n)
  {
    assert NameOk(s, known, n);
  }

  lemma LookupAllKeeps(s: State, known: set<Name>, n: Name)
    requires Inv(s, known)
    ensures NameOk(Next(s, LookupAll), KnownAfter(s, known, LookupAll), n)
  {
    assert NameOk(s, known, n);
  }

  /** Handling an event about other names leaves the cached spec of `n` and the watched directories alone. */
  lemma HandledElsewhere(c: Cache, disk: map<Name, Spec>, e: Event, n: Name)
    requires !Mentions(e, n)
    ensures n in Handled(c, disk, e).items <==> n in c.items
    ensures n in c.items ==> Handled(c, disk, e).items[n] == c.items[n]
    ensures c.observed <= Handled(c, disk, e).observed
  {
  }

  lemma DispatchElsewhere(s: State, known: set<Name>, n: Name)
    requires Inv(s, known) && s.queue != [] && !Mentions(s.queue[0], n)
    ensures NameOk(Next(s, Dispatch), known, n)
  {
    var s', e := Next(s, Dispatch), s.queue[0];
    assert NameOk(s, known, n);
    assert Pending(s'.queue, n) == Pending(s.queue, n);
    HandledElsewhere(s.cache, s.disk, e, n);
    DispatchLeavesMoves(s, n);
  }

  lemma DispatchLeavesMoves(s: State, n: Name)
    requires s.queue != [] && !Mentions(s.queue[0], n)
    requires forall move :: move in Pending(s.queue, n) && move.Moved? ==> MoveReady(s, move)
    ensures forall move :: move in Pending(s.queue, n) && move.Moved? ==> MoveReady(Next(s, Dispatch), move)
  {
    forall move | move in Pending(s.queue, n) && move.Moved?
      ensures MoveReady(Next(s, Dispatch), move)
    {
      PendingMember(s.queue, n, move);
      DispatchLeavesMove(s, move);
    }
  }

  lemma DispatchLeavesMove(s: State, move: Event)
    requires s.queue != [] && MoveReady(s, move) && move != s.queue[0]
    ensures MoveReady(Next(s, Dispatch), move)
  {
    HeadIsOnlyEvent(s, move, Lower(move.name));
    HeadIsOnlyEvent(s, move, Lower(move.to));
    StaysReady(s, Next(s, Dispatch), move);
  }

  lemma HeadIsOnlyEvent(s: State, e: Event, n: Name)
    requires s.queue != [] && Pending(s.queue, n) == [e] && s.queue[0] != e
    ensures !Mentions(s.queue[0], n) && Pending(s.queue[1..], n) == [e]
  {
    var head := s.queue[0];
    assert [e][0] == e;
    assert Pending(s.queue, n) == (if Mentions(head, n) then [head] else []) + Pending(s.queue[1..], n);
  }

  lemma DispatchMove(s: State, known: set<Name>, n: Name)
    requires Inv(s, known) && s.queue != [] && s.queue[0].Moved? && Mentions(s.queue[0], n)
    ensures NameOk(Next(s, Dispatch), known, n)
  {
    var e := s.queue[0];
    assert NameOk(s, known, n);
    assert e in Pending(s.queue, n);
    assert MoveReady(s, e);
    assert Pending(s.queue, n) == [e] + Pending(s.queue[1..], n);
  }

  /** Behind an event about `n` that is no move, no move about `n` is queued. */
  lemma NoMoveBehind(s: State, known: set<Name>, n: Name)
    requires NameOk(s, known, n) && s.queue != [] && !s.queue[0].Moved? && Mentions(s.queue[0], n)
    ensures forall e :: e in Pending(s.queue[1..], n) ==> !e.Moved?
  {
    var head, rest := s.queue[0], Pending(s.queue[1..], n);
    assert Pending(s.queue, n) == [head] + rest;
    assert Pending(s.queue, n)[0] == head;
    forall e | e in rest
      ensures !e.Moved?
    {
      assert e in Pending(s.queue, n);
      PendingMember(s.queue[1..], n, e);
    }
  }

  lemma DispatchHere(s: State, known: set<Name>, n: Name)
    requires Inv(s, known) && s.queue != [] && !s.queue[0].Moved? && Mentions(s.queue[0], n)
    ensures NameOk(Next(s, Dispatch), known, n)
  {
    var e := s.queue[0];
    assert NameOk(s, known, n);
    var rest := Pending(s.queue[1..], n);
    assert Pending(s.queue, n) == [e] + rest;
    NoMoveBehind(s, known, n);
    assert rest != [] ==> Pending(s.queue, n)[|rest|] == rest[|rest| - 1];
  }

  lemma DispatchKeeps(s: State, known: set<Name>, n: Name)
    requires Inv(s, known) && s.queue != []
    ensures NameOk(Next(s, Dispatch), known, n)
  {
    if !Mentions(s.queue[0], n) {
      DispatchElsewhere(s, known, n);
    } else if s.queue[0].Moved? {
      DispatchMove(s, known, n);
    } else {
      DispatchHere(s, known, n);
    }
  }

  lemma NextKeepsInv(s: State, step: Step, known: set<Name>)
    requires Inv(s, known)
    ensures Inv(Next(s, step), KnownAfter(s, known, step))
  {
    if Enabled(s, step) {
      forall n
        ensures NameOk(Next(s, step), KnownAfter(s, known, step), n)
      {
        match step
        case Move(_, _) => MoveStepKeeps(s, step, known, n);
        case Dispatch => DispatchKeeps(s, known, n);
        case Lookup(_, _) => LookupKeeps(s, step, known, n);
        case LookupAll => LookupAllKeeps(s, known, n);
        case _ => DiskStepKeeps(s, step, known, n);
      }
      NextKeepsDirs(s, step, known);
    }
  }

  lemma NextKeepsDirs(s: State, step: Step, known: set<Name>)
    requires Inv(s, known)
    ensures DirsOk(Next(s, step))
  {
  }

  lemma {:induction false} RunKeepsInv(s: State, known: set<Name>, steps: seq<Step>)
    requires Inv(s, known)
    ensures Inv(Run(s, steps), KnownRun(s, known, steps))
  {
    if steps == [] {
    } else {
      var before := steps[..|steps| - 1];
      RunKeepsInv(s, known, before);
      NextKeepsInv(Run(s, before), steps[|steps| - 1], KnownRun(s, known, before));
    }
  }

  lemma SeededInv(disk: map<Name, Spec>, kernelDirs: set<string>)
    ensures Inv(Seeded(disk, kernelDirs), disk.Keys)
  {
    var s := Seeded(disk, kernelDirs);
    assert s.cache.items == disk;
    forall n | n in disk
      ensures disk[n].dir in Dirs(disk)
    {
    }
  }

  /** The names known after a run that begins with the cache's construction. */
  function Known(disk: map<Name, Spec>, kernelDirs: set<string>, steps: seq<Step>): set<Name> {
    KnownRun(Seeded(disk, kernelDirs), disk.Keys, steps)
  }

  lemma NextKeepsWatching(s: State, step: Step)
    ensures s.cache.observed <= Next(s, step).cache.observed
  {
  }

  ghost predicate WatchedKnown(s: State, known: set<Name>, dirs: set<string>) {
    dirs <= s.cache.observed && forall n :: n in s.disk && s.disk[n].dir in dirs ==> n in known
  }

  lemma NextKeepsWatchedKnown(s: State, known: set<Name>, dirs: set<string>, step: Step)
    requires WatchedKnown(s, known, dirs)
    ensures WatchedKnown(Next(s, step), KnownAfter(s, known, step), dirs)
  {
    NextKeepsWatching(s, step);
  }

  /** What lies in a directory watched from the start is always known. */
  lemma {:induction false} WatchedIsKnown(disk: map<Name, Spec>, kernelDirs: set<string>, steps: seq<Step>)
    ensures WatchedKnown(
              Run(Seeded(disk, kernelDirs), steps), Known(disk, kernelDirs, steps), kernelDirs + Dirs(disk))
  {
    if steps == [] {
    } else {
      var before := steps[..|steps| - 1];
      WatchedIsKnown(disk, kernelDirs, before);
      NextKeepsWatchedKnown(
        Run(Seeded(disk, kernelDirs), before), Known(disk, kernelDirs, before), kernelDirs + Dirs(disk),
        steps[|steps| - 1]);
    }
  }

  /**
   * In every interleaving of disk changes, handlers and lookups, a name with no event pending is cached
   * only with what the disk holds; and it is cached if and only if it is known, which it is in particular
   * if the disk holds it in a directory watched from the start.
   */
  lemma CoherentOverRuns(disk: map<Name, Spec>, kernelDirs: set<string>, steps: seq<Step>, n: Name)
    ensures var s := Run(Seeded(disk, kernelDirs), steps);
      Pending(s.queue, n) == [] ==>
        && (n in s.cache.items ==> n in s.disk && s.disk[n] == s.cache.items[n])
        && (n in s.cache.items <==> n in Known(disk, kernelDirs, steps))
        && (n in s.disk && s.disk[n].dir in kernelDirs + Dirs(disk) ==> n in s.cache.items)
  {
    SeededInv(disk, kernelDirs);
    RunKeepsInv(Seeded(disk, kernelDirs), disk.Keys, steps);
    WatchedIsKnown(disk, kernelDirs, steps);
    assert NameOk(Run(Seeded(disk, kernelDirs), steps), Known(disk, kernelDirs, steps), n);
  }

  /** With no event pending for a name, looking it up gives what the manager without a cache would. */
  lemma LookupRefinesManager(
      disk: map<Name, Spec>, kernelDirs: set<string>, steps: seq<Step>, name: Name, vanished: bool)
    ensures var s := Run(Seeded(disk, kernelDirs), steps);
      Pending(s.queue, Lower(name)) == [] ==>
        Found(s.cache, s.disk, name, vanished) == Uncached(s.disk, name)
  {
    CoherentOverRuns(disk, kernelDirs, steps, Lower(name));
  }

  /**
   * At quiescence, listing all specs returns only specs on disk; and it returns the whole disk exactly
   * when nothing is known or everything on disk is, in particular when every spec lies in a directory
   * watched from the start.
   */
  lemma ListingAtRest(disk: map<Name, Spec>, kernelDirs: set<string>, steps: seq<Step>)
    ensures var s, known := Run(Seeded(disk, kernelDirs), steps), Known(disk, kernelDirs, steps);
      s.queue == [] ==>
        && (forall n :: n in FoundAll(s.cache, s.disk) ==> n in s.disk && s.disk[n] == FoundAll(s.cache, s.disk)[n])
        && (FoundAll(s.cache, s.disk) == s.disk <==> known == {} || s.disk.Keys <= known)
        && (Dirs(s.disk) <= kernelDirs + Dirs(disk) ==> FoundAll(s.cache, s.disk) == s.disk)
  {
    var s, known := Run(Seeded(disk, kernelDirs), steps), Known(disk, kernelDirs, steps);
    if s.queue == [] {
      forall n
        ensures n in s.cache.items ==> n in s.disk && s.disk[n] == s.cache.items[n]
        ensures n in s.cache.items <==> n in known
      {
        CoherentOverRuns(disk, kernelDirs, steps, n);
      }
      assert s.cache.items.Keys == known;
      WatchedIsKnown(disk, kernelDirs, steps);
      if Dirs(s.disk) <= kernelDirs + Dirs(disk) {
        forall n | n in s.disk
          ensures n in known
        {
          assert s.disk[n].dir in Dirs(s.disk);
        }
      }
      if s.disk.Keys <= known {
        assert s.cache.items == s.disk;
      }
      assert s.cache.items == map[] <==> known == {};
    }
  }

  // ----- Where the conditions matter -----

  /**
   * Two specs appearing in a directory nobody watches yet: looking one up caches it, and from then on
   * the listing is that one spec although nothing is pending.
   */
  lemma ListingCanBePartial(a: Spec, b: Spec, dir: string)
    requires a.dir == b.dir == dir
    ensures var s := Run(Seeded(map[], {}), [Create("a", a), Create("b", b), Lookup("a", false)]);
      s.queue == [] && FoundAll(s.cache, s.disk) == map["a" := a] && s.disk == map["a" := a, "b" := b]
  {
    var s0 := Seeded(map[], {});
    var steps := [Create("a", a), Create("b", b), Lookup("a", false)];
    assert Lower("a") == "a" && Lower("b") == "b";
    assert steps[..2][..1] == [Create("a", a)] && steps[..2][..1][..0] == [];
    var s1 := Next(s0, Create("a", a));
    var s2 := Next(s1, Create("b", b));
    assert Run(s0, steps[..1]) == s1 by {
      assert steps[..1] == [Create("a", a)];
    }
    assert Run(s0, steps[..2]) == s2 by {
      assert steps[..2][..1] == steps[..1];
    }
    assert Run(s0, steps) == Next(s2, Lookup("a", false));
  }

  /** A lookup that read `spec` for `name` before other steps ran, and puts it only now. */
  function LatePut(s: State, name: Name, spec: Spec): State {
    s.(cache := Put(s.cache, name, spec))
  }

  function LateKnown(s: State, known: set<Name>, name: Name): set<Name> {
    if Pending(s.queue, Lower(name)) == [] then known + {Lower(name)} else known
  }

  /** Of the names with no event pending, the cache holds only what the disk holds. */
  ghost predicate RightAtRest(s: State) {
    forall n :: Pending(s.queue, n) == [] && n in s.cache.items ==> n in s.disk && s.disk[n] == s.cache.items[n]
  }

  /** An event still pending for the name, or an unchanged disk, makes up for a late put. */
  lemma LatePutKeepsInv(s: State, known: set<Name>, name: Name, spec: Spec)
    requires Inv(s, known) && NoMovePending(s, Lower(name))
    requires Pending(s.queue, Lower(name)) != [] || Uncached(s.disk, name) == Some(spec)
    ensures Inv(LatePut(s, name, spec), LateKnown(s, known, name))
  {
    var s' := LatePut(s, name, spec);
    assert DirsOk(s') by {
      LatePutKeepsDirs(s, name, spec);
    }
    forall n
      ensures NameOk(s', LateKnown(s, known, name), n)
    {
      assert NameOk(s, known, n);
      forall move | move in Pending(s.queue, n) && move.Moved?
        ensures MoveReady(s', move)
      {
        LatePutLeavesMove(s, name, spec, move);
      }
    }
  }

  lemma LatePutKeepsDirs(s: State, name: Name, spec: Spec)
    requires DirsOk(s)
    ensures DirsOk(LatePut(s, name, spec))
  {
    var s' := LatePut(s, name, spec);
    assert forall n :: n in s'.cache.items && n != Lower(name) ==> n in s.cache.items;
  }

  lemma LatePutLeavesMove(s: State, name: Name, spec: Spec, move: Event)
    requires MoveReady(s, move) && NoMovePending(s, Lower(name))
    ensures MoveReady(LatePut(s, name, spec), move)
  {
    if Lower(name) in {Lower(move.name), Lower(move.to)} {
      MoveNames(s, move, Lower(name));
    }
  }

  lemma LatePutRightIff(s: State, known: set<Name>, name: Name, spec: Spec)
    requires Inv(s, known) && NoMovePending(s, Lower(name))
    ensures (forall after :: RightAtRest(Run(LatePut(s, name, spec), after)))
       <==> Pending(s.queue, Lower(name)) != [] || Uncached(s.disk, name) == Some(spec)
  {
    if Pending(s.queue, Lower(name)) != [] || Uncached(s.disk, name) == Some(spec) {
      LatePutKeepsInv(s, known, name, spec);
      InvKeepsRest(LatePut(s, name, spec), LateKnown(s, known, name));
    } else {
      LatePutShows(s, name, spec);
    }
  }

  /**
   * Were the miss path interrupted between its read and its put, with any steps `between` them: from then
   * on, on every further run, the cache would be right at rest if and only if, at the put, an event about
   * the name is still pending or the disk still holds what was read.
   */
  lemma LatePutHarmlessIff(
      disk: map<Name, Spec>, kernelDirs: set<string>, before: seq<Step>, between: seq<Step>, name: Name)
    requires Lower(name) in Run(Seeded(disk, kernelDirs), before).disk
    requires NoMovePending(Run(Seeded(disk, kernelDirs), before + between), Lower(name))
    ensures var spec := Run(Seeded(disk, kernelDirs), before).disk[Lower(name)];
      var s := Run(Seeded(disk, kernelDirs), before + between);
      (forall after :: RightAtRest(Run(LatePut(s, name, spec), after)))
      <==> Pending(s.queue, Lower(name)) != [] || Uncached(s.disk, name) == Some(spec)
  {
    SeededInv(disk, kernelDirs);
    RunKeepsInv(Seeded(disk, kernelDirs), disk.Keys, before + between);
    LatePutRightIff(
      Run(Seeded(disk, kernelDirs), before + between), Known(disk, kernelDirs, before + between), name,
      Run(Seeded(disk, kernelDirs), before).disk[Lower(name)]);
  }

  lemma LatePutShows(s: State, name: Name, spec: Spec)
    requires Pending(s.queue, Lower(name)) == [] && Uncached(s.disk, name) != Some(spec)
    ensures exists after :: !RightAtRest(Run(LatePut(s, name, spec), after))
  {
    var s', k := LatePut(s, name, spec), Lower(name);
    assert Pending(s'.queue, k) == [] && k in s'.cache.items && s'.cache.items[k] == spec;
    assert !RightAtRest(s');
    assert Run(s', []) == s';
  }

  lemma InvKeepsRest(s: State, known: set<Name>)
    requires Inv(s, known)
    ensures forall after :: RightAtRest(Run(s, after))
  {
    forall after
      ensures RightAtRest(Run(s, after))
    {
      RunKeepsInv(s, known, after);
      InvIsRightAtRest(Run(s, after), KnownRun(s, known, after));
    }
  }

  lemma InvIsRightAtRest(s: State, known: set<Name>)
    requires Inv(s, known)
    ensures RightAtRest(s)
  {
    forall n | Pending(s.queue, n) == [] && n in s.cache.items
      ensures n in s.disk && s.disk[n] == s.cache.items[n]
    {
      assert NameOk(s, known, n);
    }
  }
}
