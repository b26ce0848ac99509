/**
 * Who may delete which Kubernetes namespace: kernel launches create namespaces and remember to delete
 * them, restarts reuse them, terminations and failed launches delete them, and all of it survives a
 * restart of the gateway through the persisted process information.
 */
module Namespaces {
  import opened Collections
  import opened Ids
  import PodName

  type Name = string

  datatype Owner = Outsider | OwnedBy(kernel: Uuid)

  /** The namespaces that exist, and those of them whose deletion has been requested but not finished. */
  datatype Cluster = Cluster(spaces: map<Name, Owner>, doomed: set<Name>)

  /**
   * Answers of the Kubernetes API that do not follow from the cluster's own state. `PodMissing` and
   * `PodError` are exceptions on deleting the pod, or on asking for the status of one not deleted yet.
   */
  datatype CreateAnswer = Accepted | CreateError
  datatype BindAnswer = Bound | BindConflict | BindError
  datatype PodAnswer = PodRemoved(terminated: bool) | PodMissing | PodError
  datatype DeleteAnswer = Deleting(terminated: bool) | DeleteError

  /** A proxy's namespace, whether it will delete it, and the pod it knows of (empty for none). */
  datatype Proxy = Proxy(ns: Option<Name>, deleteNs: bool, container: string)

  const FRESH_PROXY := Proxy(None, false, "")

  /** The gateway's settings, and the pod name that each kernel's environment leads to. */
  datatype Config = Config(shared: bool, gatewayNs: Name, podName: Uuid -> Name)

  function WithDoomed(c: Cluster, n: Name): Cluster {
    if n in c.spaces then c.(doomed := c.doomed + {n}) else c
  }

  /** A launch's outcome; when it raises, the proxy stays behind. */
  datatype Launched = Launched(cluster: Cluster, proxy: Proxy, ok: bool)

  function CreateNamespace(
      c: Cluster, k: Uuid, n: Name, restarting: bool, create: CreateAnswer, bind: BindAnswer): Launched {
    var conflict := n in c.spaces;
    if create == Accepted && !conflict then
      var created := c.(spaces := c.spaces[n := OwnedBy(k)]);
      if bind == Bound || (bind == BindConflict && restarting)
      then Launched(created, Proxy(Some(n), true, ""), true)
      else Launched(WithDoomed(created, n), Proxy(None, true, ""), false)
    else if create == Accepted && restarting then Launched(c, Proxy(Some(n), true, ""), true)
    else Launched(c, FRESH_PROXY, false)
  }

  function Launching(
      cfg: Config, c: Cluster, k: Uuid, client: Option<Name>, restarting: bool,
      create: CreateAnswer, bind: BindAnswer): Launched
  {
    if client.Some? then Launched(c, FRESH_PROXY.(ns := client), true)
    else if cfg.shared then Launched(c, FRESH_PROXY.(ns := Some(cfg.gatewayNs)), true)
    else CreateNamespace(c, k, cfg.podName(k), restarting, create, bind)
  }

  /** The namespace that a launch's error handling deletes. */
  function LaunchDeletes(
      cfg: Config, c: Cluster, k: Uuid, client: Option<Name>, restarting: bool,
      create: CreateAnswer, bind: BindAnswer): Option<Name>
  {
    if client.None? && !cfg.shared && create == Accepted && cfg.podName(k) !in c.spaces
       && (bind == BindError || (bind == BindConflict && !restarting))
    then Some(cfg.podName(k))
    else None
  }

  /** The namespace that a termination deletes: none at all when deleting the pod raises first. */
  function TerminationDeletes(p: Proxy, restarting: bool, pod: PodAnswer): Option<Name> {
    if p.container != "" && pod.PodRemoved? && p.deleteNs && !restarting then p.ns else None
  }

  /** The termination counts as done, and the proxy forgets its pod. */
  function TerminationDone(
      c: Cluster, p: Proxy, restarting: bool, pod: PodAnswer, answer: DeleteAnswer): bool
  {
    match pod
    case PodMissing => true
    case PodError => false
    case PodRemoved(terminated) =>
      || terminated
      || (TerminationDeletes(p, restarting, pod).Some?
          && (p.ns.value !in c.spaces || (answer.Deleting? && answer.terminated)))
  }

  // ----- Whole runs -----

  datatype Info = Info(ns: Option<Name>, deleteNs: bool)

  datatype State = State(
    cluster: Cluster,
    proxies: map<Uuid, Proxy>,
    restarting: set<Uuid>,
    store: map<Uuid, Info>)

  datatype Step =
    | Launch(k: Uuid, client: Option<Name>, create: CreateAnswer, bind: BindAnswer)
    | Located(k: Uuid, container: string)
    | Terminate(k: Uuid, pod: PodAnswer, answer: DeleteAnswer)
    | SetRestarting(k: Uuid, restarting: bool)
    | Save(k: Uuid)
    | Load(k: Uuid)
    | GatewayRestart
    | Vanish(ns: Name)
    | Outside(ns: Name, existing: bool)

  function Loaded(info: Info): Proxy {
    Proxy(info.ns, info.deleteNs, "")
  }

  /** The namespace that a step asks the cluster to delete. */
  function Deletes(cfg: Config, s: State, step: Step): Option<Name> {
    match step
    case Launch(k, client, create, bind) =>
      LaunchDeletes(cfg, s.cluster, k, client, k in s.restarting, create, bind)
    case Terminate(k, pod, answer) =>
      if k in s.proxies then TerminationDeletes(s.proxies[k], k in s.restarting, pod) else None
    case _ => None
  }

  function Next(cfg: Config, s: State, step: Step): State {
    match step
    case Launch(k, client, create, bind) =>
      var l := Launching(cfg, s.cluster, k, client, k in s.restarting, create, bind);
      s.(cluster := l.cluster, proxies := s.proxies[k := l.proxy])
    case Located(k, container) =>
      if k in s.proxies && s.proxies[k].ns.Some?
      then s.(proxies := s.proxies[k := s.proxies[k].(container := container)])
      else s
    case Terminate(k, pod, answer) =>
      if k !in s.proxies || s.proxies[k].container == "" then s
      else
        var p := s.proxies[k];
        var target := TerminationDeletes(p, k in s.restarting, pod);
        var cluster := if target.Some? && answer.Deleting? then WithDoomed(s.cluster, target.value) else s.cluster;
        var done := TerminationDone(s.cluster, p, k in s.restarting, pod, answer);
        s.(cluster := cluster, proxies := s.proxies[k := if done then p.(container := "") else p])
    case SetRestarting(k, restarting) =>
      s.(restarting := if restarting then s.restarting + {k} else s.restarting - {k})
    case Save(k) =>
      if k in s.proxies
      then s.(store := s.store[k := Info(s.proxies[k].ns, s.proxies[k].deleteNs)])
      else s
    case Load(k) =>
      if k in s.store then s.(proxies := s.proxies[k := Loaded(s.store[k])]) else s
    case GatewayRestart =>
      s.(proxies := map[], restarting := {})
    case Vanish(n) =>
      if n in s.cluster.doomed
      then s.(cluster := Cluster(s.cluster.spaces - {n}, s.cluster.doomed - {n}))
      else s
    case Outside(n, existing) =>
      if existing
      then s.(cluster := s.cluster.(spaces := s.cluster.spaces[n := Outsider]))
      else s.(cluster := Cluster(s.cluster.spaces - {n}, s.cluster.doomed - {n}))
  }

  /** `spaces` are there before the gateway starts. */
  function Initial(spaces: set<Name>): State {
    State(Cluster(map n | n in spaces :: Outsider, {}), map[], {}, map[])
  }

  function Run(cfg: Config, spaces: set<Name>, steps: seq<Step>): State {
    if steps == [] then Initial(spaces)
    else Next(cfg, Run(cfg, spaces, steps[..|steps| - 1]), steps[|steps| - 1])
  }

  ghost predicate IsPodName(cfg: Config, n: Name) {
    exists k: Uuid :: cfg.podName(k) == n
  }

  ghost predicate Distinct(cfg: Config) {
    forall j: Uuid, k: Uuid :: cfg.podName(j) == cfg.podName(k) ==> j == k
  }

  /** Nothing but the gateway uses the kernels' pod names for namespaces. */
  ghost predicate NoOutsideActor(cfg: Config, spaces: set<Name>, steps: seq<Step>) {
    && (forall n :: n in spaces ==> !IsPodName(cfg, n))
    && forall i :: 0 <= i < |steps| && steps[i].Outside? ==> !IsPodName(cfg, steps[i].ns)
  }

  ghost predicate ClusterInv(cfg: Config, c: Cluster) {
    && c.doomed <= c.spaces.Keys
    && forall n :: n in c.spaces ==>
      match c.spaces[n]
      case Outsider => !IsPodName(cfg, n)
      case OwnedBy(k) => n == cfg.podName(k)
  }

  ghost predicate Entitled(cfg: Config, k: Uuid, ns: Option<Name>, deleteNs: bool) {
    deleteNs && ns.Some? ==> ns.value == cfg.podName(k)
  }

  ghost predicate Inv(cfg: Config, s: State) {
    && ClusterInv(cfg, s.cluster)
    && (forall k :: k in s.proxies ==> Entitled(cfg, k, s.proxies[k].ns, s.proxies[k].deleteNs))
    && (forall k :: k in s.store ==> Entitled(cfg, k, s.store[k].ns, s.store[k].deleteNs))
  }

  lemma NextKeepsInv(cfg: Config, s: State, step: Step)
    requires Inv(cfg, s)
    requires step.Outside? ==> !IsPodName(cfg, step.ns)
    ensures Inv(cfg, Next(cfg, s, step))
  {
  }

  lemma {:induction false} RunKeepsInv(cfg: Config, spaces: set<Name>, steps: seq<Step>)
    requires NoOutsideActor(cfg, spaces, steps)
    ensures Inv(cfg, Run(cfg, spaces, steps))
  {
    if steps == [] {
    } else {
      var n := |steps| - 1;
      RunKeepsInv(cfg, spaces, steps[..n]);
      assert steps[n].Outside? ==> !IsPodName(cfg, steps[n].ns);
      NextKeepsInv(cfg, Run(cfg, spaces, steps[..n]), steps[n]);
    }
  }

  /**
   * On any run, whatever namespace a step deletes on behalf of kernel `k` was created by a launch of `k`
   * itself, unless it is gone already: it is never anybody else's, nor one that outsiders provide.
   */
  lemma DeletionsHitOwnNamespaces(cfg: Config, spaces: set<Name>, steps: seq<Step>, step: Step)
    requires Distinct(cfg) && NoOutsideActor(cfg, spaces, steps)
    requires Deletes(cfg, Run(cfg, spaces, steps), step).Some?
    ensures var s, n := Run(cfg, spaces, steps), Deletes(cfg, Run(cfg, spaces, steps), step).value;
      && (step.Launch? || step.Terminate?)
      && n == cfg.podName(step.k)
      && n !in spaces
      && (n in s.cluster.spaces ==> s.cluster.spaces[n] == OwnedBy(step.k))
  {
    RunKeepsInv(cfg, spaces, steps);
    var s := Run(cfg, spaces, steps);
    var n := Deletes(cfg, s, step).value;
    assert n == cfg.podName(step.k);
    assert IsPodName(cfg, n);
  }

  /** Pod names made of a user and the kernel's id are distinct, so they meet the requirement above. */
  lemma DefaultPodNamesAreDistinct(cfg: Config, lower: string -> string, userOf: Uuid -> string)
    requires PodName.Lowers(lower)
    requires forall k: Uuid :: cfg.podName(k) == PodName.Normalised(lower, PodName.DefaultName(userOf(k), k))
    ensures Distinct(cfg)
  {
    forall j: Uuid, k: Uuid | cfg.podName(j) == cfg.podName(k)
      ensures j == k
    {
      UuidIsLabel(j);
      UuidIsLabel(k);
      if j != k {
        PodName.DefaultNamesAreDistinct(lower, userOf(j), j, userOf(k), k);
      }
    }
  }

  lemma UuidIsLabel(k: Uuid)
    ensures PodName.IsLabel(k) && |k| == 36
  {
    forall i | 0 <= i < |k| - 1
      ensures !(k[i] == '-' && k[i + 1] == '-')
    {
      assert i !in {8, 13, 18, 23} || i + 1 !in {8, 13, 18, 23};
    }
  }

  /** A namespace that the client names is the kernel's; nothing is created, and nothing will be deleted. */
  lemma LaunchIntoClientNamespace(cfg: Config, s: State, k: Uuid, n: Name, create: CreateAnswer, bind: BindAnswer)
    ensures Next(cfg, s, Launch(k, Some(n), create, bind)) == s.(proxies := s.proxies[k := Proxy(Some(n), false, "")])
  {
  }

  /** Likewise the gateway's own namespace, where the setting says so and the client names none. */
  lemma LaunchIntoSharedNamespace(cfg: Config, s: State, k: Uuid, create: CreateAnswer, bind: BindAnswer)
    requires cfg.shared
    ensures Next(cfg, s, Launch(k, None, create, bind))
         == s.(proxies := s.proxies[k := Proxy(Some(cfg.gatewayNs), false, "")])
  {
  }

  /** The launch goes through: its namespace is made and bound, or found and taken over in a restart. */
  predicate Settles(free: bool, restarting: bool, create: CreateAnswer, bind: BindAnswer) {
    && create == Accepted
    && (free ==> bind == Bound || (bind == BindConflict && restarting))
    && (!free ==> restarting)
  }

  /**
   * Otherwise the launch goes through, into the namespace of the pod's name, if and only if that was free and
   * the role binding was made or found in a restart, or it was taken and this is a restart. A namespace made
   * for a launch that fails is deleted again.
   */
  lemma LaunchIntoOwnNamespace(cfg: Config, s: State, k: Uuid, create: CreateAnswer, bind: BindAnswer)
    requires !cfg.shared
    ensures var s', pod := Next(cfg, s, Launch(k, None, create, bind)), cfg.podName(k);
      var free := pod !in s.cluster.spaces;
      var settles := Settles(free, k in s.restarting, create, bind);
      && k in s'.proxies && s'.proxies - {k} == s.proxies - {k}
      && s'.proxies[k].ns == (if settles then Some(pod) else None)
      && (s'.proxies[k].deleteNs <==> create == Accepted && (free || k in s.restarting))
      && s'.proxies[k].container == ""
      && s'.cluster.spaces ==
         (if create == Accepted && free then s.cluster.spaces[pod := OwnedBy(k)] else s.cluster.spaces)
      && s'.cluster.doomed ==
         (if create == Accepted && free && !settles then s.cluster.doomed + {pod} else s.cluster.doomed)
      && s'.restarting == s.restarting && s'.store == s.store
  {
  }

  /**
   * A termination forgets the pod if and only if the pod was missing or reported terminated, or the marked
   * namespace of a kernel not restarting was gone or reported so. It dooms that namespace, and nothing else
   * changes.
   */
  lemma TerminationForgetsIff(cfg: Config, s: State, k: Uuid, pod: PodAnswer, answer: DeleteAnswer)
    requires k in s.proxies && s.proxies[k].container != ""
    ensures var s', p := Next(cfg, s, Terminate(k, pod, answer)), s.proxies[k];
      var wants := p.ns.Some? && p.deleteNs && k !in s.restarting && pod.PodRemoved?;
      && k in s'.proxies && s'.proxies[k].ns == p.ns && s'.proxies[k].deleteNs == p.deleteNs
      && s'.proxies[k].container in {p.container, ""}
      && (s'.proxies[k].container == "" <==>
            || pod == PodMissing || pod == PodRemoved(true)
            || (wants && (p.ns.value !in s.cluster.spaces || answer == Deleting(true))))
      && s'.cluster.spaces == s.cluster.spaces
      && s'.cluster.doomed ==
         (if wants && p.ns.value in s.cluster.spaces && answer.Deleting?
          then s.cluster.doomed + {p.ns.value} else s.cluster.doomed)
      && s'.proxies - {k} == s.proxies - {k} && s'.restarting == s.restarting && s'.store == s.store
  {
  }

  /** A launch that goes through marks its namespace for deletion exactly when neither client nor setting names it. */
  lemma LaunchMarksItsOwn(
      cfg: Config, c: Cluster, k: Uuid, client: Option<Name>, restarting: bool,
      create: CreateAnswer, bind: BindAnswer)
    requires ClusterInv(cfg, c) && Distinct(cfg)
    requires Launching(cfg, c, k, client, restarting, create, bind).ok
    ensures var l := Launching(cfg, c, k, client, restarting, create, bind);
      && l.proxy.ns.Some?
      && (l.proxy.deleteNs <==> client.None? && !cfg.shared)
      && (l.proxy.deleteNs ==>
            && l.proxy.ns.value in l.cluster.spaces
            && l.cluster.spaces[l.proxy.ns.value] == OwnedBy(k))
  {
    assert IsPodName(cfg, cfg.podName(k));
  }

  /**
   * A termination deletes exactly the marked namespace of a kernel that is not restarting and whose pod it
   * could delete.
   */
  lemma TerminationDeletesIff(cfg: Config, s: State, k: Uuid, pod: PodAnswer, answer: DeleteAnswer)
    requires k in s.proxies
    ensures Deletes(cfg, s, Terminate(k, pod, answer)).Some? <==>
            var p := s.proxies[k];
            p.ns.Some? && p.deleteNs && p.container != "" && k !in s.restarting && pod.PodRemoved?
    ensures k in s.restarting ==> Next(cfg, s, Terminate(k, pod, answer)).cluster == s.cluster
  {
  }

  lemma {:induction false} StaysUnlocated(
      cfg: Config, spaces: set<Name>, before: seq<Step>, answer: DeleteAnswer, after: seq<Step>, k: Uuid)
    requires forall i :: 0 <= i < |after| ==> !((after[i].Located? || after[i].Launch?) && after[i].k == k)
    ensures var s := Run(cfg, spaces, before + [Terminate(k, PodMissing, answer)] + after);
      k in s.proxies ==> s.proxies[k].container == ""
  {
    var steps := before + [Terminate(k, PodMissing, answer)] + after;
    if after == [] {
      assert steps[..|steps| - 1] == before;
    } else {
      var shorter := after[..|after| - 1];
      StaysUnlocated(cfg, spaces, before, answer, shorter, k);
      assert steps[..|steps| - 1] == before + [Terminate(k, PodMissing, answer)] + shorter;
      assert steps[|steps| - 1] == after[|after| - 1];
    }
  }

  /**
   * A termination that finds the pod missing leaves the namespace behind: on every run from then on, nobody
   * asks for its deletion before the kernel's pod is located again or the kernel launched again.
   */
  lemma MissingPodLeavesNamespace(
      cfg: Config, spaces: set<Name>, before: seq<Step>, answer: DeleteAnswer, after: seq<Step>, step: Step, k: Uuid)
    requires var steps := before + [Terminate(k, PodMissing, answer)] + after;
             Distinct(cfg) && NoOutsideActor(cfg, spaces, steps)
    requires forall i :: 0 <= i < |after| ==> !((after[i].Located? || after[i].Launch?) && after[i].k == k)
    requires !(step.Launch? && step.k == k)
    ensures Deletes(cfg, Run(cfg, spaces, before + [Terminate(k, PodMissing, answer)] + after), step)
         != Some(cfg.podName(k))
  {
    var steps := before + [Terminate(k, PodMissing, answer)] + after;
    if Deletes(cfg, Run(cfg, spaces, steps), step).Some? {
      DeletionsHitOwnNamespaces(cfg, spaces, steps, step);
      StaysUnlocated(cfg, spaces, before, answer, after, k);
    }
  }

  /** Whether a kernel is restarting is what was last set, until the gateway restarts. */
  lemma {:induction false} RestartingAsSet(
      cfg: Config, spaces: set<Name>, before: seq<Step>, restarting: bool, after: seq<Step>, k: Uuid)
    requires forall i :: 0 <= i < |after| ==>
               !(after[i].SetRestarting? && after[i].k == k) && after[i] != GatewayRestart
    ensures k in Run(cfg, spaces, before + [SetRestarting(k, restarting)] + after).restarting <==> restarting
  {
    var steps := before + [SetRestarting(k, restarting)] + after;
    if after == [] {
      assert steps[..|steps| - 1] == before;
    } else {
      var shorter := after[..|after| - 1];
      RestartingAsSet(cfg, spaces, before, restarting, shorter, k);
      assert steps[..|steps| - 1] == before + [SetRestarting(k, restarting)] + shorter;
      assert steps[|steps| - 1] == after[|after| - 1];
    }
  }

  /** Once a namespace's owner is restarting and its deletion has not been requested, one step keeps it. */
  lemma NextKeepsNamespace(cfg: Config, s: State, step: Step, k: Uuid)
    requires Inv(cfg, s) && Distinct(cfg)
    requires step.Outside? ==> !IsPodName(cfg, step.ns)
    requires k in s.restarting && step != SetRestarting(k, false) && step != GatewayRestart
    requires cfg.podName(k) in s.cluster.spaces && cfg.podName(k) !in s.cluster.doomed
    ensures var s' := Next(cfg, s, step);
      && k in s'.restarting
      && cfg.podName(k) in s'.cluster.spaces && cfg.podName(k) !in s'.cluster.doomed
  {
    assert IsPodName(cfg, cfg.podName(k));
    if step.Launch? || step.Terminate? {
      assert cfg.podName(step.k) == cfg.podName(k) ==> step.k == k;
    }
  }

  /**
   * However a kernel's restart is interleaved with everything else, its namespace is still there, and
   * still its own, at the end.
   */
  lemma {:induction false} RestartKeepsNamespace(
      cfg: Config, spaces: set<Name>, before: seq<Step>, during: seq<Step>, k: Uuid)
    requires Distinct(cfg) && NoOutsideActor(cfg, spaces, before + during)
    requires k in Run(cfg, spaces, before).restarting
    requires forall i :: 0 <= i < |during| ==> during[i] != SetRestarting(k, false) && during[i] != GatewayRestart
    requires cfg.podName(k) in Run(cfg, spaces, before).cluster.spaces
    requires cfg.podName(k) !in Run(cfg, spaces, before).cluster.doomed
    ensures var s := Run(cfg, spaces, before + during);
      && k in s.restarting
      && cfg.podName(k) in s.cluster.spaces && cfg.podName(k) !in s.cluster.doomed
      && s.cluster.spaces[cfg.podName(k)] == OwnedBy(k)
  {
    var steps := before + during;
    if during == [] {
      assert steps == before;
    } else {
      var n := |steps| - 1;
      var shorter := during[..|during| - 1];
      assert steps[..n] == before + shorter;
      RestartKeepsNamespace(cfg, spaces, before, shorter, k);
      RunKeepsInv(cfg, spaces, steps[..n]);
      assert steps[n] == during[|during| - 1];
      NextKeepsNamespace(cfg, Run(cfg, spaces, steps[..n]), steps[n], k);
    }
    RunKeepsInv(cfg, spaces, steps);
    OwnsItsName(cfg, Run(cfg, spaces, steps), k);
  }

  lemma OwnsItsName(cfg: Config, s: State, k: Uuid)
    requires Inv(cfg, s) && Distinct(cfg) && cfg.podName(k) in s.cluster.spaces
    ensures s.cluster.spaces[cfg.podName(k)] == OwnedBy(k)
  {
    assert IsPodName(cfg, cfg.podName(k));
  }

  lemma {:induction false} StoreKeeps(cfg: Config, spaces: set<Name>, before: seq<Step>, after: seq<Step>, k: Uuid)
    requires k in Run(cfg, spaces, before).store
    requires forall i :: 0 <= i < |after| ==> after[i] != Save(k)
    ensures k in Run(cfg, spaces, before + after).store
    ensures Run(cfg, spaces, before + after).store[k] == Run(cfg, spaces, before).store[k]
  {
    var steps := before + after;
    if after == [] {
      assert steps == before;
    } else {
      var shorter := after[..|after| - 1];
      assert steps[..|steps| - 1] == before + shorter;
      StoreKeeps(cfg, spaces, before, shorter, k);
      assert steps[|steps| - 1] == after[|after| - 1];
    }
  }

  /** Whatever happens in between, loading gives back the namespace and the mark that were last saved. */
  lemma OwnershipSurvives(cfg: Config, spaces: set<Name>, before: seq<Step>, after: seq<Step>, k: Uuid)
    requires k in Run(cfg, spaces, before).proxies
    requires forall i :: 0 <= i < |after| ==> after[i] != Save(k)
    ensures var saved := Run(cfg, spaces, before).proxies[k];
      var s := Run(cfg, spaces, before + [Save(k)] + after + [Load(k)]);
      k in s.proxies && s.proxies[k] == saved.(container := "")
  {
    var saving := before + [Save(k)];
    assert saving[..|before|] == before;
    StoreKeeps(cfg, spaces, saving, after, k);
    var loading := saving + after + [Load(k)];
    assert loading[..|loading| - 1] == saving + after;
  }

  /** Distinct pod names are needed: any two kernels that share one can lose a namespace to each other. */
  lemma CollisionDeletesForeign(cfg: Config, j: Uuid, k: Uuid) returns (steps: seq<Step>, step: Step)
    requires !cfg.shared && j != k && cfg.podName(j) == cfg.podName(k)
    ensures NoOutsideActor(cfg, {}, steps)
    ensures var s := Run(cfg, {}, steps);
      && step.Terminate? && step.k == j
      && Deletes(cfg, s, step) == Some(cfg.podName(k))
      && cfg.podName(k) in s.cluster.spaces && s.cluster.spaces[cfg.podName(k)] == OwnedBy(k)
  {
    var n := cfg.podName(k);
    step := Terminate(j, PodRemoved(false), Deleting(false));
    steps := [Launch(j, None, Accepted, Bound), Located(j, "pod"), step, Vanish(n), Launch(k, None, Accepted, Bound)];
    var s0 := Initial({});
    var s1 := Next(cfg, s0, steps[0]);
    var s2 := Next(cfg, s1, steps[1]);
    var s3 := Next(cfg, s2, steps[2]);
    var s4 := Next(cfg, s3, steps[3]);
    assert n in s3.cluster.doomed && n !in s4.cluster.spaces;
    assert Run(cfg, {}, steps[..0]) == s0;
    assert steps[..1][..0] == steps[..0] && Run(cfg, {}, steps[..1]) == s1;
    assert steps[..2][..1] == steps[..1] && Run(cfg, {}, steps[..2]) == s2;
    assert steps[..3][..2] == steps[..2] && Run(cfg, {}, steps[..3]) == s3;
    assert steps[..4][..3] == steps[..3] && Run(cfg, {}, steps[..4]) == s4;
    assert Run(cfg, {}, steps) == Next(cfg, s4, steps[4]);
  }

  // ----- The objects -----

  datatype CreateStatus = Created | Conflict | Failed

  class KubernetesApi {
    var spaces: map<Name, Owner>
    var doomed: set<Name>

    constructor (spaces: set<Name>)
      ensures Current() == Initial(spaces).cluster
    {
      this.spaces := map n | n in spaces :: Outsider;
      this.doomed := {};
    }

    function Current(): Cluster
      reads this
    {
      Cluster(spaces, doomed)
    }

    method CreateNamespace(n: Name, k: Uuid, create: CreateAnswer) returns (status: CreateStatus)
      modifies this`spaces
      ensures status == if create.CreateError? then Failed else if n in old(spaces) then Conflict else Created
      ensures spaces == if status.Created? then old(spaces)[n := OwnedBy(k)] else old(spaces)
    {
      if create.CreateError? {
        return Failed;
      }
      if n in spaces {
        return Conflict;
      }
      spaces := spaces[n := OwnedBy(k)];
      return Created;
    }

    /** Deletion is only requested here; the namespace disappears later. */
    method DeleteNamespace(n: Name)
      modifies this`doomed
      ensures Current() == WithDoomed(old(Current()), n)
    {
      if n in spaces {
        doomed := doomed + {n};
      }
    }
  }

  class KubernetesProcessProxy {
    const kernelId: Uuid
    const cfg: Config
    const api: KubernetesApi
    var kernelNamespace: Option<Name>
    var deleteKernelNamespace: bool
    var containerName: string

    constructor (kernelId: Uuid, cfg: Config, api: KubernetesApi)
      ensures this.kernelId == kernelId && this.cfg == cfg && this.api == api
      ensures Current() == FRESH_PROXY
    {
      this.kernelId := kernelId;
      this.cfg := cfg;
      this.api := api;
      this.kernelNamespace := None;
      this.deleteKernelNamespace := false;
      this.containerName := "";
    }

    function Current(): Proxy
      reads this
    {
      Proxy(kernelNamespace, deleteKernelNamespace, containerName)
    }

    method CreateKernelNamespace(restarting: bool, create: CreateAnswer, bind: BindAnswer) returns (ok: bool)
      requires Current() == FRESH_PROXY
      modifies this, api
      ensures Launched(api.Current(), Current(), ok) ==
              CreateNamespace(old(api.Current()), kernelId, cfg.podName(kernelId), restarting, create, bind)
    {
      var namespace := cfg.podName(kernelId);
      var status := api.CreateNamespace(namespace, kernelId, create);
      var conflict := status.Conflict?;
      if status.Created? {
        deleteKernelNamespace := true;
        if bind.Bound? {
          kernelNamespace := Some(namespace);
          return true;
        }
        conflict := bind.BindConflict?;
      }
      if conflict && restarting {
        deleteKernelNamespace := true;
      } else {
        if deleteKernelNamespace {
          api.DeleteNamespace(namespace);
        }
        return false;
      }
      kernelNamespace := Some(namespace);
      return true;
    }

    method DetermineKernelNamespace(
        client: Option<Name>, restarting: bool, create: CreateAnswer, bind: BindAnswer)
      returns (ok: bool)
      requires Current() == FRESH_PROXY
      modifies this, api
      ensures Launched(api.Current(), Current(), ok) ==
              Launching(cfg, old(api.Current()), kernelId, client, restarting, create, bind)
      ensures client.Some? || cfg.shared ==>
                && ok && !deleteKernelNamespace && api.Current() == old(api.Current())
                && kernelNamespace == if client.Some? then client else Some(cfg.gatewayNs)
      ensures client.None? && !cfg.shared ==>
                && ok == Settles(cfg.podName(kernelId) !in old(api.spaces), restarting, create, bind)
                && (ok ==> kernelNamespace == Some(cfg.podName(kernelId)) && deleteKernelNamespace)
    {
      if client.None? {
        if cfg.shared {
          kernelNamespace := Some(cfg.gatewayNs);
        } else {
          ok := CreateKernelNamespace(restarting, create, bind);
          return ok;
        }
      } else {
        kernelNamespace := client;
      }
      return true;
    }

    /** The kernel's pod, then, if this proxy is to delete it, the namespace. */
    method TerminateContainerResources(restarting: bool, pod: PodAnswer, answer: DeleteAnswer)
      returns (done: bool)
      requires kernelNamespace.Some? && containerName != ""
      modifies this`containerName, api
      ensures done == TerminationDone(old(api.Current()), old(Current()), restarting, pod, answer)
      ensures containerName == if done then "" else old(containerName)
      ensures var target := TerminationDeletes(old(Current()), restarting, pod);
        api.Current() ==
        if target.Some? && answer.Deleting? then WithDoomed(old(api.Current()), target.value)
        else old(api.Current())
    {
      done := false;
      match pod {
        case PodMissing =>
          done := true;
        case PodError =>
        case PodRemoved(terminated) =>
          done := terminated;
          if deleteKernelNamespace && !restarting {
            var namespace := kernelNamespace.value;
            if namespace !in api.spaces {
              done := true;
            } else if answer.Deleting? {
              api.DeleteNamespace(namespace);
              done := done || answer.terminated;
            }
          }
      }
      if done {
        containerName := "";
      }
    }

    method GetProcessInfo() returns (info: Info)
      ensures info == Info(kernelNamespace, deleteKernelNamespace)
      ensures Loaded(info) == Current().(container := "")
    {
      info := Info(kernelNamespace, deleteKernelNamespace);
    }

    method LoadProcessInfo(info: Info)
      requires containerName == ""
      modifies this`kernelNamespace, this`deleteKernelNamespace
      ensures Current() == Loaded(info)
    {
      kernelNamespace, deleteKernelNamespace := info.ns, info.deleteNs;
    }
  }
}
