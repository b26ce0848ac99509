/**
 * The two policies that spread kernels over hosts: least-connection, with its global table of kernels
 * per host, and round-robin, with its global launch counter.
 */
module Hosts {
  import opened Arithmetic
  import opened Collections
  import opened Ids

  type Host = string

  /** `order` is the insertion order of the `counts` dictionary. */
  datatype Tracker = Tracker(order: seq<Host>, counts: map<Host, int>, mapping: map<KernelId, Host>)

  const UNTOUCHED := Tracker([], map[], map[])

  function Count(t: Tracker, h: Host): int {
    if h in t.counts then t.counts[h] else 0
  }

  function Adjusted(t: Tracker, h: Host, delta: int): Tracker {
    t.(order := if h in t.counts then t.order else t.order + [h], counts := t.counts[h := Count(t, h) + delta])
  }

  function Added(t: Tracker, h: Host, k: KernelId): Tracker {
    Adjusted(t.(mapping := t.mapping[k := h]), h, 1)
  }

  /** An empty host name counts as no host at all. */
  function Deleted(t: Tracker, k: KernelId): Tracker {
    if k in t.mapping && t.mapping[k] != ""
    then Adjusted(t, t.mapping[k], -1).(mapping := t.mapping - {k})
    else t
  }

  /** The keys of a dictionary built from a list, in insertion order. */
  function Distinct(hosts: seq<Host>): (order: seq<Host>)
    ensures NoDup(order) && Elements(order) == Elements(hosts)
  {
    if hosts == [] then []
    else
      var n := |hosts| - 1;
      var earlier := Distinct(hosts[..n]);
      assert hosts == hosts[..n] + [hosts[n]];
      assert Elements(hosts) == Elements(hosts[..n]) + {hosts[n]};
      assert forall i :: 0 <= i < |earlier| ==> earlier[i] in Elements(earlier);
      if hosts[n] in earlier then earlier else earlier + [hosts[n]]
  }

  lemma DistinctNext(hosts: seq<Host>, i: nat)
    requires i < |hosts|
    ensures Elements(hosts[..i + 1]) == Elements(hosts[..i]) + {hosts[i]}
    ensures Distinct(hosts[..i + 1])
         == Distinct(hosts[..i]) + if hosts[i] in Elements(hosts[..i]) then [] else [hosts[i]]
  {
    assert hosts[..i + 1][..i] == hosts[..i];
    assert hosts[..i + 1] == hosts[..i] + [hosts[i]];
    assert hosts[i] in Distinct(hosts[..i]) <==> hosts[i] in Elements(Distinct(hosts[..i]));
  }

  function Initialized(t: Tracker, hosts: seq<Host>): Tracker {
    if |t.counts| == 0
    then t.(order := Distinct(hosts), counts := map h | h in hosts :: 0)
    else t
  }

  /** Python's `min` over the dictionary: the first of its keys with the least value. */
  function FirstMin(order: seq<Host>, counts: map<Host, int>): (h: Host)
    requires order != [] && forall x :: x in order ==> x in counts
    ensures h in order
  {
    var last := order[|order| - 1];
    if |order| == 1 then last
    else
      var best := FirstMin(order[..|order| - 1], counts);
      if counts[last] < counts[best] then last else best
  }

  lemma FirstMinNext(order: seq<Host>, counts: map<Host, int>, i: nat)
    requires 0 < i < |order| && forall x :: x in order ==> x in counts
    ensures var best := FirstMin(order[..i], counts);
      && best in counts
      && FirstMin(order[..i + 1], counts) == if counts[order[i]] < counts[best] then order[i] else best
  {
    assert order[..i + 1][..i] == order[..i];
  }

  lemma {:induction false} FirstMinIsFirst(order: seq<Host>, counts: map<Host, int>)
    returns (i: nat)
    requires order != [] && forall x :: x in order ==> x in counts
    ensures i < |order| && FirstMin(order, counts) == order[i]
    ensures forall j :: 0 <= j < |order| ==> counts[order[i]] <= counts[order[j]]
    ensures forall j :: 0 <= j < i ==> counts[order[i]] < counts[order[j]]
  {
    var n := |order| - 1;
    if n == 0 {
      i := 0;
    } else {
      i := FirstMinIsFirst(order[..n], counts);
      if counts[order[n]] < counts[order[i]] {
        i := n;
      }
    }
  }

  ghost predicate Sound(t: Tracker) {
    && NoDup(t.order)
    && Elements(t.order) == t.counts.Keys
    && forall k :: k in t.mapping ==> t.mapping[k] in t.counts
  }

  lemma OrderHasCounts(t: Tracker)
    requires Sound(t)
    ensures forall x :: x in t.order ==> x in t.counts
    ensures t.order == [] <==> |t.counts| == 0
  {
    assert forall x :: x in t.order ==> x in Elements(t.order);
    if t.order == [] {
      assert t.counts.Keys == {};
    } else {
      assert t.order[0] in t.counts.Keys;
    }
  }

  /** The host of a launch, or `None` where taking the minimum of an empty dictionary raises. */
  function Choice(t: Tracker, remoteHost: Host): Option<Host>
    requires Sound(t)
  {
    OrderHasCounts(t);
    if remoteHost != "" then Some(remoteHost)
    else if t.order == [] then None
    else Some(FirstMin(t.order, t.counts))
  }

  /** An unpinned launch goes to a host that no other host undercuts. */
  lemma UnpinnedChoiceIsLeast(t: Tracker)
    requires Sound(t) && |t.counts| > 0
    ensures var choice := Choice(t, "");
      && choice.Some? && choice.value in t.counts
      && forall h :: h in t.counts ==> t.counts[choice.value] <= t.counts[h]
  {
    OrderHasCounts(t);
    var i := FirstMinIsFirst(t.order, t.counts);
    forall h | h in t.counts
      ensures t.counts[t.order[i]] <= t.counts[h]
    {
      assert h in Elements(t.order);
    }
  }

  // ----- Runs -----

  datatype Step = Init(hosts: seq<Host>) | Launch(k: KernelId, remoteHost: Host) | Cleanup(k: KernelId)

  function Next(t: Tracker, step: Step): Tracker
    requires Sound(t)
  {
    match step
    case Init(hosts) => Initialized(t, hosts)
    case Launch(k, remoteHost) =>
      (match Choice(t, remoteHost)
       case None => t
       case Some(h) => Added(t, h, k))
    case Cleanup(k) => Deleted(t, k)
  }

  lemma AdjustedIsSound(t: Tracker, h: Host, delta: int)
    requires NoDup(t.order) && Elements(t.order) == t.counts.Keys
    ensures var t' := Adjusted(t, h, delta); NoDup(t'.order) && Elements(t'.order) == t'.counts.Keys
  {
    if h !in t.counts {
      ElementsAppend(t.order, h);
      assert forall i :: 0 <= i < |t.order| ==> t.order[i] in Elements(t.order);
    }
    assert Adjusted(t, h, delta).counts.Keys == t.counts.Keys + {h};
  }

  lemma NextIsSound(t: Tracker, step: Step)
    requires Sound(t)
    ensures Sound(Next(t, step))
  {
    match step
    case Init(hosts) =>
      if |t.counts| == 0 {
        assert Initialized(t, hosts).counts.Keys == Elements(hosts);
        assert t.counts.Keys == {};
      }
    case Launch(k, remoteHost) =>
      if Choice(t, remoteHost).Some? {
        AdjustedIsSound(t.(mapping := t.mapping[k := Choice(t, remoteHost).value]), Choice(t, remoteHost).value, 1);
      }
    case Cleanup(k) =>
      if k in t.mapping {
        AdjustedIsSound(t, t.mapping[k], -1);
      }
  }

  function Run(steps: seq<Step>): (t: Tracker)
    ensures Sound(t)
  {
    if steps == [] then UNTOUCHED
    else
      var before := Run(steps[..|steps| - 1]);
      NextIsSound(before, steps[|steps| - 1]);
      Next(before, steps[|steps| - 1])
  }

  /** A launch pinned to a host maps its kernel there and counts it there, known host or not. */
  lemma PinnedLaunchPlaces(t: Tracker, k: KernelId, h: Host)
    requires Sound(t) && h != ""
    ensures var t' := Next(t, Launch(k, h));
      && t'.mapping == t.mapping[k := h]
      && t'.counts == t.counts[h := 1 + if h in t.counts then t.counts[h] else 0]
      && t'.order == if h in t.counts then t.order else t.order + [h]
  {
  }

  /** An unpinned one does so on the first of the least loaded hosts; without hosts it changes nothing. */
  lemma UnpinnedLaunchPlaces(t: Tracker, k: KernelId)
    returns (i: nat)
    requires Sound(t)
    ensures |t.counts| == 0 ==> Next(t, Launch(k, "")) == t
    ensures |t.counts| > 0 ==>
              && i < |t.order| && (forall j :: 0 <= j < |t.order| ==> t.order[j] in t.counts)
              && (forall j :: 0 <= j < |t.order| ==> t.counts[t.order[i]] <= t.counts[t.order[j]])
              && (forall j :: 0 <= j < i ==> t.counts[t.order[i]] < t.counts[t.order[j]])
              && (var h := t.order[i];
                  Next(t, Launch(k, ""))
                  == Tracker(t.order, t.counts[h := t.counts[h] + 1], t.mapping[k := h]))
  {
    OrderHasCounts(t);
    i := 0;
    if |t.counts| > 0 {
      i := FirstMinIsFirst(t.order, t.counts);
    }
  }

  /** Cleaning up a kernel mapped to a named host unmaps and uncounts it; any other cleanup changes nothing. */
  lemma CleanupUnplaces(t: Tracker, k: KernelId)
    requires Sound(t)
    ensures Next(t, Cleanup(k))
         == if k in t.mapping && t.mapping[k] != ""
            then Tracker(t.order, t.counts[t.mapping[k] := t.counts[t.mapping[k]] - 1], t.mapping - {k})
            else t
  {
  }

  function FirstAt(hosts: seq<Host>, h: Host): (i: nat)
    requires h in hosts
    ensures i < |hosts| && hosts[i] == h && forall j :: 0 <= j < i ==> hosts[j] != h
  {
    if hosts[0] == h then 0 else 1 + FirstAt(hosts[1..], h)
  }

  /** The hosts of the list, each once, in the order of their first mention. */
  ghost predicate AsMentioned(hosts: seq<Host>, order: seq<Host>) {
    && (forall h :: h in order <==> h in hosts)
    && (forall i, j :: 0 <= i < j < |order| ==> FirstAt(hosts, order[i]) < FirstAt(hosts, order[j]))
  }

  lemma FirstAtNext(hosts: seq<Host>, last: Host, h: Host)
    requires h in hosts || h == last
    ensures FirstAt(hosts + [last], h) == if h in hosts then FirstAt(hosts, h) else |hosts|
  {
    var longer := hosts + [last];
    var i := FirstAt(longer, h);
    assert i < |hosts| ==> hosts[i] == h;
    if h in hosts {
      var j := FirstAt(hosts, h);
      assert longer[j] == h;
      assert forall k :: 0 <= k < j ==> longer[k] == hosts[k];
    }
  }

  lemma MentionAgain(hosts: seq<Host>, order: seq<Host>, last: Host)
    requires AsMentioned(hosts, order) && last in hosts
    ensures AsMentioned(hosts + [last], order)
  {
    OrderIsKept(hosts, order, last);
  }

  lemma MentionFirst(hosts: seq<Host>, order: seq<Host>, last: Host)
    requires AsMentioned(hosts, order) && last !in hosts
    ensures AsMentioned(hosts + [last], order + [last])
  {
    OrderIsKept(hosts, order, last);
    FirstAtNext(hosts, last, last);
    forall i | 0 <= i < |order|
      ensures order[i] in hosts && FirstAt(hosts + [last], order[i]) < |hosts|
    {
      FirstAtNext(hosts, last, order[i]);
    }
  }

  lemma OrderIsKept(hosts: seq<Host>, order: seq<Host>, last: Host)
    requires AsMentioned(hosts, order)
    ensures forall i, j :: 0 <= i < j < |order| ==>
              order[i] in hosts + [last] && order[j] in hosts + [last]
              && FirstAt(hosts + [last], order[i]) < FirstAt(hosts + [last], order[j])
  {
    forall i, j | 0 <= i < j < |order|
      ensures order[i] in hosts && order[j] in hosts
      ensures FirstAt(hosts + [last], order[i]) < FirstAt(hosts + [last], order[j])
    {
      FirstAtNext(hosts, last, order[i]);
      FirstAtNext(hosts, last, order[j]);
    }
  }

  lemma {:induction false} DistinctAsMentioned(hosts: seq<Host>)
    ensures AsMentioned(hosts, Distinct(hosts))
  {
    if hosts != [] {
      var init, last := hosts[..|hosts| - 1], hosts[|hosts| - 1];
      DistinctAsMentioned(init);
      if last in init {
        MentionAgain(init, Distinct(init), last);
      } else {
        MentionFirst(init, Distinct(init), last);
      }
      assert hosts == init + [last];
    }
  }

  /** An empty table gets exactly the listed hosts, in the order of their first mention, with no kernels. */
  lemma InitFills(t: Tracker, hosts: seq<Host>)
    requires Sound(t)
    ensures var t' := Next(t, Init(hosts));
      && (t.counts == map[] ==>
            && (forall h :: h in t'.counts <==> h in hosts)
            && (forall h :: h in t'.counts ==> t'.counts[h] == 0)
            && AsMentioned(hosts, t'.order) && t'.mapping == t.mapping)
      && (t.counts != map[] ==> t' == t)
  {
    DistinctAsMentioned(hosts);
    if |t.counts| == 0 {
      assert t.counts.Keys == {};
    }
  }

  function MappedTo(t: Tracker, h: Host): set<KernelId> {
    set k | k in t.mapping && t.mapping[k] == h
  }

  /** The step launches a kernel whose id is still mapped to `h`. */
  predicate Overwrites(t: Tracker, step: Step, h: Host)
    requires Sound(t)
  {
    && step.Launch? && Choice(t, step.remoteHost).Some?
    && step.k in t.mapping && t.mapping[step.k] == h
  }

  /** How often the run launched a kernel whose id was still mapped to `h`. */
  function Overwritten(steps: seq<Step>, h: Host): nat {
    if steps == [] then 0
    else
      var before := steps[..|steps| - 1];
      Overwritten(before, h) + if Overwrites(Run(before), steps[|steps| - 1], h) then 1 else 0
  }

  lemma AddedCounts(t: Tracker, to: Host, k: KernelId, h: Host)
    ensures Count(Added(t, to, k), h) - |MappedTo(Added(t, to, k), h)|
         == Count(t, h) - |MappedTo(t, h)| + if k in t.mapping && t.mapping[k] == h then 1 else 0
  {
    var t' := Added(t, to, k);
    if h == to {
      assert MappedTo(t', h) == MappedTo(t, h) + {k};
    } else {
      assert MappedTo(t', h) == MappedTo(t, h) - {k};
    }
  }

  lemma DeletedCounts(t: Tracker, k: KernelId, h: Host)
    ensures Count(Deleted(t, k), h) - |MappedTo(Deleted(t, k), h)| == Count(t, h) - |MappedTo(t, h)|
  {
    if k in t.mapping && t.mapping[k] != "" {
      assert MappedTo(Deleted(t, k), h) == MappedTo(t, h) - {k};
    }
  }

  /**
   * On every run, a host's count is the number of kernels mapped to it plus the number of launches that
   * found their own id still mapped to it. So it is never negative, and it is exact precisely while no
   * such launch has happened.
   */
  lemma {:induction false} CountsOverRuns(steps: seq<Step>, h: Host)
    ensures Count(Run(steps), h) == |MappedTo(Run(steps), h)| + Overwritten(steps, h)
  {
    if steps == [] {
      assert MappedTo(UNTOUCHED, h) == {};
    } else {
      var before := Run(steps[..|steps| - 1]);
      CountsOverRuns(steps[..|steps| - 1], h);
      match steps[|steps| - 1]
      case Init(hosts) =>
        if |before.counts| == 0 {
          assert before.counts.Keys == {};
          assert MappedTo(before, h) == MappedTo(Run(steps), h);
        }
      case Launch(k, remoteHost) =>
        if Choice(before, remoteHost).Some? {
          AddedCounts(before, Choice(before, remoteHost).value, k, h);
        }
      case Cleanup(k) => DeletedCounts(before, k, h);
    }
  }

  /** No launch of the run found its id still mapped. */
  ghost predicate NeverRelaunched(steps: seq<Step>) {
    forall i, h :: 0 <= i < |steps| ==> !Overwrites(Run(steps[..i]), steps[i], h)
  }

  lemma {:induction false} NothingOverwritten(steps: seq<Step>, h: Host)
    requires NeverRelaunched(steps)
    ensures Overwritten(steps, h) == 0
  {
    if steps == [] {
    } else {
      var n := |steps| - 1;
      forall i, x | 0 <= i < n
        ensures !Overwrites(Run(steps[..n][..i]), steps[..n][i], x)
      {
        assert steps[..n][..i] == steps[..i];
        assert !Overwrites(Run(steps[..i]), steps[i], x);
      }
      NothingOverwritten(steps[..n], h);
      assert !Overwrites(Run(steps[..n]), steps[n], h);
    }
  }

  /** Ids that are cleaned up before they are launched again keep every count exact. */
  lemma CountsAreExact(steps: seq<Step>)
    requires NeverRelaunched(steps)
    ensures forall h :: Count(Run(steps), h) == |MappedTo(Run(steps), h)|
  {
    forall h
      ensures Count(Run(steps), h) == |MappedTo(Run(steps), h)|
    {
      CountsOverRuns(steps, h);
      NothingOverwritten(steps, h);
    }
  }

  /** A kernel's cleanup returns its slot on a named host, and cleaning up again changes nothing. */
  lemma CleanupUndoesLaunch(t: Tracker, h: Host, k: KernelId)
    requires Sound(t) && k !in t.mapping && h in t.counts
    ensures Deleted(Added(t, h, k), k) == t <==> h != ""
    ensures Deleted(Deleted(Added(t, h, k), k), k) == Deleted(Added(t, h, k), k)
  {
    var t1 := Added(t, h, k);
    if h != "" {
      assert t1.mapping - {k} == t.mapping;
      assert Deleted(t1, k).counts == t.counts;
    } else {
      assert t1.mapping[k] == h && t1.mapping != t.mapping;
    }
  }

  // ----- Unpinned launches from equal counts -----

  function Launches(t: Tracker, ks: seq<KernelId>): (t': Tracker)
    requires Sound(t)
    ensures Sound(t')
  {
    if ks == [] then t
    else
      var before := Launches(t, ks[..|ks| - 1]);
      NextIsSound(before, Launch(ks[|ks| - 1], ""));
      Next(before, Launch(ks[|ks| - 1], ""))
  }

  lemma NextTurn(a: nat, n: nat)
    requires n > 0
    ensures if a % n + 1 < n
            then (a + 1) / n == a / n && (a + 1) % n == a % n + 1
            else (a + 1) / n == a / n + 1 && (a + 1) % n == 0
  {
    assert a == (a / n) * n + a % n;
    if a % n + 1 < n {
      QuotientIsUnique(a + 1, n, a / n, a % n + 1);
    } else {
      assert (a / n + 1) * n == (a / n) * n + n;
      QuotientIsUnique(a + 1, n, a / n + 1, 0);
    }
  }

  /** `a` launches have been dealt out over the hosts in turn, starting from `base` everywhere. */
  ghost predicate Dealt(t: Tracker, order: seq<Host>, base: int, a: nat) {
    && Sound(t)
    && t.order == order && order != []
    && forall i :: 0 <= i < |order| ==>
      order[i] in t.counts
      && t.counts[order[i]] == base + a / |order| + if i < a % |order| then 1 else 0
  }

  lemma DealtOnce(t: Tracker, order: seq<Host>, base: int, a: nat, k: KernelId)
    requires Dealt(t, order, base, a)
    ensures Choice(t, "") == Some(order[a % |order|])
    ensures Dealt(Next(t, Launch(k, "")), order, base, a + 1)
  {
    var n := |order|;
    var turn := a % n;
    OrderHasCounts(t);
    var i := FirstMinIsFirst(order, t.counts);
    assert t.counts[order[i]] <= t.counts[order[turn]];
    NextTurn(a, n);
    NextIsSound(t, Launch(k, ""));
    var t' := Next(t, Launch(k, ""));
    forall j | 0 <= j < n
      ensures order[j] in t'.counts
      ensures t'.counts[order[j]] == base + (a + 1) / n + if j < (a + 1) % n then 1 else 0
    {
      assert order[j] == order[turn] <==> j == turn;
    }
  }

  /**
   * From equal counts, unpinned launches are dealt out in the order of the host list: the `i`th host's
   * count is the number of complete rounds, plus one once its turn in the current round has come. So no
   * two counts ever differ by more than one.
   */
  lemma {:induction false} UnpinnedLaunchesStayBalanced(t: Tracker, ks: seq<KernelId>, base: int)
    requires Sound(t) && t.order != []
    requires forall h :: h in t.counts ==> t.counts[h] == base
    ensures Dealt(Launches(t, ks), t.order, base, |ks|)
    ensures var t' := Launches(t, ks);
      forall g, h :: g in t.counts && h in t.counts ==> t'.counts[g] <= t'.counts[h] + 1
  {
    OrderHasCounts(t);
    if ks == [] {
    } else {
      UnpinnedLaunchesStayBalanced(t, ks[..|ks| - 1], base);
      DealtOnce(Launches(t, ks[..|ks| - 1]), t.order, base, |ks| - 1, ks[|ks| - 1]);
    }
    var t' := Launches(t, ks);
    assert Elements(t'.order) == t'.counts.Keys;
    forall g, h | g in t.counts && h in t.counts
      ensures t'.counts[g] <= t'.counts[h] + 1
    {
      assert g in Elements(t.order) && h in Elements(t.order);
    }
  }

  // ----- Round-robin -----

  /** The host of a round-robin launch; `None` where an unpinned launch divides by an empty list's length. */
  function InTurn(hosts: seq<Host>, index: nat, remoteHost: Host): Option<Host> {
    if remoteHost != "" then Some(remoteHost)
    else if hosts == [] then None
    else Some(hosts[index % |hosts|])
  }

  /** Pinned launches move the counter too; a launch that raises does not. */
  function IndexAfter(hosts: seq<Host>, index: nat, remoteHost: Host): nat {
    if InTurn(hosts, index, remoteHost).Some? then index + 1 else index
  }

  function At(n: nat, index: nat, j: nat): (p: nat)
    requires n > 0
    ensures p < n
  {
    (index + j) % n
  }

  /** A series of launches over one host list: the hosts chosen, and the counter afterwards. */
  function Dispatched(hosts: seq<Host>, index: nat, pins: seq<Host>): (seq<Host>, nat)
    requires hosts != []
  {
    if pins == [] then ([], index)
    else
      var last := |pins| - 1;
      var (chosen, next) := Dispatched(hosts, index, pins[..last]);
      (chosen + [InTurn(hosts, next, pins[last]).value], IndexAfter(hosts, next, pins[last]))
  }

  /** A launch takes the host it is pinned to, or else the one whose turn it is; without hosts it raises. */
  lemma InTurnIff(hosts: seq<Host>, index: nat, remoteHost: Host, h: Host)
    ensures InTurn(hosts, index, remoteHost) == Some(h) <==>
            || (remoteHost != "" && h == remoteHost)
            || (remoteHost == "" && exists i :: 0 <= i < |hosts| && i == index % |hosts| && h == hosts[i])
    ensures IndexAfter(hosts, index, remoteHost) == index + if remoteHost == "" && hosts == [] then 0 else 1
  {
  }

  /** Every launch, pinned or not, uses up one turn. */
  lemma {:induction false} DispatchedInTurn(hosts: seq<Host>, index: nat, pins: seq<Host>)
    requires hosts != []
    ensures var (chosen, next) := Dispatched(hosts, index, pins);
      && |chosen| == |pins| && next == index + |pins|
      && forall j :: 0 <= j < |pins| ==>
        chosen[j] == if pins[j] != "" then pins[j] else hosts[At(|hosts|, index, j)]
  {
    if pins == [] {
    } else {
      DispatchedInTurn(hosts, index, pins[..|pins| - 1]);
    }
  }

  lemma TurnFromStart(n: nat, index: nat, j: nat)
    requires j < n
    ensures var start := index % n;
      At(n, index, j) == if start + j < n then start + j else start + j - n
  {
    var start := index % n;
    assert index == (index / n) * n + start;
    if start + j < n {
      QuotientIsUnique(index + j, n, index / n, start + j);
    } else {
      assert (index / n + 1) * n == (index / n) * n + n;
      QuotientIsUnique(index + j, n, index / n + 1, start + j - n);
    }
  }

  lemma RotationKeepsElements<T>(s: seq<T>, start: nat)
    requires start <= |s|
    ensures multiset(s[start..] + s[..start]) == multiset(s)
  {
    assert s == s[..start] + s[start..];
  }

  /** As many consecutive unpinned launches as there are hosts go round the list once, wherever they start. */
  lemma UnpinnedLaunchesGoRound(hosts: seq<Host>, index: nat, pins: seq<Host>)
    requires |pins| == |hosts| > 0 && forall j :: 0 <= j < |pins| ==> pins[j] == ""
    ensures var start := index % |hosts|;
      Dispatched(hosts, index, pins).0 == hosts[start..] + hosts[..start]
    ensures multiset(Dispatched(hosts, index, pins).0) == multiset(hosts)
  {
    var n := |hosts|;
    var start := index % n;
    DispatchedInTurn(hosts, index, pins);
    var chosen, rotated := Dispatched(hosts, index, pins).0, hosts[start..] + hosts[..start];
    forall j | 0 <= j < n
      ensures chosen[j] == rotated[j]
    {
      RotatedAt(hosts, index, j);
    }
    assert chosen == rotated;
    RotationKeepsElements(hosts, start);
  }

  lemma RotatedAt(hosts: seq<Host>, index: nat, j: nat)
    requires j < |hosts|
    ensures var start := index % |hosts|;
      (hosts[start..] + hosts[..start])[j] == hosts[At(|hosts|, index, j)]
  {
    TurnFromStart(|hosts|, index, j);
  }

  /** The list positions that a series of launches took from the host list; pinned launches take none. */
  function PositionsTaken(n: nat, index: nat, pins: seq<Host>): multiset<nat>
    requires n > 0
  {
    if pins == [] then multiset{}
    else
      var last := |pins| - 1;
      PositionsTaken(n, index, pins[..last])
      + if pins[last] == "" then multiset{At(n, index, last)} else multiset{}
  }

  lemma TurnsRepeat(a: nat, b: nat, n: nat)
    requires n > 0 && a < b < a + n
    ensures a % n != b % n
  {
    var d := b / n - a / n;
    assert d * n == (b - b % n) - (a - a % n) by {
      assert a == (a / n) * n + a % n && b == (b / n) * n + b % n;
      assert d * n == (b / n) * n - (a / n) * n;
    }
    Multiples(d, n);
  }

  lemma {:induction false} PositionNotYetTaken(n: nat, index: nat, pins: seq<Host>, p: nat)
    requires n > 0
    requires forall j :: 0 <= j < |pins| ==> At(n, index, j) != p
    ensures PositionsTaken(n, index, pins)[p] == 0
  {
    if pins == [] {
    } else {
      var last := |pins| - 1;
      PositionNotYetTaken(n, index, pins[..last], p);
      assert At(n, index, last) != p;
    }
  }

  lemma {:induction false} PositionTakenOnce(n: nat, index: nat, pins: seq<Host>, j: nat)
    requires n > 0 && j < |pins| <= n
    ensures PositionsTaken(n, index, pins)[At(n, index, j)] == if pins[j] == "" then 1 else 0
  {
    var last := |pins| - 1;
    var p := At(n, index, j);
    if j == last {
      forall i | 0 <= i < last
        ensures At(n, index, i) != p
      {
        TurnsRepeat(index + i, index + j, n);
      }
      PositionNotYetTaken(n, index, pins[..last], p);
    } else {
      PositionTakenOnce(n, index, pins[..last], j);
      TurnsRepeat(index + j, index + last, n);
    }
  }

  /** The launch, counted from `index`, whose turn falls on position `p`. */
  function Turn(n: nat, index: nat, p: nat): (j: nat)
    requires p < n
    ensures j < n && At(n, index, j) == p
  {
    var j := (p + (n - index % n)) % n;
    assert (index + j) % n == p by {
      var r := index % n;
      assert index == (index / n) * n + r;
      if p >= r {
        QuotientIsUnique(p + (n - r), n, 1, p - r);
        QuotientIsUnique(index + j, n, index / n, p);
      } else {
        QuotientIsUnique(p + (n - r), n, 0, p + n - r);
        assert (index / n + 1) * n == (index / n) * n + n;
        QuotientIsUnique(index + j, n, index / n + 1, p);
      }
    }
    j
  }

  /**
   * Any `n` consecutive launches over one list of `n` hosts take each position exactly once, unless the
   * launch whose turn it was is pinned elsewhere: then that position goes unused in this round.
   */
  lemma RoundRobinIsFair(n: nat, index: nat, pins: seq<Host>, p: nat)
    requires p < n == |pins|
    ensures PositionsTaken(n, index, pins)[p] == if pins[Turn(n, index, p)] == "" then 1 else 0
  {
    PositionTakenOnce(n, index, pins, Turn(n, index, p));
  }

  // ----- The objects -----

  /** The dictionary `{key: 0 for key in hosts}`, with its insertion order. */
  method Zeroes(hosts: seq<Host>) returns (order: seq<Host>, counts: map<Host, int>)
    ensures order == Distinct(hosts) && counts == map h | h in hosts :: 0
  {
    order, counts := [], map[];
    for i := 0 to |hosts|
      invariant order == Distinct(hosts[..i])
      invariant counts.Keys == Elements(hosts[..i])
      invariant forall h :: h in counts ==> counts[h] == 0
    {
      DistinctNext(hosts, i);
      if hosts[i] !in counts {
        order := order + [hosts[i]];
      }
      counts := counts[hosts[i] := 0];
    }
    assert hosts[..|hosts|] == hosts;
    assert counts == map h | h in hosts :: 0 by {
      assert counts.Keys == Elements(hosts);
    }
  }

  /** The dictionary's first key with the least value. */
  method LeastLoaded(order: seq<Host>, counts: map<Host, int>) returns (best: Host)
    requires order != [] && forall x :: x in order ==> x in counts
    ensures best == FirstMin(order, counts)
  {
    best := order[0];
    for i := 1 to |order|
      invariant best == FirstMin(order[..i], counts)
    {
      FirstMinNext(order, counts, i);
      if counts[order[i]] < counts[best] {
        best := order[i];
      }
    }
    assert order[..|order|] == order;
  }

  /** The table shared by all least-connection proxies. */
  class TrackKernelOnHost {
    var order: seq<Host>
    var hostKernels: map<Host, int>
    var mapping: map<KernelId, Host>

    ghost predicate Valid()
      reads this
    {
      Sound(Current())
    }

    function Current(): Tracker
      reads this
    {
      Tracker(order, hostKernels, mapping)
    }

    constructor ()
      ensures Valid() && Current() == UNTOUCHED
    {
      order := [];
      hostKernels := map[];
      mapping := map[];
    }

    method AddKernelId(host: Host, k: KernelId)
      requires Valid()
      modifies this
      ensures Valid() && Current() == Added(old(Current()), host, k)
    {
      AdjustedIsSound(Current().(mapping := mapping[k := host]), host, 1);
      mapping := mapping[k := host];
      Increment(host);
    }

    method DeleteKernelId(k: KernelId)
      requires Valid()
      modifies this
      ensures Valid() && Current() == Deleted(old(Current()), k)
    {
      if k in mapping && mapping[k] != "" {
        AdjustedIsSound(Current(), mapping[k], -1);
        Decrement(mapping[k]);
        mapping := mapping - {k};
      }
    }

    method Increment(host: Host)
      modifies this`order, this`hostKernels
      ensures Current() == Adjusted(old(Current()), host, 1)
    {
      var val := if host in hostKernels then hostKernels[host] else 0;
      if host !in hostKernels {
        order := order + [host];
      }
      hostKernels := hostKernels[host := val + 1];
    }

    method Decrement(host: Host)
      modifies this`order, this`hostKernels
      ensures Current() == Adjusted(old(Current()), host, -1)
    {
      var val := if host in hostKernels then hostKernels[host] else 0;
      if host !in hostKernels {
        order := order + [host];
      }
      hostKernels := hostKernels[host := val - 1];
    }

    method InitHostKernels(hosts: seq<Host>)
      requires Valid()
      modifies this`order, this`hostKernels
      ensures Valid() && Current() == Initialized(old(Current()), hosts)
    {
      NextIsSound(Current(), Init(hosts));
      if |hostKernels| == 0 {
        order, hostKernels := Zeroes(hosts);
      }
    }

    /** The first host with the fewest kernels, unless one is asked for. */
    method MinOrRemoteHost(remoteHost: Host) returns (choice: Option<Host>)
      requires Valid()
      ensures choice == Choice(Current(), remoteHost)
    {
      OrderHasCounts(Current());
      if remoteHost != "" {
        return Some(remoteHost);
      }
      if order == [] {
        return None;
      }
      var best := LeastLoaded(order, hostKernels);
      return Some(best);
    }
  }

  /** The launch counter shared by all round-robin proxies. */
  class HostIndex {
    var next: nat

    constructor ()
      ensures next == 0
    {
      next := 0;
    }
  }

  class DistributedProcessProxy {
    const hosts: seq<Host>
    const leastConnection: bool
    const kernelId: KernelId
    const kernelOnHost: TrackKernelOnHost
    const hostIndex: HostIndex

    constructor (hosts: seq<Host>, leastConnection: bool, kernelId: KernelId,
                 kernelOnHost: TrackKernelOnHost, hostIndex: HostIndex)
      requires kernelOnHost.Valid()
      modifies kernelOnHost
      ensures this.hosts == hosts && this.leastConnection == leastConnection && this.kernelId == kernelId
      ensures this.kernelOnHost == kernelOnHost && this.hostIndex == hostIndex
      ensures kernelOnHost.Valid()
      ensures kernelOnHost.Current() ==
              if leastConnection then Next(old(kernelOnHost.Current()), Init(hosts)) else old(kernelOnHost.Current())
    {
      this.hosts := hosts;
      this.leastConnection := leastConnection;
      this.kernelId := kernelId;
      this.kernelOnHost := kernelOnHost;
      this.hostIndex := hostIndex;
      new;
      if leastConnection {
        kernelOnHost.InitHostKernels(hosts);
      }
    }

    method DetermineNextHost(remoteHost: Host) returns (nextHost: Option<Host>)
      requires kernelOnHost.Valid()
      modifies kernelOnHost, hostIndex
      ensures kernelOnHost.Valid()
      ensures leastConnection ==>
                && nextHost == Choice(old(kernelOnHost.Current()), remoteHost)
                && kernelOnHost.Current() == Next(old(kernelOnHost.Current()), Launch(kernelId, remoteHost))
                && hostIndex.next == old(hostIndex.next)
      ensures !leastConnection ==>
                && nextHost == InTurn(hosts, old(hostIndex.next), remoteHost)
                && hostIndex.next == IndexAfter(hosts, old(hostIndex.next), remoteHost)
                && kernelOnHost.Current() == old(kernelOnHost.Current())
    {
      if leastConnection {
        nextHost := kernelOnHost.MinOrRemoteHost(remoteHost);
        if nextHost.Some? {
          kernelOnHost.AddKernelId(nextHost.value, kernelId);
        }
      } else {
        if remoteHost == "" && hosts == [] {
          return None;
        }
        nextHost := Some(if remoteHost != "" then remoteHost else hosts[hostIndex.next % |hosts|]);
        hostIndex.next := hostIndex.next + 1;
      }
    }

    method UnregisterAssignedHost()
      requires kernelOnHost.Valid()
      modifies kernelOnHost
      ensures kernelOnHost.Valid()
      ensures kernelOnHost.Current() ==
              if leastConnection then Next(old(kernelOnHost.Current()), Cleanup(kernelId))
              else old(kernelOnHost.Current())
    {
      if leastConnection {
        kernelOnHost.DeleteKernelId(kernelId);
      }
    }
  }
}
