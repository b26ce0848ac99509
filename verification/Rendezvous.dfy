/**
 * The response registry: launches register a kernel id, the connection processor posts what launchers
 * sent, and the startup loops poll. A poll takes two steps, since it awaits the response object it found:
 * when it resumes, the registry may hold another.
 */
module Rendezvous {
  import opened Collections
  import opened Ids
  import opened Utf8
  import opened Payload

  /** Response objects are numbered; `responses` holds those that something was posted to. */
  datatype Hall<T> = Hall(registry: map<KernelId, nat>, responses: map<nat, T>)

  /** `GotNothing` is a response object handed over before anything was posted to it. */
  datatype PollOutcome<T> = Unregistered | TimedOut | Got(info: T) | GotNothing

  /** A fresh response object, numbered `ticket`, replaces the kernel's old one. */
  function Registered<T>(s: Hall<T>, k: KernelId, ticket: nat): Hall<T> {
    s.(registry := s.registry[k := ticket])
  }

  function Posted<T>(s: Hall<T>, kernelId: Option<KernelId>, info: T): Hall<T> {
    match kernelId
    case None => s
    case Some(k) => if k in s.registry then s.(responses := s.responses[s.registry[k] := info]) else s
  }

  /** The object that a poll starts to wait for. */
  function Awaited<T>(s: Hall<T>, k: KernelId): Option<nat> {
    if k in s.registry then Some(s.registry[k]) else None
  }

  /** How a poll ends that waited for `ticket`: it times out, or takes whatever the registry holds by now. */
  function Outcome<T>(s: Hall<T>, k: KernelId, ticket: nat): PollOutcome<T> {
    if ticket !in s.responses then TimedOut
    else if k !in s.registry then Unregistered
    else if s.registry[k] in s.responses then Got(s.responses[s.registry[k]])
    else GotNothing
  }

  function Polled<T>(s: Hall<T>, k: KernelId, ticket: nat): Hall<T> {
    if ticket in s.responses then s.(registry := s.registry - {k}) else s
  }

  /** The singleton: its registry, and the receiving side of the startup rendezvous. */
  class ResponseManager<T> {
    const lib: Library<T>
    const kernelIdOf: T -> Option<KernelId>
    var registry: map<KernelId, nat>
    var responses: map<nat, T>
    var made: nat

    constructor (lib: Library<T>, kernelIdOf: T -> Option<KernelId>)
      ensures this.lib == lib && this.kernelIdOf == kernelIdOf && Current() == Hall(map[], map[]) && Valid()
    {
      this.lib := lib;
      this.kernelIdOf := kernelIdOf;
      this.registry := map[];
      this.responses := map[];
      this.made := 0;
    }

    function Current(): Hall<T>
      reads this
    {
      Hall(registry, responses)
    }

    /** Nothing was posted to an object that was not made yet. */
    ghost predicate Valid()
      reads this
    {
      (forall k :: k in registry ==> registry[k] < made) && forall ticket :: ticket in responses ==> ticket < made
    }

    method RegisterEvent(k: KernelId)
      requires Valid()
      modifies this`registry, this`made
      ensures Valid() && old(made) !in responses
      ensures Current() == Registered(old(Current()), k, old(made))
    {
      registry := registry[k := made];
      made := made + 1;
    }

    method PostConnection(info: T)
      requires Valid()
      modifies this`responses
      ensures Valid() && Current() == Posted(old(Current()), kernelIdOf(info), info)
    {
      match kernelIdOf(info)
      case None => return;
      case Some(k) =>
        if k !in registry {
          return;
        }
        responses := responses[registry[k] := info];
    }

    /** `get_connection_info` up to its await; `None` where the lookup raises. */
    method BeginGetConnectionInfo(k: KernelId) returns (ticket: Option<nat>)
      ensures ticket == Awaited(Current(), k)
    {
      if k !in registry {
        return None;
      }
      return Some(registry[k]);
    }

    /** `get_connection_info` from its await on. */
    method EndGetConnectionInfo(k: KernelId, ticket: nat) returns (outcome: PollOutcome<T>)
      requires Valid()
      modifies this`registry
      ensures Valid() && outcome == Outcome(old(Current()), k, ticket)
      ensures Current() == Polled(old(Current()), k, ticket)
      ensures outcome.TimedOut? || outcome.Unregistered? ==> Current() == old(Current())
    {
      if ticket !in responses {
        return TimedOut;
      }
      if k !in registry {
        assert registry - {k} == registry;
        return Unregistered;
      }
      var popped := registry[k];
      registry := registry - {k};
      return if popped in responses then Got(responses[popped]) else GotNothing;
    }

    /** One accepted connection: all of it is received, then decoded, then posted. */
    method ProcessConnection(chunks: seq<seq<Byte>>)
      requires Valid() && forall i :: 0 <= i < |chunks| ==> chunks[i] != []
      modifies this`responses
      ensures Valid() && Current() ==
              match Accumulate(chunks)
              case None => old(Current())
              case Some(data) =>
                match DecodePayload(lib, data)
                case None => old(Current())
                case Some(info) => Posted(old(Current()), kernelIdOf(info), info)
    {
      var received := ReceiveAll(chunks);
      match received
      case None => return;
      case Some(data) =>
        match DecodePayload(lib, data)
        case None => return;
        case Some(info) => PostConnection(info);
    }
  }

  // ----- Whole runs -----

  /** `Poll` is a poll's end; the step that begins one changes nothing. */
  datatype Event<T> =
    | Register(k: KernelId)
    | Post(kernelId: Option<KernelId>, info: T)
    | Poll(k: KernelId, ticket: nat)

  /** Over a run a response object is numbered by the event that made it. */
  function Next<T>(s: Hall<T>, e: Event<T>, now: nat): Hall<T> {
    match e
    case Register(k) => Registered(s, k, now)
    case Post(kernelId, info) => Posted(s, kernelId, info)
    case Poll(k, ticket) => Polled(s, k, ticket)
  }

  function After<T>(history: seq<Event<T>>): Hall<T> {
    if history == [] then Hall(map[], map[])
    else Next(After(history[..|history| - 1]), history[|history| - 1], |history| - 1)
  }

  predicate IsRegister<T>(e: Event<T>, k: KernelId) {
    e.Register? && e.k == k
  }

  predicate IsPost<T>(e: Event<T>, k: KernelId) {
    e.Post? && e.kernelId == Some(k)
  }

  /** Event `q` is the end of a poll that took `k`'s response object out of the registry. */
  predicate Delivered<T>(history: seq<Event<T>>, q: nat, k: KernelId)
    requires q < |history|
  {
    var s := After(history[..q]);
    history[q].Poll? && history[q].k == k && history[q].ticket in s.responses && k in s.registry
  }

  /** `k` was registered by event `r`, and has been neither registered again nor taken out since. */
  ghost predicate OpenSince<T>(history: seq<Event<T>>, k: KernelId, r: nat) {
    && r < |history|
    && IsRegister(history[r], k)
    && forall q :: r < q < |history| ==> !IsRegister(history[q], k) && !Delivered(history, q, k)
  }

  /** Event `j` posted to the registration of `k` made by event `r`. */
  ghost predicate Reaches<T>(history: seq<Event<T>>, k: KernelId, r: nat, j: nat) {
    j < |history| && IsPost(history[j], k) && OpenSince(history[..j], k, r)
  }

  /** Moreover it is the last event that did. */
  ghost predicate LastReaches<T>(history: seq<Event<T>>, k: KernelId, r: nat, j: nat) {
    Reaches(history, k, r, j) && forall q :: j < q < |history| ==> !Reaches(history, k, r, q)
  }

  ghost predicate NeverReached<T>(history: seq<Event<T>>, k: KernelId, r: nat) {
    forall j :: 0 <= j < |history| ==> !Reaches(history, k, r, j)
  }

  lemma OpenSinceStep<T>(history: seq<Event<T>>, k: KernelId, r: nat)
    requires history != []
    ensures var n := |history| - 1;
      OpenSince(history, k, r) <==>
      || (r == n && IsRegister(history[n], k))
      || (r < n && OpenSince(history[..n], k, r) && !IsRegister(history[n], k) && !Delivered(history, n, k))
  {
    var n := |history| - 1;
    var before := history[..n];
    forall q | 0 <= q < n
      ensures before[q] == history[q] && Delivered(before, q, k) == Delivered(history, q, k)
    {
      assert before[..q] == history[..q];
    }
  }

  /** The registry holds exactly the open registrations. */
  lemma {:induction false} RegistryIsOpen<T>(history: seq<Event<T>>, k: KernelId, r: nat)
    ensures k in After(history).registry && After(history).registry[k] == r <==> OpenSince(history, k, r)
  {
    if history == [] {
    } else {
      RegistryIsOpen(history[..|history| - 1], k, r);
      OpenSinceStep(history, k, r);
      assert history[..|history| - 1][..|history| - 1] == history[..|history| - 1];
    }
  }

  lemma ReachesBefore<T>(history: seq<Event<T>>, k: KernelId, r: nat, j: nat)
    requires j < |history| - 1
    ensures Reaches(history[..|history| - 1], k, r, j) <==> Reaches(history, k, r, j)
  {
    assert history[..|history| - 1][..j] == history[..j];
  }

  /** A response object holds what was last posted to its registration, if anything was. */
  lemma {:induction false} ResponseIsLastPost<T>(history: seq<Event<T>>, k: KernelId, r: nat)
    returns (j: nat)
    requires r < |history| && IsRegister(history[r], k)
    ensures r !in After(history).responses ==> NeverReached(history, k, r)
    ensures r in After(history).responses ==>
              LastReaches(history, k, r, j) && After(history).responses[r] == history[j].info
  {
    var n := |history| - 1;
    var before, s := history[..n], After(history[..n]);
    j := n;
    if r == n {
      TicketsArePast(before, n);
      assert forall i :: 0 <= i < |history| ==> !OpenSince(history[..i], k, r);
    } else {
      j := ResponseIsLastPost(before, k, r);
      RegistryIsOpen(before, k, r);
      forall i | 0 <= i < n
        ensures Reaches(before, k, r, i) <==> Reaches(history, k, r, i)
      {
        ReachesBefore(history, k, r, i);
      }
      if Reaches(history, k, r, n) {
        j := n;
      } else {
        PostElsewhere(before, history[n], k, r);
      }
    }
  }

  /** Objects are made before anything can be posted to them. */
  lemma {:induction false} TicketsArePast<T>(history: seq<Event<T>>, n: nat)
    requires n >= |history|
    ensures n !in After(history).responses
    ensures forall k :: k in After(history).registry ==> After(history).registry[k] < |history|
  {
    if history == [] {
    } else {
      TicketsArePast(history[..|history| - 1], n);
    }
  }

  /** An event that does not post to registration `r` leaves its response object alone. */
  lemma PostElsewhere<T>(before: seq<Event<T>>, e: Event<T>, k: KernelId, r: nat)
    requires r < |before| && IsRegister(before[r], k)
    requires !(IsPost(e, k) && OpenSince(before, k, r))
    ensures var s, s' := After(before), Next(After(before), e, |before|);
      (r in s'.responses <==> r in s.responses) && (r in s.responses ==> s'.responses[r] == s.responses[r])
  {
    if e.Post? && e.kernelId.Some? && e.kernelId.value in After(before).registry {
      var other := e.kernelId.value;
      RegistryIsOpen(before, other, After(before).registry[other]);
    }
  }

  /**
   * Over every run, for a poll of `k` that waited for its registration `t`: it times out exactly when no
   * post ever reached that registration.
   */
  lemma PollTimesOut<T>(history: seq<Event<T>>, k: KernelId, t: nat)
    requires t < |history| && IsRegister(history[t], k)
    ensures Outcome(After(history), k, t) == TimedOut <==> NeverReached(history, k, t)
  {
    var j := ResponseIsLastPost(history, k, t);
    if t in After(history).responses {
      assert Reaches(history, k, t, j);
    }
  }

  /**
   * Over every run: a poll that waited for registration `t` and did not time out hands over what was last
   * posted to the registration `r` that is open when it resumes; nothing, if nothing was posted to that one
   * yet; and it is a lookup error if none is open. If `k` was neither registered again nor taken out
   * meanwhile, `r` is `t`, and the poll gets exactly the last post to it.
   */
  lemma PollReturnsLastPost<T>(history: seq<Event<T>>, k: KernelId, t: nat)
    requires t < |history| && IsRegister(history[t], k)
    ensures var outcome := Outcome(After(history), k, t);
      !NeverReached(history, k, t) ==>
        && (forall info :: outcome == Got(info) <==>
              exists r: nat, j: nat ::
                OpenSince(history, k, r) && LastReaches(history, k, r, j) && history[j].info == info)
        && (outcome == GotNothing <==> exists r: nat :: OpenSince(history, k, r) && NeverReached(history, k, r))
        && (outcome == Unregistered <==> forall r: nat :: !OpenSince(history, k, r))
    ensures OpenSince(history, k, t) ==>
              forall info :: Outcome(After(history), k, t) == Got(info) <==>
                exists j: nat :: LastReaches(history, k, t, j) && history[j].info == info
  {
    PollTimesOut(history, k, t);
    var s := After(history);
    forall r: nat
      ensures k in s.registry && s.registry[k] == r <==> OpenSince(history, k, r)
    {
      RegistryIsOpen(history, k, r);
    }
    if k in s.registry {
      OpenPollReturns(history, k, s.registry[k]);
    }
    if OpenSince(history, k, t) {
      OpenPollReturns(history, k, t);
    }
  }

  lemma OpenPollReturns<T>(history: seq<Event<T>>, k: KernelId, r: nat)
    requires OpenSince(history, k, r)
    ensures var s := After(history);
      && k in s.registry && s.registry[k] == r
      && (r !in s.responses <==> NeverReached(history, k, r))
      && (r in s.responses ==> exists j: nat :: LastReaches(history, k, r, j))
      && forall j: nat :: LastReaches(history, k, r, j) ==> r in s.responses && s.responses[r] == history[j].info
  {
    RegistryIsOpen(history, k, r);
    var j := ResponseIsLastPost(history, k, r);
    var s := After(history);
    if r in s.responses {
      assert LastReaches(history, k, r, j) && Reaches(history, k, r, j);
    }
    forall i: nat | LastReaches(history, k, r, i)
      ensures r in s.responses && i == j
    {
      assert i < |history| && Reaches(history, k, r, i);
    }
  }

  /** Between two deliveries to `k` lies a registration of `k`: no registration delivers twice. */
  lemma OneDeliveryPerRegistration<T>(history: seq<Event<T>>, k: KernelId, p: nat, q: nat)
    requires p < q < |history| && Delivered(history, p, k) && Delivered(history, q, k)
    ensures exists r: nat :: p < r < q && IsRegister(history[r], k)
  {
    var before := history[..q];
    var r := After(before).registry[k];
    RegistryIsOpen(before, k, r);
    assert before[..p] == history[..p];
    assert before[p] == history[p] && before[r] == history[r];
    assert Delivered(before, p, k);
  }

  /**
   * A kernel registered again while a poll for it is about to resume: the poll takes the new, still empty
   * response object, and nobody will find what the new launch sends.
   */
  lemma RegisteredDuringWait<T>(history: seq<Event<T>>, k: KernelId, t: nat)
    requires OpenSince(history, k, t) && !NeverReached(history, k, t)
    ensures var again := history + [Register(k)];
      && Outcome(After(again), k, t) == GotNothing
      && k !in After(again + [Poll(k, t)]).registry
  {
    var again := history + [Register(k)];
    OpenPollReturns(history, k, t);
    TicketsArePast(history, |history|);
    assert again[..|history|] == history;
    assert (again + [Poll(k, t)])[..|again|] == again;
  }

  /**
   * The rendezvous as a whole: from any history, if the last event to reach `k`'s open registration posted
   * what a launcher sent, in whatever chunks, then a poll that waited for it hands over that very
   * connection info.
   */
  lemma LaunchIsDelivered<T(!new)>(
      lib: Library<T>, aesKey: seq<Byte>, info: T, chunks: seq<seq<Byte>>, history: seq<Event<T>>,
      k: KernelId, r: nat, j: nat)
    requires MutuallyInverse(lib) && |aesKey| == 16
    requires Flatten(chunks) == Utf8.Encode(Encrypt(lib, aesKey, info))
    requires OpenSince(history, k, r) && LastReaches(history, k, r, j)
    requires Accumulate(chunks).Some? ==> DecodePayload(lib, Accumulate(chunks).value) == Some(history[j].info)
    ensures Outcome(After(history), k, r) == Got(info)
  {
    AnySplittingDecodes(lib, aesKey, info, chunks);
    OpenPollReturns(history, k, r);
  }
}
