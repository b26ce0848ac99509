/**
 * Port ranges and port selection, in the server and in the launcher: both parse the same range string,
 * and both pick ports by binding sockets to random candidates with a bounded number of retries.
 */
module Ports {
  import opened Collections

  // ----- Port ranges -----

  const LOWEST := 1024
  const HIGHEST := 65535

  /** The length of what precedes the first `..`, or `None` without one. */
  function FirstDots(s: string): (n: Option<nat>)
    ensures n.Some? ==> n.value + 2 <= |s| && s[n.value] == '.' && s[n.value + 1] == '.'
  {
    if |s| < 2 then None
    else if s[0] == '.' && s[1] == '.' then Some(0)
    else
      match FirstDots(s[1..])
      case None => None
      case Some(n) => Some(n + 1)
  }

  /** Python's `s.split("..")`. */
  function SplitDots(s: string): (parts: seq<string>)
    ensures parts != []
    decreases |s|
  {
    match FirstDots(s)
    case None => [s]
    case Some(n) => [s[..n]] + SplitDots(s[n + 2..])
  }

  /** The first two parts as numbers. `parse` is Python's `int`, and `None` where it or the indexing raises. */
  function ParseRange(parse: string -> Option<int>, s: string): Option<(int, int)> {
    var parts := SplitDots(s);
    if parse(parts[0]).None? || |parts| < 2 || parse(parts[1]).None? then None
    else Some((parse(parts[0]).value, parse(parts[1]).value))
  }

  predicate IsPort(p: int) {
    LOWEST <= p <= HIGHEST
  }

  /** The server accepts bounds that are equal, or far enough apart and both in the range of user ports. */
  predicate ServerAccepts(lower: int, upper: int, minSize: int) {
    lower == upper || (upper - lower >= minSize && IsPort(lower) && IsPort(upper))
  }

  /** The launcher's own validation; `None` where it raises. */
  function LauncherRange(parse: string -> Option<int>, minSize: int, s: string): Option<(int, int)> {
    if s == "" then Some((0, 0))
    else
      match ParseRange(parse, s)
      case None => None
      case Some((lower, upper)) =>
        if upper - lower != 0 && upper - lower < minSize then None else Some((lower, upper))
  }

  /** The server's validation; `None` where it raises. */
  function ServerRange(parse: string -> Option<int>, minSize: int, s: string): Option<(int, int)> {
    match ParseRange(parse, s)
    case None => None
    case Some((lower, upper)) => if ServerAccepts(lower, upper, minSize) then Some((lower, upper)) else None
  }

  /** `int("")` raises. */
  predicate RejectsEmpty(parse: string -> Option<int>) {
    parse("").None?
  }

  /**
   * With the same minimum size, the launcher accepts every range that the server accepts, with the same
   * bounds; and the server accepts exactly those non-empty ranges of the launcher whose bounds are equal or
   * both user ports.
   */
  lemma LauncherFollowsServer(parse: string -> Option<int>, minSize: int, s: string)
    requires RejectsEmpty(parse)
    ensures ServerRange(parse, minSize, s).Some? ==> LauncherRange(parse, minSize, s) == ServerRange(parse, minSize, s)
    ensures ServerRange(parse, minSize, s).Some? <==>
            var r := LauncherRange(parse, minSize, s);
            && s != "" && r.Some?
            && (r.value.0 == r.value.1 || (IsPort(r.value.0) && IsPort(r.value.1)))
  {
    if s == "" {
      assert SplitDots(s) == [""];
    }
  }

  lemma {:induction false} FirstDotsAt(a: string, b: string)
    requires '.' !in a
    ensures FirstDots(a + ".." + b) == Some(|a|)
  {
    var s := a + ".." + b;
    if a == "" {
      assert s[0] == '.' && s[1] == '.';
    } else {
      assert a[0] in a && s[0] == a[0];
      assert s[1..] == a[1..] + ".." + b;
      FirstDotsAt(a[1..], b);
    }
  }

  lemma {:induction false} NoDots(s: string)
    requires '.' !in s
    ensures FirstDots(s) == None
  {
    if |s| < 2 {
    } else {
      assert s[0] in s;
      NoDots(s[1..]);
    }
  }

  /**
   * A range written as `lower..upper` is read back as those bounds, by the server if they are equal or are
   * user ports far enough apart, by the launcher if they are equal or far enough apart, and else by neither.
   */
  lemma RangeReadsBack(parse: string -> Option<int>, show: int -> string, minSize: int, lower: int, upper: int)
    requires forall n :: parse(show(n)) == Some(n) && '.' !in show(n)
    ensures ServerRange(parse, minSize, show(lower) + ".." + show(upper))
         == if lower == upper || (upper - lower >= minSize && 1024 <= lower <= 65535 && 1024 <= upper <= 65535)
            then Some((lower, upper)) else None
    ensures LauncherRange(parse, minSize, show(lower) + ".." + show(upper))
         == if lower == upper || upper - lower >= minSize then Some((lower, upper)) else None
  {
    var s := show(lower) + ".." + show(upper);
    assert parse(show(lower)) == Some(lower) && parse(show(upper)) == Some(upper);
    FirstDotsAt(show(lower), show(upper));
    assert s[..|show(lower)|] == show(lower) && s[|show(lower)| + 2..] == show(upper);
    NoDots(show(upper));
    assert SplitDots(s) == [show(lower)] + [show(upper)];
  }

  // ----- Port selection -----

  /** What the generator and the operating system contribute to one attempt to bind. */
  datatype Attempt = Attempt(draw: int, answer: Answer)
  datatype Answer = Refused | Granted(ephemeral: int)

  /** Port 0 lets the system choose. */
  function Bind(taken: set<int>, candidate: int, answer: Answer): Option<int> {
    match answer
    case Refused => None
    case Granted(ephemeral) =>
      var p := if candidate == 0 then ephemeral else candidate;
      if p in taken || !(1 <= p <= HIGHEST) then None else Some(p)
  }

  /** A draw is from the range where there is one. */
  ghost predicate FairDraws(attempts: nat -> Attempt, lower: int, upper: int) {
    forall i: nat :: lower < upper ==> lower <= attempts(i).draw <= upper
  }

  /** One round of the retry loop; drawing from an upside-down range raises like a failed bind. */
  function Tried(taken: set<int>, lower: int, upper: int, a: Attempt): Option<int> {
    if lower == upper then Bind(taken, 0, a.answer)
    else if lower > upper then None
    else Bind(taken, a.draw, a.answer)
  }

  /** An attempt yields a port if and only if the system grants one that is free; it is the one drawn, if any. */
  lemma TriedIff(taken: set<int>, lower: int, upper: int, a: Attempt, p: int)
    ensures Tried(taken, lower, upper, a) == Some(p) <==>
            && lower <= upper && a.answer.Granted? && p !in taken && 1 <= p <= 65535
            && p == if lower == upper || a.draw == 0 then a.answer.ephemeral else a.draw
  {
  }

  /** The most attempts that one socket can cost. */
  function Tries(maxRetries: int): (n: nat)
    ensures n >= 1
  {
    if maxRetries < 0 then 1 else maxRetries + 1
  }

  /** The attempts before `tries`, as many as one search has, all failed on sockets held as in `taken`. */
  ghost predicate GaveUp(
      taken: set<int>, lower: int, upper: int, attempts: nat -> Attempt, tries: nat, maxRetries: int)
  {
    var n := if maxRetries < 0 then 1 else maxRetries + 1;
    n <= tries && forall i :: tries - n <= i < tries ==> Tried(taken, lower, upper, attempts(i)).None?
  }

  predicate Usable(p: int, lower: int, upper: int) {
    if lower == upper then 1 <= p <= HIGHEST else lower <= p <= upper
  }

  /** What validation establishes, whatever the minimum size. */
  predicate Validated(lower: int, upper: int) {
    lower == upper || (IsPort(lower) && IsPort(upper))
  }

  class OperatingSystem {
    var taken: set<int>

    constructor (taken: set<int>)
      ensures this.taken == taken
    {
      this.taken := taken;
    }

    method BindSocket(candidate: int, answer: Answer) returns (port: Option<int>)
      modifies this
      ensures port == Bind(old(taken), candidate, answer)
      ensures taken == old(taken) + if port.Some? then {port.value} else {}
    {
      port := Bind(taken, candidate, answer);
      if port.Some? {
        taken := taken + {port.value};
      }
    }

    method Close(port: int)
      modifies this
      ensures taken == old(taken) - {port}
    {
      taken := taken - {port};
    }
  }

  class ProcessProxy {
    var lowerPort: int
    var upperPort: int

    constructor ()
      ensures lowerPort == 0 && upperPort == 0
    {
      lowerPort, upperPort := 0, 0;
    }

    /** The bounds are set as they are read, also where the validation then fails. */
    method ValidatePortRange(parse: string -> Option<int>, minSize: int, portRange: string) returns (ok: bool)
      modifies this
      ensures ok <==> ServerRange(parse, minSize, portRange).Some?
      ensures ok ==> ServerRange(parse, minSize, portRange) == Some((lowerPort, upperPort))
      ensures ok ==> Validated(lowerPort, upperPort)
    {
      var parts := SplitDots(portRange);
      if parse(parts[0]).None? {
        return false;
      }
      lowerPort := parse(parts[0]).value;
      if |parts| < 2 || parse(parts[1]).None? {
        return false;
      }
      upperPort := parse(parts[1]).value;
      var size := upperPort - lowerPort;
      if size != 0 {
        if size < minSize {
          return false;
        }
        if lowerPort < LOWEST || lowerPort > HIGHEST {
          return false;
        }
        if upperPort < LOWEST || upperPort > HIGHEST {
          return false;
        }
      }
      return true;
    }

    /**
     * Binds a socket at the first attempt that works, counting from `first`, and gives up after one more
     * failure than `maxRetries`. `next` is the first attempt that was not made.
     */
    method SelectSocket(os: OperatingSystem, attempts: nat -> Attempt, first: nat, maxRetries: int)
      returns (port: Option<int>, next: nat)
      requires Validated(lowerPort, upperPort) && FairDraws(attempts, lowerPort, upperPort)
      modifies os
      ensures first < next <= first + Tries(maxRetries)
      ensures forall i :: first <= i < next - 1 ==> Tried(old(os.taken), lowerPort, upperPort, attempts(i)).None?
      ensures port == Tried(old(os.taken), lowerPort, upperPort, attempts(next - 1))
      ensures port.None? ==> next == first + Tries(maxRetries)
      ensures port.Some? ==> port.value !in old(os.taken) && Usable(port.value, lowerPort, upperPort)
      ensures os.taken == old(os.taken) + if port.Some? then {port.value} else {}
    {
      var retries := 0;
      next := first;
      port := None;
      while port.None?
        invariant os.taken == old(os.taken) + if port.Some? then {port.value} else {}
        invariant 0 <= retries == (if port.Some? then next - 1 else next) - first
        invariant port.None? ==> retries < Tries(maxRetries)
        invariant port.Some? ==> next > first && retries < Tries(maxRetries)
        invariant forall i :: first <= i < first + retries ==>
          Tried(old(os.taken), lowerPort, upperPort, attempts(i)).None?
        invariant port.Some? ==> port == Tried(old(os.taken), lowerPort, upperPort, attempts(next - 1))
        decreases Tries(maxRetries) - retries, port.None?
      {
        assert os.taken == old(os.taken);
        var a := attempts(next);
        if lowerPort <= upperPort {
          port := os.BindSocket(if upperPort - lowerPort == 0 then 0 else a.draw, a.answer);
        }
        next := next + 1;
        if port.None? {
          retries := retries + 1;
          if retries > maxRetries {
            return;
          }
        }
      }
    }

    /** Opens sockets one after the other, all of them held, until there are enough or a search fails. */
    method OpenSockets(os: OperatingSystem, attempts: nat -> Attempt, count: nat, maxRetries: int)
      returns (found: seq<int>, tries: nat)
      requires Validated(lowerPort, upperPort) && FairDraws(attempts, lowerPort, upperPort)
      modifies os
      ensures |found| <= count && NoDup(found)
      ensures forall p :: p in found ==> p !in old(os.taken) && Usable(p, lowerPort, upperPort)
      ensures os.taken == old(os.taken) + Elements(found)
      ensures tries <= count * Tries(maxRetries)
      ensures |found| < count ==> GaveUp(os.taken, lowerPort, upperPort, attempts, tries, maxRetries)
    {
      found := [];
      tries := 0;
      assert Elements(found) == {};
      while |found| < count
        invariant |found| <= count && NoDup(found)
        invariant forall p :: p in found ==> p !in old(os.taken) && Usable(p, lowerPort, upperPort)
        invariant os.taken == old(os.taken) + Elements(found)
        invariant tries <= |found| * Tries(maxRetries)
      {
        var port, next := SelectSocket(os, attempts, tries, maxRetries);
        MoreTries(|found|, count, Tries(maxRetries));
        tries := next;
        if port.None? {
          return;
        }
        Held(old(os.taken), found, port.value);
        found := found + [port.value];
      }
    }

    method CloseSockets(os: OperatingSystem, found: seq<int>)
      requires NoDup(found) && Elements(found) <= os.taken
      modifies os
      ensures os.taken == old(os.taken) - Elements(found)
    {
      assert found[0..] == found;
      ghost var rest := os.taken - Elements(found);
      assert os.taken == rest + Elements(found[0..]);
      for i := 0 to |found|
        invariant os.taken == rest + Elements(found[i..])
      {
        assert forall p :: p in found ==> p in Elements(found);
        CloseFirst(rest, found, i);
        os.Close(found[i]);
      }
      assert Elements(found[|found|..]) == {};
    }

    /**
     * Holds one socket per port until all are found, so the ports are distinct; then closes them all.
     * When a search fails, the sockets found so far are still open.
     */
    method SelectPorts(os: OperatingSystem, attempts: nat -> Attempt, count: nat, maxRetries: int)
      returns (ports: Option<seq<int>>, tries: nat)
      requires Validated(lowerPort, upperPort) && FairDraws(attempts, lowerPort, upperPort)
      modifies os
      ensures ports.Some? ==>
                && |ports.value| == count && NoDup(ports.value)
                && forall p :: p in ports.value ==> p !in old(os.taken) && Usable(p, lowerPort, upperPort)
      ensures ports.Some? && lowerPort != upperPort ==> forall p :: p in ports.value ==> IsPort(p)
      ensures ports.Some? ==> os.taken == old(os.taken)
      ensures ports.None? ==> old(os.taken) <= os.taken && |os.taken - old(os.taken)| < count
      ensures ports.None? ==> GaveUp(os.taken, lowerPort, upperPort, attempts, tries, maxRetries)
      ensures tries <= count * Tries(maxRetries)
    {
      var found: seq<int>;
      found, tries := OpenSockets(os, attempts, count, maxRetries);
      Opened(old(os.taken), found);
      if |found| < count {
        NoDupCardinality(found);
        return None, tries;
      }
      CloseSockets(os, found);
      return Some(found), tries;
    }
  }

  lemma Held(before: set<int>, found: seq<int>, port: int)
    requires NoDup(found) && port !in before + Elements(found)
    ensures NoDup(found + [port])
    ensures before + Elements(found) + {port} == before + Elements(found + [port])
  {
    assert forall i :: 0 <= i < |found| ==> found[i] in Elements(found);
    ElementsAppend(found, port);
    UnionAssociative(before, Elements(found), {port});
  }

  lemma Opened(before: set<int>, found: seq<int>)
    requires forall p :: p in found ==> p !in before
    ensures Elements(found) <= before + Elements(found)
    ensures before + Elements(found) - Elements(found) == before
    ensures before + Elements(found) - before == Elements(found)
  {
    var all := before + Elements(found);
    forall p | p in before
      ensures p !in Elements(found)
    {
      assert p !in found;
    }
    assert all - Elements(found) == before;
    assert all - before == Elements(found);
  }

  lemma MoreTries(n: nat, count: nat, each: nat)
    requires n < count
    ensures (n + 1) * each == n * each + each && (n + 1) * each <= count * each
  {
    var d := count - (n + 1);
    assert d * each >= 0;
    assert count * each == (n + 1) * each + d * each;
  }

  lemma CloseFirst(before: set<int>, found: seq<int>, i: nat)
    requires i < |found| && NoDup(found) && forall p :: p in found ==> p !in before
    ensures before + Elements(found[i..]) - {found[i]} == before + Elements(found[i + 1..])
  {
    var p := found[i];
    assert p in found;
    assert found[i..] == [p] + found[i + 1..];
    assert Elements(found[i..]) == {p} + Elements(found[i + 1..]);
    assert p !in found[i + 1..];
    assert p !in Elements(found[i + 1..]) && p !in before;
  }
}
