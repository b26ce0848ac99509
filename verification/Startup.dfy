/**
 * Waiting for a kernel to start: the gateway's way of measuring elapsed time, and the polling loop that
 * ends in a connection, a failure or a launch timeout. Clock readings are seconds since the epoch.
 */
module Startup {
  import opened Arithmetic

  // ----- Elapsed time -----

  function Digit(n: nat): char
    requires n < 10
  {
    '0' + n as char
  }

  /** Python's `"%d"` of a number that is not negative. */
  function Show(n: nat): (s: string)
    ensures s != "" && forall i :: 0 <= i < |s| ==> '0' <= s[i] <= '9'
  {
    (if n < 10 then "" else Show(n / 10)) + [Digit(n % 10)]
  }

  function Value(digits: string): nat
    requires forall i :: 0 <= i < |digits| ==> '0' <= digits[i] <= '9'
  {
    if digits == "" then 0
    else
      var last := |digits| - 1;
      10 * Value(digits[..last]) + (digits[last] as int - '0' as int)
  }

  function Power(n: nat): (p: nat)
    ensures p > 0
  {
    if n == 0 then 1 else 10 * Power(n - 1)
  }

  /** Python's `float` of `whole.fraction`, both of them digits. */
  function Float(whole: string, fraction: string): real
    requires forall i :: 0 <= i < |whole| ==> '0' <= whole[i] <= '9'
    requires forall i :: 0 <= i < |fraction| ==> '0' <= fraction[i] <= '9'
  {
    Value(whole) as real + Value(fraction) as real / Power(|fraction|) as real
  }

  function Distance(a: int, b: int): nat {
    if a <= b then b - a else a - b
  }

  /** The seconds between two timestamps in milliseconds, by way of printing and reading them back. */
  function GetTimeDiff(time1: int, time2: int): real {
    var diff := Distance(time1, time2);
    Float(Show(diff / 1000), Show(diff % 1000))
  }

  /** The current time in milliseconds, always a whole second. */
  function GetCurrentTime(clock: real): int {
    clock.Floor * 1000
  }

  lemma DigitsValue(n: nat)
    requires n < 10
    ensures '0' <= Digit(n) <= '9' && Digit(n) as int - '0' as int == n
  {
  }

  lemma ValueOfAppended(digits: string, n: nat)
    requires forall i :: 0 <= i < |digits| ==> '0' <= digits[i] <= '9'
    requires n < 10
    ensures forall i :: 0 <= i <= |digits| ==> '0' <= (digits + [Digit(n)])[i] <= '9'
    ensures Value(digits + [Digit(n)]) == 10 * Value(digits) + n
  {
    DigitsValue(n);
    assert (digits + [Digit(n)])[..|digits|] == digits;
  }

  lemma {:induction false} ValueOfShow(n: nat)
    ensures Value(Show(n)) == n
  {
    var higher := if n < 10 then "" else Show(n / 10);
    ValueOfAppended(higher, n % 10);
    if n >= 10 {
      ValueOfShow(n / 10);
    }
    assert Value(higher) == n / 10;
    assert Show(n) == higher + [Digit(n % 10)];
  }

  lemma LengthOfShow(n: nat)
    ensures |Show(n)| == 1 + if n < 10 then 0 else |Show(n / 10)|
  {
  }

  lemma PrintedLength(ms: nat)
    requires ms < 1000
    ensures |Show(ms)| == if ms < 10 then 1 else if ms < 100 then 2 else 3
  {
    LengthOfShow(ms);
    if ms >= 10 {
      LengthOfShow(ms / 10);
      if ms >= 100 {
        LengthOfShow(ms / 10 / 10);
      }
    }
  }

  lemma Powers()
    ensures Power(1) == 10 && Power(2) == 100 && Power(3) == 1000
  {
    assert Power(0) == 1 && Power(1) == 10 && Power(2) == 100;
  }

  lemma DiffAsPrinted(time1: int, time2: int)
    ensures var diff := Distance(time1, time2);
      var ms := diff % 1000;
      GetTimeDiff(time1, time2) ==
      (diff / 1000) as real
      + ms as real / (if ms < 10 then 10.0 else if ms < 100 then 100.0 else 1000.0)
  {
    var diff := Distance(time1, time2);
    ValueOfShow(diff / 1000);
    ValueOfShow(diff % 1000);
    PrintedLength(diff % 1000);
    Powers();
  }

  /**
   * The difference is right exactly when its milliseconds are zero or need no leading zero: 5030
   * milliseconds come out as 5.3 seconds.
   */
  lemma DiffIsExactIff(time1: int, time2: int)
    ensures var diff := Distance(time1, time2);
      GetTimeDiff(time1, time2) == diff as real / 1000.0 <==> diff % 1000 == 0 || diff % 1000 >= 100
  {
    DiffAsPrinted(time1, time2);
    var diff := Distance(time1, time2);
    assert diff == 1000 * (diff / 1000) + diff % 1000;
    assert diff as real / 1000.0 == (diff / 1000) as real + (diff % 1000) as real / 1000.0;
  }

  /** Between current times it is the number of times the seconds' hand has moved. */
  lemma DiffOfCurrentTimes(a: real, b: real)
    ensures GetTimeDiff(GetCurrentTime(a), GetCurrentTime(b)) == Distance(a.Floor, b.Floor) as real
  {
    DiffAsPrinted(GetCurrentTime(a), GetCurrentTime(b));
    var d := Distance(a.Floor, b.Floor);
    assert Distance(GetCurrentTime(a), GetCurrentTime(b)) == 1000 * d;
    assert (1000 * d) / 1000 == d && (1000 * d) % 1000 == 0;
  }

  /** The seconds' hand has moved more often than the timeout allows. */
  predicate TimedOut(start: real, now: real, timeout: real) {
    Distance(start.Floor, now.Floor) as real > timeout
  }

  /** This is what the check of the elapsed time comes to. */
  lemma TimedOutAsComputed(start: real, now: real, timeout: real)
    ensures TimedOut(start, now, timeout) <==> GetTimeDiff(GetCurrentTime(start), GetCurrentTime(now)) > timeout
  {
    DiffOfCurrentTimes(start, now);
  }

  predicate IsWhole(x: real) {
    x == x.Floor as real
  }

  /** No launch times out early, whenever it begins, on a clock set back by at most `back` seconds meanwhile. */
  ghost predicate NeverEarly(timeout: real, back: real) {
    forall start, now :: start - back <= now <= start + timeout ==> !TimedOut(start, now, timeout)
  }

  /**
   * Launches never time out early exactly when the timeout is a whole number of seconds and the clock is not
   * set back by more than the timeout: the check takes the distance of the two readings.
   */
  lemma NeverEarlyIffWhole(timeout: real, back: real)
    requires timeout >= 0.0 && back >= 0.0
    ensures NeverEarly(timeout, back) <==> IsWhole(timeout) && back <= timeout
  {
    if IsWhole(timeout) && back <= timeout {
      forall start: real, now: real | start - back <= now <= start + timeout
        ensures !TimedOut(start, now, timeout)
      {
        assert now < start.Floor as real + 1.0 + timeout.Floor as real;
        assert start < now.Floor as real + 1.0 + timeout.Floor as real;
        assert now.Floor - start.Floor <= timeout.Floor && start.Floor - now.Floor <= timeout.Floor;
      }
    } else if IsWhole(timeout) {
      assert (-back).Floor as real <= -back;
      assert TimedOut(0.0, -back, timeout);
    } else {
      var start := 1.0 - (timeout - timeout.Floor as real);
      var now := timeout.Floor as real + 1.0;
      assert start.Floor == 0 && now.Floor == timeout.Floor + 1;
      assert TimedOut(start, now, timeout);
      assert start <= now && now - start <= timeout;
    }
  }

  /** And they are never more than a second late. */
  lemma TimesOutWithinASecond(start: real, now: real, timeout: real)
    requires now - start >= timeout + 1.0 && start <= now
    ensures TimedOut(start, now, timeout)
  {
    assert start.Floor as real <= start && now < now.Floor as real + 1.0;
  }

  // ----- The startup loop -----

  datatype Receipt = Ready | NotYet | Broken

  /** What iteration `i` of the loop gets to see: the clock, and the container manager's and launcher's answers. */
  datatype World = World(
    clock: nat -> real,
    status: nat -> string,
    hostKnown: nat -> bool,
    receipt: nat -> Receipt,
    launchFailed: nat -> bool)

  datatype Outcome = Connected | LaunchTimeout | ContainerError | ConnectionError | LaunchError

  datatype Decision = Waiting | Decided(outcome: Outcome)

  function Decide(w: World, i: nat, start: real, timeout: real, errorStates: set<string>): Decision {
    if TimedOut(start, w.clock(i), timeout) then Decided(LaunchTimeout)
    else if w.status(i) == "" then
      if w.launchFailed(i) then Decided(LaunchError) else Waiting
    else if w.status(i) in errorStates then Decided(ContainerError)
    else if !w.hostKnown(i) then Waiting
    else
      match w.receipt(i)
      case Ready => Decided(Connected)
      case NotYet => Waiting
      case Broken => Decided(ConnectionError)
  }

  /** What the world showed in an iteration that ended the startup, or did not. */
  lemma WhatDecides(w: World, i: nat, start: real, timeout: real, errorStates: set<string>)
    ensures var d := Decide(w, i, start, timeout, errorStates);
      var inTime := !TimedOut(start, w.clock(i), timeout);
      var sound := inTime && w.status(i) != "" && w.status(i) !in errorStates;
      && (d == Decided(LaunchTimeout) <==> !inTime)
      && (d == Decided(LaunchError) <==> inTime && w.status(i) == "" && w.launchFailed(i))
      && (d == Decided(ContainerError) <==> inTime && w.status(i) != "" && w.status(i) in errorStates)
      && (d == Decided(Connected) <==> sound && w.hostKnown(i) && w.receipt(i) == Ready)
      && (d == Decided(ConnectionError) <==> sound && w.hostKnown(i) && w.receipt(i) == Broken)
      && (d == Waiting <==>
            || (inTime && w.status(i) == "" && !w.launchFailed(i))
            || (sound && (!w.hostKnown(i) || w.receipt(i) == NotYet)))
  {
  }

  class ContainerProcessProxy {
    const kernelLaunchTimeout: real
    const errorStates: set<string>
    var startTime: int
    var pid: int
    var pgid: int

    constructor (kernelLaunchTimeout: real, errorStates: set<string>)
      ensures this.kernelLaunchTimeout == kernelLaunchTimeout && this.errorStates == errorStates
    {
      this.kernelLaunchTimeout := kernelLaunchTimeout;
      this.errorStates := errorStates;
      startTime, pid, pgid := 0, 0, 0;
    }

    /** The check after each sleep. */
    method HandleTimeout(clock: real, ghost start: real) returns (expired: bool)
      requires startTime == GetCurrentTime(start)
      ensures expired == TimedOut(start, clock, kernelLaunchTimeout)
    {
      TimedOutAsComputed(start, clock, kernelLaunchTimeout);
      var interval := GetTimeDiff(startTime, GetCurrentTime(clock));
      return interval > kernelLaunchTimeout;
    }

    /**
     * If the clock advances by at least the poll interval in each iteration, the loop ends within about
     * (launch timeout + 1) / poll interval iterations, with the first iteration's decision that is not to
     * go on waiting.
     */
    method ConfirmRemoteStartup(w: World, start: real, pollInterval: real) returns (outcome: Outcome, i: nat)
      requires pollInterval > 0.0
      requires forall k: nat :: w.clock(k) >= start + k as real * pollInterval
      modifies this`startTime, this`pid, this`pgid
      ensures i >= 1 && Decide(w, i, start, kernelLaunchTimeout, errorStates) == Decided(outcome)
      ensures forall k :: 1 <= k < i ==> Decide(w, k, start, kernelLaunchTimeout, errorStates) == Waiting
      ensures i == 1 || (i - 1) as real * pollInterval < kernelLaunchTimeout + 1.0
      ensures IsWhole(kernelLaunchTimeout) && outcome.LaunchTimeout? ==> w.clock(i) - start > kernelLaunchTimeout
      ensures outcome.Connected? ==> pid == 0 && pgid == 0
    {
      startTime := GetCurrentTime(start);
      i := 0;
      outcome := Connected;
      var readyToConnect := false;
      while !readyToConnect
        invariant startTime == GetCurrentTime(start)
        invariant !readyToConnect ==>
          forall k :: 1 <= k <= i ==> Decide(w, k, start, kernelLaunchTimeout, errorStates) == Waiting
        invariant readyToConnect ==>
          && i >= 1 && pid == 0 && pgid == 0
          && Decide(w, i, start, kernelLaunchTimeout, errorStates) == Decided(Connected)
          && forall k :: 1 <= k < i ==> Decide(w, k, start, kernelLaunchTimeout, errorStates) == Waiting
        invariant outcome.Connected?
        invariant !readyToConnect && i > 0 ==> i as real * pollInterval < kernelLaunchTimeout + 1.0
        invariant readyToConnect && i > 1 ==> (i - 1) as real * pollInterval < kernelLaunchTimeout + 1.0
        decreases ((kernelLaunchTimeout + 1.0) / pollInterval).Floor + 1 - i, !readyToConnect
      {
        i := i + 1;
        var expired := HandleTimeout(w.clock(i), start);
        if expired {
          NotEarly(w, i, start, kernelLaunchTimeout, pollInterval);
          return LaunchTimeout, i;
        }
        StillInTime(w, i, start, kernelLaunchTimeout, pollInterval);
        var status := w.status(i);
        if status != "" {
          if status in errorStates {
            return ContainerError, i;
          }
          if w.hostKnown(i) {
            match w.receipt(i) {
              case Broken => return ConnectionError, i;
              case Ready => readyToConnect := true;
              case NotYet =>
            }
            pid, pgid := 0, 0;
          }
        } else if w.launchFailed(i) {
          return LaunchError, i;
        }
      }
    }
  }

  lemma StillInTime(w: World, i: nat, start: real, timeout: real, pollInterval: real)
    requires pollInterval > 0.0 && w.clock(i) >= start + i as real * pollInterval
    requires !TimedOut(start, w.clock(i), timeout)
    ensures i as real * pollInterval < timeout + 1.0
    ensures i <= ((timeout + 1.0) / pollInterval).Floor
  {
    assert i as real * pollInterval >= 0.0;
    if w.clock(i) - start >= timeout + 1.0 {
      TimesOutWithinASecond(start, w.clock(i), timeout);
    }
    WithinQuotient(i, pollInterval, timeout + 1.0);
  }

  lemma NotEarly(w: World, i: nat, start: real, timeout: real, pollInterval: real)
    requires pollInterval > 0.0 && w.clock(i) >= start + i as real * pollInterval
    requires TimedOut(start, w.clock(i), timeout)
    ensures IsWhole(timeout) ==> w.clock(i) - start > timeout
  {
    assert i as real * pollInterval >= 0.0;
    if IsWhole(timeout) && timeout >= 0.0 {
      NeverEarlyIffWhole(timeout, 0.0);
      assert NeverEarly(timeout, 0.0);
    }
  }
}
