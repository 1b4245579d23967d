/** The prober's two waits on a pod, as deadline-bounded polling loops, and the clean-up of pods an
    earlier prober left behind.  Answers and clock readings are arbitrary; all the timer promises
    is that tick `k` is not early.  Times are milliseconds since the wait began. */
module Polling {
  import opened Text
  import opened Calendar
  import opened Sorting
  import Probe

  datatype Pod = Pod(ip: Option<string>, phase: Option<string>)

  datatype Reply = Found(pod: Pod) | Gone | Unreachable

  const IP_PERIOD := 500
  const TERMINAL_PERIOD := 2_000

  /** A timer that fires at once and then every `period`, perhaps late. */
  ghost predicate Ticks(clock: nat -> nat, period: nat) {
    forall k: nat :: clock(k) >= k * period
  }

  /** What a reply settles, if anything. */
  function IpAnswer(name: string, reply: Reply): Option<Probe.Result<string>> {
    match reply
    case Found(pod) =>
      if pod.ip.Some? && pod.ip.value != "" then Some(Probe.Success(pod.ip.value))
      else if pod.phase == Some("Failed") || pod.phase == Some("Succeeded")
      then Some(Probe.Failure("pod " + name + " terminated before receiving an IP"))
      else None
    case Gone => Some(Probe.Failure("pod " + name + " disappeared before receiving an IP"))
    case Unreachable => None
  }

  function PhaseAnswer(name: string, reply: Reply): Option<Probe.Result<Probe.Phase>> {
    match reply
    case Found(pod) =>
      if pod.phase == Some("Succeeded") then Some(Probe.Success(Probe.Succeeded))
      else if pod.phase == Some("Failed") then Some(Probe.Success(Probe.Failed))
      else None
    case Gone => Some(Probe.Failure("pod " + name + " disappeared during probe"))
    case Unreachable => None
  }

  /** A reply that settles nothing: an error other than "not found", or a pod that has neither an
      address nor ended. */
  predicate StillComing(reply: Reply) {
    || reply.Unreachable?
    || (&& reply.Found? && reply.pod.ip in {None, Some("")}
        && reply.pod.phase != Some("Succeeded") && reply.pod.phase != Some("Failed"))
  }

  predicate StillRunning(reply: Reply) {
    || reply.Unreachable?
    || (reply.Found? && reply.pod.phase != Some("Succeeded") && reply.pod.phase != Some("Failed"))
  }

  /** An address settles the first wait, and so does a pod that is gone or has ended without one. */
  lemma IpAnswerMeaning(name: string, reply: Reply)
    ensures IpAnswer(name, reply).None? <==> StillComing(reply)
    ensures forall ip :: IpAnswer(name, reply) == Some(Probe.Success(ip)) <==>
      reply.Found? && reply.pod.ip == Some(ip) && ip != ""
    ensures forall e :: IpAnswer(name, reply) == Some(Probe.Failure(e)) <==>
      || (reply.Gone? && e == "pod " + name + " disappeared before receiving an IP")
      || (&& reply.Found? && reply.pod.ip in {None, Some("")} && reply.pod.phase in {Some("Failed"), Some("Succeeded")}
          && e == "pod " + name + " terminated before receiving an IP")
  {
  }

  /** The two final phases settle the second wait, and so does a pod that is gone. */
  lemma PhaseAnswerMeaning(name: string, reply: Reply)
    ensures PhaseAnswer(name, reply).None? <==> StillRunning(reply)
    ensures PhaseAnswer(name, reply) == Some(Probe.Success(Probe.Succeeded)) <==>
      reply.Found? && reply.pod.phase == Some("Succeeded")
    ensures PhaseAnswer(name, reply) == Some(Probe.Success(Probe.Failed)) <==>
      reply.Found? && reply.pod.phase == Some("Failed")
    ensures PhaseAnswer(name, reply) != Some(Probe.Success(Probe.TimedOut))
    ensures forall e :: PhaseAnswer(name, reply) == Some(Probe.Failure(e)) <==>
      reply.Gone? && e == "pod " + name + " disappeared during probe"
  {
  }

  function NoIp(name: string): Probe.Result<string> {
    Probe.Failure("timeout waiting for pod " + name + " to receive a pod-network IP")
  }

  const TIMED_OUT: Probe.Result<Probe.Phase> := Probe.Success(Probe.TimedOut)

  ghost predicate Unsettled<T(!new)>(settles: nat -> Option<T>, polls: nat) {
    forall k: nat | k < polls :: settles(k).None?
  }

  /** Still waiting after `polls` questions. */
  ghost predicate Waiting<T(!new)>(settles: nat -> Option<T>, clock: nat -> nat, timeout: nat, polls: nat) {
    Unsettled(settles, polls) && forall k: nat | k < polls :: clock(k) < timeout
  }

  /** One more turn of a wait: give up at the deadline, stop at a reply that settles it, go on. */
  lemma Turn<T(!new)>(settles: nat -> Option<T>, late: T, clock: nat -> nat, timeout: nat, polls: nat)
    requires Waiting(settles, clock, timeout, polls)
    ensures clock(polls) >= timeout ==> Waited(settles, late, clock, timeout, late, polls)
    ensures clock(polls) < timeout && settles(polls).Some? ==>
      Waited(settles, late, clock, timeout, settles(polls).value, polls + 1)
    ensures clock(polls) < timeout && settles(polls).None? ==> Waiting(settles, clock, timeout, polls + 1)
  {
  }

  /** What a wait may return after `polls` questions, each asked before the deadline: the first
      reply that settles it, or `late` when the deadline came first. */
  ghost predicate Waited<T(!new)>(settles: nat -> Option<T>, late: T, clock: nat -> nat, timeout: nat, r: T, polls: nat) {
    && (forall k: nat | k < polls :: clock(k) < timeout)
    && Unsettled(settles, if polls > 0 then polls - 1 else 0)
    && if polls > 0 && settles(polls - 1).Some? then r == settles(polls - 1).value
       else r == late && clock(polls) >= timeout
  }

  method AwaitPodIp(name: string, timeout: nat, clock: nat -> nat, replies: nat -> Reply)
    returns (r: Probe.Result<string>, polls: nat)
    requires Ticks(clock, IP_PERIOD)
    ensures Waited(k => IpAnswer(name, replies(k)), NoIp(name), clock, timeout, r, polls)
    ensures polls * 500 < timeout + 500
  {
    ghost var settles := k => IpAnswer(name, replies(k));
    polls := 0;
    while true
      invariant Waiting(settles, clock, timeout, polls)
      invariant polls * IP_PERIOD < timeout + IP_PERIOD
      decreases timeout - IP_PERIOD * polls
    {
      hide Waiting, Waited;
      Turn(settles, NoIp(name), clock, timeout, polls);
      if clock(polls) >= timeout {
        return NoIp(name), polls;
      }
      var reply := replies(polls);
      polls := polls + 1;
      match reply {
        case Found(pod) =>
          if pod.ip.Some? && pod.ip.value != "" {
            return Probe.Success(pod.ip.value), polls;
          }
          if pod.phase == Some("Failed") || pod.phase == Some("Succeeded") {
            return Probe.Failure("pod " + name + " terminated before receiving an IP"), polls;
          }
        case Gone =>
          return Probe.Failure("pod " + name + " disappeared before receiving an IP"), polls;
        case Unreachable =>
      }
    }
  }

  method AwaitTerminal(name: string, timeout: nat, clock: nat -> nat, replies: nat -> Reply)
    returns (r: Probe.Result<Probe.Phase>, polls: nat)
    requires Ticks(clock, TERMINAL_PERIOD)
    ensures Waited(k => PhaseAnswer(name, replies(k)), TIMED_OUT, clock, timeout, r, polls)
    ensures polls * 2_000 < timeout + 2_000
  {
    ghost var settles := k => PhaseAnswer(name, replies(k));
    polls := 0;
    while true
      invariant Waiting(settles, clock, timeout, polls)
      invariant polls * TERMINAL_PERIOD < timeout + TERMINAL_PERIOD
      decreases timeout - TERMINAL_PERIOD * polls
    {
      hide Waiting, Waited;
      Turn(settles, TIMED_OUT, clock, timeout, polls);
      if clock(polls) >= timeout {
        return TIMED_OUT, polls;
      }
      var reply := replies(polls);
      polls := polls + 1;
      match reply {
        case Found(pod) =>
          var phase := if pod.phase.Some? then pod.phase.value else "";
          if phase == "Succeeded" {
            return Probe.Success(Probe.Succeeded), polls;
          }
          if phase == "Failed" {
            return Probe.Success(Probe.Failed), polls;
          }
        case Gone =>
          return Probe.Failure("pod " + name + " disappeared during probe"), polls;
        case Unreachable =>
      }
    }
  }

  /** What the first wait returns, in terms of the replies alone: the address of the last pod seen,
      after nothing but replies without one; or why there is none. */
  lemma IpWaitMeaning(name: string, timeout: nat, clock: nat -> nat, replies: nat -> Reply,
                      r: Probe.Result<string>, polls: nat)
    requires Waited(k => IpAnswer(name, replies(k)), NoIp(name), clock, timeout, r, polls)
    ensures forall k: nat | k + 1 < polls :: StillComing(replies(k))
    ensures forall ip :: r == Probe.Success(ip) <==>
      polls > 0 && replies(polls - 1).Found? && replies(polls - 1).pod.ip == Some(ip) && ip != ""
    ensures r.Failure? && polls > 0 && !StillComing(replies(polls - 1)) ==>
      r.error == "pod " + name +
        if replies(polls - 1).Gone? then " disappeared before receiving an IP" else " terminated before receiving an IP"
    ensures r.Failure? && (polls == 0 || StillComing(replies(polls - 1))) ==>
      clock(polls) >= timeout && r.error == "timeout waiting for pod " + name + " to receive a pod-network IP"
  {
    hide IpAnswer, StillComing;
    var settles := (k: nat) => IpAnswer(name, replies(k));
    forall k: nat | k + 1 < polls
      ensures StillComing(replies(k))
    {
      assert settles(k).None?;
      IpAnswerMeaning(name, replies(k));
    }
    if polls > 0 {
      var last := replies(polls - 1);
      IpAnswerMeaning(name, last);
      assert last.Found? && last.pod.ip.Some? && last.pod.ip.value != "" ==>
        IpAnswer(name, last) == Some(Probe.Success(last.pod.ip.value));
      if settles(polls - 1).Some? {
        assert IpAnswer(name, last) == Some(r);
      }
    }
  }

  /** ... and the second wait: the final phase of the last pod seen; a timeout only at the
      deadline, after nothing but replies without one. */
  lemma PhaseWaitMeaning(name: string, timeout: nat, clock: nat -> nat, replies: nat -> Reply,
                         r: Probe.Result<Probe.Phase>, polls: nat)
    requires Waited(k => PhaseAnswer(name, replies(k)), TIMED_OUT, clock, timeout, r, polls)
    ensures forall k: nat | k + 1 < polls :: StillRunning(replies(k))
    ensures r == Probe.Success(Probe.Succeeded) <==>
      polls > 0 && replies(polls - 1).Found? && replies(polls - 1).pod.phase == Some("Succeeded")
    ensures r == Probe.Success(Probe.Failed) <==>
      polls > 0 && replies(polls - 1).Found? && replies(polls - 1).pod.phase == Some("Failed")
    ensures r == Probe.Success(Probe.TimedOut) <==> polls == 0 || StillRunning(replies(polls - 1))
    ensures r == Probe.Success(Probe.TimedOut) ==> clock(polls) >= timeout
    ensures r.Failure? <==> polls > 0 && replies(polls - 1).Gone?
    ensures r.Failure? ==> r.error == "pod " + name + " disappeared during probe"
  {
    hide PhaseAnswer;
    var settles := (k: nat) => PhaseAnswer(name, replies(k));
    forall k: nat | k + 1 < polls
      ensures StillRunning(replies(k))
    {
      assert settles(k).None?;
      PhaseAnswerMeaning(name, replies(k));
    }
    if polls > 0 {
      var last := replies(polls - 1);
      PhaseAnswerMeaning(name, last);
      assert last.Gone? ==> PhaseAnswer(name, last) == Some(Probe.Failure("pod " + name + " disappeared during probe"));
      if settles(polls - 1).Some? {
        assert PhaseAnswer(name, last) == Some(r);
      }
    }
  }

  /** A wait asks at most one question per period of its timeout, rounded up. */
  lemma WaitIsBounded<T(!new)>(settles: nat -> Option<T>, late: T, clock: nat -> nat, timeout: nat, r: T, polls: nat,
                         period: nat)
    requires Ticks(clock, period) && period > 0 && Waited(settles, late, clock, timeout, r, polls)
    ensures polls * period < timeout + period
  {
    if polls > 0 {
      assert clock(polls - 1) >= (polls - 1) * period;
    }
  }

  /** What a wait returns and how often it asks are determined by the answers and the clock. */
  lemma WaitIsDetermined<T(!new)>(settles: nat -> Option<T>, late: T, clock: nat -> nat, timeout: nat,
                            r1: T, n1: nat, r2: T, n2: nat)
    requires Waited(settles, late, clock, timeout, r1, n1) && Waited(settles, late, clock, timeout, r2, n2)
    ensures r1 == r2 && n1 == n2
  {
  }

  /** Patience never changes an answer: what was settled before the deadline stays settled the
      same way under a later one. */
  lemma LongerWaitSameAnswer<T(!new)>(settles: nat -> Option<T>, late: T, clock: nat -> nat,
                                short: nat, long: nat, r: T, n: nat, r2: T, n2: nat)
    requires short <= long
    requires Waited(settles, late, clock, short, r, n) && Waited(settles, late, clock, long, r2, n2)
    requires n > 0 && settles(n - 1).Some?
    ensures r2 == r && n2 == n
  {
  }

  // Orphans

  /** A listed probe pod: its name and its creation time in Unix seconds, where it has them. */
  datatype Listed = Listed(name: Option<string>, created: Option<int>)

  predicate Stale(pod: Listed, cutoff: string) {
    pod.name.Some? && pod.created.Some? && Less(Rfc3339At(pod.created.value), cutoff)
  }

  function StaleNames(pods: seq<Listed>, cutoff: string): seq<string> {
    if pods == [] then []
    else
      var last := pods[|pods| - 1];
      StaleNames(pods[..|pods| - 1], cutoff) + if Stale(last, cutoff) then [last.name.value] else []
  }

  /** The deletions requested; `now - maxAge` is the unsigned difference read as a signed one. */
  method CleanupOrphans(list: Option<seq<Listed>>, now: nat, maxAge: nat) returns (deleted: seq<string>)
    ensures deleted == if list.Some? then StaleNames(list.value, Rfc3339At(now - maxAge)) else []
  {
    hide Less, Rfc3339At;
    deleted := [];
    if list.None? {
      return;
    }
    var pods, cutoff := list.value, Rfc3339At(now - maxAge);
    for i := 0 to |pods|
      invariant deleted == StaleNames(pods[..i], cutoff)
    {
      var pod := pods[i];
      assert pods[..i + 1][..i] == pods[..i];
      if pod.name.Some? {
        var stale := pod.created.Some? && Less(Rfc3339At(pod.created.value), cutoff);
        if stale {
          deleted := deleted + [pod.name.value];
        }
      }
    }
    assert pods[..|pods|] == pods;
  }

  /** Deletions follow the order of the list, pod by pod. */
  lemma {:induction false} StaleInOrder(a: seq<Listed>, pod: Listed, b: seq<Listed>, cutoff: string)
    ensures StaleNames(a + [pod] + b, cutoff) == StaleNames(a, cutoff)
      + (if Stale(pod, cutoff) then [pod.name.value] else []) + StaleNames(b, cutoff)
  {
    hide Stale;
    var all := a + [pod] + b;
    if b == [] {
      assert all[..|all| - 1] == a;
    } else {
      assert all[..|all| - 1] == a + [pod] + b[..|b| - 1];
      StaleInOrder(a, pod, b[..|b| - 1], cutoff);
    }
  }

  /** Exactly the named pods older than the limit are deleted, although ages are compared as
      printed strings. */
  lemma {:induction false} OrphansAreTheOld(pods: seq<Listed>, now: nat, maxAge: nat, name: string)
    requires InRange(now - maxAge) && forall pod | pod in pods && pod.created.Some? :: InRange(pod.created.value)
    ensures name in StaleNames(pods, Rfc3339At(now - maxAge)) <==>
      exists pod :: pod in pods && pod.name == Some(name) && pod.created.Some? && now - pod.created.value > maxAge
  {
    hide InRange, Less, Rfc3339At;
    if pods != [] {
      var before, last := pods[..|pods| - 1], pods[|pods| - 1];
      OrphansAreTheOld(before, now, maxAge, name);
      assert pods == before + [last];
      if last.created.Some? {
        PrintedOrderIsTimeOrder(last.created.value, now - maxAge);
      }
    }
  }
}
