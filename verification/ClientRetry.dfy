/** The probe's client side: retry `ib_send_bw` until it answers or the connect deadline passes.
    What each attempt does, how long it takes and by how much each sleep overruns are arbitrary;
    times are nanoseconds since the call. */
module ClientRetry {
  import opened Annotations

  /** How one run of the benchmark ended.  `parsed` is what its output parses to, `message` the
      error text made of its exit status. */
  datatype Attempt =
    | NotSpawned(error: string)
    | Succeeded(parsed: Outcome)
    | Exited(stdout: string, stderr: string, message: string)

  const MS := 1_000_000

  predicate Contains(s: string, p: string) {
    exists i: nat | i <= |s| :: p <= s[i..]
  }

  /** The server side is not listening yet: the one failure worth another try. */
  predicate NotListening(a: Attempt) {
    && a.Exited?
    && var combined := a.stdout + "\n" + a.stderr;
    || Contains(combined, "Couldn't connect to")
    || Contains(combined, "Unable to init the socket connection")
    || Contains(combined, "Unable to open file descriptor for socket connection")
  }

  lemma ContainsMeaning(s: string, p: string)
    ensures Contains(s, p) <==> exists before, after :: s == before + p + after
  {
    if Contains(s, p) {
      var i: nat :| i <= |s| && p <= s[i..];
      assert s == s[..i] + p + s[i + |p|..];
    }
    if before, after :| s == before + p + after {
      assert s[|before|..] == p + after;
    }
  }

  /** Another try is worth it exactly when the benchmark ran, failed, and its output or error text
      holds one of three messages anywhere. */
  lemma NotListeningMeaning(a: Attempt)
    ensures NotListening(a) <==> a.Exited? && exists before, message, after ::
      && message in {"Couldn't connect to", "Unable to init the socket connection",
                     "Unable to open file descriptor for socket connection"}
      && a.stdout + "\n" + a.stderr == before + message + after
  {
    hide Contains;
    if a.Exited? {
      var combined := a.stdout + "\n" + a.stderr;
      ContainsMeaning(combined, "Couldn't connect to");
      ContainsMeaning(combined, "Unable to init the socket connection");
      ContainsMeaning(combined, "Unable to open file descriptor for socket connection");
    }
  }

  function Answer(a: Attempt): Outcome {
    match a
    case NotSpawned(error) => Error("spawn ib_send_bw: " + error)
    case Succeeded(parsed) => parsed
    case Exited(_, _, message) => Error(message)
  }

  function Min(a: nat, b: nat): nat { if a <= b then a else b }

  /** The pause planned after attempt `k`, and all pauses planned before attempt `k`. */
  function Backoff(k: nat): nat {
    if k == 0 then 500 * MS else Min(Backoff(k - 1) * 2, 3_000 * MS)
  }

  function Slept(k: nat): nat {
    if k == 0 then 0 else Slept(k - 1) + Backoff(k - 1)
  }

  /** The pauses in closed form: 0, 500 and 1500 ms, then 3500 ms and 3000 ms more per retry. */
  lemma {:induction false} SleptMeaning(k: nat)
    ensures Slept(k) == if k == 0 then 0 else if k == 1 then 500 * MS else if k == 2 then 1_500 * MS
      else (3_500 + 3_000 * (k - 3)) * MS
    ensures k >= 3 ==> Backoff(k) == 3_000 * MS
  {
    if k >= 4 {
      SleptMeaning(k - 1);
    } else {
      assert Backoff(0) == 500 * MS && Backoff(1) == 1_000 * MS && Backoff(2) == 2_000 * MS;
      assert Slept(1) == 500 * MS && Slept(2) == 1_500 * MS;
    }
  }

  lemma {:induction false} SleptGrows(i: nat, j: nat)
    requires i <= j
    ensures Slept(i) <= Slept(j)
  {
    if i < j {
      SleptGrows(i, j - 1);
    }
  }

  /** Every attempt but the last found nobody listening. */
  ghost predicate Retried(attempts: nat -> Attempt, n: nat) {
    forall k: nat | k < n :: NotListening(attempts(k))
  }

  /** The worst case for the number of attempts: every one fails at once, every sleep is exact. */
  ghost predicate FailsFast(attempts: nat -> Attempt, length: nat -> nat, overrun: nat -> nat) {
    forall k: nat :: NotListening(attempts(k)) && length(k) == 0 && overrun(k) == 0
  }

  /** The result is that of the last attempt, the only one that decided.  The pauses planned
      before it began to add up to the timeout only then, so there are at most as many attempts
      as pauses fit, plus one; in the worst case exactly that many.  With exact sleeps the call
      outlives the timeout by no more than its last attempt. */
  method RunClient(timeout: nat, attempts: nat -> Attempt, length: nat -> nat, overrun: nat -> nat)
    returns (r: Outcome, made: nat, elapsed: nat)
    ensures made > 0 && r == Answer(attempts(made - 1)) && Retried(attempts, made - 1)
    ensures NotListening(attempts(made - 1)) ==> elapsed >= timeout
    ensures match attempts(made - 1)
      case NotSpawned(error) => r == Error("spawn ib_send_bw: " + error)
      case Succeeded(parsed) => r == parsed
      case Exited(_, _, message) => r == Error(message)
    ensures forall k: nat | Slept(k) >= timeout :: made <= k + 1
    ensures FailsFast(attempts, length, overrun) ==> Slept(made - 1) >= timeout
    ensures (forall k :: overrun(k) == 0) ==> elapsed <= timeout + length(made - 1)
  {
    hide NotListening;
    var backoff := 500 * MS;
    made, elapsed := 0, 0;
    while true
      invariant backoff == Backoff(made) > 0 && Retried(attempts, made)
      invariant elapsed >= Min(Slept(made), timeout)
      invariant forall k: nat | k < made :: Slept(k) < timeout
      invariant FailsFast(attempts, length, overrun) ==> elapsed == Min(Slept(made), timeout)
      invariant (forall k :: overrun(k) == 0) ==> elapsed <= timeout
      decreases timeout - elapsed
    {
      var attempt := attempts(made);
      elapsed := elapsed + length(made);
      made := made + 1;
      if !NotListening(attempt) || elapsed >= timeout {
        r := Answer(attempt);
        return;
      }
      elapsed := elapsed + Min(backoff, timeout - elapsed) + overrun(made - 1);
      backoff := Min(backoff * 2, 3_000 * MS);
    }
  }

  /** With the default connect timeout of a minute there are at most 23 attempts. */
  method RunClientByDefault(attempts: nat -> Attempt, length: nat -> nat, overrun: nat -> nat)
    returns (r: Outcome, made: nat)
    ensures 0 < made <= 23 && r == Answer(attempts(made - 1))
    ensures FailsFast(attempts, length, overrun) ==> made == 23
  {
    var elapsed;
    r, made, elapsed := RunClient(60_000 * MS, attempts, length, overrun);
    SleptMeaning(22);
    SleptMeaning(made - 1);
  }
}
