/** One probe, from pod creation to cleanup.  Every answer of the API server is an input, so the
    contracts hold for every sequence of answers. */
module Probe {
  import opened Text
  import opened MergePatch
  import opened Annotations

  datatype Role = Server | Client
  datatype Kind = Pair | Loopback
  datatype Phase = Succeeded | Failed | TimedOut

  datatype Result<+T> = Success(value: T) | Failure(error: string)

  /** A create call: a pod whose name came back, or an error.  The pod of a call that reported an
      error may exist all the same. */
  datatype Create = Made(name: string) | Refused(error: string, landed: Option<string>)

  /** Everything the API server answers during one probe, in the order it is asked. */
  datatype Answers = Answers(
    buildServer: Result<()>,
    createServer: Create,
    serverIp: Result<string>,
    buildClient: Result<()>,
    createClient: Create,
    phase: Result<Phase>,
    record: Result<ProbeRecord>,
    now: string)

  datatype Effect =
    | Created(role: Role, node: string, serverIp: Option<string>, name: string)
    | Lost(name: string)
    | DeleteRequested(name: string)
    | Attempt(kind: Kind, rack: string, outcome: string)
    | Patched(node: string, body: Json)

  /** What a trace comes to: the pods reported, attempts counted and patches sent, in order; the
      reported pods whose deletion has not been requested since; and the pods that exist
      although their creation reported an error. */
  datatype Ledger = Ledger(
    creations: seq<Effect>,
    attempts: seq<Effect>,
    patches: seq<Effect>,
    undeleted: set<string>,
    orphans: set<string>)

  function Book(l: Ledger, e: Effect): Ledger {
    match e
    case Created(_, _, _, name) => l.(creations := l.creations + [e], undeleted := l.undeleted + {name})
    case Lost(name) => l.(orphans := l.orphans + {name})
    case DeleteRequested(name) => l.(undeleted := l.undeleted - {name})
    case Attempt(_, _, _) => l.(attempts := l.attempts + [e])
    case Patched(_, _) => l.(patches := l.patches + [e])
  }

  function Audit(trace: seq<Effect>): Ledger {
    if trace == [] then Ledger([], [], [], {}, {})
    else Book(Audit(trace[..|trace| - 1]), trace[|trace| - 1])
  }

  predicate Extends(trace: seq<Effect>, was: seq<Effect>, e: Effect) {
    trace == was + [e]
  }

  /** The API server as a probe uses it: a growing trace of effects. */
  class Cluster {
    var trace: seq<Effect>

    constructor ()
      ensures trace == [] && Books() == Ledger([], [], [], {}, {})
    {
      trace := [];
    }

    function Books(): Ledger
      reads this
    {
      Audit(trace)
    }

    method Emit(e: Effect)
      modifies this
      ensures Extends(trace, old(trace), e)
      ensures Books() == Book(old(Books()), e)
    {
      trace := trace + [e];
      assert trace[..|trace| - 1] == old(trace);
    }

    method CreatePod(role: Role, node: string, serverIp: Option<string>, answer: Create)
      modifies this
      ensures Books() == match answer
        case Made(name) => Book(old(Books()), Created(role, node, serverIp, name))
        case Refused(_, Some(name)) => Book(old(Books()), Lost(name))
        case Refused(_, None) => old(Books())
    {
      match answer {
        case Made(name) => Emit(Created(role, node, serverIp, name));
        case Refused(_, landed) =>
          if landed.Some? {
            Emit(Lost(landed.value));
          }
      }
    }

    /** Both nodes get the verdict under one stamp, each naming the other as its partner. */
    method PatchPair(a: string, b: string, now: string, v: Verdict)
      modifies this
      ensures Books() == old(Books()).(patches := old(Books()).patches + PairPatches(a, b, now, v))
    {
      var bodyA := BuildBody(RACK, Some(b), now, v);
      var bodyB := BuildBody(RACK, Some(a), now, v);
      Emit(Patched(a, bodyA));
      Emit(Patched(b, bodyB));
    }

    method PatchLoopback(node: string, now: string, v: Verdict)
      modifies this
      ensures Books() == old(Books()).(patches := old(Books()).patches + LoopbackPatches(node, now, v))
    {
      var body := BuildBody(LOOPBACK, None, now, v);
      Emit(Patched(node, body));
    }

    method Cleanup(server: string, client: string)
      modifies this
      ensures Books() == old(Books()).(undeleted := old(Books()).undeleted - {server, client})
    {
      Emit(DeleteRequested(client));
      Emit(DeleteRequested(server));
      assert Books().undeleted == old(Books()).undeleted - {server, client};
    }

    method ProbePair(rack: string, server: string, client: string, ans: Answers)
      modifies this
      ensures Books() == Ledger(
        old(Books()).creations + PodsMade(server, client, ans),
        old(Books()).attempts + [Attempt(Pair, rack, Label(VerdictOf(ans)))],
        old(Books()).patches + PairPatches(server, client, ans.now, VerdictOf(ans)),
        old(Books()).undeleted - NamesMade(ans),
        old(Books()).orphans + NamesLost(ans))
    {
      hide Audit, PairPatches, Extends;
      if ans.buildServer.Failure? {
        Emit(Attempt(Pair, rack, "fail"));
        PatchPair(server, client, ans.now, Fail("build server pod: " + ans.buildServer.error));
        return;
      }
      CreatePod(Server, server, None, ans.createServer);
      if ans.createServer.Refused? {
        Emit(Attempt(Pair, rack, "fail"));
        PatchPair(server, client, ans.now, Fail("create server pod: " + ans.createServer.error));
        return;
      }
      var serverPod := ans.createServer.name;
      if ans.serverIp.Failure? {
        Emit(DeleteRequested(serverPod));
        Emit(Attempt(Pair, rack, "fail"));
        PatchPair(server, client, ans.now, Fail("server pod IP: " + ans.serverIp.error));
        return;
      }
      if ans.buildClient.Failure? {
        Emit(DeleteRequested(serverPod));
        Emit(Attempt(Pair, rack, "fail"));
        PatchPair(server, client, ans.now, Fail("build client pod: " + ans.buildClient.error));
        return;
      }
      CreatePod(Client, client, Some(ans.serverIp.value), ans.createClient);
      if ans.createClient.Refused? {
        Emit(DeleteRequested(serverPod));
        Emit(Attempt(Pair, rack, "fail"));
        PatchPair(server, client, ans.now, Fail("create client pod: " + ans.createClient.error));
        return;
      }
      var clientPod := ans.createClient.name;
      if ans.phase.Failure? {
        Emit(DeleteRequested(serverPod));
        Emit(DeleteRequested(clientPod));
        Emit(Attempt(Pair, rack, "fail"));
        PatchPair(server, client, ans.now, Fail("watch client pod: " + ans.phase.error));
        return;
      }
      var verdict;
      match ans.phase.value {
        case Succeeded =>
          match ans.record {
            case Success(r) =>
              if r.ok {
                Emit(Attempt(Pair, rack, "ok"));
                PatchPair(server, client, ans.now, Ok(r));
                Cleanup(serverPod, clientPod);
                return;
              }
              verdict := Fail(if r.message.Some? then r.message.value else "probe ok=false");
            case Failure(e) => verdict := Fail("read client pod: " + e);
          }
        case Failed => verdict := Fail("client pod phase Failed");
        case TimedOut => verdict := Timeout;
      }
      Emit(Attempt(Pair, rack, Label(verdict)));
      PatchPair(server, client, ans.now, verdict);
      Cleanup(serverPod, clientPod);
    }

    method ProbeLoopback(rack: string, node: string, ans: Answers)
      modifies this
      ensures Books() == Ledger(
        old(Books()).creations + PodsMade(node, node, ans),
        old(Books()).attempts + [Attempt(Loopback, rack, Label(VerdictOf(ans)))],
        old(Books()).patches + LoopbackPatches(node, ans.now, VerdictOf(ans)),
        old(Books()).undeleted - NamesMade(ans),
        old(Books()).orphans + NamesLost(ans))
    {
      hide Audit, LoopbackPatches, Extends;
      if ans.buildServer.Failure? {
        Emit(Attempt(Loopback, rack, "fail"));
        PatchLoopback(node, ans.now, Fail("build server pod: " + ans.buildServer.error));
        return;
      }
      CreatePod(Server, node, None, ans.createServer);
      if ans.createServer.Refused? {
        Emit(Attempt(Loopback, rack, "fail"));
        PatchLoopback(node, ans.now, Fail("create server pod: " + ans.createServer.error));
        return;
      }
      var serverPod := ans.createServer.name;
      if ans.serverIp.Failure? {
        Emit(DeleteRequested(serverPod));
        Emit(Attempt(Loopback, rack, "fail"));
        PatchLoopback(node, ans.now, Fail("server pod IP: " + ans.serverIp.error));
        return;
      }
      if ans.buildClient.Failure? {
        Emit(DeleteRequested(serverPod));
        Emit(Attempt(Loopback, rack, "fail"));
        PatchLoopback(node, ans.now, Fail("build client pod: " + ans.buildClient.error));
        return;
      }
      CreatePod(Client, node, Some(ans.serverIp.value), ans.createClient);
      if ans.createClient.Refused? {
        Emit(DeleteRequested(serverPod));
        Emit(Attempt(Loopback, rack, "fail"));
        PatchLoopback(node, ans.now, Fail("create client pod: " + ans.createClient.error));
        return;
      }
      var clientPod := ans.createClient.name;
      if ans.phase.Failure? {
        Emit(DeleteRequested(serverPod));
        Emit(DeleteRequested(clientPod));
        Emit(Attempt(Loopback, rack, "fail"));
        PatchLoopback(node, ans.now, Fail("watch client pod: " + ans.phase.error));
        return;
      }
      var verdict;
      match ans.phase.value {
        case Succeeded =>
          match ans.record {
            case Success(r) =>
              if r.ok {
                Emit(Attempt(Loopback, rack, "ok"));
                PatchLoopback(node, ans.now, Ok(r));
                Cleanup(serverPod, clientPod);
                return;
              }
              verdict := Fail(if r.message.Some? then r.message.value else "probe ok=false");
            case Failure(e) => verdict := Fail("read client pod: " + e);
          }
        case Failed => verdict := Fail("client pod phase Failed");
        case TimedOut => verdict := Timeout;
      }
      Emit(Attempt(Loopback, rack, Label(verdict)));
      PatchLoopback(node, ans.now, verdict);
      Cleanup(serverPod, clientPod);
    }
  }

  function PairPatches(a: string, b: string, now: string, v: Verdict): seq<Effect> {
    [Patched(a, Body(Entries(RACK, Some(b), now, v))), Patched(b, Body(Entries(RACK, Some(a), now, v)))]
  }

  function LoopbackPatches(node: string, now: string, v: Verdict): seq<Effect> {
    [Patched(node, Body(Entries(LOOPBACK, None, now, v)))]
  }

  // What a run comes to, by the first step that does not succeed

  predicate ServerMade(ans: Answers) {
    ans.buildServer.Success? && ans.createServer.Made?
  }

  predicate ClientAsked(ans: Answers) {
    ServerMade(ans) && ans.serverIp.Success? && ans.buildClient.Success?
  }

  predicate ClientMade(ans: Answers) {
    ClientAsked(ans) && ans.createClient.Made?
  }

  function VerdictOf(ans: Answers): Verdict {
    if ans.buildServer.Failure? then Fail("build server pod: " + ans.buildServer.error)
    else if ans.createServer.Refused? then Fail("create server pod: " + ans.createServer.error)
    else if ans.serverIp.Failure? then Fail("server pod IP: " + ans.serverIp.error)
    else if ans.buildClient.Failure? then Fail("build client pod: " + ans.buildClient.error)
    else if ans.createClient.Refused? then Fail("create client pod: " + ans.createClient.error)
    else if ans.phase.Failure? then Fail("watch client pod: " + ans.phase.error)
    else if ans.phase.value.Failed? then Fail("client pod phase Failed")
    else if ans.phase.value.TimedOut? then Timeout
    else if ans.record.Failure? then Fail("read client pod: " + ans.record.error)
    else if ans.record.value.ok then Ok(ans.record.value)
    else Fail(if ans.record.value.message.Some? then ans.record.value.message.value else "probe ok=false")
  }

  /** A server pod first; a client pod only once the server's address is known, and given it. */
  function PodsMade(server: string, client: string, ans: Answers): seq<Effect> {
    (if ServerMade(ans) then [Created(Server, server, None, ans.createServer.name)] else [])
    + if ClientMade(ans) then [Created(Client, client, Some(ans.serverIp.value), ans.createClient.name)] else []
  }

  function NamesMade(ans: Answers): set<string> {
    (if ServerMade(ans) then {ans.createServer.name} else {})
    + if ClientMade(ans) then {ans.createClient.name} else {}
  }

  function NamesLost(ans: Answers): set<string> {
    if ans.buildServer.Success? && ans.createServer.Refused? && ans.createServer.landed.Some?
    then {ans.createServer.landed.value}
    else if ClientAsked(ans) && ans.createClient.Refused? && ans.createClient.landed.Some?
    then {ans.createClient.landed.value}
    else {}
  }

  /** `ok` exactly when both pods came up, the client succeeded and its record says ok; `timeout`
      exactly when the client outlived its deadline; anything else is `fail`, with the first step
      that did not succeed as the reason. */
  lemma VerdictMeaning(ans: Answers)
    ensures var v := VerdictOf(ans);
      && (v.Ok? <==> ClientMade(ans) && ans.phase == Success(Succeeded) && ans.record.Success? && ans.record.value.ok)
      && (v.Ok? ==> v.rec == ans.record.value && v.rec.ok)
      && (v.Timeout? <==> ClientMade(ans) && ans.phase == Success(TimedOut))
      && (ans.buildServer.Failure? ==> v == Fail("build server pod: " + ans.buildServer.error))
      && (ans.buildServer.Success? && ans.createServer.Refused? ==>
            v == Fail("create server pod: " + ans.createServer.error))
      && (ServerMade(ans) && ans.serverIp.Failure? ==> v == Fail("server pod IP: " + ans.serverIp.error))
      && (ServerMade(ans) && ans.serverIp.Success? && ans.buildClient.Failure? ==>
            v == Fail("build client pod: " + ans.buildClient.error))
      && (ClientAsked(ans) && ans.createClient.Refused? ==> v == Fail("create client pod: " + ans.createClient.error))
      && (ClientMade(ans) && ans.phase.Failure? ==> v == Fail("watch client pod: " + ans.phase.error))
      && (ClientMade(ans) && ans.phase == Success(Failed) ==> v == Fail("client pod phase Failed"))
      && (ClientMade(ans) && ans.phase == Success(Succeeded) && ans.record.Failure? ==>
            v == Fail("read client pod: " + ans.record.error))
      && (ClientMade(ans) && ans.phase == Success(Succeeded) && ans.record.Success? && !ans.record.value.ok ==>
            v == Fail(if ans.record.value.message.Some? then ans.record.value.message.value else "probe ok=false"))
  {
  }

  /** What the client measured decides: figures come through unchanged, in their places, and an
      error's text is the reason. */
  lemma RecordDecides(ans: Answers, device: string, outcome: Outcome)
    requires ClientMade(ans) && ans.phase == Success(Succeeded) && ans.record == Success(BuildRecord(device, outcome))
    ensures match outcome
      case Error(message) => VerdictOf(ans) == Fail(message)
      case Measured(avg, peak, rate) =>
        VerdictOf(ans) == Ok(ProbeRecord(true, device, Some(avg), Some(peak), Some(rate), None))
  {
  }

  lemma ProbeMakes(server: string, client: string, ans: Answers)
    ensures var made := PodsMade(server, client, ans);
      && |made| <= 2
      && (|made| >= 1 <==> ans.buildServer.Success? && ans.createServer.Made?)
      && (|made| >= 1 ==> made[0] == Created(Server, server, None, ans.createServer.name))
      && (|made| == 2 <==>
            && ans.buildServer.Success? && ans.createServer.Made? && ans.serverIp.Success?
            && ans.buildClient.Success? && ans.createClient.Made?)
      && (|made| == 2 ==> made[1] == Created(Client, client, Some(ans.serverIp.value), ans.createClient.name))
      && (VerdictOf(ans).Ok? ==> |made| == 2)
    ensures forall name :: name in NamesLost(ans) <==>
      || (ans.buildServer.Success? && ans.createServer.Refused? && ans.createServer.landed == Some(name))
      || (&& ans.buildServer.Success? && ans.createServer.Made? && ans.serverIp.Success?
          && ans.buildClient.Success? && ans.createClient.Refused? && ans.createClient.landed == Some(name))
  {
  }

  // Probes that run at the same time

  /** Every reported pod has its deletion requested later on. */
  predicate Cleans(trace: seq<Effect>) {
    trace == [] || ((trace[0].Created? ==> DeleteRequested(trace[0].name) in trace[1..]) && Cleans(trace[1..]))
  }

  lemma {:induction false} AuditAppends(xs: seq<Effect>, ys: seq<Effect>, name: string)
    requires DeleteRequested(name) !in ys && name in Audit(xs).undeleted
    ensures name in Audit(xs + ys).undeleted
  {
    if ys == [] {
      assert xs + ys == xs;
    } else {
      var init := ys[..|ys| - 1];
      assert (xs + ys)[..|xs + ys| - 1] == xs + init;
      AuditAppends(xs, init, name);
    }
  }

  /** A trace that leaves no reported pod undeleted cleans up after itself, suffix by suffix. */
  lemma {:induction false} AuditedTraceCleans(done: seq<Effect>, rest: seq<Effect>)
    requires Audit(done + rest).undeleted == {}
    ensures Cleans(rest)
    decreases |rest|
  {
    if rest != [] {
      var next := done + [rest[0]];
      assert next + rest[1..] == done + rest;
      assert next[..|next| - 1] == done;
      if rest[0].Created? && DeleteRequested(rest[0].name) !in rest[1..] {
        AuditAppends(next, rest[1..], rest[0].name);
      }
      AuditedTraceCleans(next, rest[1..]);
    }
  }

  /** ... and the other way round. */
  lemma {:induction false} CleanTraceAudits(done: seq<Effect>, rest: seq<Effect>, name: string)
    requires Cleans(rest) && name in Audit(done + rest).undeleted
    ensures name in Audit(done).undeleted && DeleteRequested(name) !in rest
    decreases |rest|
  {
    if rest == [] {
      assert done + rest == done;
    } else {
      var next := done + [rest[0]];
      assert next + rest[1..] == done + rest;
      assert next[..|next| - 1] == done;
      CleanTraceAudits(next, rest[1..], name);
    }
  }

  /** `zs` merges `xs` and `ys`, each in its own order. */
  predicate Interleaving(xs: seq<Effect>, ys: seq<Effect>, zs: seq<Effect>)
    decreases |zs|
  {
    if zs == [] then xs == [] && ys == []
    else (xs != [] && xs[0] == zs[0] && Interleaving(xs[1..], ys, zs[1..]))
         || (ys != [] && ys[0] == zs[0] && Interleaving(xs, ys[1..], zs[1..]))
  }

  lemma {:induction false} InterleavingKeeps(xs: seq<Effect>, ys: seq<Effect>, zs: seq<Effect>)
    requires Interleaving(xs, ys, zs)
    ensures forall e :: e in zs <==> e in xs || e in ys
    ensures multiset(zs) == multiset(xs) + multiset(ys)
    decreases |zs|
  {
    if zs != [] {
      assert zs == [zs[0]] + zs[1..];
      if xs != [] && xs[0] == zs[0] && Interleaving(xs[1..], ys, zs[1..]) {
        InterleavingKeeps(xs[1..], ys, zs[1..]);
        assert xs == [xs[0]] + xs[1..];
      } else {
        InterleavingKeeps(xs, ys[1..], zs[1..]);
        assert ys == [ys[0]] + ys[1..];
      }
    }
  }

  lemma {:induction false} InterleavingCleans(xs: seq<Effect>, ys: seq<Effect>, zs: seq<Effect>)
    requires Interleaving(xs, ys, zs) && Cleans(xs) && Cleans(ys)
    ensures Cleans(zs)
    decreases |zs|
  {
    if zs != [] {
      if xs != [] && xs[0] == zs[0] && Interleaving(xs[1..], ys, zs[1..]) {
        InterleavingCleans(xs[1..], ys, zs[1..]);
        InterleavingKeeps(xs[1..], ys, zs[1..]);
      } else {
        InterleavingCleans(xs, ys[1..], zs[1..]);
        InterleavingKeeps(xs, ys[1..], zs[1..]);
      }
    }
  }

  /** `trace` merges all the runs. */
  ghost predicate Shuffle(runs: seq<seq<Effect>>, trace: seq<Effect>) {
    if runs == [] then trace == []
    else exists rest :: Shuffle(runs[1..], rest) && Interleaving(runs[0], rest, trace)
  }

  function AllEffects(runs: seq<seq<Effect>>): multiset<Effect> {
    if runs == [] then multiset{} else multiset(runs[0]) + AllEffects(runs[1..])
  }

  /** However the probes of a pass interleave, every reported pod ends with its deletion
      requested, and no effect of any probe is lost or repeated. */
  lemma {:induction false} ConcurrentProbesCleanUp(runs: seq<seq<Effect>>, trace: seq<Effect>)
    requires Shuffle(runs, trace)
    requires forall run | run in runs :: Audit(run).undeleted == {}
    ensures Cleans(trace) && Audit(trace).undeleted == {}
    ensures multiset(trace) == AllEffects(runs)
  {
    if runs != [] {
      var rest :| Shuffle(runs[1..], rest) && Interleaving(runs[0], rest, trace);
      ConcurrentProbesCleanUp(runs[1..], rest);
      assert [] + runs[0] == runs[0];
      AuditedTraceCleans([], runs[0]);
      InterleavingCleans(runs[0], rest, trace);
      InterleavingKeeps(runs[0], rest, trace);
    }
    forall name | name in Audit(trace).undeleted
      ensures false
    {
      assert [] + trace == trace;
      CleanTraceAudits([], trace, name);
    }
  }

  /** A probe on its own leaves no reported pod undeleted, so any number of them do not.  It makes
      a server pod on the first node and then, once that pod's address is known, a client pod on
      the other node (for a loopback, the same one) that is given exactly this address; only with
      both is a verdict ok.  What it leaves behind are pods whose creation reported an error. */
  method ProbeAlone(pair: bool, rack: string, server: string, client: string, ans: Answers)
    returns (run: seq<Effect>)
    ensures Audit(run).undeleted == {} && Cleans(run)
    ensures Audit(run).attempts
      == [Attempt(if pair then Pair else Loopback, rack, Label(VerdictOf(ans)))]
    ensures Audit(run).patches == if pair
      then PairPatches(server, client, ans.now, VerdictOf(ans))
      else LoopbackPatches(server, ans.now, VerdictOf(ans))
    ensures var made := Audit(run).creations;
      && |made| <= 2
      && (|made| >= 1 <==> ans.buildServer.Success? && ans.createServer.Made?)
      && (|made| >= 1 ==> made[0] == Created(Server, server, None, ans.createServer.name))
      && (|made| == 2 <==>
            && ans.buildServer.Success? && ans.createServer.Made? && ans.serverIp.Success?
            && ans.buildClient.Success? && ans.createClient.Made?)
      && (|made| == 2 ==>
            made[1] == Created(Client, if pair then client else server, Some(ans.serverIp.value), ans.createClient.name))
      && (VerdictOf(ans).Ok? ==> |made| == 2)
    ensures forall name :: name in Audit(run).orphans <==>
      || (ans.buildServer.Success? && ans.createServer.Refused? && ans.createServer.landed == Some(name))
      || (&& ans.buildServer.Success? && ans.createServer.Made? && ans.serverIp.Success?
          && ans.buildClient.Success? && ans.createClient.Refused? && ans.createClient.landed == Some(name))
  {
    ProbeMakes(server, if pair then client else server, ans);
    hide Audit, Cleans, Label, PodsMade, NamesLost, NamesMade, VerdictOf, PairPatches, LoopbackPatches;
    var c := new Cluster();
    if pair {
      c.ProbePair(rack, server, client, ans);
    } else {
      c.ProbeLoopback(rack, server, ans);
    }
    run := c.trace;
    assert [] + run == run;
    AuditedTraceCleans([], run);
  }
}
