/**
 Choosing a transport for each new flow. Opens run concurrently and share one
 deadline behind a lock that is released between steps.
 */
module Transport {
  import opened Wrappers
  import opened Bytes

  datatype QuicOutcome = Connected | Rejected | Unavailable

  datatype Attempt = Quic(outcome: QuicOutcome) | Grpc(ok: bool)

  datatype Result = ViaQuic | ViaGrpc | Failed

  /** Where an open stands; each phase lasts until its next step under the lock or its next outcome. */
  datatype Phase =
    | Looking                   // about to read the deadline
    | TryingGrpcFirst           // QUIC is suppressed
    | ClearingBeforeQuic        // gRPC failed under suppression
    | TryingQuic
    | ClearingAfterQuic         // QUIC connected
    | Storing(until: int)       // QUIC unavailable; the deadline is computed before the lock is taken
    | TryingGrpcLast
    | Finished(result: Result)

  datatype Flow = Flow(phase: Phase, log: seq<Attempt>)

  datatype State = State(
    quic: bool,
    grpc: bool,
    retry: nat,
    now: int,
    fallbackUntil: Option<int>,
    flows: map<nat, Flow>)

  datatype Step =
    | Tick(time: nat)
    | Open(id: nat)
    | Look(id: nat)
    | GrpcEnds(id: nat, ok: bool)
    | QuicEnds(id: nat, outcome: QuicOutcome)
    | Write(id: nat)            // the deadline is cleared or stored

  function Start(quic: bool, grpc: bool, retry: nat, now: int): State {
    State(quic, grpc, retry, now, None, map[])
  }

  /** With one transport disabled the deadline is never looked at. */
  function FirstPhase(s: State): Phase {
    if s.quic && s.grpc then Looking
    else if s.quic then TryingQuic
    else if s.grpc then TryingGrpcLast
    else Finished(Failed)
  }

  predicate Suppressed(s: State) {
    s.fallbackUntil.Some? && s.now < s.fallbackUntil.value
  }

  predicate Enabled(s: State, e: Step) {
    match e
    case Tick(_) => true
    case Open(id) => id !in s.flows
    case Look(id) => id in s.flows && s.flows[id].phase == Looking
    case GrpcEnds(id, _) =>
      id in s.flows && (s.flows[id].phase == TryingGrpcFirst || s.flows[id].phase == TryingGrpcLast)
    case QuicEnds(id, _) => id in s.flows && s.flows[id].phase == TryingQuic
    case Write(id) =>
      && id in s.flows
      && var phase := s.flows[id].phase; phase == ClearingBeforeQuic || phase == ClearingAfterQuic || phase.Storing?
  }

  function AfterGrpc(phase: Phase, ok: bool): Phase {
    if ok then Finished(ViaGrpc) else if phase == TryingGrpcFirst then ClearingBeforeQuic else Finished(Failed)
  }

  function AfterQuic(s: State, outcome: QuicOutcome): Phase {
    match outcome
    case Connected => if s.grpc then ClearingAfterQuic else Finished(ViaQuic)
    case Rejected => Finished(Failed)
    case Unavailable => if s.grpc then Storing(s.now + s.retry) else Finished(Failed)
  }

  function AfterWrite(phase: Phase): Phase {
    match phase
    case ClearingBeforeQuic => TryingQuic
    case ClearingAfterQuic => Finished(ViaQuic)
    case _ => TryingGrpcLast
  }

  function Apply(s: State, e: Step): State
    requires Enabled(s, e)
  {
    match e
    case Tick(time) => s.(now := s.now + time)
    case Open(id) => s.(flows := s.flows[id := Flow(FirstPhase(s), [])])
    case Look(id) =>
      s.(flows := s.flows[id := s.flows[id].(phase := if Suppressed(s) then TryingGrpcFirst else TryingQuic)])
    case GrpcEnds(id, ok) =>
      var f := s.flows[id];
      s.(flows := s.flows[id := Flow(AfterGrpc(f.phase, ok), f.log + [Grpc(ok)])])
    case QuicEnds(id, outcome) =>
      var f := s.flows[id];
      s.(flows := s.flows[id := Flow(AfterQuic(s, outcome), f.log + [Quic(outcome)])])
    case Write(id) =>
      var f := s.flows[id];
      s.(flows := s.flows[id := f.(phase := AfterWrite(f.phase))],
         fallbackUntil := if f.phase.Storing? then Some(f.phase.until) else None)
  }

  predicate Possible(s: State, run: seq<Step>)
    decreases |run|
  {
    |run| == 0 || (Enabled(s, run[0]) && Possible(Apply(s, run[0]), run[1..]))
  }

  function After(s: State, run: seq<Step>): State
    requires Possible(s, run)
    decreases |run|
  {
    if |run| == 0 then s else After(Apply(s, run[0]), run[1..])
  }

  // ----- Every run -----

  /** Nothing yet, or a gRPC attempt that failed under suppression. */
  predicate BeforeQuic(log: seq<Attempt>) {
    log == [] || log == [Grpc(false)]
  }

  /** A log of an open that has tried QUIC once, with this outcome last. */
  predicate UpToQuic(log: seq<Attempt>, outcome: QuicOutcome) {
    |log| > 0 && log[|log| - 1] == Quic(outcome) && BeforeQuic(log[..|log| - 1])
  }

  /** The complete histories an open may end with when both transports are enabled. */
  predicate Complete(log: seq<Attempt>, result: Result) {
    match result
    case ViaQuic => UpToQuic(log, Connected)
    case ViaGrpc =>
      log == [Grpc(true)] || (|log| > 0 && log[|log| - 1] == Grpc(true) && UpToQuic(log[..|log| - 1], Unavailable))
    case Failed =>
      || UpToQuic(log, Rejected)
      || (|log| > 0 && log[|log| - 1] == Grpc(false) && UpToQuic(log[..|log| - 1], Unavailable))
  }

  predicate FlowInv(s: State, f: Flow) {
    match f.phase
    case Looking => s.quic && s.grpc && f.log == []
    case TryingGrpcFirst => s.quic && s.grpc && f.log == []
    case ClearingBeforeQuic => s.quic && s.grpc && f.log == [Grpc(false)]
    case TryingQuic => s.quic && if s.grpc then BeforeQuic(f.log) else f.log == []
    case ClearingAfterQuic => s.quic && s.grpc && UpToQuic(f.log, Connected)
    case Storing(until) => s.quic && s.grpc && UpToQuic(f.log, Unavailable) && until <= s.now + s.retry
    case TryingGrpcLast => s.grpc && if s.quic then UpToQuic(f.log, Unavailable) else f.log == []
    case Finished(result) =>
      if s.quic && s.grpc then Complete(f.log, result)
      else if s.quic then exists o :: f.log == [Quic(o)] && result == (if o == Connected then ViaQuic else Failed)
      else if s.grpc then exists ok :: f.log == [Grpc(ok)] && result == (if ok then ViaGrpc else Failed)
      else f.log == [] && result == Failed
  }

  predicate Inv(s: State) {
    && (s.fallbackUntil.Some? ==> s.fallbackUntil.value <= s.now + s.retry)
    && forall id :: id in s.flows ==> FlowInv(s, s.flows[id])
  }

  lemma Append(log: seq<Attempt>, a: Attempt)
    ensures (log + [a])[..|log + [a]| - 1] == log
  {
  }

  lemma GrpcEndsInv(s: State, f: Flow, ok: bool)
    requires FlowInv(s, f) && (f.phase == TryingGrpcFirst || f.phase == TryingGrpcLast)
    ensures FlowInv(s, Flow(AfterGrpc(f.phase, ok), f.log + [Grpc(ok)]))
  {
    Append(f.log, Grpc(ok));
  }

  lemma QuicEndsInv(s: State, f: Flow, outcome: QuicOutcome)
    requires FlowInv(s, f) && f.phase == TryingQuic
    ensures FlowInv(s, Flow(AfterQuic(s, outcome), f.log + [Quic(outcome)]))
  {
    Append(f.log, Quic(outcome));
    assert f.log == [] ==> f.log + [Quic(outcome)] == [Quic(outcome)];
  }

  lemma OtherFlowsKept(s: State, t: State, f: Flow)
    requires FlowInv(s, f) && s.now <= t.now && s.retry == t.retry && s.quic == t.quic && s.grpc == t.grpc
    ensures FlowInv(t, f)
  {
  }

  lemma StepInv(s: State, e: Step)
    requires Inv(s) && Enabled(s, e)
    ensures Inv(Apply(s, e))
  {
    var t := Apply(s, e);
    forall id | id in t.flows
      ensures FlowInv(t, t.flows[id])
    {
      if id in s.flows {
        OtherFlowsKept(s, t, s.flows[id]);
        if e.GrpcEnds? && e.id == id { GrpcEndsInv(t, s.flows[id], e.ok); }
        if e.QuicEnds? && e.id == id { QuicEndsInv(t, s.flows[id], e.outcome); }
      }
    }
  }

  lemma {:induction false} RunInv(s: State, run: seq<Step>)
    requires Inv(s) && Possible(s, run)
    ensures Inv(After(s, run))
    ensures After(s, run).retry == s.retry && After(s, run).quic == s.quic && After(s, run).grpc == s.grpc
    decreases |run|
  {
    if |run| > 0 {
      StepInv(s, run[0]);
      RunInv(Apply(s, run[0]), run[1..]);
    }
  }

  lemma UpToQuicAre(log: seq<Attempt>, outcome: QuicOutcome)
    ensures UpToQuic(log, outcome) <==> log == [Quic(outcome)] || log == [Grpc(false), Quic(outcome)]
  {
    if UpToQuic(log, outcome) {
      assert log == log[..|log| - 1] + [log[|log| - 1]];
    }
    Append([], Quic(outcome));
    Append([Grpc(false)], Quic(outcome));
    Units([Quic(outcome)]);
    assert [Grpc(false)] + [Quic(outcome)] == [Grpc(false), Quic(outcome)];
  }

  /**
   The complete histories, listed: at most one QUIC and two gRPC attempts, nothing
   after a rejection, and failure only after one or after both transports failed.
   */
  lemma CompleteHistories(log: seq<Attempt>, result: Result)
    ensures Complete(log, result) <==>
      match result
      case ViaQuic => log == [Quic(Connected)] || log == [Grpc(false), Quic(Connected)]
      case ViaGrpc =>
        || log == [Grpc(true)]
        || log == [Quic(Unavailable), Grpc(true)]
        || log == [Grpc(false), Quic(Unavailable), Grpc(true)]
      case Failed =>
        || log == [Quic(Rejected)]
        || log == [Grpc(false), Quic(Rejected)]
        || log == [Quic(Unavailable), Grpc(false)]
        || log == [Grpc(false), Quic(Unavailable), Grpc(false)]
  {
    UpToQuicAre(log, Connected);
    UpToQuicAre(log, Rejected);
    GrpcLast(log, true);
    GrpcLast(log, false);
  }

  lemma GrpcLast(log: seq<Attempt>, ok: bool)
    ensures |log| > 0 && log[|log| - 1] == Grpc(ok) && UpToQuic(log[..|log| - 1], Unavailable) <==>
      log == [Quic(Unavailable), Grpc(ok)] || log == [Grpc(false), Quic(Unavailable), Grpc(ok)]
  {
    if |log| > 0 {
      UpToQuicAre(log[..|log| - 1], Unavailable);
      assert log == log[..|log| - 1] + [log[|log| - 1]];
    }
    assert [Quic(Unavailable), Grpc(ok)][..1] == [Quic(Unavailable)];
    assert [Grpc(false), Quic(Unavailable), Grpc(ok)][..2] == [Grpc(false), Quic(Unavailable)];
  }

  /**
   However many opens interleave: the stored deadline is never further away
   than one retry interval, and every finished open has one of the complete
   histories.
   */
  lemma EveryRun(retry: nat, now: int, run: seq<Step>)
    requires Possible(Start(true, true, retry, now), run)
    ensures var s := After(Start(true, true, retry, now), run);
      && (s.fallbackUntil.Some? ==> s.fallbackUntil.value <= s.now + retry)
      && forall id :: id in s.flows && s.flows[id].phase.Finished? ==>
           Complete(s.flows[id].log, s.flows[id].phase.result)
  {
    RunInv(Start(true, true, retry, now), run);
    var s := After(Start(true, true, retry, now), run);
    forall id | id in s.flows && s.flows[id].phase.Finished?
      ensures Complete(s.flows[id].log, s.flows[id].phase.result)
    {
      assert FlowInv(s, s.flows[id]);
    }
  }

  /** The stored deadline counts from the moment QUIC was found unavailable, however long the lock is waited for. */
  lemma DeadlineCountsFromOutage(s: State, id: nat, waits: nat)
    requires s.grpc && id in s.flows && s.flows[id].phase == TryingQuic
    ensures var run := [QuicEnds(id, Unavailable), Tick(waits), Write(id)];
      Possible(s, run) && After(s, run).fallbackUntil == Some(s.now + s.retry) && After(s, run).now == s.now + waits
  {
    var a := Apply(s, QuicEnds(id, Unavailable));
    var b := Apply(a, Tick(waits));
    var c := Apply(b, Write(id));
    OneMore(b, Write(id), []);
    OneMore(a, Tick(waits), [Write(id)]);
    OneMore(s, QuicEnds(id, Unavailable), [Tick(waits), Write(id)]);
  }

  lemma OneMore(s: State, e: Step, rest: seq<Step>)
    requires Enabled(s, e) && Possible(Apply(s, e), rest)
    ensures Possible(s, [e] + rest) && After(s, [e] + rest) == After(Apply(s, e), rest)
  {
    HeadAndTail(rest, e);
  }

  /** A QUIC connection lifts the suppression for everyone. */
  lemma ConnectionLiftsSuppression(s: State, id: nat)
    requires s.grpc && id in s.flows && s.flows[id].phase == TryingQuic
    ensures var t := Apply(s, QuicEnds(id, Connected));
      Enabled(t, Write(id)) &&
      var u := Apply(t, Write(id)); !Suppressed(u) && u.flows[id].phase == Finished(ViaQuic)
  {
  }

  /** With a single transport enabled there is one attempt, on that one, and no deadline. */
  lemma SingleTransport(quic: bool, retry: nat, now: int, run: seq<Step>)
    requires Possible(Start(quic, !quic, retry, now), run)
    ensures var s := After(Start(quic, !quic, retry, now), run);
      forall id :: id in s.flows && s.flows[id].phase.Finished? ==>
        var f := s.flows[id];
        if quic then exists o :: f.log == [Quic(o)] && f.phase.result == (if o == Connected then ViaQuic else Failed)
        else exists ok :: f.log == [Grpc(ok)] && f.phase.result == (if ok then ViaGrpc else Failed)
  {
    RunInv(Start(quic, !quic, retry, now), run);
    var s := After(Start(quic, !quic, retry, now), run);
    assert forall id :: id in s.flows ==> FlowInv(s, s.flows[id]);
  }

  /** Opens that overlap may all probe QUIC: one that looked early is not held back by a deadline stored since. */
  lemma OverlappingOpensMayBothProbe(retry: nat, now: int)
    requires retry > 0
    ensures exists s ::
      && Reaches(Start(true, true, retry, now), s)
      && 1 in s.flows && s.flows[1].phase == TryingQuic && Suppressed(s)
  {
    var s0 := Start(true, true, retry, now);
    var s1 := Apply(s0, Open(0));
    var s2 := Apply(s1, Open(1));
    var s3 := Apply(s2, Look(0));
    var s4 := Apply(s3, Look(1));
    var s5 := Apply(s4, QuicEnds(0, Unavailable));
    var s6 := Apply(s5, Write(0));
    ReachesSelf(s6);
    ReachesVia(s5, Write(0), s6);
    ReachesVia(s4, QuicEnds(0, Unavailable), s6);
    ReachesVia(s3, Look(1), s6);
    ReachesVia(s2, Look(0), s6);
    ReachesVia(s1, Open(1), s6);
    ReachesVia(s0, Open(0), s6);
  }

  // ----- One open after another -----

  /** How long everything takes, and how it ends, in one open. */
  datatype Plan = Plan(
    wait: nat,
    grpcFirstTakes: nat, grpcFirstOk: bool,
    quicTakes: nat, quic: QuicOutcome,
    grpcLastTakes: nat, grpcLastOk: bool)

  /** One QUIC attempt; `forced` when gRPC had just failed under suppression. */
  datatype Probe = Probe(start: int, end: int, outcome: QuicOutcome, forced: bool)

  /** What one open leaves behind; `failures` are the instants at which gRPC attempts under suppression failed. */
  datatype Serial = Serial(
    now: int, until: Option<int>,
    probes: seq<Probe>, failures: seq<int>,
    log: seq<Attempt>, result: Result)

  function SerialOpen(now: int, until: Option<int>, retry: nat, p: Plan): Serial {
    var t0 := now + p.wait;
    var suppressed := until.Some? && t0 < until.value;
    if suppressed && p.grpcFirstOk then
      Serial(t0 + p.grpcFirstTakes, until, [], [], [Grpc(true)], ViaGrpc)
    else
      var t1 := if suppressed then t0 + p.grpcFirstTakes else t0;
      var until1 := if suppressed then None else until;
      var before := if suppressed then [Grpc(false)] else [];
      var failures := if suppressed then [t1] else [];
      var t2 := t1 + p.quicTakes;
      var probes := [Probe(t1, t2, p.quic, suppressed)];
      match p.quic
      case Connected => Serial(t2, None, probes, failures, before + [Quic(Connected)], ViaQuic)
      case Rejected => Serial(t2, until1, probes, failures, before + [Quic(Rejected)], Failed)
      case Unavailable =>
        Serial(t2 + p.grpcLastTakes, Some(t2 + retry), probes, failures,
          before + [Quic(Unavailable)] + [Grpc(p.grpcLastOk)], if p.grpcLastOk then ViaGrpc else Failed)
  }

  /** One open, told from outside: what is tried, when, and what it leaves of the deadline. */
  lemma WhatOneOpenDoes(now: int, until: Option<int>, retry: nat, p: Plan)
    ensures var r := SerialOpen(now, until, retry, p);
      var held := until.Some? && now + p.wait < until.value;
      // gRPC first exactly before the deadline, and alone if that works
      && |r.log| > 0 && r.log[0] == (if held then Grpc(p.grpcFirstOk) else Quic(p.quic))
      && (held && p.grpcFirstOk ==> r.log == [Grpc(true)] && r.probes == [] && r.until == until && r.result == ViaGrpc)
      && (!(held && p.grpcFirstOk) ==>
            && r.probes == [Probe(r.probes[0].start, r.probes[0].start + p.quicTakes, p.quic, held)]
            && r.probes[0].start == now + p.wait + (if held then p.grpcFirstTakes else 0)
            // a connection clears the deadline, a rejection does not set one, an outage does
            && (p.quic == Connected ==> r.until == None && r.result == ViaQuic)
            && (p.quic == Rejected ==> r.until == (if held then None else until) && r.result == Failed)
            && (p.quic == Unavailable ==>
                  && r.until == Some(r.probes[0].end + retry)
                  && r.log[|r.log| - 1] == Grpc(p.grpcLastOk)
                  && r.result == (if p.grpcLastOk then ViaGrpc else Failed)
                  && r.now == r.probes[0].end + p.grpcLastTakes)
            && (p.quic != Unavailable ==> r.now == r.probes[0].end))
  {
  }

  /** All QUIC attempts of a run of opens. */
  function Probes(now: int, until: Option<int>, retry: nat, plans: seq<Plan>): seq<Probe>
    decreases |plans|
  {
    if |plans| == 0 then []
    else
      var r := SerialOpen(now, until, retry, plans[0]);
      r.probes + Probes(r.now, r.until, retry, plans[1..])
  }

  /** The instants at which gRPC attempts under suppression failed, in a run of opens. */
  function Failures(now: int, until: Option<int>, retry: nat, plans: seq<Plan>): seq<int>
    decreases |plans|
  {
    if |plans| == 0 then []
    else
      var r := SerialOpen(now, until, retry, plans[0]);
      r.failures + Failures(r.now, r.until, retry, plans[1..])
  }

  predicate AllWithin(now: int, probes: seq<Probe>) {
    forall i :: 0 <= i < |probes| ==> now <= probes[i].start <= probes[i].end
  }

  predicate OneByOne(probes: seq<Probe>) {
    forall i, j :: 0 <= i < j < |probes| ==> probes[i].end <= probes[j].start
  }

  predicate InSequence(now: int, probes: seq<Probe>) {
    AllWithin(now, probes) && OneByOne(probes)
  }

  lemma OneOpenProbesOnce(now: int, until: Option<int>, retry: nat, p: Plan)
    ensures var r := SerialOpen(now, until, retry, p); |r.probes| <= 1 && now <= r.now
    ensures var r := SerialOpen(now, until, retry, p); |r.probes| == 0 ==> r.until == until
    ensures var r := SerialOpen(now, until, retry, p); |r.probes| == 1 ==>
      var q := r.probes[0];
      now <= q.start <= q.end <= r.now && (q.outcome == Unavailable ==> r.until == Some(q.end + retry))
  {
  }

  lemma HeadThenRest(one: seq<Probe>, rest: seq<Probe>)
    requires |one| <= 1
    ensures |one| == 0 ==> one + rest == rest
    ensures |one| == 1 ==>
      var all := one + rest;
      all[0] == one[0] && forall k :: 1 <= k < |all| ==> all[k] == rest[k - 1]
  {
  }

  lemma ProbesAfterOne(now: int, until: Option<int>, retry: nat, plans: seq<Plan>)
    requires |plans| > 0
    ensures var ps, r := Probes(now, until, retry, plans), SerialOpen(now, until, retry, plans[0]);
      var rest := Probes(r.now, r.until, retry, plans[1..]);
      if |r.probes| == 0 then ps == rest
      else |ps| == |rest| + 1 && ps[0] == r.probes[0] && forall k :: 1 <= k < |ps| ==> ps[k] == rest[k - 1]
  {
    hide SerialOpen;
    var r := SerialOpen(now, until, retry, plans[0]);
    OneOpenProbesOnce(now, until, retry, plans[0]);
    HeadThenRest(r.probes, Probes(r.now, r.until, retry, plans[1..]));
  }

  lemma AllWithinAfterOne(now: int, one: seq<Probe>, mid: int, rest: seq<Probe>)
    requires |one| <= 1 && now <= mid && AllWithin(mid, rest)
    requires |one| == 1 ==> now <= one[0].start <= one[0].end
    ensures AllWithin(now, one + rest)
  {
    var ps := one + rest;
    forall i | 0 <= i < |ps|
      ensures now <= ps[i].start <= ps[i].end
    {
      assert i >= |one| ==> ps[i] == rest[i - |one|];
    }
  }

  lemma OneByOneAfterOne(one: seq<Probe>, mid: int, rest: seq<Probe>)
    requires |one| <= 1 && AllWithin(mid, rest) && OneByOne(rest)
    requires |one| == 1 ==> one[0].end <= mid
    ensures OneByOne(one + rest)
  {
    var ps := one + rest;
    forall i, j | 0 <= i < j < |ps|
      ensures ps[i].end <= ps[j].start
    {
      assert ps[j] == rest[j - |one|];
      assert i >= |one| ==> ps[i] == rest[i - |one|];
    }
  }

  lemma InSequenceAfterOne(now: int, one: seq<Probe>, mid: int, rest: seq<Probe>)
    requires |one| <= 1 && now <= mid && InSequence(mid, rest)
    requires |one| == 1 ==> now <= one[0].start <= one[0].end <= mid
    ensures InSequence(now, one + rest)
  {
    hide AllWithin, OneByOne;
    AllWithinAfterOne(now, one, mid, rest);
    OneByOneAfterOne(one, mid, rest);
  }

  lemma {:induction false} ProbesInSequence(now: int, until: Option<int>, retry: nat, plans: seq<Plan>)
    ensures InSequence(now, Probes(now, until, retry, plans))
    decreases |plans|
  {
    if |plans| > 0 {
      hide SerialOpen, InSequence;
      var r := SerialOpen(now, until, retry, plans[0]);
      OneOpenProbesOnce(now, until, retry, plans[0]);
      ProbesInSequence(r.now, r.until, retry, plans[1..]);
      InSequenceAfterOne(now, r.probes, r.now, Probes(r.now, r.until, retry, plans[1..]));
    }
  }

  lemma {:induction false} NextProbeWaits(now: int, until: int, retry: nat, plans: seq<Plan>)
    ensures var ps := Probes(now, Some(until), retry, plans); |ps| > 0 && !ps[0].forced ==> until <= ps[0].start
    decreases |plans|
  {
    if |plans| > 0 {
      var r := SerialOpen(now, Some(until), retry, plans[0]);
      if |r.probes| == 0 {
        NextProbeWaits(r.now, until, retry, plans[1..]);
      }
    }
  }

  lemma LaterProbesLater(ps: seq<Probe>, now: int, j: nat)
    requires InSequence(now, ps) && 1 <= j < |ps|
    ensures ps[1].start <= ps[j].start
  {
    if j > 1 {
      assert ps[1].end <= ps[j].start;
    }
  }

  lemma FirstProbeSpacing(now: int, until: Option<int>, retry: nat, plans: seq<Plan>, j: nat)
    requires |plans| > 0 && |SerialOpen(now, until, retry, plans[0]).probes| == 1
    requires var ps := Probes(now, until, retry, plans); 0 < j < |ps| && ps[0].outcome == Unavailable && !ps[1].forced
    ensures var ps := Probes(now, until, retry, plans); ps[0].end + retry <= ps[j].start
  {
    hide SerialOpen, Probes, InSequence;
    var r := SerialOpen(now, until, retry, plans[0]);
    OneOpenProbesOnce(now, until, retry, plans[0]);
    ProbesAfterOne(now, until, retry, plans);
    NextProbeWaits(r.now, r.until.value, retry, plans[1..]);
    ProbesInSequence(now, until, retry, plans);
    LaterProbesLater(Probes(now, until, retry, plans), now, j);
  }

  /**
   Probe spacing: after an attempt that found QUIC unavailable, the next one
   waits out the retry interval unless a gRPC failure forces it; so does every
   later one.
   */
  lemma {:induction false} ProbeSpacing(now: int, until: Option<int>, retry: nat, plans: seq<Plan>, i: nat, j: nat)
    requires var ps := Probes(now, until, retry, plans);
      i < j < |ps| && ps[i].outcome == Unavailable && !ps[i + 1].forced
    ensures var ps := Probes(now, until, retry, plans); ps[i].end + retry <= ps[j].start
    decreases |plans|
  {
    var ps := Probes(now, until, retry, plans);
    assert |plans| > 0;
    var r := SerialOpen(now, until, retry, plans[0]);
    hide SerialOpen, Probes;
    OneOpenProbesOnce(now, until, retry, plans[0]);
    ProbesAfterOne(now, until, retry, plans);
    if |r.probes| == 0 {
      ProbeSpacing(r.now, r.until, retry, plans[1..], i, j);
    } else if i > 0 {
      ProbeSpacing(r.now, r.until, retry, plans[1..], i - 1, j - 1);
    } else {
      FirstProbeSpacing(now, until, retry, plans, j);
    }
  }

  lemma {:induction false} FailuresNotBefore(now: int, until: Option<int>, retry: nat, plans: seq<Plan>)
    ensures forall f :: f in Failures(now, until, retry, plans) ==> now <= f
    decreases |plans|
  {
    if |plans| > 0 {
      var r := SerialOpen(now, until, retry, plans[0]);
      FailuresNotBefore(r.now, r.until, retry, plans[1..]);
    }
  }

  /** Whether one of these instants comes before `t`. */
  predicate AnyBefore(instants: seq<int>, t: int) {
    exists i :: 0 <= i < |instants| && instants[i] < t
  }

  lemma AnyBeforeInParts(a: seq<int>, b: seq<int>, t: int)
    ensures AnyBefore(a + b, t) <==> AnyBefore(a, t) || AnyBefore(b, t)
  {
    if AnyBefore(a, t) {
      var i :| 0 <= i < |a| && a[i] < t;
      assert (a + b)[i] < t;
    }
    if AnyBefore(b, t) {
      var i :| 0 <= i < |b| && b[i] < t;
      assert (a + b)[|a| + i] < t;
    }
  }

  lemma NoneBefore(now: int, instants: seq<int>, t: int)
    requires (forall f :: f in instants ==> now <= f) && t <= now
    ensures !AnyBefore(instants, t)
  {
    assert forall i :: 0 <= i < |instants| ==> instants[i] in instants;
  }

  predicate FirstStartsBefore(probes: seq<Probe>, t: int) {
    |probes| > 0 && probes[0].start < t
  }

  /** One open under a deadline: it probes early exactly when its gRPC attempt fails early. */
  lemma OneOpenEarlyIff(now: int, until: int, retry: nat, p: Plan)
    ensures var r := SerialOpen(now, Some(until), retry, p);
      && (FirstStartsBefore(r.probes, until) <==> AnyBefore(r.failures, until))
      && (|r.probes| == 0 ==> r.failures == [] && r.until == Some(until))
      && (|r.probes| > 0 && !FirstStartsBefore(r.probes, until) ==> until <= r.now)
  {
    var r := SerialOpen(now, Some(until), retry, p);
    if |r.failures| > 0 {
      assert r.failures[0] == r.probes[0].start;
    }
    assert |r.failures| <= 1;
    if FirstStartsBefore(r.probes, until) {
      assert r.failures[0] < until;
    }
  }

  /** Until a deadline is reached, probes come early exactly when a gRPC attempt fails early. */
  lemma {:induction false} EarlyUnderDeadlineIff(now: int, until: int, retry: nat, plans: seq<Plan>)
    ensures FirstStartsBefore(Probes(now, Some(until), retry, plans), until)
       <==> AnyBefore(Failures(now, Some(until), retry, plans), until)
    decreases |plans|
  {
    if |plans| > 0 {
      var r := SerialOpen(now, Some(until), retry, plans[0]);
      OneOpenEarlyIff(now, until, retry, plans[0]);
      hide SerialOpen;
      var probes, failures := Probes(r.now, r.until, retry, plans[1..]), Failures(r.now, r.until, retry, plans[1..]);
      AnyBeforeInParts(r.failures, failures, until);
      Units(probes);
      if |r.probes| == 0 {
        EarlyUnderDeadlineIff(r.now, until, retry, plans[1..]);
      } else {
        TailOfConcat(r.probes, probes);
        FailuresNotBefore(r.now, r.until, retry, plans[1..]);
        if until <= r.now {
          NoneBefore(r.now, failures, until);
        }
      }
    }
  }

  /**
   Early probes, exactly: whatever opens follow one that found QUIC unavailable
   at `e`, the next probe starts before `e + retry` if and only if, before that, a
   gRPC attempt made under suppression fails.
   */
  lemma EarlyProbeIff(now: int, until: Option<int>, retry: nat, p: Plan, plans: seq<Plan>)
    requires var r := SerialOpen(now, until, retry, p); |r.probes| == 1 && r.probes[0].outcome == Unavailable
    ensures var r := SerialOpen(now, until, retry, p);
      var due := r.probes[0].end + retry;
      var probes, failures := Probes(r.now, r.until, retry, plans), Failures(r.now, r.until, retry, plans);
      FirstStartsBefore(probes, due) <==> AnyBefore(failures, due)
  {
    var r := SerialOpen(now, until, retry, p);
    OneOpenProbesOnce(now, until, retry, p);
    EarlyUnderDeadlineIff(r.now, r.until.value, retry, plans);
  }

  /** A gRPC failure under suppression brings the next probe forward. */
  lemma ForcedProbeComesEarly(retry: nat)
    requires retry > 0
    ensures var p := Plan(0, 0, false, 0, Unavailable, 0, true);
      var ps := Probes(0, None, retry, [p, p]);
      |ps| == 2 && ps[0].outcome == Unavailable && ps[1].forced && ps[1].start < ps[0].end + retry
  {
    var p := Plan(0, 0, false, 0, Unavailable, 0, true);
    assert [p, p][1..] == [p] && [p][1..] == [];
    var r := SerialOpen(0, None, retry, p);
    assert Probes(r.now, r.until, retry, [p]) == SerialOpen(r.now, r.until, retry, p).probes + [];
  }

  /** With QUIC dead and gRPC healthy, probes come at most once per retry interval. */
  lemma {:induction false} ProbeRate(now: int, until: Option<int>, retry: nat, plans: seq<Plan>, k: nat)
    requires forall p :: p in plans ==> p.quic == Unavailable && p.grpcFirstOk
    requires k < |Probes(now, until, retry, plans)|
    ensures var ps := Probes(now, until, retry, plans); k * retry <= ps[k].start - ps[0].start
    decreases k
  {
    if k > 0 {
      ProbeRate(now, until, retry, plans, k - 1);
      SpacedPair(now, until, retry, plans, k - 1);
      Distribute(k - 1, retry);
    }
  }

  lemma Distribute(k: nat, retry: nat)
    ensures (k + 1) * retry == k * retry + retry
  {
  }

  lemma SpacedPair(now: int, until: Option<int>, retry: nat, plans: seq<Plan>, k: nat)
    requires forall p :: p in plans ==> p.quic == Unavailable && p.grpcFirstOk
    requires k + 1 < |Probes(now, until, retry, plans)|
    ensures var ps := Probes(now, until, retry, plans); ps[k].start + retry <= ps[k + 1].start
  {
    hide Probes;
    NoneForced(now, until, retry, plans);
    ProbeSpacing(now, until, retry, plans, k, k + 1);
    ProbesInSequence(now, until, retry, plans);
  }

  lemma {:induction false} NoneForced(now: int, until: Option<int>, retry: nat, plans: seq<Plan>)
    requires forall p :: p in plans ==> p.quic == Unavailable && p.grpcFirstOk
    ensures forall q :: q in Probes(now, until, retry, plans) ==> q.outcome == Unavailable && !q.forced
    decreases |plans|
  {
    if |plans| > 0 {
      var r := SerialOpen(now, until, retry, plans[0]);
      NoneForced(r.now, r.until, retry, plans[1..]);
    }
  }

  // ----- A serial open is one of the interleavings -----

  ghost predicate Reaches(s: State, t: State) {
    exists run :: Possible(s, run) && After(s, run) == t
  }

  lemma ReachesSelf(s: State)
    ensures Reaches(s, s)
  {
    assert Possible(s, []) && After(s, []) == s;
  }

  lemma ReachesVia(s: State, e: Step, t: State)
    requires Enabled(s, e) && Reaches(Apply(s, e), t)
    ensures Reaches(s, t)
  {
    var run :| Possible(Apply(s, e), run) && After(Apply(s, e), run) == t;
    HeadAndTail(run, e);
    assert Possible(s, [e] + run) && After(s, [e] + run) == t;
  }

  /** The state an open leaves behind when it is alone from beginning to end. */
  function SerialState(s: State, id: nat, p: Plan): State {
    var r := SerialOpen(s.now, s.fallbackUntil, s.retry, p);
    s.(now := r.now, fallbackUntil := r.until, flows := s.flows[id := Flow(Finished(r.result), r.log)])
  }

  lemma FinishGrpc(s: State, id: nat, takes: nat, ok: bool, t: State)
    requires id in s.flows && s.flows[id].phase == TryingGrpcLast
    requires t == s.(now := s.now + takes,
      flows := s.flows[id := Flow(Finished(if ok then ViaGrpc else Failed), s.flows[id].log + [Grpc(ok)])])
    ensures Reaches(s, t)
  {
    var a := Apply(s, Tick(takes));
    ReachesSelf(t);
    assert Apply(a, GrpcEnds(id, ok)) == t;
    ReachesVia(a, GrpcEnds(id, ok), t);
    ReachesVia(s, Tick(takes), t);
  }

  lemma FinishFromQuic(s: State, id: nat, p: Plan, t: State)
    requires s.quic && s.grpc && id in s.flows && s.flows[id].phase == TryingQuic
    requires var before, t2 := s.flows[id].log, s.now + p.quicTakes;
      match p.quic
      case Connected => t == s.(now := t2, fallbackUntil := None,
        flows := s.flows[id := Flow(Finished(ViaQuic), before + [Quic(Connected)])])
      case Rejected => t == s.(now := t2, flows := s.flows[id := Flow(Finished(Failed), before + [Quic(Rejected)])])
      case Unavailable => t == s.(now := t2 + p.grpcLastTakes, fallbackUntil := Some(t2 + s.retry),
        flows := s.flows[id := Flow(
          Finished(if p.grpcLastOk then ViaGrpc else Failed), before + [Quic(Unavailable)] + [Grpc(p.grpcLastOk)])])
    ensures Reaches(s, t)
  {
    var a := Apply(s, Tick(p.quicTakes));
    var b := Apply(a, QuicEnds(id, p.quic));
    match p.quic {
      case Connected =>
        ReachesSelf(t);
        assert Apply(b, Write(id)) == t;
        ReachesVia(b, Write(id), t);
      case Rejected =>
        ReachesSelf(t);
        assert b == t;
      case Unavailable =>
        FinishGrpc(Apply(b, Write(id)), id, p.grpcLastTakes, p.grpcLastOk, t);
        ReachesVia(b, Write(id), t);
    }
    ReachesVia(a, QuicEnds(id, p.quic), t);
    ReachesVia(s, Tick(p.quicTakes), t);
  }

  lemma SuppressedOpenIsARun(s: State, id: nat, p: Plan, t: State)
    requires s.quic && s.grpc && id in s.flows && s.flows[id] == Flow(TryingGrpcFirst, [])
    requires Suppressed(s)
    requires t == SerialState(s, id, p.(wait := 0))
    ensures Reaches(s, t)
  {
    Units([Grpc(p.grpcFirstOk)]);
    var d := Apply(s, Tick(p.grpcFirstTakes));
    var e := Apply(d, GrpcEnds(id, p.grpcFirstOk));
    if p.grpcFirstOk {
      assert e == t;
      ReachesSelf(t);
    } else {
      FinishFromQuic(Apply(e, Write(id)), id, p, t);
      ReachesVia(e, Write(id), t);
    }
    ReachesVia(d, GrpcEnds(id, p.grpcFirstOk), t);
    ReachesVia(s, Tick(p.grpcFirstTakes), t);
  }

  lemma SerialOpenIsARun(s: State, id: nat, p: Plan)
    requires s.quic && s.grpc && id !in s.flows
    ensures Reaches(s, SerialState(s, id, p))
  {
    var t := SerialState(s, id, p);
    var a := Apply(s, Tick(p.wait));
    var b := Apply(a, Open(id));
    var c := Apply(b, Look(id));
    if Suppressed(b) {
      SuppressedOpenIsARun(c, id, p, t);
    } else {
      FinishFromQuic(c, id, p, t);
    }
    ReachesVia(b, Look(id), t);
    ReachesVia(a, Open(id), t);
    ReachesVia(s, Tick(p.wait), t);
  }

  /** The client itself, opening one flow at a time. */
  class TransportClient {
    var fallbackUntil: Option<int>
    var clock: int
    const retryInterval: nat
    ghost var probes: seq<Probe>
    ghost var failures: seq<int>

    constructor (retry: nat, now: int)
      ensures fallbackUntil == None && clock == now && retryInterval == retry && probes == [] && failures == []
    {
      fallbackUntil, clock, retryInterval, probes, failures := None, now, retry, [], [];
    }

    method Open(p: Plan) returns (result: Result)
      modifies this
      ensures var r := SerialOpen(old(clock), old(fallbackUntil), retryInterval, p);
        && result == r.result && clock == r.now && fallbackUntil == r.until
        && probes == old(probes) + r.probes && failures == old(failures) + r.failures
    {
      Units(failures);
      clock := clock + p.wait;
      var suppressed := fallbackUntil.Some? && clock < fallbackUntil.value;
      if suppressed {
        clock := clock + p.grpcFirstTakes;
        if p.grpcFirstOk {
          Units(probes);
          return ViaGrpc;
        }
        failures := failures + [clock];
        fallbackUntil := None;
      }
      ghost var started := clock;
      clock := clock + p.quicTakes;
      probes := probes + [Probe(started, clock, p.quic, suppressed)];
      match p.quic {
        case Connected =>
          fallbackUntil := None;
          return ViaQuic;
        case Rejected =>
          return Failed;
        case Unavailable =>
          fallbackUntil := Some(clock + retryInterval);
          clock := clock + p.grpcLastTakes;
          return if p.grpcLastOk then ViaGrpc else Failed;
      }
    }

    /** A run of opens makes exactly the attempts the spacing results speak of. */
    method OpenAll(plans: seq<Plan>) returns (results: seq<Result>)
      modifies this
      ensures |results| == |plans|
      ensures probes == old(probes) + Probes(old(clock), old(fallbackUntil), retryInterval, plans)
      ensures failures == old(failures) + Failures(old(clock), old(fallbackUntil), retryInterval, plans)
    {
      results := [];
      var left := plans;
      ghost var made: seq<Probe> := [];
      ghost var failed: seq<int> := [];
      Units(probes);
      Units(failures);
      Units(Probes(clock, fallbackUntil, retryInterval, plans));
      Units(Failures(clock, fallbackUntil, retryInterval, plans));
      while |left| > 0
        invariant |results| + |left| == |plans|
        invariant probes == old(probes) + made && failures == old(failures) + failed
        invariant made + Probes(clock, fallbackUntil, retryInterval, left)
               == Probes(old(clock), old(fallbackUntil), retryInterval, plans)
        invariant failed + Failures(clock, fallbackUntil, retryInterval, left)
               == Failures(old(clock), old(fallbackUntil), retryInterval, plans)
        decreases |left|
      {
        ghost var r := SerialOpen(clock, fallbackUntil, retryInterval, left[0]);
        var result := Open(left[0]);
        Assoc2(made, r.probes, Probes(r.now, r.until, retryInterval, left[1..]));
        Assoc2(old(probes), made, r.probes);
        Assoc2(failed, r.failures, Failures(r.now, r.until, retryInterval, left[1..]));
        Assoc2(old(failures), failed, r.failures);
        made, failed := made + r.probes, failed + r.failures;
        results := results + [result];
        left := left[1..];
      }
      Units(made);
      Units(failed);
    }
  }
}
