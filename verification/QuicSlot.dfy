/**
 The one QUIC connection all flows share. The slot's lock is held across the
 whole dial, so others wait for its result instead of dialling themselves.
 */
module QuicSlot {
  import opened Bytes
  import opened Wrappers

  /** Connections are numbered in the order they are established. */
  datatype State = State(
    slot: Option<nat>,
    locked: bool,
    dialling: set<nat>,      // flows with a connect under way
    established: nat,
    closed: set<nat>,        // connections the network or the peer has closed
    invalidated: set<nat>,   // connections thrown out of the slot after a failed exchange
    held: map<nat, nat>,     // the connection each flow was given last
    handedOut: seq<nat>)     // every connection given to a flow, in order

  datatype Step =
    | Reuse(flow: nat)
    | Dial(flow: nat)
    | DialSucceeds(flow: nat)
    | DialFails(flow: nat)
    | Invalidate(flow: nat)  // the flow's exchange on its connection has failed
    | ConnectionCloses(connection: nat)

  const START := State(None, false, {}, 0, {}, {}, map[], [])

  predicate Usable(s: State) {
    s.slot.Some? && s.slot.value !in s.closed
  }

  predicate Enabled(s: State, e: Step) {
    match e
    case Reuse(_) => !s.locked && Usable(s)
    case Dial(_) => !s.locked && !Usable(s)
    case DialSucceeds(f) => f in s.dialling
    case DialFails(f) => f in s.dialling
    case Invalidate(f) => !s.locked && f in s.held
    case ConnectionCloses(c) => c < s.established
  }

  function Give(s: State, flow: nat, connection: nat): State {
    s.(held := s.held[flow := connection], handedOut := s.handedOut + [connection])
  }

  function InSlot(s: State): set<nat> {
    if s.slot.Some? then {s.slot.value} else {}
  }

  function Apply(s: State, e: Step): State
    requires Enabled(s, e)
  {
    match e
    case Reuse(f) => Give(s, f, s.slot.value)
    case Dial(f) => s.(locked := true, dialling := s.dialling + {f})
    case DialSucceeds(f) =>
      Give(s, f, s.established).(slot := Some(s.established), established := s.established + 1,
        locked := false, dialling := s.dialling - {f})
    case DialFails(f) => s.(locked := false, dialling := s.dialling - {f})
    case Invalidate(_) => s.(slot := None, invalidated := s.invalidated + InSlot(s))
    case ConnectionCloses(c) => s.(closed := s.closed + {c})
  }

  predicate Possible(s: State, run: seq<Step>)
    decreases |run|
  {
    |run| == 0 || (Enabled(s, run[0]) && Possible(Apply(s, run[0]), run[1..]))
  }

  function After(s: State, run: seq<Step>): State
    requires Possible(s, run)
    decreases |run|
  {
    if |run| == 0 then s else After(Apply(s, run[0]), run[1..])
  }

  predicate Lost(s: State, c: nat) {
    c in s.closed || c in s.invalidated
  }

  /** Dials happen one at a time, and only while there is nothing to reuse. */
  predicate OneDial(s: State) {
    |s.dialling| == (if s.locked then 1 else 0) && (s.locked ==> !Usable(s))
  }

  /** The slot holds the newest connection until that is invalidated; all older ones are lost. */
  ghost predicate Numbered(s: State) {
    && (s.slot.Some? <==> s.established > 0 && s.established - 1 !in s.invalidated)
    && (s.slot.Some? ==> s.slot.value == s.established - 1)
    && (forall c: nat :: c + 1 < s.established ==> Lost(s, c))
    && (forall c: nat :: Lost(s, c) ==> c < s.established)
    && (forall f :: f in s.held ==> s.held[f] < s.established)
  }

  ghost predicate Inv(s: State) {
    OneDial(s) && Numbered(s)
  }

  lemma OnlyOne(dialling: set<nat>, f: nat)
    requires |dialling| == 1 && f in dialling
    ensures dialling == {f} && dialling - {f} == {}
  {
    var others := dialling - {f};
    assert |others| == 0;
    assert dialling == others + {f};
  }

  lemma DialKept(s: State, f: nat)
    requires Inv(s) && Enabled(s, Dial(f))
    ensures Inv(Apply(s, Dial(f)))
  {
    assert s.dialling == {};
    var t := Apply(s, Dial(f));
    assert forall c: nat :: Lost(t, c) <==> Lost(s, c);
  }

  lemma DialEndsOneDial(s: State, f: nat, e: Step)
    requires Inv(s) && (e == DialSucceeds(f) || e == DialFails(f)) && Enabled(s, e)
    ensures OneDial(Apply(s, e)) && !Usable(s)
  {
    hide Numbered;
    OnlyOne(s.dialling, f);
  }

  lemma DialEndsNumbered(s: State, f: nat)
    requires Numbered(s) && !Usable(s) && f in s.dialling
    ensures Numbered(Apply(s, DialSucceeds(f))) && Numbered(Apply(s, DialFails(f)))
  {
    if s.established > 0 {
      assert Lost(s, s.established - 1);
    }
    assert !Lost(s, s.established);
    var t := Apply(s, DialSucceeds(f));
    assert forall c: nat :: Lost(t, c) <==> Lost(s, c);
    var u := Apply(s, DialFails(f));
    assert forall c: nat :: Lost(u, c) <==> Lost(s, c);
  }

  lemma InvalidateKept(s: State, f: nat)
    requires Inv(s) && Enabled(s, Invalidate(f))
    ensures Inv(Apply(s, Invalidate(f)))
  {
    var t := Apply(s, Invalidate(f));
    assert forall c: nat :: Lost(t, c) <==> Lost(s, c) || s.slot == Some(c);
  }

  lemma ClosesKept(s: State, c: nat)
    requires Inv(s) && Enabled(s, ConnectionCloses(c))
    ensures Inv(Apply(s, ConnectionCloses(c)))
  {
    var t := Apply(s, ConnectionCloses(c));
    assert forall d: nat :: Lost(t, d) <==> Lost(s, d) || d == c;
  }

  lemma ReuseKept(s: State, f: nat)
    requires Inv(s) && Enabled(s, Reuse(f))
    ensures Inv(Apply(s, Reuse(f)))
  {
    var t := Apply(s, Reuse(f));
    assert forall c: nat :: Lost(t, c) <==> Lost(s, c);
  }

  lemma StepInv(s: State, e: Step)
    requires Inv(s) && Enabled(s, e)
    ensures Inv(Apply(s, e))
  {
    match e {
      case Reuse(f) => ReuseKept(s, f);
      case Dial(f) => DialKept(s, f);
      case DialSucceeds(f) =>
        DialEndsOneDial(s, f, e);
        DialEndsNumbered(s, f);
      case DialFails(f) =>
        DialEndsOneDial(s, f, e);
        DialEndsNumbered(s, f);
      case Invalidate(f) => InvalidateKept(s, f);
      case ConnectionCloses(c) => ClosesKept(s, c);
    }
  }

  /** The first `n` connection numbers. */
  function Numbers(n: nat): (all: set<nat>)
    ensures |all| == n
    ensures forall c :: c in all <==> 0 <= c < n
  {
    if n == 0 then {} else Numbers(n - 1) + {n - 1}
  }

  lemma {:induction false} SubsetSize(a: set<nat>, b: set<nat>)
    requires a <= b
    ensures |a| <= |b|
  {
    assert b == a + (b - a);
  }

  /** Connections are only replaced once they are lost: all but the current one are closed or invalidated. */
  lemma EstablishedAreAccountedFor(s: State)
    requires Inv(s)
    ensures s.established <= 1 + |s.closed + s.invalidated|
  {
    var all := Numbers(s.established);
    var lost := s.closed + s.invalidated;
    assert forall c: nat :: c in lost <==> Lost(s, c);
    if s.slot.Some? {
      SubsetSize(all, lost + {s.slot.value});
    } else {
      SubsetSize(all, lost);
    }
  }

  /** For any interleaving: at most one connect is in flight, and no connection is established without need. */
  lemma {:induction false} EveryRun(s: State, run: seq<Step>)
    requires Inv(s) && Possible(s, run)
    ensures Inv(After(s, run))
    ensures |After(s, run).dialling| <= 1
    ensures After(s, run).established <= 1 + |After(s, run).closed + After(s, run).invalidated|
    decreases |run|
  {
    hide Numbered;
    if |run| > 0 {
      StepInv(s, run[0]);
      EveryRun(Apply(s, run[0]), run[1..]);
    } else {
      EstablishedAreAccountedFor(s);
    }
  }

  lemma StartInv()
    ensures Inv(START)
  {
  }

  // ----- Reuse over a run -----

  /** The connections a step gives to a flow. */
  function Given(s: State, e: Step): seq<nat>
    requires Enabled(s, e)
  {
    match e
    case Reuse(_) => [s.slot.value]
    case DialSucceeds(_) => [s.established]
    case _ => []
  }

  lemma StepGives(s: State, e: Step, c: nat)
    requires Inv(s) && Enabled(s, e) && Lost(s, c)
    ensures Apply(s, e).handedOut == s.handedOut + Given(s, e) && c !in Given(s, e)
    ensures Lost(Apply(s, e), c)
  {
    Units(s.handedOut);
  }

  lemma NotInParts(a: seq<nat>, x: seq<nat>, b: seq<nat>, c: nat)
    requires a + x <= b && c !in x && c !in b[|a + x|..]
    ensures a <= b && c !in b[|a|..]
  {
    assert b == a + x + b[|a + x|..];
    assert b[|a|..] == x + b[|a + x|..];
  }

  /** Once a connection is closed or thrown out, no flow is ever given it again. */
  lemma {:induction false} LostIsNeverGivenAgain(s: State, run: seq<Step>, c: nat)
    requires Inv(s) && Possible(s, run) && Lost(s, c)
    ensures s.handedOut <= After(s, run).handedOut && c !in After(s, run).handedOut[|s.handedOut|..]
    decreases |run|
  {
    if |run| > 0 {
      hide Apply, Inv, Lost;
      StepGives(s, run[0], c);
      StepInv(s, run[0]);
      LostIsNeverGivenAgain(Apply(s, run[0]), run[1..], c);
      NotInParts(s.handedOut, Given(s, run[0]), After(s, run).handedOut, c);
    }
  }

  // ----- Whose connection an invalidation throws out -----

  /** Replacing or emptying the slot. */
  predicate Displaces(e: Step) {
    e.DialSucceeds? || e.Invalidate?
  }

  lemma StepSlot(s: State, e: Step, c: nat)
    requires Inv(s) && Enabled(s, e) && c < s.established
    ensures c < Apply(s, e).established
    ensures Apply(s, e).slot == Some(c) <==> s.slot == Some(c) && !Displaces(e)
  {
  }

  lemma {:induction false} NeverBackInTheSlot(s: State, run: seq<Step>, c: nat)
    requires Inv(s) && Possible(s, run) && c < s.established && s.slot != Some(c)
    ensures After(s, run).slot != Some(c)
    decreases |run|
  {
    if |run| > 0 {
      hide Apply, Inv;
      StepInv(s, run[0]);
      StepSlot(s, run[0], c);
      NeverBackInTheSlot(Apply(s, run[0]), run[1..], c);
    }
  }

  /** A connection stays in the slot exactly as long as nothing displaces it. */
  lemma {:induction false} SlotKeptIff(s: State, run: seq<Step>, c: nat)
    requires Inv(s) && Possible(s, run) && s.slot == Some(c)
    ensures After(s, run).slot == Some(c) <==> forall i :: 0 <= i < |run| ==> !Displaces(run[i])
    decreases |run|
  {
    if |run| > 0 {
      hide Apply, Inv, Displaces;
      StepInv(s, run[0]);
      InSlotIsEstablished(s, c);
      StepSlot(s, run[0], c);
      if Displaces(run[0]) {
        NeverBackInTheSlot(Apply(s, run[0]), run[1..], c);
      } else {
        SlotKeptIff(Apply(s, run[0]), run[1..], c);
        assert forall i :: 0 < i < |run| ==> run[i] == run[1..][i - 1];
      }
    }
  }

  lemma InSlotIsEstablished(s: State, c: nat)
    requires Inv(s) && s.slot == Some(c)
    ensures c < s.established
  {
  }

  /** The steps that give a connection to flow `f`. */
  predicate GivesTo(e: Step, f: nat) {
    e == Reuse(f) || e == DialSucceeds(f)
  }

  lemma GivenIsInSlot(s: State, give: Step, f: nat)
    requires Inv(s) && Enabled(s, give) && GivesTo(give, f)
    ensures var t := Apply(s, give); f in t.held && t.slot == Some(t.held[f])
  {
  }

  lemma {:induction false} HeldUnlessGiven(s: State, run: seq<Step>, f: nat)
    requires Possible(s, run) && f in s.held && forall i :: 0 <= i < |run| ==> !GivesTo(run[i], f)
    ensures f in After(s, run).held && After(s, run).held[f] == s.held[f]
    decreases |run|
  {
    if |run| > 0 {
      assert !GivesTo(run[0], f);
      assert forall i :: 0 < i < |run| ==> run[i] == run[1..][i - 1];
      HeldUnlessGiven(Apply(s, run[0]), run[1..], f);
    }
  }

  lemma InvalidationTakes(s: State, f: nat, c: nat)
    requires Inv(s) && Enabled(s, Invalidate(f))
    ensures c !in s.invalidated && c in Apply(s, Invalidate(f)).invalidated <==> s.slot == Some(c)
  {
  }

  /**
   A flow that was given a connection and later invalidates throws out that very
   connection if and only if, in between, no connect succeeded and nobody else
   invalidated; otherwise it throws out a newer one, or none.
   */
  lemma InvalidationHitsOwnIff(s: State, give: Step, run: seq<Step>, f: nat)
    requires Inv(s) && Enabled(s, give) && GivesTo(give, f) && Possible(Apply(s, give), run)
    requires forall i :: 0 <= i < |run| ==> !GivesTo(run[i], f)
    requires Enabled(After(Apply(s, give), run), Invalidate(f))
    ensures var t := After(Apply(s, give), run);
      var own, u := Apply(s, give).held[f], Apply(t, Invalidate(f));
      && t.held[f] == own
      && (own !in t.invalidated && own in u.invalidated <==> forall i :: 0 <= i < |run| ==> !Displaces(run[i]))
      && (own in t.invalidated || own !in u.invalidated ==>
            || u.invalidated == t.invalidated
            || (own < t.established - 1 && u.invalidated == t.invalidated + {t.established - 1}))
  {
    var t0 := Apply(s, give);
    var t := After(t0, run);
    GivenIsInSlot(s, give, f);
    StepInv(s, give);
    EveryRun(t0, run);
    HeldUnlessGiven(t0, run, f);
    SlotKeptIff(t0, run, t0.held[f]);
    InvalidationTakes(t, f, t0.held[f]);
    if t.slot != Some(t0.held[f]) {
      OwnAndNewest(t, f);
    }
  }

  lemma OwnAndNewest(s: State, f: nat)
    requires Inv(s) && Enabled(s, Invalidate(f)) && s.slot != Some(s.held[f])
    ensures var u := Apply(s, Invalidate(f));
      u.invalidated == s.invalidated ||
      (s.held[f] < s.established - 1 && u.invalidated == s.invalidated + {s.established - 1})
  {
  }

  lemma Then(s: State, e: Step, rest: seq<Step>)
    requires Enabled(s, e) && Possible(Apply(s, e), rest)
    ensures Possible(s, [e] + rest) && After(s, [e] + rest) == After(Apply(s, e), rest)
  {
    HeadAndTail(rest, e);
  }

  /** A healthy one, even: a flow that is late to fail on a closed connection costs the others the new one. */
  lemma HealthyConnectionThrownOut()
    ensures var run := [Dial(0), DialSucceeds(0), ConnectionCloses(0), Dial(1), DialSucceeds(1), Invalidate(0)];
      Possible(START, run) &&
      var s := After(START, run);
      s.held[0] == 0 && s.held[1] == 1 && 1 !in s.closed && s.invalidated == {1} && s.slot == None
  {
    var s1 := Apply(START, Dial(0));
    var s2 := Apply(s1, DialSucceeds(0));
    var s3 := Apply(s2, ConnectionCloses(0));
    var s4 := Apply(s3, Dial(1));
    var s5 := Apply(s4, DialSucceeds(1));
    Then(s5, Invalidate(0), []);
    Then(s4, DialSucceeds(1), [Invalidate(0)]);
    Then(s3, Dial(1), [DialSucceeds(1), Invalidate(0)]);
    Then(s2, ConnectionCloses(0), [Dial(1), DialSucceeds(1), Invalidate(0)]);
    Then(s1, DialSucceeds(0), [ConnectionCloses(0), Dial(1), DialSucceeds(1), Invalidate(0)]);
    Then(START, Dial(0), [DialSucceeds(0), ConnectionCloses(0), Dial(1), DialSucceeds(1), Invalidate(0)]);
  }

  /** The slot as the client holds it; each method runs under the lock from beginning to end. */
  class QuicClient {
    var connection: Option<nat>
    ghost var established: nat
    ghost var closed: set<nat>
    ghost var invalidated: set<nat>
    ghost var held: map<nat, nat>
    ghost var handedOut: seq<nat>

    constructor ()
      ensures Slot() == START && Inv(Slot())
    {
      connection, established, closed, invalidated, held, handedOut := None, 0, {}, {}, map[], [];
    }

    ghost function Slot(): State
      reads this
    {
      State(connection, false, {}, established, closed, invalidated, held, handedOut)
    }

    /** `isOpen` is what the held connection says about itself, `dials` how a connect attempt would end. */
    method Connection(isOpen: bool, dials: Option<nat>, ghost flow: nat) returns (r: Option<nat>)
      requires Inv(Slot()) && (connection.Some? ==> (isOpen <==> connection.value !in closed))
      requires dials.Some? ==> dials.value == established
      modifies this
      ensures Inv(Slot())
      ensures old(Usable(Slot())) ==> r == connection && Slot() == Apply(old(Slot()), Reuse(flow))
      ensures old(!Usable(Slot())) ==> r == dials
      ensures old(!Usable(Slot())) ==>
        Slot() == Apply(Apply(old(Slot()), Dial(flow)), if dials.Some? then DialSucceeds(flow) else DialFails(flow))
    {
      hide Inv;
      if connection.Some? && isOpen {
        StepInv(Slot(), Reuse(flow));
        held, handedOut := held[flow := connection.value], handedOut + [connection.value];
        return connection;
      }
      ghost var locked := Apply(Slot(), Dial(flow));
      StepInv(Slot(), Dial(flow));
      StepInv(locked, if dials.Some? then DialSucceeds(flow) else DialFails(flow));
      assert locked.dialling - {flow} == {};
      if dials.Some? {
        connection := dials;
        held, handedOut, established := held[flow := established], handedOut + [established], established + 1;
      }
      return dials;
    }

    method Invalidate(ghost flow: nat)
      requires Inv(Slot()) && flow in held
      modifies this
      ensures Inv(Slot()) && Slot() == Apply(old(Slot()), Step.Invalidate(flow))
    {
      hide Inv;
      StepInv(Slot(), Step.Invalidate(flow));
      invalidated := invalidated + InSlot(Slot());
      connection := None;
    }
  }
}
