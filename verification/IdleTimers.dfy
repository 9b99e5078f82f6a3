/**
 The two ways a relay notices that a flow has gone quiet. UDP polls an activity
 counter each time its receive times out; TCP re-arms one timer whenever a
 notification is pending. Time is an integer clock; timers are observed at
 their deadline.
 */
module IdleTimers {
  import opened Bytes
  import opened Wrappers

  const COUNTER := 0x1_0000_0000_0000_0000

  function LastOf(from: int, activity: seq<int>): int {
    if |activity| == 0 then from else activity[|activity| - 1]
  }

  predicate Sorted(from: int, activity: seq<int>) {
    forall i, j :: 0 <= i <= j < |activity| ==> from <= activity[i] <= activity[j]
  }

  // ----- The timer that restarts at every activity: the yardstick -----

  /** When a timer started at `from` and restarted at each instant of `activity` runs out. */
  function ExactClose(from: int, activity: seq<int>, idle: nat): int
    decreases |activity|
  {
    if |activity| == 0 || activity[0] > from + idle then from + idle
    else ExactClose(activity[0], activity[1..], idle)
  }

  /** It runs out one idle period after the last activity, unless a longer gap came before. */
  lemma {:induction false} ExactCloseBounds(from: int, activity: seq<int>, idle: nat)
    requires Sorted(from, activity)
    ensures var x, last := ExactClose(from, activity, idle), LastOf(from, activity);
      x <= last + idle && (last <= x <==> x == last + idle)
    decreases |activity|
  {
    if |activity| > 0 && activity[0] <= from + idle {
      ExactCloseBounds(activity[0], activity[1..], idle);
    }
  }

  lemma {:induction false} ExactCloseSnoc(from: int, activity: seq<int>, t: int, idle: nat)
    requires Sorted(from, activity + [t])
    ensures ExactClose(from, activity + [t], idle)
         == var x := ExactClose(from, activity, idle); if t <= x then t + idle else x
    decreases |activity|
  {
    var all := activity + [t];
    if |activity| > 0 && activity[0] <= from + idle {
      TailOfConcat(activity, [t]);
      ExactCloseSnoc(activity[0], activity[1..], t, idle);
    } else if |activity| > 0 {
      assert all[0] == activity[0] && all[|activity|] == t;
    } else {
      assert all[1..] == [];
    }
  }

  // ----- UDP: a counter polled at each receive timeout -----

  datatype Udp = Udp(
    idle: nat,
    start: int,
    now: int,
    writing: bool,        // a received datagram is on its way into the tunnel; no timer runs
    deadline: int,        // of the current receive
    counter: nat,         // bumped by the uplink, modulo 2^64
    seen: nat,            // its value at the last look
    sinceLook: nat,       // how many bumps happened since
    activity: seq<int>,   // bumps and completed writes so far
    closed: bool)

  datatype UdpEvent =
    | Bump(at: int)       // the uplink has sent a datagram
    | Datagram(at: int)   // the receive returns
    | Written(at: int)    // the datagram is in the tunnel
    | Expire              // the receive times out

  function UdpStart(idle: nat, start: int): Udp {
    Udp(idle, start, start, false, start + idle, 0, 0, 0, [], false)
  }

  predicate UdpEnabled(s: Udp, e: UdpEvent) {
    !s.closed &&
    match e
    case Bump(t) => s.now <= t && (s.writing || t <= s.deadline)
    case Datagram(t) => !s.writing && s.now <= t <= s.deadline
    case Written(t) => s.writing && s.now <= t
    case Expire => !s.writing
  }

  function UdpApply(s: Udp, e: UdpEvent): Udp {
    match e
    case Bump(t) =>
      s.(now := t, counter := (s.counter + 1) % COUNTER, sinceLook := s.sinceLook + 1, activity := s.activity + [t])
    case Datagram(t) => s.(now := t, writing := true)
    case Written(t) => s.(now := t, writing := false, deadline := t + s.idle, activity := s.activity + [t])
    case Expire =>
      if s.counter == s.seen then s.(now := s.deadline, closed := true)
      else s.(now := s.deadline, seen := s.counter, sinceLook := 0, deadline := s.deadline + s.idle)
  }

  predicate UdpPossible(s: Udp, run: seq<UdpEvent>)
    decreases |run|
  {
    |run| == 0 || (UdpEnabled(s, run[0]) && UdpPossible(UdpApply(s, run[0]), run[1..]))
  }

  function UdpAfter(s: Udp, run: seq<UdpEvent>): Udp
    decreases |run|
  {
    if |run| == 0 then s else UdpAfter(UdpApply(s, run[0]), run[1..])
  }

  function Last(s: Udp): int { LastOf(s.start, s.activity) }

  predicate UdpInv(s: Udp) {
    && Sorted(s.start, s.activity) && s.start <= s.now && Last(s) <= s.now
    && s.seen < COUNTER && s.counter == (s.seen + s.sinceLook) % COUNTER
    && (!s.writing && !s.closed ==>
          var armed := s.deadline - s.idle;
          && armed <= s.now <= s.deadline
          && armed - s.idle <= Last(s)
          && (s.sinceLook == 0 ==> Last(s) <= armed)
          && (s.sinceLook > 0 ==> armed <= Last(s)))
    && (s.closed ==>
          && s.sinceLook % COUNTER == 0
          && s.now <= Last(s) + 2 * s.idle
          && (s.sinceLook == 0 ==> Last(s) + s.idle <= s.now))
  }

  /**
   What may happen next, as long as the session lasts: while the receive waits, a
   send, a datagram or the timeout, none later than the deadline; once a datagram
   has come, a send or the end of its write, however late.
   */
  lemma UdpWhatMayHappen(s: Udp, t: int)
    requires UdpInv(s) && !s.closed && s.now <= t
    ensures UdpEnabled(s, Bump(t)) <==> s.writing || t <= s.deadline
    ensures UdpEnabled(s, Datagram(t)) <==> !s.writing && t <= s.deadline
    ensures UdpEnabled(s, Written(t)) <==> s.writing
    ensures UdpEnabled(s, Expire) <==> !s.writing
    ensures UdpEnabled(s, Datagram(t)) ==>
      var r := UdpApply(s, Datagram(t));
      && r.writing && r.now == t && !r.closed && r.activity == s.activity
      && r.counter == s.counter && r.seen == s.seen && r.sinceLook == s.sinceLook
    ensures UdpEnabled(s, Written(t)) ==>
      var r := UdpApply(s, Written(t));
      && !r.writing && r.deadline == t + s.idle && !r.closed && r.activity == s.activity + [t]
      && r.counter == s.counter && r.seen == s.seen && r.sinceLook == s.sinceLook
    ensures UdpEnabled(s, Bump(t)) ==>
      var r := UdpApply(s, Bump(t));
      && r.writing == s.writing && r.deadline == s.deadline && !r.closed && r.activity == s.activity + [t]
      && r.seen == s.seen && r.sinceLook == s.sinceLook + 1
    ensures UdpEnabled(s, Expire) && !UdpApply(s, Expire).closed ==>
      var r := UdpApply(s, Expire);
      && r.now == s.deadline && r.deadline == s.deadline + s.idle && r.activity == s.activity
      && r.seen == s.counter == r.counter && r.sinceLook == 0
  {
  }

  /** A datagram's write does not look at the counter: a send before it still saves the session at the next timeout. */
  lemma SendsAreSeenOnlyAtTimeouts(idle: nat, start: int)
    ensures var run := [Bump(start), Datagram(start), Written(start), Expire];
      && UdpPossible(UdpStart(idle, start), run)
      && !UdpAfter(UdpStart(idle, start), run).closed
  {
    var s1 := UdpApply(UdpStart(idle, start), Bump(start));
    var s2 := UdpApply(s1, Datagram(start));
    var s3 := UdpApply(s2, Written(start));
    var s4 := UdpApply(s3, Expire);
    UdpOneMore(s3, Expire, []);
    UdpOneMore(s2, Written(start), [Expire]);
    UdpOneMore(s1, Datagram(start), [Written(start), Expire]);
    UdpOneMore(UdpStart(idle, start), Bump(start), [Datagram(start), Written(start), Expire]);
  }

  lemma UdpOneMore(s: Udp, e: UdpEvent, rest: seq<UdpEvent>)
    requires UdpEnabled(s, e) && UdpPossible(UdpApply(s, e), rest)
    ensures UdpPossible(s, [e] + rest) && UdpAfter(s, [e] + rest) == UdpAfter(UdpApply(s, e), rest)
  {
    HeadAndTail(rest, e);
  }

  lemma BumpWraps(seen: nat, n: nat)
    ensures ((seen + n) % COUNTER + 1) % COUNTER == (seen + (n + 1)) % COUNTER
  {
    var m := seen + n;
    assert m == m / COUNTER * COUNTER + m % COUNTER;
  }

  lemma SameLook(seen: nat, n: nat)
    requires seen < COUNTER
    ensures (seen + n) % COUNTER == seen <==> n % COUNTER == 0
  {
    assert n == n / COUNTER * COUNTER + n % COUNTER;
    var m := seen + n;
    assert m == m / COUNTER * COUNTER + m % COUNTER;
  }

  lemma SortedSnoc(from: int, activity: seq<int>, t: int)
    requires Sorted(from, activity) && LastOf(from, activity) <= t && from <= t
    ensures Sorted(from, activity + [t]) && LastOf(from, activity + [t]) == t
  {
  }

  lemma UdpStep(s: Udp, e: UdpEvent)
    requires UdpInv(s) && UdpEnabled(s, e)
    ensures UdpInv(UdpApply(s, e))
  {
    match e {
      case Bump(t) =>
        BumpWraps(s.seen, s.sinceLook);
        SortedSnoc(s.start, s.activity, t);
      case Written(t) => SortedSnoc(s.start, s.activity, t);
      case Expire => SameLook(s.seen, s.sinceLook);
      case Datagram(_) =>
    }
  }

  /** A receive timeout ends the session exactly when the bumps since the last look are a multiple of 2^64. */
  lemma ExpireClosesIff(s: Udp)
    requires UdpInv(s) && UdpEnabled(s, Expire)
    ensures UdpApply(s, Expire).closed <==> s.sinceLook % 0x1_0000_0000_0000_0000 == 0
  {
    SameLook(s.seen, s.sinceLook);
  }

  lemma {:induction false} UdpRun(s: Udp, run: seq<UdpEvent>)
    requires UdpInv(s) && UdpPossible(s, run)
    ensures UdpInv(UdpAfter(s, run))
    ensures UdpAfter(s, run).idle == s.idle && UdpAfter(s, run).start == s.start
    decreases |run|
  {
    if |run| > 0 {
      UdpStep(s, run[0]);
      UdpRun(UdpApply(s, run[0]), run[1..]);
    }
  }

  /**
   The idle window: whatever happened, a session that times out does so between
   one and two idle periods after its last activity.
   */
  lemma UdpIdleWindow(idle: nat, start: int, run: seq<UdpEvent>)
    requires UdpPossible(UdpStart(idle, start), run)
    ensures var s := UdpAfter(UdpStart(idle, start), run);
      s.closed ==>
        && s.now <= Last(s) + 2 * idle
        && (s.sinceLook < 0x1_0000_0000_0000_0000 ==> Last(s) + idle <= s.now)
  {
    UdpRun(UdpStart(idle, start), run);
  }

  /** Both ends of the window are reached. */
  lemma UdpWindowIsTight(idle: nat, start: int)
    ensures var quiet := UdpAfter(UdpStart(idle, start), [Expire]);
      UdpPossible(UdpStart(idle, start), [Expire]) && quiet.closed && quiet.now == Last(quiet) + idle
    ensures var one := [Bump(start), Expire, Expire];
      var s := UdpAfter(UdpStart(idle, start), one);
      UdpPossible(UdpStart(idle, start), one) && s.closed && s.now == Last(s) + 2 * idle
  {
    var s0 := UdpStart(idle, start);
    assert [Expire][1..] == [];
    var one := [Bump(start), Expire, Expire];
    var s1 := UdpApply(s0, Bump(start));
    var s2 := UdpApply(s1, Expire);
    assert one[1..] == [Expire, Expire] && one[1..][1..] == [Expire] && one[1..][1..][1..] == [];
    assert UdpAfter(s2, [Expire]) == UdpApply(s2, Expire);
  }

  lemma {:induction false} ManyBumps(s: Udp, t: int, n: nat)
    requires UdpInv(s) && !s.closed && !s.writing && s.now <= t <= s.deadline
    ensures UdpPossible(s, seq(n, _ => Bump(t)))
    ensures
      var r := UdpAfter(s, seq(n, _ => Bump(t)));
      UdpInv(r) && !r.closed && !r.writing && r.deadline == s.deadline && r.idle == s.idle && r.start == s.start &&
      r.sinceLook == s.sinceLook + n && r.seen == s.seen && (n > 0 ==> Last(r) == t)
    decreases n
  {
    var run := seq(n, _ => Bump(t));
    if n > 0 {
      UdpStep(s, Bump(t));
      SortedSnoc(s.start, s.activity, t);
      var rest: seq<UdpEvent> := seq(n - 1, _ => Bump(t));
      ManyBumps(UdpApply(s, Bump(t)), t, n - 1);
      assert run[1..] == rest;
    }
  }

  /** Why the lower end needs the counter not to come round: 2^64 datagrams in one period look like none. */
  lemma ACounterThatComesRoundClosesEarly(idle: nat, start: int)
    requires idle > 0
    ensures var run: seq<UdpEvent> := seq(0x1_0000_0000_0000_0000, _ => Bump(start + idle));
      UdpPossible(UdpStart(idle, start), run) &&
      var s := UdpAfter(UdpStart(idle, start), run);
      UdpEnabled(s, Expire) && UdpApply(s, Expire).closed && UdpApply(s, Expire).now < Last(s) + idle
  {
    ManyBumps(UdpStart(idle, start), start + idle, COUNTER);
    var run: seq<UdpEvent> := seq(COUNTER, _ => Bump(start + idle));
    ExpireClosesIff(UdpAfter(UdpStart(idle, start), run));
  }

  /**
   Against the exact timer on the same activity: polling never closes earlier,
   and it closes within one idle period of it exactly when no activity came
   after the exact timer would have run out.
   */
  lemma PollingAgainstExactTimer(idle: nat, start: int, run: seq<UdpEvent>)
    requires UdpPossible(UdpStart(idle, start), run)
    ensures var s := UdpAfter(UdpStart(idle, start), run);
      var exact := ExactClose(start, s.activity, idle);
      s.closed && s.sinceLook < 0x1_0000_0000_0000_0000 ==>
        && exact <= s.now
        && (s.now <= exact + idle <==> Last(s) <= exact)
  {
    UdpRun(UdpStart(idle, start), run);
    var s := UdpAfter(UdpStart(idle, start), run);
    ExactCloseBounds(start, s.activity, idle);
  }

  /** Activity between the two closings keeps a polled session alive beyond the bound. */
  lemma PollingMayOutlastTheBound()
    ensures var run := [Bump(5), Expire, Bump(17), Expire, Expire];
      UdpPossible(UdpStart(10, 0), run) &&
      var s := UdpAfter(UdpStart(10, 0), run);
      s.closed && s.now == 30 && ExactClose(0, s.activity, 10) == 15
  {
  }

  // ----- TCP: one permit, one timer -----

  datatype Tcp = Tcp(
    idle: nat,
    start: int,
    now: int,
    deadline: int,
    permit: bool,         // at most one notification is stored
    activity: seq<int>,   // completed chunk writes, both directions
    closed: bool)

  datatype TcpEvent =
    | Chunk(at: int)      // a chunk has been written; its notification is stored
    | Poll(at: int)       // the waiting task runs

  function TcpStart(idle: nat, start: int): Tcp {
    Tcp(idle, start, start, start + idle, false, [], false)
  }

  predicate TcpEnabled(s: Tcp, e: TcpEvent) {
    !s.closed && s.now <= e.at
  }

  /** The stored notification is looked at before the timer. */
  function TcpApply(s: Tcp, e: TcpEvent): Tcp {
    match e
    case Chunk(t) => s.(now := t, permit := true, activity := s.activity + [t])
    case Poll(t) =>
      if s.permit then s.(now := t, permit := false, deadline := t + s.idle)
      else if s.deadline <= t then s.(now := t, closed := true)
      else s.(now := t)
  }

  /** Nothing waits: a stored notification and a reached deadline are acted upon at once. */
  predicate Prompt(s: Tcp, e: TcpEvent) {
    if s.permit then e.at == s.now else e.at <= s.deadline
  }

  predicate TcpPossible(s: Tcp, run: seq<TcpEvent>, prompt: bool)
    decreases |run|
  {
    |run| == 0 || (
      TcpEnabled(s, run[0]) && (prompt ==> Prompt(s, run[0])) && TcpPossible(TcpApply(s, run[0]), run[1..], prompt))
  }

  function TcpAfter(s: Tcp, run: seq<TcpEvent>): Tcp
    decreases |run|
  {
    if |run| == 0 then s else TcpAfter(TcpApply(s, run[0]), run[1..])
  }

  function LastChunk(s: Tcp): int { LastOf(s.start, s.activity) }

  predicate TcpInv(s: Tcp, prompt: bool) {
    && Sorted(s.start, s.activity) && s.start <= s.now && LastChunk(s) <= s.now
    && (!s.permit ==> LastChunk(s) + s.idle <= s.deadline)
    && s.deadline <= s.now + s.idle
    && (s.closed ==> !s.permit && s.deadline <= s.now)
    && (prompt ==>
          && (s.permit ==> LastChunk(s) == s.now)
          && (!s.permit ==> s.deadline == LastChunk(s) + s.idle && s.now <= s.deadline)
          && ExactClose(s.start, s.activity, s.idle) == LastChunk(s) + s.idle)
  }

  lemma TcpStep(s: Tcp, e: TcpEvent, prompt: bool)
    requires TcpInv(s, prompt) && TcpEnabled(s, e) && (prompt ==> Prompt(s, e))
    ensures TcpInv(TcpApply(s, e), prompt)
  {
    if e.Chunk? {
      SortedSnoc(s.start, s.activity, e.at);
      ExactCloseSnoc(s.start, s.activity, e.at, s.idle);
    }
  }

  lemma {:induction false} TcpRun(s: Tcp, run: seq<TcpEvent>, prompt: bool)
    requires TcpInv(s, prompt) && TcpPossible(s, run, prompt)
    ensures TcpInv(TcpAfter(s, run), prompt)
    ensures TcpAfter(s, run).idle == s.idle && TcpAfter(s, run).start == s.start
    decreases |run|
  {
    if |run| > 0 {
      TcpStep(s, run[0], prompt);
      TcpRun(TcpApply(s, run[0]), run[1..], prompt);
    }
  }

  /**
   One permit is enough: however many chunks share a notification and however
   late the task runs, the timer fires only after a full idle period without a
   chunk, never with a notification pending; and when nothing waits it fires
   exactly when the timer restarted at every chunk would.
   */
  lemma TcpIdleTimeout(idle: nat, start: int, run: seq<TcpEvent>, prompt: bool)
    requires TcpPossible(TcpStart(idle, start), run, prompt)
    ensures var s := TcpAfter(TcpStart(idle, start), run);
      s.closed ==>
        && !s.permit && LastChunk(s) + idle <= s.now
        && (prompt ==> s.now == LastChunk(s) + idle == ExactClose(start, s.activity, idle))
  {
    TcpRun(TcpStart(idle, start), run, prompt);
  }

  /** Served promptly the timer may run right up to its deadline, and closes an idle flow there. */
  lemma TcpClosesAtDeadline(idle: nat, start: int)
    ensures var run := [Poll(start + idle)];
      && TcpPossible(TcpStart(idle, start), run, true)
      && TcpAfter(TcpStart(idle, start), run).closed && TcpAfter(TcpStart(idle, start), run).now == start + idle
  {
    HeadAndTail([], Poll(start + idle));
    var t := TcpApply(TcpStart(idle, start), Poll(start + idle));
    assert TcpAfter(t, []) == t && TcpPossible(t, [], true);
  }

  /** Chunks and looks at the timer may come at any time and in any order. */
  lemma TcpWhatMayHappen(s: Tcp, t: int)
    requires !s.closed
    ensures TcpEnabled(s, Chunk(t)) <==> s.now <= t
    ensures TcpEnabled(s, Poll(t)) <==> s.now <= t
    // A chunk stores the permit and leaves the timer alone; a look with a permit re-arms it from that moment.
    ensures var r := TcpApply(s, Chunk(t));
      r.permit && r.deadline == s.deadline && !r.closed && r.activity == s.activity + [t]
    ensures var r := TcpApply(s, Poll(t));
      && !r.permit && r.activity == s.activity
      && (s.permit ==> r.deadline == t + s.idle && !r.closed)
      && (!s.permit ==> r.deadline == s.deadline && (r.closed <==> s.deadline <= t))
  {
  }

  /** The timer's events when nothing is copied: it is only looked at. */
  function Polls(times: seq<int>): seq<TcpEvent> {
    if |times| == 0 then [] else [Poll(times[0])] + Polls(times[1..])
  }

  lemma {:induction false} PollsKeepDeadline(s: Tcp, times: seq<int>, due: int)
    requires TcpInv(s, false) && !s.permit && s.deadline <= due && TcpPossible(s, Polls(times), false)
    ensures var t := TcpAfter(s, Polls(times)); !t.permit && t.deadline <= due
    decreases |times|
  {
    if |times| > 0 {
      HeadAndTail(Polls(times[1..]), Poll(times[0]));
      TcpStep(s, Poll(times[0]), false);
      if !TcpApply(s, Poll(times[0])).closed {
        PollsKeepDeadline(TcpApply(s, Poll(times[0])), times[1..], due);
      }
    }
  }

  /**
   The timer does fire: between two looks at it an idle period apart, with no chunk
   in between, it has closed the flow by the second, however often it is looked at.
   */
  lemma TcpMustFire(s: Tcp, first: int, times: seq<int>, last: int)
    requires TcpInv(s, false) && TcpEnabled(s, Poll(first)) && !TcpApply(s, Poll(first)).closed
    requires TcpPossible(TcpApply(s, Poll(first)), Polls(times), false)
    requires var t := TcpAfter(TcpApply(s, Poll(first)), Polls(times)); TcpEnabled(t, Poll(last))
    requires first + s.idle <= last
    ensures TcpApply(TcpAfter(TcpApply(s, Poll(first)), Polls(times)), Poll(last)).closed
  {
    TcpStep(s, Poll(first), false);
    PollsKeepDeadline(TcpApply(s, Poll(first)), times, first + s.idle);
  }

  /** The UDP session does close: after two timeouts in a row with nothing sent in between, at the second. */
  lemma UdpMustClose(s: Udp)
    requires UdpInv(s) && UdpEnabled(s, Expire) && !UdpApply(s, Expire).closed
    ensures UdpEnabled(UdpApply(s, Expire), Expire) && UdpApply(UdpApply(s, Expire), Expire).closed
    ensures UdpApply(UdpApply(s, Expire), Expire).now == s.deadline + s.idle
  {
  }

  // ----- The loops themselves -----

  /** How one receive ends: a datagram, written into the tunnel while the uplink may go on; the timeout; an error. */
  datatype Receive = Arrives(at: int, sentMeanwhile: seq<int>, written: int) | TimesOut | Fails

  /** One turn of the downlink: when the uplink sent during the receive, and how the receive ended. */
  datatype Wait = Wait(sent: seq<int>, receive: Receive)

  function Bumps(sent: seq<int>): seq<UdpEvent> {
    if |sent| == 0 then [] else [Bump(sent[0])] + Bumps(sent[1..])
  }

  function ReceiveEvents(r: Receive): seq<UdpEvent> {
    match r
    case Arrives(at, meanwhile, written) => [Datagram(at)] + (Bumps(meanwhile) + [Written(written)])
    case TimesOut => [Expire]
    case Fails => []
  }

  function UdpEvents(waits: seq<Wait>): seq<UdpEvent> {
    if |waits| == 0 then [] else Bumps(waits[0].sent) + (ReceiveEvents(waits[0].receive) + UdpEvents(waits[1..]))
  }

  /** The instants that count as activity, and how many of them the counter counts. */
  function Completed(r: Receive): seq<int> {
    if r.Arrives? then r.sentMeanwhile + [r.written] else []
  }

  function UdpActivity(waits: seq<Wait>): seq<int> {
    if |waits| == 0 then [] else waits[0].sent + (Completed(waits[0].receive) + UdpActivity(waits[1..]))
  }

  function SendsDuring(w: Wait): nat {
    |w.sent| + if w.receive.Arrives? then |w.receive.sentMeanwhile| else 0
  }

  function Sends(waits: seq<Wait>): nat {
    if |waits| == 0 then 0 else SendsDuring(waits[0]) + Sends(waits[1..])
  }

  /** What the uplink's sends do to the state: the counter moves on, the timer does not notice. */
  ghost predicate Bumped(s: Udp, sent: seq<int>, t: Udp) {
    && UdpInv(t) && t.sinceLook == s.sinceLook + |sent| && t.activity == s.activity + sent
    && t.seen == s.seen && t.deadline == s.deadline && t.writing == s.writing && t.closed == s.closed
    && t.idle == s.idle && t.start == s.start
  }

  lemma {:induction false} BumpsRun(s: Udp, sent: seq<int>, rest: seq<UdpEvent>)
    requires UdpInv(s) && UdpPossible(s, Bumps(sent) + rest)
    ensures var t := UdpAfter(s, Bumps(sent));
      Bumped(s, sent, t) && UdpPossible(t, rest) && UdpAfter(s, Bumps(sent) + rest) == UdpAfter(t, rest)
    decreases |sent|
  {
    hide UdpInv;
    if |sent| == 0 {
      Units(rest);
      Units(s.activity);
    } else {
      var t := UdpApply(s, Bump(sent[0]));
      Assoc2([Bump(sent[0])], Bumps(sent[1..]), rest);
      HeadAndTail(Bumps(sent[1..]) + rest, Bump(sent[0]));
      HeadAndTail(Bumps(sent[1..]), Bump(sent[0]));
      UdpStep(s, Bump(sent[0]));
      BumpsRun(t, sent[1..], rest);
      Assoc2(s.activity, [sent[0]], sent[1..]);
    }
  }

  /** The shared counter after some sends, as a reader of it computes. */
  lemma BumpedCounter(s: Udp, sent: seq<int>, t: Udp)
    requires UdpInv(s) && Bumped(s, sent, t)
    ensures t.counter == (s.counter + |sent|) % COUNTER
  {
    AddModulo(s.seen + s.sinceLook, |sent|);
  }

  lemma AddModulo(m: nat, n: nat)
    ensures (m % COUNTER + n) % COUNTER == (m + n) % COUNTER
  {
    assert m == m / COUNTER * COUNTER + m % COUNTER;
  }

  lemma NextEvent(s: Udp, e: UdpEvent, rest: seq<UdpEvent>)
    requires UdpInv(s) && UdpPossible(s, [e] + rest)
    ensures UdpEnabled(s, e) && UdpInv(UdpApply(s, e)) && UdpPossible(UdpApply(s, e), rest)
    ensures UdpAfter(s, [e] + rest) == UdpAfter(UdpApply(s, e), rest)
  {
    HeadAndTail(rest, e);
    UdpStep(s, e);
  }

  lemma NothingAfterClosing(s: Udp, run: seq<UdpEvent>)
    requires s.closed && UdpPossible(s, run)
    ensures run == [] && UdpAfter(s, run) == s
  {
  }

  lemma ArrivalRun(s: Udp, r: Receive, rest: seq<UdpEvent>)
    requires UdpInv(s) && r.Arrives? && UdpPossible(s, ReceiveEvents(r) + rest)
    ensures var t := UdpAfter(s, ReceiveEvents(r));
      && UdpInv(t) && !t.writing && t.deadline == r.written + s.idle && t.closed == s.closed
      && t.counter == (s.counter + |r.sentMeanwhile|) % COUNTER && t.seen == s.seen
      && t.sinceLook == s.sinceLook + |r.sentMeanwhile| && t.activity == s.activity + (r.sentMeanwhile + [r.written])
      && t.idle == s.idle && t.start == s.start
      && UdpPossible(t, rest) && UdpAfter(s, ReceiveEvents(r) + rest) == UdpAfter(t, rest)
  {
    hide UdpInv;
    var first, last := Datagram(r.at), Written(r.written);
    var a := UdpApply(s, first);
    Assoc2([first], Bumps(r.sentMeanwhile) + [last], rest);
    Assoc2(Bumps(r.sentMeanwhile), [last], rest);
    NextEvent(s, first, Bumps(r.sentMeanwhile) + ([last] + rest));
    HeadAndTail(Bumps(r.sentMeanwhile) + [last], first);
    BumpsRun(a, r.sentMeanwhile, [last] + rest);
    var b := UdpAfter(a, Bumps(r.sentMeanwhile));
    NextEvent(b, last, rest);
    BumpsThen(a, r.sentMeanwhile, last);
    BumpedCounter(a, r.sentMeanwhile, b);
    Assoc2(s.activity, r.sentMeanwhile, [r.written]);
  }

  lemma {:induction false} BumpsThen(s: Udp, sent: seq<int>, e: UdpEvent)
    ensures UdpAfter(s, Bumps(sent) + [e]) == UdpApply(UdpAfter(s, Bumps(sent)), e)
    decreases |sent|
  {
    var tail := Bumps(if |sent| == 0 then [] else sent[1..]);
    Units([e]);
    if |sent| > 0 {
      var t := UdpApply(s, Bump(sent[0]));
      Assoc2([Bump(sent[0])], tail, [e]);
      HeadAndTail(tail + [e], Bump(sent[0]));
      HeadAndTail(tail, Bump(sent[0]));
      BumpsThen(t, sent[1..], e);
    } else {
      HeadAndTail([], e);
      assert UdpAfter(UdpApply(s, e), []) == UdpApply(s, e);
    }
  }

  /** Every send is an activity, so there are no more of them. */
  lemma {:induction false} SendsAreActivity(waits: seq<Wait>)
    ensures Sends(waits) <= |UdpActivity(waits)|
    ensures (forall w :: w in waits ==> !w.receive.Arrives?) ==> Sends(waits) == |UdpActivity(waits)|
  {
    if |waits| > 0 {
      SendsAreActivity(waits[1..]);
    }
  }

  lemma FailsOnlyLastIs(waits: seq<Wait>)
    ensures FailsOnlyLast(waits) <==> forall i :: 0 <= i < |waits| && waits[i].receive.Fails? ==> i == |waits| - 1
  {
  }

  lemma {:induction false} NoEventsNoActivity(waits: seq<Wait>)
    requires UdpEvents(waits) == []
    ensures UdpActivity(waits) == []
  {
    if |waits| > 0 {
      assert |UdpEvents(waits)| >= |waits[0].sent| + |ReceiveEvents(waits[0].receive)| + |UdpEvents(waits[1..])|;
      NoEventsNoActivity(waits[1..]);
    }
  }

  /** How the downlink ends: idle at some instant, broken, or not within the turns at hand. */
  datatype Ending = IdleAt(at: int) | Broken | StillOpen

  predicate FailsOnlyLast(waits: seq<Wait>) {
    forall i :: 0 <= i < |waits| - 1 ==> !waits[i].receive.Fails?
  }

  /** The loop's variables are those of the automaton. */
  ghost predicate Follows(s: Udp, counter: nat, seen: nat, deadline: int) {
    UdpInv(s) && !s.closed && !s.writing && s.counter == counter && s.seen == seen && s.deadline == deadline
  }

  /** From `s`, the events of `left` lead to where all the events of `waits` lead. */
  ghost predicate OnTheWay(s: Udp, left: seq<Wait>, idle: nat, start: int, waits: seq<Wait>) {
    && s.idle == idle && s.start == start
    && UdpPossible(s, UdpEvents(left))
    && UdpAfter(s, UdpEvents(left)) == UdpAfter(UdpStart(idle, start), UdpEvents(waits))
    && s.activity + UdpActivity(left) == UdpActivity(waits)
    && s.sinceLook + Sends(left) <= Sends(waits)
  }

  /** The state a turn that goes on leaves behind. */
  ghost function AfterWait(s: Udp, w: Wait): Udp {
    UdpAfter(UdpAfter(s, Bumps(w.sent)), ReceiveEvents(w.receive))
  }

  /** What the end of a receive does to the loop's variables. */
  ghost predicate Ended(r: Receive, counter: nat, seen: nat, deadline: int, idle: nat, t: Udp) {
    match r
    case Arrives(_, meanwhile, written) => Follows(t, (counter + |meanwhile|) % COUNTER, seen, written + idle)
    case TimesOut =>
      if counter == seen then t.closed && t.now == deadline else Follows(t, counter, counter, deadline + idle)
    case Fails => Follows(t, counter, seen, deadline)
  }

  lemma ReceiveRun(s: Udp, r: Receive, rest: seq<UdpEvent>)
    requires UdpInv(s) && !s.closed && !s.writing && UdpPossible(s, ReceiveEvents(r) + rest)
    ensures var t := UdpAfter(s, ReceiveEvents(r));
      && UdpInv(t) && Ended(r, s.counter, s.seen, s.deadline, s.idle, t)
      && t.idle == s.idle && t.start == s.start && t.activity == s.activity + Completed(r)
      && t.sinceLook <= s.sinceLook + (if r.Arrives? then |r.sentMeanwhile| else 0)
      && UdpPossible(t, rest) && UdpAfter(s, ReceiveEvents(r) + rest) == UdpAfter(t, rest)
  {
    hide UdpInv, UdpAfter, UdpPossible, Bumps;
    Units(s.activity);
    match r {
      case Arrives(_, _, _) => ArrivalRun(s, r, rest);
      case TimesOut => TimeoutRun(s, rest);
      case Fails => FailureRun(s, rest);
    }
  }

  /** What a turn of the downlink does to the state, and where it leads. */
  lemma WaitRun(s: Udp, left: seq<Wait>, idle: nat, start: int, waits: seq<Wait>)
    requires UdpInv(s) && !s.closed && !s.writing && |left| > 0 && OnTheWay(s, left, idle, start, waits)
    ensures var w, t := left[0], AfterWait(s, left[0]);
      && UdpInv(t) && OnTheWay(t, left[1..], idle, start, waits)
      && Ended(w.receive, (s.counter + |w.sent|) % COUNTER, s.seen, s.deadline, idle, t)
  {
    hide UdpInv, UdpAfter, UdpPossible, Bumps, UdpStart, ReceiveEvents, Ended, Completed;
    var w, rest := left[0], left[1..];
    BumpsRun(s, w.sent, ReceiveEvents(w.receive) + UdpEvents(rest));
    var b := UdpAfter(s, Bumps(w.sent));
    BumpedCounter(s, w.sent, b);
    ReceiveRun(b, w.receive, UdpEvents(rest));
    Assoc2(s.activity, w.sent, Completed(w.receive) + UdpActivity(rest));
    Assoc2(b.activity, Completed(w.receive), UdpActivity(rest));
  }

  lemma TimeoutRun(s: Udp, rest: seq<UdpEvent>)
    requires UdpInv(s) && UdpPossible(s, ReceiveEvents(TimesOut) + rest)
    ensures var t := UdpAfter(s, ReceiveEvents(TimesOut));
      && UdpInv(t) && t.idle == s.idle && t.start == s.start && t.activity == s.activity && t.sinceLook <= s.sinceLook
      && (if s.counter == s.seen then t.closed && t.now == s.deadline
          else Follows(t, s.counter, s.counter, s.deadline + s.idle))
      && UdpPossible(t, rest) && UdpAfter(s, ReceiveEvents(TimesOut) + rest) == UdpAfter(t, rest)
  {
    hide UdpInv;
    NextEvent(s, Expire, rest);
    HeadAndTail([], Expire);
    assert UdpAfter(UdpApply(s, Expire), []) == UdpApply(s, Expire);
  }

  lemma FailureRun(s: Udp, rest: seq<UdpEvent>)
    requires UdpPossible(s, ReceiveEvents(Fails) + rest)
    ensures UdpAfter(s, ReceiveEvents(Fails)) == s && UdpPossible(s, rest)
    ensures UdpAfter(s, ReceiveEvents(Fails) + rest) == UdpAfter(s, rest)
  {
    Units(rest);
  }

  lemma ClosedInWindow(s: Udp, left: seq<Wait>, idle: nat, start: int, waits: seq<Wait>)
    requires UdpInv(s) && s.closed && OnTheWay(s, left, idle, start, waits)
    ensures UdpAfter(UdpStart(idle, start), UdpEvents(waits)) == s
    ensures var last := LastOf(start, UdpActivity(waits));
      s.now <= last + 2 * idle && (Sends(waits) < COUNTER ==> last + idle <= s.now)
  {
    hide UdpInv, UdpAfter, UdpPossible, UdpEvents, UdpStart, Sends, UdpActivity;
    ClosedWindow(s);
    NothingAfterClosing(s, UdpEvents(left));
    NoEventsNoActivity(left);
    Units(s.activity);
  }

  lemma ClosedWindow(s: Udp)
    requires UdpInv(s) && s.closed
    ensures s.now <= Last(s) + 2 * s.idle && (s.sinceLook < COUNTER ==> Last(s) + s.idle <= s.now)
  {
  }

  /** With no turns left, the state is where all the events lead. */
  lemma AllDone(s: Udp, idle: nat, start: int, waits: seq<Wait>)
    requires OnTheWay(s, [], idle, start, waits)
    ensures UdpAfter(UdpStart(idle, start), UdpEvents(waits)) == s
  {
  }

  /**
   The downlink of a UDP relay, next to an uplink that bumps the shared counter.
   If it ends the session for idleness, it does so one to two idle periods after
   the last activity in either direction, provided fewer than 2^64 datagrams went up.
   */
  method Downlink(idle: nat, start: int, waits: seq<Wait>) returns (ending: Ending)
    requires UdpPossible(UdpStart(idle, start), UdpEvents(waits))
    requires FailsOnlyLast(waits)
    ensures var s := UdpAfter(UdpStart(idle, start), UdpEvents(waits));
      (ending.IdleAt? <==> s.closed) && (ending.IdleAt? ==> ending.at == s.now)
    ensures ending == Broken <==> !ending.IdleAt? && |waits| > 0 && waits[|waits| - 1].receive.Fails?
    ensures ending.IdleAt? ==> ending.at <= LastOf(start, UdpActivity(waits)) + 2 * idle
    ensures ending.IdleAt? && Sends(waits) < 0x1_0000_0000_0000_0000 ==>
      LastOf(start, UdpActivity(waits)) + idle <= ending.at
  {
    hide UdpInv, Sends, UdpActivity, UdpAfter, UdpPossible, UdpEvents, OnTheWay, AfterWait;
    var counter: nat, seen: nat, deadline := 0, 0, start + idle;
    ghost var s := UdpStart(idle, start);
    StartOnTheWay(idle, start, waits);
    for k := 0 to |waits|
      invariant Follows(s, counter, seen, deadline)
      invariant OnTheWay(s, waits[k..], idle, start, waits)
      invariant k > 0 ==> !waits[k - 1].receive.Fails?
    {
      var w := waits[k];
      assert waits[k..][0] == w && waits[k..][1..] == waits[k + 1..];
      WaitRun(s, waits[k..], idle, start, waits);
      s := AfterWait(s, w);
      counter := (counter + |w.sent|) % COUNTER;
      match w.receive {
        case Arrives(_, meanwhile, written) =>
          counter := (counter + |meanwhile|) % COUNTER;
          deadline := written + idle;
        case TimesOut =>
          var now := counter;
          if now == seen {
            ClosedInWindow(s, waits[k + 1..], idle, start, waits);
            return IdleAt(deadline);
          }
          seen := now;
          deadline := deadline + idle;
        case Fails =>
          assert waits[k + 1..] == [];
          AllDone(s, idle, start, waits);
          return Broken;
      }
    }
    assert waits[|waits|..] == [];
    AllDone(s, idle, start, waits);
    return StillOpen;
  }

  lemma StartOnTheWay(idle: nat, start: int, waits: seq<Wait>)
    requires UdpPossible(UdpStart(idle, start), UdpEvents(waits))
    ensures waits[0..] == waits && OnTheWay(UdpStart(idle, start), waits, idle, start, waits)
    ensures Follows(UdpStart(idle, start), 0, 0, start + idle)
  {
    Units(UdpActivity(waits));
  }

  /** One turn of the task that waits for idleness: chunks written before it runs, and when it runs. */
  datatype Wake = Wake(chunks: seq<int>, at: int)

  function Chunks(times: seq<int>): seq<TcpEvent> {
    if |times| == 0 then [] else [Chunk(times[0])] + Chunks(times[1..])
  }

  function TcpEvents(wakes: seq<Wake>): seq<TcpEvent> {
    if |wakes| == 0 then [] else Chunks(wakes[0].chunks) + ([Poll(wakes[0].at)] + TcpEvents(wakes[1..]))
  }

  function ChunkTimes(wakes: seq<Wake>): seq<int> {
    if |wakes| == 0 then [] else wakes[0].chunks + ChunkTimes(wakes[1..])
  }

  lemma {:induction false} ChunksRun(s: Tcp, times: seq<int>, rest: seq<TcpEvent>, prompt: bool)
    requires TcpInv(s, prompt) && TcpPossible(s, Chunks(times) + rest, prompt)
    ensures var t := TcpAfter(s, Chunks(times));
      && TcpInv(t, prompt) && t.permit == (s.permit || |times| > 0) && t.activity == s.activity + times
      && t.deadline == s.deadline && t.closed == s.closed && t.idle == s.idle && t.start == s.start
      && TcpPossible(t, rest, prompt) && TcpAfter(s, Chunks(times) + rest) == TcpAfter(t, rest)
    decreases |times|
  {
    if |times| == 0 {
      Units(rest);
      Units(s.activity);
    } else {
      var e := Chunk(times[0]);
      Assoc2([e], Chunks(times[1..]), rest);
      HeadAndTail(Chunks(times[1..]) + rest, e);
      HeadAndTail(Chunks(times[1..]), e);
      TcpStep(s, e, prompt);
      ChunksRun(TcpApply(s, e), times[1..], rest, prompt);
      Assoc2(s.activity, [times[0]], times[1..]);
    }
  }

  ghost predicate TcpFollows(s: Tcp, deadline: int, permit: bool, prompt: bool) {
    TcpInv(s, prompt) && !s.closed && s.permit == permit && s.deadline == deadline
  }

  ghost predicate TcpOnTheWay(s: Tcp, left: seq<Wake>, idle: nat, start: int, wakes: seq<Wake>, prompt: bool) {
    && s.idle == idle && s.start == start
    && TcpPossible(s, TcpEvents(left), prompt)
    && TcpAfter(s, TcpEvents(left)) == TcpAfter(TcpStart(idle, start), TcpEvents(wakes))
    && s.activity + ChunkTimes(left) == ChunkTimes(wakes)
  }

  lemma WakeRun(s: Tcp, left: seq<Wake>, idle: nat, start: int, wakes: seq<Wake>, prompt: bool)
    requires TcpInv(s, prompt) && !s.closed && |left| > 0 && TcpOnTheWay(s, left, idle, start, wakes, prompt)
    ensures var w := left[0];
      var t := TcpApply(TcpAfter(s, Chunks(w.chunks)), Poll(w.at));
      && TcpInv(t, prompt) && TcpOnTheWay(t, left[1..], idle, start, wakes, prompt)
      && if s.permit || |w.chunks| > 0 then TcpFollows(t, w.at + idle, false, prompt)
         else if s.deadline <= w.at then t.closed && t.now == w.at
         else TcpFollows(t, s.deadline, false, prompt)
  {
    var w, rest := left[0], left[1..];
    var e := Poll(w.at);
    ChunksRun(s, w.chunks, [e] + TcpEvents(rest), prompt);
    var b := TcpAfter(s, Chunks(w.chunks));
    HeadAndTail(TcpEvents(rest), e);
    TcpStep(b, e, prompt);
    Assoc2(s.activity, w.chunks, ChunkTimes(rest));
  }

  lemma FiredWhenQuiet(s: Tcp, left: seq<Wake>, idle: nat, start: int, wakes: seq<Wake>, prompt: bool)
    requires TcpInv(s, prompt) && s.closed && TcpOnTheWay(s, left, idle, start, wakes, prompt)
    ensures TcpAfter(TcpStart(idle, start), TcpEvents(wakes)) == s
    ensures var last := LastOf(start, ChunkTimes(wakes));
      last + idle <= s.now && (prompt ==> s.now == last + idle == ExactClose(start, ChunkTimes(wakes), idle))
  {
    assert TcpEvents(left) == [];
    assert left == [];
    Units(s.activity);
  }

  /**
   The task that waits for a TCP relay to fall idle. However many chunks share the
   one permit, and however late the task runs, it gives up only after a full idle
   period without a chunk; run promptly, exactly when the exact timer closes.
   */
  method WaitForIdle(idle: nat, start: int, wakes: seq<Wake>, ghost prompt: bool) returns (gaveUp: Option<int>)
    requires TcpPossible(TcpStart(idle, start), TcpEvents(wakes), prompt)
    ensures gaveUp.Some? <==> TcpAfter(TcpStart(idle, start), TcpEvents(wakes)).closed
    ensures gaveUp.Some? ==>
      var last := LastOf(start, ChunkTimes(wakes));
      && last + idle <= gaveUp.value
      && (prompt ==> gaveUp.value == last + idle == ExactClose(start, ChunkTimes(wakes), idle))
  {
    hide TcpInv;
    var permit, deadline := false, start + idle;
    ghost var s := TcpStart(idle, start);
    TcpStartOnTheWay(idle, start, wakes, prompt);
    for k := 0 to |wakes|
      invariant TcpFollows(s, deadline, permit, prompt)
      invariant TcpOnTheWay(s, wakes[k..], idle, start, wakes, prompt)
    {
      var w := wakes[k];
      assert wakes[k..][0] == w && wakes[k..][1..] == wakes[k + 1..];
      WakeRun(s, wakes[k..], idle, start, wakes, prompt);
      s := TcpApply(TcpAfter(s, Chunks(w.chunks)), Poll(w.at));
      permit := permit || |w.chunks| > 0;
      if permit {
        permit := false;
        deadline := w.at + idle;
      } else if deadline <= w.at {
        FiredWhenQuiet(s, wakes[k + 1..], idle, start, wakes, prompt);
        return Some(w.at);
      }
    }
    assert wakes[|wakes|..] == [];
    return None;
  }

  lemma TcpStartOnTheWay(idle: nat, start: int, wakes: seq<Wake>, prompt: bool)
    requires TcpPossible(TcpStart(idle, start), TcpEvents(wakes), prompt)
    ensures wakes[0..] == wakes && TcpOnTheWay(TcpStart(idle, start), wakes, idle, start, wakes, prompt)
    ensures TcpFollows(TcpStart(idle, start), start + idle, false, prompt)
  {
    Units(ChunkTimes(wakes));
  }
}
