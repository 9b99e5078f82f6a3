/**
 A TCP relay as a whole: two copies and the idle timer they keep from firing, all
 three running as one task that gives each of them turns.
 */
module Relay {
  import opened Bytes
  import opened Wrappers
  import Streams
  import Timers = IdleTimers

  datatype Turn = Upload(at: int) | Download(at: int) | Timer(at: int)

  datatype Ending = Completed | Broken | IdleAt(at: int) | StillRunning

  /** Turns come in the order of time. */
  predicate InOrder(from: int, turns: seq<Turn>) {
    forall i, j :: 0 <= i <= j < |turns| ==> from <= turns[i].at <= turns[j].at
  }

  /** One direction: `all` was there to be read, `left` still is, and the rest was written, as far as taken. */
  ghost predicate Copied(all: seq<Byte>, left: seq<Byte>, before: seq<Byte>, now: seq<Byte>, room: Option<nat>) {
    |left| <= |all| && all[|all| - |left|..] == left
    && now == before + Streams.Taken(all[..|all| - |left|], room)
  }

  /** As many marks as chunks, none of them empty or too long. */
  predicate MarksCount(bytes: nat, marks: nat) {
    marks <= bytes <= marks * Streams.CHUNK
  }

  lemma CopiedMore(
    all: seq<Byte>, left: seq<Byte>, chunk: seq<Byte>, rest: seq<Byte>,
    before: seq<Byte>, now: seq<Byte>, room: Option<nat>)
    requires Copied(all, left, before, now, room) && chunk + rest == left
    requires Streams.FitsIn(all[..|all| - |left|], room)
    ensures var done := all[..|all| - |left|];
      var after := Streams.RoomAfter(done, room);
      && Copied(all, rest, before, now + Streams.Taken(chunk, after), room)
      && all[..|all| - |rest|] == done + chunk
      && (Streams.FitsIn(done + chunk, room) <==> Streams.FitsIn(chunk, after))
      && Streams.RoomAfter(done + chunk, room) == Streams.RoomAfter(chunk, after)
  {
    var done := all[..|all| - |left|];
    assert all == done + left;
    assert all[..|all| - |rest|] == done + chunk;
    Streams.TakenInParts(done, chunk, rest, room);
    Assoc2(before, done, Streams.Taken(chunk, Streams.RoomAfter(done, room)));
  }

  lemma NothingCopied(all: seq<Byte>, before: seq<Byte>, room: Option<nat>)
    ensures Copied(all, all, before, before, room) && all[..0] == []
  {
    Units(before);
  }

  lemma AllCopied(all: seq<Byte>, before: seq<Byte>, now: seq<Byte>, room: Option<nat>)
    requires Copied(all, [], before, now, room) && Streams.FitsIn(all[..|all|], room)
    ensures now == before + all
  {
    assert all[..|all|] == all;
  }

  /** One direction, with what it was at the beginning. */
  class Direction {
    const reader: Streams.Source
    const writer: Streams.Sink
    var ended: bool
    ghost const all: seq<Byte>
    ghost const before: seq<Byte>
    ghost const room: Option<nat>

    constructor (reader: Streams.Source, writer: Streams.Sink)
      ensures this.reader == reader && this.writer == writer && !ended
      ensures all == reader.Bytes() && before == writer.written && room == writer.room
      ensures Valid() && Done() == []
    {
      this.reader, this.writer, ended := reader, writer, false;
      all, before, room := reader.Bytes(), writer.written, writer.room;
      new;
      NothingCopied(all, before, room);
    }

    ghost function Done(): seq<Byte>
      reads this, reader
    {
      if |reader.Bytes()| <= |all| then all[..|all| - |reader.Bytes()|] else []
    }

    /** The writer has exactly what was read, and nothing has failed. */
    ghost predicate Valid()
      reads this, reader, writer
    {
      && |reader.Bytes()| <= |all| && Copied(all, reader.Bytes(), before, writer.written, room)
      && Streams.FitsIn(Done(), room) && writer.room == Streams.RoomAfter(Done(), room)
      && (ended ==> |reader.Bytes()| == 0 && !reader.broken && writer.closed && writer.written == before + all)
    }

    /** The writer has what was read, as far as it took it. */
    ghost predicate Copies()
      reads this, reader, writer
    {
      |reader.Bytes()| <= |all| && Copied(all, reader.Bytes(), before, writer.written, room)
    }

    method Go() returns (turn: Streams.Turn)
      requires Valid() && !ended
      modifies this, reader, writer
      ensures turn != Streams.Lost ==> Valid()
      ensures turn == Streams.Lost ==> (Done() == old(Done()) ==> reader.broken)
      ensures turn == Streams.Lost && Done() != old(Done()) ==> !Streams.FitsIn(Done(), room)
      ensures Done() == old(Done()) <==> |old(reader.Bytes())| == 0
      ensures writer.closed == (old(writer.closed) || ended)
      ensures Copies()
      ensures ended == (turn == Streams.AtItsEnd)
      ensures |Done()| - |old(Done())| <= Streams.CHUNK && |old(Done())| <= |Done()|
      ensures turn == Streams.Moved ==> |old(Done())| < |Done()|
      ensures turn == Streams.AtItsEnd ==> Done() == old(Done())
    {
      ghost var left, now := reader.Bytes(), writer.written;
      var chunk;
      turn, chunk := Streams.CopyTurn(reader, writer);
      CopiedMore(all, left, chunk, reader.Bytes(), before, now, room);
      ended := turn == Streams.AtItsEnd;
      if ended {
        Units(all[..|all| - |left|]);
        AllCopied(all, before, writer.written, room);
      }
    }
  }

  // ----- The timer beside the copies -----

  /** The timer's variables, after these events and with these chunks among them. */
  ghost predicate Follows(t: Timers.Tcp, permit: bool, deadline: int, chunks: seq<int>, events: seq<Timers.TcpEvent>) {
    && Timers.TcpInv(t, false) && !t.closed && t.permit == permit && t.deadline == deadline && t.activity == chunks
    && Reached(t, events)
  }

  /** `t` is where these events lead, and if they are prompt, the timer is exact there. */
  ghost predicate Reached(t: Timers.Tcp, events: seq<Timers.TcpEvent>) {
    var from := Timers.TcpStart(t.idle, t.start);
    Timers.TcpPossible(from, events, false) && Timers.TcpAfter(from, events) == t
  }

  lemma {:induction false} OneEventMore(s: Timers.Tcp, events: seq<Timers.TcpEvent>, e: Timers.TcpEvent)
    requires Timers.TcpPossible(s, events, false) && Timers.TcpEnabled(Timers.TcpAfter(s, events), e)
    ensures Timers.TcpPossible(s, events + [e], false)
    ensures Timers.TcpAfter(s, events + [e]) == Timers.TcpApply(Timers.TcpAfter(s, events), e)
    decreases |events|
  {
    var t := Timers.TcpApply(s, e);
    if |events| == 0 {
      Units([e]);
      HeadAndTail([], e);
      assert Timers.TcpPossible(t, [], false) && Timers.TcpAfter(t, []) == t;
    } else {
      TailOfConcat(events, [e]);
      OneEventMore(Timers.TcpApply(s, events[0]), events[1..], e);
    }
  }

  lemma TimerStep(
    t: Timers.Tcp, permit: bool, deadline: int, chunks: seq<int>,
    events: seq<Timers.TcpEvent>, e: Timers.TcpEvent)
    requires Follows(t, permit, deadline, chunks, events) && t.now <= e.at
    ensures var u := Timers.TcpApply(t, e);
      && Timers.TcpInv(u, false) && Reached(u, events + [e])
      && u.now == e.at && u.idle == t.idle && u.start == t.start
      && match e
         case Chunk(at) => Follows(u, true, deadline, chunks + [at], events + [e])
         case Poll(at) =>
           if permit then Follows(u, false, at + t.idle, chunks, events + [e])
           else if deadline <= at then u.closed && u.activity == chunks
           else Follows(u, false, deadline, chunks, events + [e])
  {
    Timers.TcpStep(t, e, false);
    OneEventMore(Timers.TcpStart(t.idle, t.start), events, e);
  }

  lemma FiredWhenQuiet(t: Timers.Tcp, events: seq<Timers.TcpEvent>)
    requires Reached(t, events) && t.closed
    ensures var last := Timers.LastOf(t.start, t.activity);
      && last + t.idle <= t.now
      && (Timers.TcpPossible(Timers.TcpStart(t.idle, t.start), events, true) ==>
            t.now == last + t.idle == Timers.ExactClose(t.start, t.activity, t.idle))
  {
    Timers.TcpIdleTimeout(t.idle, t.start, events, false);
    StaysIdle(Timers.TcpStart(t.idle, t.start), events);
    if Timers.TcpPossible(Timers.TcpStart(t.idle, t.start), events, true) {
      Timers.TcpIdleTimeout(t.idle, t.start, events, true);
    }
  }

  lemma {:induction false} StaysIdle(s: Timers.Tcp, events: seq<Timers.TcpEvent>)
    ensures Timers.TcpAfter(s, events).idle == s.idle && Timers.TcpAfter(s, events).start == s.start
    decreases |events|
  {
    if |events| > 0 {
      StaysIdle(Timers.TcpApply(s, events[0]), events[1..]);
    }
  }

  /** The timer with its stored permit, and what has happened to it. */
  class Watch {
    var permit: bool
    var deadline: int
    var chunks: seq<int>
    const idle: nat
    ghost const start: int
    ghost var t: Timers.Tcp
    ghost var events: seq<Timers.TcpEvent>

    constructor (idle: nat, start: int)
      ensures Valid() && Says(false) && this.idle == idle && this.start == start && t.now == start
      ensures chunks == [] && events == []
    {
      this.idle, this.start := idle, start;
      permit, deadline, chunks := false, start + idle, [];
      t, events := Timers.TcpStart(idle, start), [];
    }

    ghost predicate Valid()
      reads this
    {
      Follows(t, permit, deadline, chunks, events) && t.idle == idle && t.start == start
    }

    /** The events account for the marks, and for whether the timer has fired. */
    ghost predicate Says(fired: bool)
      reads this
    {
      var now := Timers.TcpAfter(Timers.TcpStart(idle, start), events);
      now.activity == chunks && now.closed == fired
      && Timers.TcpPossible(Timers.TcpStart(idle, start), events, false)
    }

    /** A chunk has been written. */
    method Mark(at: int)
      requires Valid() && t.now <= at
      modifies this
      ensures Valid() && Says(false) && chunks == old(chunks) + [at] && t.now == at
      ensures events == old(events) + [Timers.Chunk(at)]
    {
      TimerStep(t, permit, deadline, chunks, events, Timers.Chunk(at));
      permit, chunks := true, chunks + [at];
      t, events := Timers.TcpApply(t, Timers.Chunk(at)), events + [Timers.Chunk(at)];
    }

    /** The waiting task runs: a stored permit re-arms the timer, and only without one is the timer looked at. */
    method Check(at: int) returns (fired: bool)
      requires Valid() && t.now <= at
      modifies this
      ensures chunks == old(chunks) && t.now == at && Reached(t, events) && t.idle == idle && t.start == start
      ensures t.activity == chunks && t.closed == fired
      ensures Says(fired) && events == old(events) + [Timers.Poll(at)]
      ensures !fired ==> Valid()
      ensures fired ==> Quiet(idle, start, chunks, events, at)
    {
      TimerStep(t, permit, deadline, chunks, events, Timers.Poll(at));
      t, events := Timers.TcpApply(t, Timers.Poll(at)), events + [Timers.Poll(at)];
      if permit {
        permit, deadline := false, at + idle;
        return false;
      }
      fired := deadline <= at;
      if fired {
        FiredWhenQuiet(t, events);
      }
    }
  }

  /** A full idle period has passed since the last chunk, and if the timer was served promptly, not a moment more. */
  ghost predicate Quiet(idle: nat, start: int, chunks: seq<int>, events: seq<Timers.TcpEvent>, at: int) {
    var last := Timers.LastOf(start, chunks);
    && last + idle <= at
    && (Timers.TcpPossible(Timers.TcpStart(idle, start), events, true) ==>
          at == last + idle == Timers.ExactClose(start, chunks, idle))
  }

  // ----- What the turns come to -----

  /** A turn taken, and how many bytes it moved. */
  datatype Took = Took(turn: Turn, bytes: nat)

  predicate Of(turn: Turn, upward: bool) {
    if upward then turn.Upload? else turn.Download?
  }

  /** How many bytes went this way. */
  function Total(log: seq<Took>, upward: bool): nat {
    if |log| == 0 then 0
    else
      var last := log[|log| - 1];
      Total(log[..|log| - 1], upward) + if Of(last.turn, upward) then last.bytes else 0
  }

  /** The timer sees every look at it, and every chunk. */
  function EventOf(t: Took): seq<Timers.TcpEvent> {
    if t.turn.Timer? then [Timers.Poll(t.turn.at)] else if t.bytes > 0 then [Timers.Chunk(t.turn.at)] else []
  }

  function EventsOf(log: seq<Took>): seq<Timers.TcpEvent> {
    if |log| == 0 then [] else EventsOf(log[..|log| - 1]) + EventOf(log[|log| - 1])
  }

  /** A turn of this direction found nothing more to read. */
  predicate EndSeen(log: seq<Took>, upward: bool) {
    exists k :: 0 <= k < |log| && Of(log[k].turn, upward) && log[k].bytes == 0
  }

  /** Turns move chunks; only the timer's, and those behind the last byte, move nothing. */
  predicate Sensible(log: seq<Took>, upward: bool, all: nat) {
    forall k :: 0 <= k < |log| ==>
      && log[k].bytes <= 16384
      && (log[k].turn.Timer? ==> log[k].bytes == 0)
      && (Of(log[k].turn, upward) && log[k].bytes == 0 ==> Total(log[..k], upward) == all)
  }

  predicate SensibleNext(log: seq<Took>, t: Took, upward: bool, all: nat) {
    && t.bytes <= 16384 && (t.turn.Timer? ==> t.bytes == 0)
    && (Of(t.turn, upward) && t.bytes == 0 ==> Total(log, upward) == all)
  }

  lemma LogSnoc(log: seq<Took>, t: Took, upward: bool, all: nat)
    ensures Total(log + [t], upward) == Total(log, upward) + if Of(t.turn, upward) then t.bytes else 0
    ensures EventsOf(log + [t]) == EventsOf(log) + EventOf(t)
    ensures EndSeen(log + [t], upward) <==> EndSeen(log, upward) || (Of(t.turn, upward) && t.bytes == 0)
    ensures Sensible(log, upward, all) && SensibleNext(log, t, upward, all) ==> Sensible(log + [t], upward, all)
  {
    var more := log + [t];
    assert more[..|more| - 1] == log && more[|log|] == t;
    assert forall k :: 0 <= k < |log| ==> more[k] == log[k] && more[..k] == log[..k];
    if EndSeen(log, upward) {
      var k :| 0 <= k < |log| && Of(log[k].turn, upward) && log[k].bytes == 0;
      assert more[k] == log[k];
    }
    if Of(t.turn, upward) && t.bytes == 0 {
      assert Of(more[|log|].turn, upward) && more[|log|].bytes == 0;
    }
  }

  lemma {:induction false} RunInParts(s: Timers.Tcp, a: seq<Timers.TcpEvent>, b: seq<Timers.TcpEvent>)
    ensures Timers.TcpPossible(s, a + b, false) <==>
      Timers.TcpPossible(s, a, false) && Timers.TcpPossible(Timers.TcpAfter(s, a), b, false)
    ensures Timers.TcpAfter(s, a + b) == Timers.TcpAfter(Timers.TcpAfter(s, a), b)
    decreases |a|
  {
    if |a| == 0 {
      Units(b);
    } else {
      TailOfConcat(a, b);
      RunInParts(Timers.TcpApply(s, a[0]), a[1..], b);
    }
  }

  /** Turns that move nothing are, to the timer, at most looks at it. */
  lemma {:induction false} QuietTurns(log: seq<Took>, i: nat, j: nat) returns (times: seq<int>)
    requires i <= j <= |log| && forall k :: i <= k < j ==> log[k].bytes == 0
    ensures EventsOf(log[..j]) == EventsOf(log[..i]) + Timers.Polls(times)
    decreases j
  {
    if i == j {
      times := [];
      Units(EventsOf(log[..i]));
    } else {
      var before := QuietTurns(log, i, j - 1);
      var last := log[j - 1];
      assert log[..j][..j - 1] == log[..j - 1];
      times := before + if last.turn.Timer? then [last.turn.at] else [];
      PollsSnoc(before, last.turn.at);
      Units(before);
      Assoc2(EventsOf(log[..i]), Timers.Polls(before), EventOf(last));
      Units(Timers.Polls(before));
    }
  }

  lemma {:induction false} PollsSnoc(times: seq<int>, t: int)
    ensures Timers.Polls(times + [t]) == Timers.Polls(times) + [Timers.Poll(t)]
  {
    if |times| == 0 {
      HeadAndTail([], t);
      Units([t]);
      Units([Timers.Poll(t)]);
    } else {
      TailOfConcat(times, [t]);
      PollsSnoc(times[1..], t);
      Assoc2([Timers.Poll(times[0])], Timers.Polls(times[1..]), [Timers.Poll(t)]);
    }
  }

  /**
   A quiet relay gives up: of two looks at the timer an idle period apart, with no
   chunk in either direction between them, it does not outlive the second.
   */
  lemma QuietRelayGivesUp(idle: nat, start: int, log: seq<Took>, i: nat, j: nat)
    requires i < j < |log| && log[i].turn.Timer? && log[j].turn.Timer?
    requires forall k :: i <= k <= j ==> log[k].bytes == 0
    requires log[i].turn.at + idle <= log[j].turn.at
    requires Timers.TcpPossible(Timers.TcpStart(idle, start), EventsOf(log[..j + 1]), false)
    ensures Timers.TcpAfter(Timers.TcpStart(idle, start), EventsOf(log[..j + 1])).closed
  {
    var from, first, last := Timers.TcpStart(idle, start), log[i].turn.at, log[j].turn.at;
    var head := EventsOf(log[..i]);
    assert log[..i + 1][..i] == log[..i] && log[..j + 1][..j] == log[..j];
    var times := QuietTurns(log, i + 1, j);
    var looks := Timers.Polls(times);
    assert EventsOf(log[..i + 1]) == head + [Timers.Poll(first)];
    Assoc2(head, [Timers.Poll(first)], looks);
    Assoc2(head, [Timers.Poll(first)] + looks, [Timers.Poll(last)]);
    Assoc2([Timers.Poll(first)], looks, [Timers.Poll(last)]);
    RunInParts(from, head, [Timers.Poll(first)] + (looks + [Timers.Poll(last)]));
    var s := Timers.TcpAfter(from, head);
    HeadAndTail(looks + [Timers.Poll(last)], Timers.Poll(first));
    var t := Timers.TcpApply(s, Timers.Poll(first));
    RunInParts(t, looks, [Timers.Poll(last)]);
    HeadAndTail([], Timers.Poll(last));
    Timers.TcpRun(from, head, false);
    OneIsApply(Timers.TcpAfter(t, looks), Timers.Poll(last));
    ClosedMovesNoMore(t, looks + [Timers.Poll(last)]);
    Timers.TcpMustFire(s, first, times, last);
  }

  lemma OneIsApply(s: Timers.Tcp, e: Timers.TcpEvent)
    ensures Timers.TcpAfter(s, [e]) == Timers.TcpApply(s, e)
    ensures Timers.TcpPossible(s, [e], false) ==> Timers.TcpEnabled(s, e)
  {
    HeadAndTail([], e);
    assert Timers.TcpAfter(Timers.TcpApply(s, e), []) == Timers.TcpApply(s, e);
  }

  lemma ClosedMovesNoMore(s: Timers.Tcp, events: seq<Timers.TcpEvent>)
    requires Timers.TcpPossible(s, events, false) && |events| > 0
    ensures !s.closed
  {
  }

  // ----- The relay -----

  /**
   Relays both ways until both directions are done, one of them fails, or no chunk
   has moved either way for an idle period. Whatever the order of turns, each
   side has a prefix of what the other sent. The relay is broken exactly if a
   reader or writer failed, completed exactly if both directions saw their end,
   and idle exactly if the timer fired on these turns; a direction that is over
   before the other is no reason to stop.
   */
  method RelayTcp(
    fromClient: Streams.Source, toUpstream: Streams.Sink,
    fromUpstream: Streams.Source, toClient: Streams.Sink,
    idle: nat, start: int, turns: seq<Turn>)
    returns (ending: Ending, chunks: seq<int>, ghost log: seq<Took>)
    requires fromClient != fromUpstream && toUpstream != toClient
    requires forall i, j :: 0 <= i <= j < |turns| ==> start <= turns[i].at <= turns[j].at
    modifies fromClient, toUpstream, fromUpstream, toClient
    ensures Copied(old(fromClient.Bytes()), fromClient.Bytes(),
      old(toUpstream.written), toUpstream.written, old(toUpstream.room))
    ensures Copied(old(fromUpstream.Bytes()), fromUpstream.Bytes(),
      old(toClient.written), toClient.written, old(toClient.room))
    // The turns taken, and what each moved.
    ensures |log| <= |turns| && forall k :: 0 <= k < |log| ==> log[k].turn == turns[k]
    ensures Total(log, true) == |old(fromClient.Bytes())| - |fromClient.Bytes()|
    ensures Total(log, false) == |old(fromUpstream.Bytes())| - |fromUpstream.Bytes()|
    ensures forall k :: 0 <= k < |log| ==>
      && log[k].bytes <= 16384 && (log[k].turn.Timer? ==> log[k].bytes == 0)
      && (log[k].turn.Upload? && log[k].bytes == 0 ==> Total(log[..k], true) == |old(fromClient.Bytes())|)
      && (log[k].turn.Download? && log[k].bytes == 0 ==> Total(log[..k], false) == |old(fromUpstream.Bytes())|)
    // How it ended.
    ensures ending == Broken <==>
      || (fromClient.broken && EndSeen(log, true))
      || (fromUpstream.broken && EndSeen(log, false))
      || !Streams.FitsIn(old(fromClient.Bytes())[..Total(log, true)], old(toUpstream.room))
      || !Streams.FitsIn(old(fromUpstream.Bytes())[..Total(log, false)], old(toClient.room))
    ensures ending == Completed <==> ending != Broken && EndSeen(log, true) && EndSeen(log, false)
    ensures ending == Completed ==>
      && toUpstream.closed && toUpstream.written == old(toUpstream.written) + old(fromClient.Bytes())
      && toClient.closed && toClient.written == old(toClient.written) + old(fromUpstream.Bytes())
    ensures ending == StillRunning ==> |log| == |turns|
    ensures ending != Broken ==>
      && toUpstream.closed == (old(toUpstream.closed) || EndSeen(log, true))
      && toClient.closed == (old(toClient.closed) || EndSeen(log, false))
    // What the timer saw of it.
    ensures ending != Broken ==>
      var from := Timers.TcpStart(idle, start);
      var t := Timers.TcpAfter(from, EventsOf(log));
      && Timers.TcpPossible(from, EventsOf(log), false)
      && t.activity == chunks && (t.closed <==> ending.IdleAt?)
      && |chunks| <= Total(log, true) + Total(log, false) <= |chunks| * 16384
    ensures ending.IdleAt? ==>
      var last := Timers.LastOf(start, chunks);
      && |log| > 0 && log[|log| - 1].turn == Timer(ending.at) && last + idle <= ending.at
      && (Timers.TcpPossible(Timers.TcpStart(idle, start), EventsOf(log), true) ==>
            ending.at == last + idle == Timers.ExactClose(start, chunks, idle))
  {
    hide Copied, Follows, Reached, Timers.TcpPossible, Timers.TcpAfter, Streams.Taken, Streams.RoomAfter;
    hide EndSeen, Total, EventsOf;
    var up := new Direction(fromClient, toUpstream);
    var down := new Direction(fromUpstream, toClient);
    var watch := new Watch(idle, start);
    ending, log := TakeTurns(up, down, watch, turns);
    chunks := watch.chunks;
  }

  /** The turns, until there is a reason to stop. */
  method TakeTurns(up: Direction, down: Direction, watch: Watch, turns: seq<Turn>)
    returns (ending: Ending, ghost log: seq<Took>)
    requires up != down && up.reader != down.reader && up.writer != down.writer
    requires up.Valid() && down.Valid() && watch.Valid() && watch.Says(false)
    requires !up.ended && !down.ended && up.Done() == down.Done() == [] && watch.chunks == [] && watch.events == []
    requires InOrder(watch.t.now, turns)
    modifies up, up.reader, up.writer, down, down.reader, down.writer, watch
    ensures up.Copies() && down.Copies() && watch.Says(ending.IdleAt?)
    ensures |log| <= |turns| && forall k :: 0 <= k < |log| ==> log[k].turn == turns[k]
    ensures Total(log, true) == |up.Done()| && Sensible(log, true, |up.all|)
    ensures Total(log, false) == |down.Done()| && Sensible(log, false, |down.all|)
    ensures ending == Broken ==> Failed(up, log, true) || Failed(down, log, false)
    ensures ending != Broken ==>
      && up.Valid() && down.Valid() && Accounted(log, up, true) && Accounted(log, down, false)
      && up.writer.closed == (old(up.writer.closed) || up.ended)
      && down.writer.closed == (old(down.writer.closed) || down.ended)
      && watch.events == EventsOf(log)
      && MarksCount(|up.Done()| + |down.Done()|, |watch.chunks|)
    ensures ending == Completed <==> ending != Broken && up.ended && down.ended
    ensures ending == StillRunning ==> |log| == |turns|
    ensures ending.IdleAt? ==>
      && |log| > 0 && log[|log| - 1].turn == Timer(ending.at)
      && Quiet(watch.idle, watch.start, watch.chunks, watch.events, ending.at)
  {
    hide Copied, Follows, Quiet, Reached, Timers.TcpPossible, Timers.TcpAfter, Streams.Taken, Streams.RoomAfter;
    hide EndSeen, Sensible, Total, EventsOf;
    log := [];
    NothingTaken(|up.all|, |down.all|);
    for k := 0 to |turns|
      invariant up.Valid() && down.Valid() && watch.Valid() && watch.Says(false)
      invariant !(up.ended && down.ended)
      invariant |log| == k && forall j :: 0 <= j < k ==> log[j].turn == turns[j]
      invariant Accounted(log, up, true) && Accounted(log, down, false) && watch.events == EventsOf(log)
      invariant up.writer.closed == (old(up.writer.closed) || up.ended)
      invariant down.writer.closed == (old(down.writer.closed) || down.ended)
      invariant MarksCount(|up.Done()| + |down.Done()|, |watch.chunks|)
      invariant forall j :: k <= j < |turns| ==> watch.t.now <= turns[j].at
    {
      ghost var took;
      ending, took := TakeTurn(up, down, watch, turns[k]);
      LogSnoc(log, took, true, |up.all|);
      LogSnoc(log, took, false, |down.all|);
      log := log + [took];
      if ending != StillRunning {
        return ending, log;
      }
    }
    return StillRunning, log;
  }

  /** The connection was lost at the reader's end, or the writer had no room for what was read. */
  ghost predicate Failed(d: Direction, log: seq<Took>, upward: bool)
    reads d, d.reader, d.writer
  {
    (d.reader.broken && EndSeen(log, upward)) || !Streams.FitsIn(d.Done(), d.room)
  }

  lemma NothingTaken(up: nat, down: nat)
    ensures Total([], true) == 0 && Total([], false) == 0 && EventsOf([]) == []
    ensures !EndSeen([], true) && !EndSeen([], false) && Sensible([], true, up) && Sensible([], false, down)
  {
  }

  /** The log tells what a direction has done. */
  ghost predicate Accounted(log: seq<Took>, d: Direction, upward: bool)
    reads d, d.reader, d.writer
  {
    && Total(log, upward) == |d.Done()| && Sensible(log, upward, |d.all|)
    && (d.ended <==> EndSeen(log, upward))
  }

  /** One turn of one of the three. */
  method TakeTurn(up: Direction, down: Direction, watch: Watch, turn: Turn) returns (ending: Ending, ghost took: Took)
    requires up != down && up.reader != down.reader && up.writer != down.writer
    requires up.Valid() && down.Valid() && watch.Valid() && watch.Says(false) && watch.t.now <= turn.at
    requires !(up.ended && down.ended)
    requires MarksCount(|up.Done()| + |down.Done()|, |watch.chunks|)
    modifies up, up.reader, up.writer, down, down.reader, down.writer, watch
    ensures up.Copies() && down.Copies() && watch.Says(ending.IdleAt?)
    ensures took.turn == turn && took.bytes <= 16384 && (turn.Timer? ==> took.bytes == 0)
    ensures |up.Done()| == |old(up.Done())| + if turn.Upload? then took.bytes else 0
    ensures |down.Done()| == |old(down.Done())| + if turn.Download? then took.bytes else 0
    ensures turn.Upload? && took.bytes == 0 ==> |old(up.Done())| == |up.all|
    ensures turn.Download? && took.bytes == 0 ==> |old(down.Done())| == |down.all|
    ensures ending != Broken ==>
      && up.Valid() && down.Valid()
      && up.ended == (old(up.ended) || (turn.Upload? && took.bytes == 0))
      && down.ended == (old(down.ended) || (turn.Download? && took.bytes == 0))
      && up.writer.closed == (old(up.writer.closed) || (up.ended && !old(up.ended)))
      && down.writer.closed == (old(down.writer.closed) || (down.ended && !old(down.ended)))
      && watch.events == old(watch.events) + EventOf(took)
      && MarksCount(|up.Done()| + |down.Done()|, |watch.chunks|)
    ensures ending == Broken ==>
      if turn.Upload? then (up.reader.broken && took.bytes == 0) || !Streams.FitsIn(up.Done(), up.room)
      else turn.Download? && ((down.reader.broken && took.bytes == 0) || !Streams.FitsIn(down.Done(), down.room))
    ensures ending == Completed <==> ending != Broken && up.ended && down.ended
    ensures ending == StillRunning ==>
      watch.Valid() && watch.Says(false) && (watch.t.now == turn.at || watch.t.now == old(watch.t.now))
    ensures ending.IdleAt? ==> turn == Timer(ending.at)
    ensures ending.IdleAt? ==> Quiet(watch.idle, watch.start, watch.chunks, watch.events, ending.at)
  {
    hide Copied, Follows, Quiet, Reached, Timers.TcpPossible, Timers.TcpAfter, Streams.Taken, Streams.RoomAfter;
    if turn.Timer? {
      var fired := watch.Check(turn.at);
      return if fired then IdleAt(turn.at) else StillRunning, Took(turn, 0);
    }
    var ok;
    ghost var bytes;
    if turn.Upload? {
      ok, bytes := Serve(up, watch, turn.at);
    } else {
      ok, bytes := Serve(down, watch, turn.at);
    }
    return if !ok then Broken else if up.ended && down.ended then Completed else StillRunning, Took(turn, bytes);
  }

  /** A turn of one direction; once that is over there is nothing to do. A chunk leaves a mark. */
  method Serve(d: Direction, watch: Watch, at: int) returns (ok: bool, ghost bytes: nat)
    requires d.Valid() && watch.Valid() && watch.Says(false) && watch.t.now <= at
    modifies d, d.reader, d.writer, watch
    ensures watch.Valid() && watch.Says(false) && (watch.t.now == at || watch.t.now == old(watch.t.now))
    ensures d.Copies() && |d.Done()| == |old(d.Done())| + bytes && bytes <= 16384
    ensures bytes == 0 ==> |old(d.Done())| == |d.all|
    ensures ok ==>
      && d.Valid() && d.ended == (old(d.ended) || bytes == 0)
      && d.writer.closed == (old(d.writer.closed) || (d.ended && !old(d.ended)))
      && watch.events == old(watch.events) + (if bytes > 0 then [Timers.Chunk(at)] else [])
      && |watch.chunks| == |old(watch.chunks)| + (if bytes > 0 then 1 else 0)
    ensures !ok ==> (d.reader.broken && bytes == 0) || !Streams.FitsIn(d.Done(), d.room)
  {
    hide Copied, Follows;
    Units(watch.events);
    if d.ended {
      return true, 0;
    }
    ghost var before := |d.Done()|;
    var turn := d.Go();
    if turn == Streams.Moved {
      watch.Mark(at);
    }
    return turn != Streams.Lost, |d.Done()| - before;
  }
}
