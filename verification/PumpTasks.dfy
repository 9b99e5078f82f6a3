/**
 The tasks of one lane as the imperative loops they are, sharing pipes, channel
 and stream. Every turn of a task is one step of the lane; running the tasks
 under any fair schedule until none can move delivers everything, or, on a
 broken stream, everything that was not lost.
 */
module PumpTasks {
  import opened Bytes
  import opened Lane
  import opened Wire
  import opened Wrappers

  datatype Task = WriterTask | PumpTask | StreamTask | DeliveryTask | PipeTask | ReaderTask

  class Tunnel {
    const opening: seq<Byte>
    const closesOnError: bool
    // writer side
    var backlog: seq<Byte>
    var writerClosed: bool
    var inPipe: seq<Byte>
    // pump task: the frame being sent, and whether the task still runs
    var held: Option<seq<Byte>>
    var pumping: bool
    var channel: seq<seq<Byte>>
    // HTTP/2 stream
    var wire: seq<seq<Byte>>
    var stream: Lane.Stream
    // delivery task; a server's starts by awaiting the opening frame
    var awaiting: bool
    var header: seq<Byte>
    var inHand: Option<seq<Byte>>
    var delivering: bool
    var outPipe: seq<Byte>
    var outClosed: bool
    var othersGone: bool     // whoever shares the delivery task's end of the pipe has let go of it
    // reader side
    var received: seq<Byte>
    var sawEof: bool
    ghost var offered: seq<Byte>

    constructor (opening: seq<Byte>, closesOnError: bool)
      requires |opening| <= FRAME_SIZE
      ensures Valid() && State() == Start(opening, closesOnError) && !othersGone
    {
      this.opening, this.closesOnError := opening, closesOnError;
      backlog, writerClosed, inPipe := [], false, [];
      held, pumping, channel := None, true, if |opening| == 0 then [] else [opening];
      wire, stream := [], Live;
      awaiting, header, inHand, delivering := |opening| > 0, [], None, true;
      outPipe, outClosed, othersGone, received, sawEof := [], false, false, [], false;
      offered := opening;
      new;
      StartInv(opening, closesOnError);
    }

    /** The lane state these fields stand for. */
    ghost function State(): Lane.State
      reads this
    {
      Lane.State(opening, closesOnError, offered, backlog, writerClosed, inPipe,
        if held.Some? then Holding(held.value) else if pumping then Reading else PumpEnded,
        channel, wire, stream,
        if awaiting then Opening
        else if inHand.Some? then Writing(inHand.value)
        else if delivering then Receiving else DeliveryEnded,
        outPipe, outClosed, header, received, sawEof)
    }

    ghost predicate Valid()
      reads this
    {
      && Inv(State())
      && (held.Some? ==> pumping) && (inHand.Some? ==> delivering && !awaiting) && (awaiting ==> delivering)
    }

    /** The writer hands over a buffer; the pipe will take it in parts. */
    method Offer(data: seq<Byte>)
      requires Valid() && !writerClosed && |backlog| == 0
      modifies this
      ensures Valid() && State() == Apply(old(State()), Step.Offer(data))
    {
      StepInv(State(), Step.Offer(data));
      backlog := data;
      offered := offered + data;
    }

    method Close()
      requires Valid() && !writerClosed && |backlog| == 0
      modifies this
      ensures Valid() && State() == Apply(old(State()), Step.Close)
    {
      StepInv(State(), Step.Close);
      writerClosed := true;
    }

    /** The stream breaks. */
    method Break(kept: nat)
      requires Valid() && Enabled(State(), Fail(kept))
      modifies this
      ensures Valid() && State() == Apply(old(State()), Fail(kept))
    {
      StepInv(State(), Fail(kept));
      stream, wire, channel := Failed, wire[..kept], [];
    }

    /** As much of the write in progress as the pipe has room for. */
    method WriterTurn() returns (moved: bool, ghost step: Step)
      requires Valid()
      modifies this
      ensures Valid() && othersGone == old(othersGone) && Moved(old(State()), State(), othersGone, moved, step)
      ensures !moved ==> WriterIdle(State())
    {
      hide Conserves, OpensProperly, EndsInOrder, Distance, Moved;
      var n := Min(|backlog|, PIPE_CAPACITY - |inPipe|);
      moved, step := n > 0, PipeWrite(n);
      if moved {
        Advance(State(), othersGone, step);
        inPipe := inPipe + backlog[..n];
        backlog := backlog[n..];
      } else {
        Stays(State(), othersGone, step);
      }
    }

    /** The held frame goes into the channel once there is room, or is lost with the stream. */
    method SendHeld() returns (moved: bool, ghost step: Step)
      requires Valid() && held.Some?
      modifies this
      ensures Valid() && othersGone == old(othersGone) && Moved(old(State()), State(), othersGone, moved, step)
      ensures !moved ==> PumpIdle(State())
    {
      hide Conserves, OpensProperly, EndsInOrder, Distance, Moved;
      moved, step := true, PumpBreak;
      if stream == Failed {
        Advance(State(), othersGone, step);
        held, pumping := None, false;
      } else if |channel| < CHANNEL_SLOTS {
        step := PumpSend;
        Advance(State(), othersGone, step);
        channel := channel + [held.value];
        held := None;
      } else {
        Stays(State(), othersGone, step);
        moved := false;
      }
    }

    /** The next frame is what one read of the pipe gives; at the pipe's end the loop is over. */
    method FillFrame() returns (moved: bool, ghost step: Step)
      requires Valid() && held.None?
      modifies this
      ensures Valid() && othersGone == old(othersGone) && Moved(old(State()), State(), othersGone, moved, step)
      ensures !moved ==> PumpIdle(State())
    {
      hide Conserves, OpensProperly, EndsInOrder, Distance, Moved;
      moved, step := true, PumpEnd;
      if pumping && |inPipe| > 0 {
        var n := Min(|inPipe|, FRAME_SIZE);
        step := PumpRead(n);
        Advance(State(), othersGone, step);
        held := Some(inPipe[..n]);
        inPipe := inPipe[n..];
      } else if pumping && writerClosed {
        Advance(State(), othersGone, step);
        pumping := false;
      } else {
        Stays(State(), othersGone, step);
        moved := false;
      }
    }

    /** One turn of the pump loop. */
    method PumpTurn() returns (moved: bool, ghost step: Step)
      requires Valid()
      modifies this
      ensures Valid() && othersGone == old(othersGone) && Moved(old(State()), State(), othersGone, moved, step)
      ensures !moved ==> PumpIdle(State())
    {
      hide Apply, Inv, Moved;
      if held.Some? {
        moved, step := SendHeld();
      } else {
        moved, step := FillFrame();
      }
    }

    /** The HTTP/2 side of the channel. */
    method StreamTurn() returns (moved: bool, ghost step: Step)
      requires Valid()
      modifies this
      ensures Valid() && othersGone == old(othersGone) && Moved(old(State()), State(), othersGone, moved, step)
      ensures !moved ==> StreamIdle(State())
    {
      hide Conserves, OpensProperly, EndsInOrder, Distance, Moved;
      moved, step := true, Finish;
      if stream == Live && |channel| > 0 {
        step := Transmit;
        Advance(State(), othersGone, step);
        wire := wire + [channel[0]];
        channel := channel[1..];
      } else if stream == Live && !pumping {
        Advance(State(), othersGone, step);
        stream := Finished;
      } else {
        Stays(State(), othersGone, step);
        return false, step;
      }
    }

    /** The server takes the opening frame and only then starts its loops; without that frame the open fails. */
    method AcceptTurn() returns (moved: bool, ghost step: Step)
      requires Valid() && awaiting
      modifies this
      ensures Valid() && othersGone == old(othersGone) && Moved(old(State()), State(), othersGone, moved, step)
      ensures !moved ==> DeliveryIdle(State())
    {
      hide Conserves, OpensProperly, EndsInOrder, Distance, Moved;
      moved, step := true, EndDelivery;
      if |wire| > 0 {
        step := Accept;
        Advance(State(), othersGone, step);
        header := wire[0];
        wire := wire[1..];
        awaiting := false;
      } else if stream != Live {
        Advance(State(), othersGone, step);
        awaiting, delivering, outClosed := false, false, false;
      } else {
        Stays(State(), othersGone, step);
        return false, step;
      }
    }

    /** As much of the frame in hand as the outgoing pipe has room for. */
    method WriteOn() returns (moved: bool, ghost step: Step)
      requires Valid() && inHand.Some?
      modifies this
      ensures Valid() && othersGone == old(othersGone) && Moved(old(State()), State(), othersGone, moved, step)
      ensures !moved ==> DeliveryIdle(State())
    {
      hide Conserves, OpensProperly, EndsInOrder, Distance, Moved;
      var n := Min(|inHand.value|, PIPE_CAPACITY - |outPipe|);
      moved, step := n > 0, DeliverPart(n);
      if moved {
        Advance(State(), othersGone, step);
        outPipe := outPipe + inHand.value[..n];
        inHand := if n == |inHand.value| then None else Some(inHand.value[n..]);
      } else {
        Stays(State(), othersGone, step);
      }
    }

    method TakeFrame() returns (moved: bool, ghost step: Step)
      requires Valid() && !awaiting && inHand.None? && delivering && |wire| > 0
      modifies this
      ensures Valid() && othersGone == old(othersGone) && Moved(old(State()), State(), othersGone, moved, step)
      ensures moved
    {
      hide Conserves, OpensProperly, EndsInOrder, Distance, Moved;
      moved, step := true, Receive;
      Advance(State(), othersGone, step);
      inHand := Some(wire[0]);
      wire := wire[1..];
    }

    /** The end of the stream: a clean one, or a failure that some lanes take for one. */
    method MeetEnd() returns (moved: bool, ghost step: Step)
      requires Valid() && !awaiting && inHand.None? && delivering && |wire| == 0 && stream != Live
      modifies this
      ensures Valid() && othersGone == old(othersGone) && Moved(old(State()), State(), othersGone, moved, step)
      ensures moved
    {
      hide Conserves, Bounded, Distance, Moved;
      moved, step := true, EndDelivery;
      Advance(State(), othersGone, step);
      delivering, outClosed := false, stream == Finished || closesOnError;
    }

    /** One turn of the delivery task: await the opening frame, push on with the frame in hand, or take the next. */
    method DeliveryTurn() returns (moved: bool, ghost step: Step)
      requires Valid()
      modifies this
      ensures Valid() && othersGone == old(othersGone) && Moved(old(State()), State(), othersGone, moved, step)
      ensures !moved ==> DeliveryIdle(State())
    {
      hide Apply, Inv, Moved, Idle;
      if awaiting {
        moved, step := AcceptTurn();
      } else if inHand.Some? {
        moved, step := WriteOn();
      } else if delivering && |wire| > 0 {
        moved, step := TakeFrame();
      } else if delivering && stream != Live {
        moved, step := MeetEnd();
      } else {
        moved, step := false, EndDelivery;
        Stays(State(), othersGone, step);
      }
    }

    /** An end of a pipe that nobody holds any more is closed. */
    method PipeTurn() returns (moved: bool, ghost step: Step)
      requires Valid()
      modifies this
      ensures Valid() && othersGone == old(othersGone) && Moved(old(State()), State(), othersGone, moved, step)
      ensures !moved ==> PipeIdle(State(), othersGone)
    {
      hide Conserves, OpensProperly, EndsInOrder, Distance, Moved;
      var held := awaiting || inHand.Some? || delivering || !othersGone;
      moved, step := !held && header == opening && !outClosed, DropPipe;
      if moved {
        Advance(State(), othersGone, step);
        outClosed := true;
      } else {
        Stays(State(), othersGone, step);
      }
    }

    /** Whoever shares the delivery task's end of the pipe lets go of it. */
    method OthersLeave()
      requires Valid()
      modifies this
      ensures Valid() && othersGone && State() == old(State())
    {
      othersGone := true;
    }

    /** The reader takes at most `limit` bytes, or learns that there are no more. */
    method ReaderTurn(limit: nat) returns (moved: bool, ghost step: Step)
      requires Valid() && limit > 0
      modifies this
      ensures Valid() && othersGone == old(othersGone) && Moved(old(State()), State(), othersGone, moved, step)
      ensures !moved ==> ReaderIdle(State())
    {
      hide Conserves, OpensProperly, EndsInOrder, Distance, Moved;
      moved, step := true, ReadEof;
      if |outPipe| > 0 {
        var n := Min(|outPipe|, limit);
        step := Step.Read(n);
        Advance(State(), othersGone, step);
        received := received + outPipe[..n];
        outPipe := outPipe[n..];
      } else if outClosed && !sawEof {
        Advance(State(), othersGone, step);
        sawEof := true;
      } else {
        Stays(State(), othersGone, step);
        return false, step;
      }
    }

    method Turn(task: Task, limit: nat) returns (moved: bool, ghost step: Step)
      requires Valid() && limit > 0
      modifies this
      ensures Valid() && othersGone == old(othersGone) && Moved(old(State()), State(), othersGone, moved, step)
      ensures !moved ==> Idle(task, State(), othersGone)
    {
      match task {
        case WriterTask => moved, step := WriterTurn();
        case PumpTask => moved, step := PumpTurn();
        case StreamTask => moved, step := StreamTurn();
        case DeliveryTask => moved, step := DeliveryTurn();
        case PipeTask => moved, step := PipeTurn();
        case ReaderTask => moved, step := ReaderTurn(limit);
      }
    }

    /** Some tasks in some order. */
    method Round(tasks: seq<Task>, limit: nat) returns (moved: bool)
      requires Valid() && limit > 0
      modifies this
      ensures Valid() && othersGone == old(othersGone) && SameGoal(old(State()), State(), othersGone)
      ensures moved ==> Distance(State()) < old(Distance(State()))
      ensures !moved ==> State() == old(State()) && forall t :: t in tasks ==> Idle(t, State(), othersGone)
    {
      hide Apply, Inv, Distance, Enabled, Idle, Down;
      moved := false;
      for k := 0 to |tasks|
        invariant Valid() && othersGone == old(othersGone) && SameGoal(old(State()), State(), othersGone)
        invariant moved ==> Distance(State()) < old(Distance(State()))
        invariant !moved ==> State() == old(State()) && forall i :: 0 <= i < k ==> Idle(tasks[i], State(), othersGone)
      {
        var did, _ := Turn(tasks[k], limit);
        moved := moved || did;
      }
    }

    /**
     Runs the tasks, in every round each at least once and in any order, until a
     round moves nothing. However large the write in progress, everything offered
     has then been read, and the end as well; after a break, everything that got
     past it, and an end exactly where breaks are taken for one or the delivery
     task was the last to hold its end of the pipe.
     */
    method Drain(rounds: nat -> seq<Task>, limit: nat)
      requires Valid() && limit > 0
      requires forall k :: Fair(rounds(k))
      modifies this
      ensures Valid() && othersGone == old(othersGone) && SameGoal(old(State()), State(), othersGone)
      ensures offered == old(offered) && writerClosed == old(writerClosed)
      ensures stream == Failed <==> old(stream) == Failed
      ensures stream != Failed ==> header + received == offered && (writerClosed ==> sawEof)
      ensures stream == Failed ==> header + received == Down(old(State()))
      ensures stream == Failed ==> (sawEof <==> header == opening && (closesOnError || othersGone || old(outClosed)))
    {
      hide Apply, Inv, Distance, Enabled, Idle, Down;
      var moving, k := true, 0;
      while moving
        invariant Valid() && othersGone == old(othersGone) && SameGoal(old(State()), State(), othersGone)
        invariant !moving ==> forall t :: Idle(t, State(), othersGone)
        decreases Distance(State()), moving
      {
        moving := Round(rounds(k), limit);
        assert Fair(rounds(k));
        k := k + 1;
      }
      AllIdleIsSettled(State(), othersGone);
    }
  }

  predicate Fair(tasks: seq<Task>) {
    forall t: Task :: t in tasks
  }

  /** What no turn changes: the input, whether the stream is broken, what can arrive after that, a pipe others hold. */
  predicate SameGoal(before: Lane.State, after: Lane.State, othersGone: bool) {
    && after.offered == before.offered && after.closed == before.closed
    && (after.stream == Failed <==> before.stream == Failed)
    && (before.stream == Failed ==> Down(after) == Down(before))
    && (before.stream == Failed && !before.closesOnError && !othersGone ==> after.outClosed == before.outClosed)
    && after.closesOnError == before.closesOnError && (before.outClosed ==> after.outClosed)
  }

  /** A turn either is one step of the lane, nearer the goal, or leaves everything as it was. */
  ghost predicate Moved(before: Lane.State, after: Lane.State, othersGone: bool, moved: bool, step: Step) {
    if moved then
      (Internal(step) || (step == DropPipe && othersGone)) && Enabled(before, step) && after == Apply(before, step)
      && Distance(after) < Distance(before) && SameGoal(before, after, othersGone)
    else after == before
  }

  lemma Advance(s: Lane.State, othersGone: bool, e: Step)
    requires Inv(s) && (Internal(e) || (e == DropPipe && othersGone)) && Enabled(s, e)
    ensures Inv(Apply(s, e)) && Moved(s, Apply(s, e), othersGone, true, e)
  {
    hide Apply, Inv, Distance, Down, Enabled, EndsInOrder, Internal;
    StepInv(s, e);
    InternalStepsApproach(s, e);
    InvEnds(s);
    if s.outClosed {
      PipeStaysClosed(s, e);
    }
    StepConstants(s, e);
    if s.stream == Failed {
      FailedKeepsDown(s, e);
      if !s.closesOnError && !othersGone {
        FailedKeepsPipe(s, e);
      }
    }
  }

  lemma PipeStaysClosed(s: Lane.State, e: Step)
    requires EndsInOrder(s) && Enabled(s, e) && s.outClosed
    ensures Apply(s, e).outClosed
  {
  }

  lemma Stays(s: Lane.State, othersGone: bool, e: Step)
    ensures Moved(s, s, othersGone, false, e)
  {
  }

  predicate Idle(t: Task, s: Lane.State, othersGone: bool) {
    match t
    case WriterTask => WriterIdle(s)
    case PumpTask => PumpIdle(s)
    case StreamTask => StreamIdle(s)
    case DeliveryTask => DeliveryIdle(s)
    case PipeTask => PipeIdle(s, othersGone)
    case ReaderTask => ReaderIdle(s)
  }

  predicate WriterIdle(s: Lane.State) { |s.backlog| == 0 || |s.inPipe| == PIPE_CAPACITY }

  predicate PumpIdle(s: Lane.State) {
    match s.pump
    case Holding(_) => |s.channel| == CHANNEL_SLOTS && s.stream != Failed
    case Reading => |s.inPipe| == 0 && !s.closed
    case PumpEnded => true
  }

  predicate StreamIdle(s: Lane.State) { s.stream == Live ==> |s.channel| == 0 && s.pump != PumpEnded }

  predicate DeliveryIdle(s: Lane.State) {
    match s.delivery
    case Writing(_) => |s.outPipe| == PIPE_CAPACITY
    case DeliveryEnded => true
    case _ => |s.wire| == 0 && s.stream == Live
  }

  predicate PipeIdle(s: Lane.State, othersGone: bool) {
    othersGone && s.delivery == DeliveryEnded && s.header == s.opening ==> s.outClosed
  }

  predicate ReaderIdle(s: Lane.State) { |s.outPipe| == 0 && (s.outClosed ==> s.sawEof) }

  /** When every task is idle no step of a task is possible. */
  lemma AllIdleIsStuck(s: Lane.State, othersGone: bool)
    requires EndsInOrder(s) && forall t :: Idle(t, s, othersGone)
    ensures Stuck(s) && PipeIdle(s, othersGone)
  {
    assert Idle(WriterTask, s, othersGone) && Idle(PumpTask, s, othersGone) && Idle(StreamTask, s, othersGone);
    assert Idle(DeliveryTask, s, othersGone) && Idle(PipeTask, s, othersGone) && Idle(ReaderTask, s, othersGone);
  }

  /** And then there is nothing left to move. */
  lemma AllIdleIsSettled(s: Lane.State, othersGone: bool)
    requires Inv(s) && forall t :: Idle(t, s, othersGone)
    ensures s.stream != Failed ==> Settled(s)
    ensures s.stream == Failed ==>
      && s.header + s.delivered == Down(s) && (s.sawEof <==> s.outClosed)
      && (s.outClosed ==> s.header == s.opening)
      && (s.header == s.opening && (s.closesOnError || othersGone) ==> s.outClosed)
  {
    AllIdleIsStuck(s, othersGone);
    hide Idle, Stuck, Down, Conserves, Bounded, OpensProperly;
    if s.stream == Failed {
      RestOfFailed(s);
      StuckAfterFailure(s);
    } else if !Settled(s) {
      NeverStuck(s);
      StuckMovesNothing(s, NextStep(s));
    }
  }

  lemma StuckMovesNothing(s: Lane.State, e: Step)
    requires Stuck(s) && Internal(e)
    ensures !Enabled(s, e)
  {
  }
}
