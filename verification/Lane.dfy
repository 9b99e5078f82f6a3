/**
 One direction of a gRPC tunnel: writer, duplex pipe, pump task, bounded frame
 channel, HTTP/2 stream, delivery task, second duplex pipe, reader. Tasks are
 scheduled independently, so the lane is a transition system: any enabled step
 may happen next, with any admissible read or write size.
 */
module Lane {
  import opened Bytes

  const PIPE_CAPACITY := 65536
  const FRAME_SIZE := 16384
  const CHANNEL_SLOTS := 32

  type Frame = seq<Byte>

  /** The task that turns pipe bytes into frames: waiting to read, holding a frame to send, or finished. */
  datatype Pump = Reading | Holding(frame: Frame) | PumpEnded

  /** The task that turns frames back into pipe bytes; a server first awaits the opening frame. */
  datatype Delivery = Opening | Receiving | Writing(left: seq<Byte>) | DeliveryEnded

  /** How the frame stream stands: live, finished by its sender, or failed. */
  datatype Stream = Live | Finished | Failed

  datatype State = State(
    opening: Frame,          // the frame a server consumes before its pipes exist; [] on a response lane
    closesOnError: bool,     // does the delivery task shut its pipe down when the stream fails?
    offered: seq<Byte>,      // everything the writer has handed over, opening frame included
    backlog: seq<Byte>,      // the part of the current write not yet accepted by the pipe
    closed: bool,            // the writer has shut down
    inPipe: seq<Byte>,
    pump: Pump,
    channel: seq<Frame>,
    wire: seq<Frame>,
    stream: Stream,
    delivery: Delivery,
    outPipe: seq<Byte>,
    outClosed: bool,         // the pipe to the reader has been shut down, or its other end dropped
    header: seq<Byte>,       // the opening frame, once consumed
    delivered: seq<Byte>,    // everything the reader has read
    sawEof: bool)

  function Start(opening: Frame, closesOnError: bool): State {
    State(opening, closesOnError, opening, [], false, [], Reading,
      if |opening| == 0 then [] else [opening], [], Live,
      if |opening| == 0 then Receiving else Opening, [], false, [], [], false)
  }

  datatype Step =
    | Offer(data: seq<Byte>)  // the writer starts a write
    | Close                   // the writer shuts down
    | PipeWrite(n: nat)       // the pipe accepts part of the write
    | PumpRead(n: nat)        // one read of at most a frame
    | PumpSend                // the held frame fits into the channel
    | PumpEnd                 // end of pipe: the sender side of the channel is dropped
    | PumpBreak               // the channel's receiver is gone: the held frame is lost
    | Transmit                // the stream takes a frame from the channel
    | Finish                  // channel empty and closed: the stream ends
    | Fail(kept: nat)         // the stream breaks, finished or not, losing all but some of the frames under way
    | Accept                  // the server takes the opening frame
    | Receive                 // the delivery task takes a frame
    | DeliverPart(n: nat)     // its pipe accepts part of the frame
    | EndDelivery             // the delivery task meets the end of the stream
    | DropPipe                // nobody holds the pipe's other end any more, which closes it
    | Read(n: nat)            // the reader reads
    | ReadEof                 // the reader is told there is no more

  // Which part of the lane a step belongs to.
  predicate OfSender(e: Step) {
    e.Offer? || e.Close? || e.PipeWrite? || e.PumpRead? || e.PumpSend? || e.PumpEnd? || e.PumpBreak?
  }
  predicate OfStream(e: Step) { e.Transmit? || e.Finish? || e.Fail? }
  predicate OfReceiver(e: Step) { !OfSender(e) && !OfStream(e) }

  function HeldFrame(s: State): seq<Byte> { if s.pump.Holding? then s.pump.frame else [] }
  function InHand(s: State): seq<Byte> { if s.delivery.Writing? then s.delivery.left else [] }

  predicate Enabled(s: State, e: Step) {
    match e
    case Offer(_) => !s.closed && |s.backlog| == 0
    case Close => !s.closed && |s.backlog| == 0
    case PipeWrite(n) => 1 <= n <= |s.backlog| && |s.inPipe| + n <= PIPE_CAPACITY
    case PumpRead(n) => s.pump == Reading && 1 <= n <= |s.inPipe| && n <= FRAME_SIZE
    case PumpSend => s.pump.Holding? && |s.channel| < CHANNEL_SLOTS && s.stream != Failed
    case PumpEnd => s.pump == Reading && |s.inPipe| == 0 && s.closed
    case PumpBreak => s.pump.Holding? && s.stream == Failed
    case Transmit => s.stream == Live && |s.channel| > 0
    case Finish => s.stream == Live && |s.channel| == 0 && s.pump == PumpEnded
    case Fail(kept) => s.stream != Failed && s.delivery != DeliveryEnded && kept <= |s.wire|
    case Accept => s.delivery == Opening && |s.wire| > 0
    case Receive => s.delivery == Receiving && |s.wire| > 0
    case DeliverPart(n) => s.delivery.Writing? && 1 <= n <= |s.delivery.left| && |s.outPipe| + n <= PIPE_CAPACITY
    case EndDelivery => (s.delivery == Receiving || s.delivery == Opening) && |s.wire| == 0 && s.stream != Live
    case DropPipe => s.delivery == DeliveryEnded && s.header == s.opening && !s.outClosed
    case Read(n) => 1 <= n <= |s.outPipe|
    case ReadEof => |s.outPipe| == 0 && s.outClosed && !s.sawEof
  }

  function Apply(s: State, e: Step): State
    requires Enabled(s, e)
  {
    match e
    case Offer(data) => s.(offered := s.offered + data, backlog := data)
    case Close => s.(closed := true)
    case PipeWrite(n) => s.(inPipe := s.inPipe + s.backlog[..n], backlog := s.backlog[n..])
    case PumpRead(n) => s.(pump := Holding(s.inPipe[..n]), inPipe := s.inPipe[n..])
    case PumpSend => s.(channel := s.channel + [s.pump.frame], pump := Reading)
    case PumpEnd => s.(pump := PumpEnded)
    case PumpBreak => s.(pump := PumpEnded)
    case Transmit => s.(wire := s.wire + [s.channel[0]], channel := s.channel[1..])
    case Finish => s.(stream := Finished)
    case Fail(kept) => s.(stream := Failed, wire := s.wire[..kept], channel := [])
    case Accept => s.(header := s.wire[0], wire := s.wire[1..], delivery := Receiving)
    case Receive => s.(delivery := AfterFrame(s.wire[0]), wire := s.wire[1..])
    case DeliverPart(n) => s.(outPipe := s.outPipe + s.delivery.left[..n], delivery := AfterFrame(s.delivery.left[n..]))
    case EndDelivery => s.(delivery := DeliveryEnded,
      outClosed := s.delivery == Receiving && (s.stream == Finished || s.closesOnError))
    case DropPipe => s.(outClosed := true)
    case Read(n) => s.(delivered := s.delivered + s.outPipe[..n], outPipe := s.outPipe[n..])
    case ReadEof => s.(sawEof := true)
  }

  /** Writing nothing more than an empty remainder is done at once. */
  function AfterFrame(left: seq<Byte>): Delivery {
    if |left| == 0 then Receiving else Writing(left)
  }

  // ----- What every run keeps -----

  /** Bytes that are past the sender's half of the lane, in order. */
  function Down(s: State): seq<Byte> {
    s.header + s.delivered + s.outPipe + InHand(s) + Flatten(s.wire)
  }

  /** Bytes still in the sender's half, in order. */
  function Up(s: State): seq<Byte> {
    Flatten(s.channel) + HeldFrame(s) + s.inPipe + s.backlog
  }

  /** Nothing lost, nothing duplicated, nothing reordered; after a failure, nothing but a lost tail. */
  predicate Conserves(s: State) {
    if s.stream == Failed then Down(s) <= s.offered else Down(s) + Up(s) == s.offered
  }

  predicate FrameSizes(fs: seq<Frame>) {
    forall i :: 0 <= i < |fs| ==> 1 <= |fs[i]| <= FRAME_SIZE
  }

  /** Capacities and frame sizes. */
  predicate Bounded(s: State) {
    && |s.inPipe| <= PIPE_CAPACITY && |s.outPipe| <= PIPE_CAPACITY
    && |s.channel| <= CHANNEL_SLOTS
    && FrameSizes(s.channel) && FrameSizes(s.wire)
    && (s.pump.Holding? ==> 1 <= |s.pump.frame| <= FRAME_SIZE)
    && (s.delivery.Writing? ==> 1 <= |s.delivery.left| <= FRAME_SIZE)
  }

  /** Ends travel behind the data: each stage is drained before the next one learns of the end. */
  predicate EndsInOrder(s: State) {
    && (s.stream != Failed && s.pump == PumpEnded ==> s.closed && |s.inPipe| == 0)
    && (s.closed ==> |s.backlog| == 0)
    && (s.stream == Finished ==> s.pump == PumpEnded && |s.channel| == 0)
    && (s.stream == Failed ==> |s.channel| == 0)
    && (s.delivery == DeliveryEnded ==> s.stream != Live && |s.wire| == 0)
    && (s.outClosed ==> s.delivery == DeliveryEnded && s.header == s.opening)
    && (s.delivery == DeliveryEnded && s.stream == Finished ==> s.outClosed)
    && (s.delivery == DeliveryEnded && s.closesOnError && s.header == s.opening ==> s.outClosed)
    && (s.sawEof ==> s.outClosed && |s.outPipe| == 0)
  }

  predicate NothingPast(s: State) {
    |s.header| == 0 && |s.delivered| == 0 && |s.outPipe| == 0
  }

  /** The opening frame reaches the server whole, first and alone. */
  predicate OpensProperly(s: State) {
    && |s.opening| <= FRAME_SIZE
    && (s.delivery == Opening ==> |s.opening| > 0 && NothingPast(s))
    && (s.delivery == Opening && s.stream != Failed ==>
          |s.wire + s.channel| > 0 && (s.wire + s.channel)[0] == s.opening)
    && (s.delivery == Opening && s.stream == Failed && |s.wire| > 0 ==> s.wire[0] == s.opening)
    && (s.delivery != Opening && s.delivery != DeliveryEnded ==> s.header == s.opening)
    && (s.delivery == DeliveryEnded ==> s.header == s.opening || (s.stream == Failed && NothingPast(s) && !s.outClosed))
  }

  predicate Inv(s: State) {
    Conserves(s) && Bounded(s) && EndsInOrder(s) && OpensProperly(s)
  }

  lemma StartInv(opening: Frame, closesOnError: bool)
    requires |opening| <= FRAME_SIZE
    ensures Inv(Start(opening, closesOnError))
  {
    FlattenOne(opening);
  }

  lemma FlattenPop(fs: seq<Frame>)
    requires |fs| > 0
    ensures Flatten(fs) == fs[0] + Flatten(fs[1..])
  {
  }

  lemma FlattenPush(fs: seq<Frame>, f: Frame)
    ensures Flatten(fs + [f]) == Flatten(fs) + f
  {
    FlattenConcat(fs, [f]);
    FlattenOne(f);
  }

  lemma {:induction false} FlattenPrefix(fs: seq<Frame>, k: nat)
    requires k <= |fs|
    ensures Flatten(fs[..k]) <= Flatten(fs)
  {
    FlattenConcat(fs[..k], fs[k..]);
    Rejoin(fs, k);
  }

  lemma Rejoin<T>(a: seq<T>, n: nat)
    requires n <= |a|
    ensures a[..n] + a[n..] == a
  {
  }

  /** Moving `m` from one part of a concatenation to the part before it. */
  lemma Shift<T>(x: seq<T>, a: seq<T>, m: seq<T>, r: seq<T>)
    ensures (x + (a + m)) + r == (x + a) + (m + r)
  {
  }

  lemma PullOut<T>(f: seq<T>, a: seq<T>, b: seq<T>, c: seq<T>, d: seq<T>)
    ensures (f + a) + b + c + d == f + (a + b + c + d)
  {
  }

  lemma PipeWriteKept(s: State, n: nat)
    requires Enabled(s, PipeWrite(n))
    ensures Up(Apply(s, PipeWrite(n))) == Up(s) && Down(Apply(s, PipeWrite(n))) == Down(s)
  {
    Rejoin(s.backlog, n);
    Shift(Flatten(s.channel) + HeldFrame(s), s.inPipe, s.backlog[..n], s.backlog[n..]);
  }

  lemma PumpReadKept(s: State, n: nat)
    requires Enabled(s, PumpRead(n))
    ensures Up(Apply(s, PumpRead(n))) == Up(s) && Down(Apply(s, PumpRead(n))) == Down(s)
  {
    var c := Flatten(s.channel);
    Rejoin(s.inPipe, n);
    Units(c);
    Assoc2(c, s.inPipe[..n], s.inPipe[n..]);
  }

  lemma PumpSendKept(s: State)
    requires Enabled(s, PumpSend)
    ensures Up(Apply(s, PumpSend)) == Up(s) && Down(Apply(s, PumpSend)) == Down(s)
  {
    FlattenPush(s.channel, s.pump.frame);
    Units(Flatten(s.channel) + s.pump.frame);
  }

  lemma ReceiveKept(s: State)
    requires Enabled(s, Receive)
    ensures Up(Apply(s, Receive)) == Up(s) && Down(Apply(s, Receive)) == Down(s)
  {
    var base := s.header + s.delivered + s.outPipe;
    FlattenPop(s.wire);
    Units(base);
    Assoc2(base, s.wire[0], Flatten(s.wire[1..]));
    assert InHand(Apply(s, Receive)) == s.wire[0];
  }

  lemma DeliverPartKept(s: State, n: nat)
    requires Enabled(s, DeliverPart(n))
    ensures Up(Apply(s, DeliverPart(n))) == Up(s) && Down(Apply(s, DeliverPart(n))) == Down(s)
  {
    var left := s.delivery.left;
    Rejoin(left, n);
    Shift(s.header + s.delivered, s.outPipe, left[..n], left[n..]);
    assert InHand(Apply(s, DeliverPart(n))) == left[n..];
  }

  lemma ReadKept(s: State, n: nat)
    requires Enabled(s, Read(n))
    ensures Up(Apply(s, Read(n))) == Up(s) && Down(Apply(s, Read(n))) == Down(s)
  {
    Rejoin(s.outPipe, n);
    Shift(s.header, s.delivered, s.outPipe[..n], s.outPipe[n..]);
  }

  lemma TransmitKept(s: State)
    requires Enabled(s, Transmit)
    ensures Down(Apply(s, Transmit)) + Up(Apply(s, Transmit)) == Down(s) + Up(s)
  {
    var t := Apply(s, Transmit);
    var f, rest := s.channel[0], s.channel[1..];
    var base := s.header + s.delivered + s.outPipe + InHand(s);
    FlattenPop(s.channel);
    FlattenPush(s.wire, f);
    PullOut(f, Flatten(rest), HeldFrame(s), s.inPipe, s.backlog);
    assert Up(s) == f + Up(t);
    Shift(base, Flatten(s.wire), f, Up(t));
  }

  lemma AcceptKept(s: State)
    requires Enabled(s, Accept) && OpensProperly(s)
    ensures Down(Apply(s, Accept)) == Down(s) && Up(Apply(s, Accept)) == Up(s)
  {
    FlattenPop(s.wire);
    assert Down(s) == Flatten(s.wire);
    assert Down(Apply(s, Accept)) == s.wire[0] + Flatten(s.wire[1..]);
  }

  lemma FailKept(s: State, kept: nat)
    requires Enabled(s, Fail(kept)) && Conserves(s)
    ensures Conserves(Apply(s, Fail(kept)))
  {
    FlattenPrefix(s.wire, kept);
    var base := s.header + s.delivered + s.outPipe + InHand(s);
    assert base + Flatten(s.wire[..kept]) <= base + Flatten(s.wire);
    assert Down(Apply(s, Fail(kept))) <= Down(s) <= s.offered;
  }

  lemma OfferKept(s: State, data: seq<Byte>)
    requires Enabled(s, Offer(data)) && Conserves(s)
    ensures Conserves(Apply(s, Offer(data)))
  {
    var front := Flatten(s.channel) + HeldFrame(s) + s.inPipe;
    Units(front);
    assert Up(s) == front;
    Assoc2(Down(s), front, data);
  }

  lemma SenderConserves(s: State, e: Step)
    requires Conserves(s) && EndsInOrder(s) && Enabled(s, e)
    requires OfSender(e)
    ensures Conserves(Apply(s, e))
  {
    match e {
      case Offer(data) => OfferKept(s, data);
      case PipeWrite(n) => PipeWriteKept(s, n);
      case PumpRead(n) => PumpReadKept(s, n);
      case PumpSend => PumpSendKept(s);
      case _ =>
    }
  }

  lemma StreamConserves(s: State, e: Step)
    requires Conserves(s) && Enabled(s, e)
    requires OfStream(e)
    ensures Conserves(Apply(s, e))
  {
    match e {
      case Transmit => TransmitKept(s);
      case Fail(kept) => FailKept(s, kept);
      case _ =>
    }
  }

  lemma EndsConserve(s: State, e: Step)
    requires Conserves(s) && Enabled(s, e) && (e.EndDelivery? || e.DropPipe? || e.ReadEof?)
    ensures Conserves(Apply(s, e))
  {
  }

  lemma ReceiverConserves(s: State, e: Step)
    requires Conserves(s) && OpensProperly(s) && Enabled(s, e)
    requires OfReceiver(e)
    ensures Conserves(Apply(s, e))
  {
    match e {
      case Accept => AcceptKept(s);
      case Receive => ReceiveKept(s);
      case DeliverPart(n) => DeliverPartKept(s, n);
      case Read(n) => ReadKept(s, n);
      case EndDelivery => EndsConserve(s, e);
      case DropPipe => EndsConserve(s, e);
      case ReadEof => EndsConserve(s, e);
    }
  }

  lemma SenderBounded(s: State, e: Step)
    requires Bounded(s) && EndsInOrder(s) && Enabled(s, e) && OfSender(e)
    ensures Bounded(Apply(s, e)) && EndsInOrder(Apply(s, e))
  {
  }

  lemma StreamBounded(s: State, e: Step)
    requires Bounded(s) && EndsInOrder(s) && Enabled(s, e) && OfStream(e)
    ensures Bounded(Apply(s, e)) && EndsInOrder(Apply(s, e))
  {
  }

  lemma FrameTakenBounded(s: State, e: Step)
    requires Bounded(s) && EndsInOrder(s) && Enabled(s, e) && (e.Accept? || e.Receive?)
    ensures Bounded(Apply(s, e)) && EndsInOrder(Apply(s, e))
  {
  }

  lemma ReceiverBounded(s: State, e: Step)
    requires Bounded(s) && EndsInOrder(s) && OpensProperly(s) && Enabled(s, e)
    requires e.DeliverPart? || e.EndDelivery? || e.DropPipe? || e.Read? || e.ReadEof?
    ensures Bounded(Apply(s, e)) && EndsInOrder(Apply(s, e))
  {
  }

  lemma TransmitOpens(s: State)
    requires OpensProperly(s) && Enabled(s, Transmit)
    ensures OpensProperly(Apply(s, Transmit))
  {
    var t := Apply(s, Transmit);
    var f, rest := s.channel[0], s.channel[1..];
    assert [f] + rest == s.channel;
    Assoc2(s.wire, [f], rest);
    assert t.wire + t.channel == s.wire + s.channel;
  }

  lemma SenderOpens(s: State, e: Step)
    requires OpensProperly(s) && Enabled(s, e) && OfSender(e)
    ensures OpensProperly(Apply(s, e))
  {
    if e.PumpSend? {
      Assoc2(s.wire, s.channel, [s.pump.frame]);
    }
  }

  lemma StreamOpens(s: State, e: Step)
    requires OpensProperly(s) && EndsInOrder(s) && Enabled(s, e) && OfStream(e)
    ensures OpensProperly(Apply(s, e))
  {
    if e.Transmit? {
      TransmitOpens(s);
    }
  }

  lemma ReceiverOpens(s: State, e: Step)
    requires OpensProperly(s) && EndsInOrder(s) && Enabled(s, e) && OfReceiver(e)
    ensures OpensProperly(Apply(s, e))
  {
  }

  lemma StepInv(s: State, e: Step)
    requires Inv(s) && Enabled(s, e)
    ensures Inv(Apply(s, e))
  {
    if OfSender(e) {
      SenderConserves(s, e);
      SenderBounded(s, e);
      SenderOpens(s, e);
    } else if OfStream(e) {
      StreamConserves(s, e);
      StreamBounded(s, e);
      StreamOpens(s, e);
    } else {
      ReceiverConserves(s, e);
      if e.Accept? || e.Receive? { FrameTakenBounded(s, e); } else { ReceiverBounded(s, e); }
      ReceiverOpens(s, e);
    }
  }

  // ----- Whole runs -----

  predicate Possible(s: State, run: seq<Step>)
    decreases |run|
  {
    |run| == 0 || (Enabled(s, run[0]) && Possible(Apply(s, run[0]), run[1..]))
  }

  function After(s: State, run: seq<Step>): State
    requires Possible(s, run)
    decreases |run|
  {
    if |run| == 0 then s else After(Apply(s, run[0]), run[1..])
  }

  lemma {:induction false} RunInv(s: State, run: seq<Step>)
    requires Inv(s) && Possible(s, run)
    ensures Inv(After(s, run))
    decreases |run|
  {
    if |run| > 0 {
      StepInv(s, run[0]);
      RunInv(Apply(s, run[0]), run[1..]);
    }
  }

  predicate SameConstants(s: State, e: Step, t: State) {
    && t.opening == s.opening && t.closesOnError == s.closesOnError
    && t.offered == if e.Offer? then s.offered + e.data else s.offered
  }

  lemma SenderConstants(s: State, e: Step)
    requires Enabled(s, e) && OfSender(e)
    ensures SameConstants(s, e, Apply(s, e))
  {
  }

  lemma ReceiverConstants(s: State, e: Step)
    requires Enabled(s, e) && !OfSender(e)
    ensures SameConstants(s, e, Apply(s, e))
  {
  }

  lemma StepConstants(s: State, e: Step)
    requires Enabled(s, e)
    ensures SameConstants(s, e, Apply(s, e))
  {
    hide Apply, Enabled, SameConstants;
    if OfSender(e) { SenderConstants(s, e); } else { ReceiverConstants(s, e); }
  }

  predicate Longer(s: State, t: State) {
    |s.header| <= |t.header| && s.delivered <= t.delivered
  }

  lemma SenderHistory(s: State, e: Step)
    requires Enabled(s, e) && !OfReceiver(e)
    ensures Longer(s, Apply(s, e))
  {
  }

  lemma ReceiverHistory(s: State, e: Step)
    requires s.delivery == Opening ==> |s.header| == 0
    requires Enabled(s, e) && OfReceiver(e)
    ensures Longer(s, Apply(s, e))
  {
  }

  lemma StepHistory(s: State, e: Step)
    requires OpensProperly(s) && Enabled(s, e)
    ensures Longer(s, Apply(s, e))
  {
    hide Apply, Enabled, Longer;
    if OfReceiver(e) { ReceiverHistory(s, e); } else { SenderHistory(s, e); }
  }

  lemma {:induction false} RunConstants(s: State, run: seq<Step>)
    requires Possible(s, run)
    ensures After(s, run).opening == s.opening && After(s, run).closesOnError == s.closesOnError
    ensures s.offered <= After(s, run).offered
    decreases |run|
  {
    if |run| > 0 {
      StepConstants(s, run[0]);
      RunConstants(Apply(s, run[0]), run[1..]);
    }
  }

  /**
   Under every schedule and every choice of sizes the lane conserves its bytes
   in order, keeps its capacities, and lets the end overtake nothing.
   */
  lemma EveryRunKeepsTheLane(opening: Frame, closesOnError: bool, run: seq<Step>)
    requires |opening| <= FRAME_SIZE && Possible(Start(opening, closesOnError), run)
    ensures var s := After(Start(opening, closesOnError), run);
      && Inv(s)
      && |s.inPipe| <= 65536 && |s.outPipe| <= 65536 && |s.channel| <= 32
      && (forall i :: 0 <= i < |s.channel| ==> 1 <= |s.channel[i]| <= 16384)
      && s.header + s.delivered <= s.offered
      && (s.sawEof && s.stream != Failed ==> s.closed && s.header + s.delivered == s.offered)
      && (s.delivery != Opening && s.stream != Failed ==> s.header == opening)
  {
    StartInv(opening, closesOnError);
    RunInv(Start(opening, closesOnError), run);
    RunConstants(Start(opening, closesOnError), run);
    var s := After(Start(opening, closesOnError), run);
    ReaderSeesPrefix(s);
  }

  // The capacities are not only kept but reached.

  lemma PipeAndFrameFill(data: seq<Byte>, closesOnError: bool)
    requires |data| == 65536
    ensures var run := [Offer(data), PipeWrite(65536), PumpRead(16384)];
      Possible(Start([], closesOnError), run) &&
      After(Start([], closesOnError), run).pump == Holding(data[..16384]) &&
      After(Start([], closesOnError), run[..2]).inPipe == data
  {
    var s0 := Start([], closesOnError);
    var s1 := Apply(s0, Offer(data));
    var s2 := Apply(s1, PipeWrite(65536));
    Units(data);
    assert data[..65536] == data;
    var run := [Offer(data), PipeWrite(65536), PumpRead(16384)];
    assert run[..2] == [Offer(data), PipeWrite(65536)];
    RunOf(s1, PipeWrite(65536), []);
    RunOf(s0, Offer(data), [PipeWrite(65536)]);
    RunOf(s2, PumpRead(16384), []);
    RunOf(s1, PipeWrite(65536), [PumpRead(16384)]);
    RunOf(s0, Offer(data), [PipeWrite(65536), PumpRead(16384)]);
  }

  predicate Filling(s: State) {
    s.stream == Live && !s.closed && s.pump == Reading && |s.backlog| == 0 && |s.inPipe| == 0
  }

  lemma {:induction false} ChannelFills(s: State, more: nat) returns (run: seq<Step>)
    requires Filling(s) && |s.channel| + more <= 32
    ensures Possible(s, run) && Filling(After(s, run)) && |After(s, run).channel| == |s.channel| + more
    decreases more
  {
    run := [];
    if more > 0 {
      var s1 := Apply(s, Offer([0]));
      var s2 := Apply(s1, PipeWrite(1));
      var s3 := Apply(s2, PumpRead(1));
      var s4 := Apply(s3, PumpSend);
      var rest := ChannelFills(s4, more - 1);
      RunOf(s3, PumpSend, rest);
      RunOf(s2, PumpRead(1), [PumpSend] + rest);
      RunOf(s1, PipeWrite(1), [PumpRead(1)] + ([PumpSend] + rest));
      RunOf(s, Offer([0]), [PipeWrite(1)] + ([PumpRead(1)] + ([PumpSend] + rest)));
      run := [Offer([0])] + ([PipeWrite(1)] + ([PumpRead(1)] + ([PumpSend] + rest)));
    }
  }

  /** From the start of a flow to a full channel. */
  lemma ChannelTakes32(closesOnError: bool) returns (run: seq<Step>)
    ensures Possible(Start([], closesOnError), run) && |After(Start([], closesOnError), run).channel| == 32
  {
    run := ChannelFills(Start([], closesOnError), 32);
  }

  lemma ReaderSeesPrefix(s: State)
    requires Inv(s)
    ensures s.header + s.delivered <= s.offered
    ensures s.sawEof && s.stream != Failed ==> s.closed && s.header + s.delivered == s.offered
  {
    var read := s.header + s.delivered;
    assert read <= Down(s);
    if s.sawEof && s.stream != Failed {
      assert Flatten(s.wire) == [] && Flatten(s.channel) == [];
      assert Down(s) == read && Up(s) == [];
    }
  }

  // ----- Progress -----

  /** Steps that need nothing from outside: all but new input, failures, and what others do with the reader's pipe. */
  predicate Internal(e: Step) {
    !(e.Offer? || e.Close? || e.Fail? || e.DropPipe?)
  }

  function Flag(b: bool): nat { if b then 1 else 0 }

  /** Bytes weighted by the stages before them, plus the ends not yet announced. */
  function Distance(s: State): nat {
    7 * |s.backlog| + 6 * |s.inPipe| + 5 * |HeldFrame(s)| + 4 * |Flatten(s.channel)|
    + 3 * |Flatten(s.wire)| + 2 * |InHand(s)| + |s.outPipe|
    + Flag(s.pump != PumpEnded) + Flag(s.stream == Live) + Flag(s.delivery != DeliveryEnded)
    + Flag(!s.outClosed) + Flag(!s.sawEof)
  }

  lemma WriterApproaches(s: State, e: Step)
    requires Enabled(s, e) && (e.PipeWrite? || e.PumpRead?)
    ensures Distance(Apply(s, e)) < Distance(s)
  {
  }

  lemma PumpApproaches(s: State, e: Step)
    requires Bounded(s) && Enabled(s, e) && (e.PumpSend? || e.PumpEnd? || e.PumpBreak?)
    ensures Distance(Apply(s, e)) < Distance(s)
  {
    if e.PumpSend? {
      FlattenPush(s.channel, s.pump.frame);
    }
  }

  lemma StreamApproaches(s: State, e: Step)
    requires Bounded(s) && Enabled(s, e) && (e.Transmit? || e.Finish?)
    ensures Distance(Apply(s, e)) < Distance(s)
  {
    if e.Transmit? {
      FlattenPop(s.channel);
      FlattenPush(s.wire, s.channel[0]);
    }
  }

  lemma FrameTakenApproaches(s: State, e: Step)
    requires Bounded(s) && Enabled(s, e) && (e.Accept? || e.Receive?)
    ensures Distance(Apply(s, e)) < Distance(s)
  {
    FlattenPop(s.wire);
  }

  lemma PartApproaches(s: State, n: nat)
    requires Enabled(s, DeliverPart(n))
    ensures Distance(Apply(s, DeliverPart(n))) < Distance(s)
  {
  }

  lemma ReadApproaches(s: State, n: nat)
    requires Enabled(s, Read(n))
    ensures Distance(Apply(s, Read(n))) < Distance(s)
  {
  }

  lemma EndApproaches(s: State, e: Step)
    requires EndsInOrder(s) && Enabled(s, e) && (e.EndDelivery? || e.DropPipe? || e.ReadEof?)
    ensures Distance(Apply(s, e)) < Distance(s)
  {
  }

  /** Every step of the tasks brings the goal nearer and asks nothing of the writer. */
  lemma InternalStepsApproach(s: State, e: Step)
    requires Inv(s) && (Internal(e) || e.DropPipe?) && Enabled(s, e)
    ensures Distance(Apply(s, e)) < Distance(s)
    ensures Apply(s, e).offered == s.offered && Apply(s, e).closed == s.closed
    ensures s.stream != Failed ==> Apply(s, e).stream != Failed
  {
    match e {
      case PipeWrite(_) => WriterApproaches(s, e);
      case PumpRead(_) => WriterApproaches(s, e);
      case PumpSend => PumpApproaches(s, e);
      case PumpEnd => PumpApproaches(s, e);
      case PumpBreak => PumpApproaches(s, e);
      case Transmit => StreamApproaches(s, e);
      case Finish => StreamApproaches(s, e);
      case Accept => FrameTakenApproaches(s, e);
      case Receive => FrameTakenApproaches(s, e);
      case DeliverPart(n) => PartApproaches(s, n);
      case Read(n) => ReadApproaches(s, n);
      case _ => EndApproaches(s, e);
    }
  }

  /** Everything offered has been read, and the reader knows the end if there is one. */
  predicate Settled(s: State) {
    s.header + s.delivered == s.offered && (s.closed ==> s.sawEof)
  }

  /** The step the stage nearest the reader can take. */
  function NextStep(s: State): Step {
    if |s.outPipe| > 0 then Read(1)
    else if s.delivery.Writing? then DeliverPart(1)
    else if |s.wire| > 0 then (if s.delivery == Opening then Accept else Receive)
    else if |s.channel| > 0 then Transmit
    else if s.pump.Holding? then PumpSend
    else if |s.inPipe| > 0 then PumpRead(1)
    else if |s.backlog| > 0 then PipeWrite(1)
    else if s.pump == Reading then PumpEnd
    else if s.stream == Live then Finish
    else if s.delivery == Receiving then EndDelivery
    else ReadEof
  }

  lemma DrainedDown(s: State)
    requires |s.outPipe| == 0 && |InHand(s)| == 0 && |s.wire| == 0
    ensures Down(s) == s.header + s.delivered
  {
    Units(s.header + s.delivered);
  }

  lemma DrainedHasAll(s: State)
    requires Conserves(s) && s.stream != Failed
    requires |s.outPipe| == 0 && |InHand(s)| == 0 && |s.wire| == 0
    requires |s.channel| == 0 && |HeldFrame(s)| == 0 && |s.inPipe| == 0 && |s.backlog| == 0
    ensures s.header + s.delivered == Down(s) == s.offered
  {
    DrainedDown(s);
    assert |Up(s)| == 0;
    Units(Down(s));
  }

  /** No state short of the goal is stuck, whatever the size of the write in progress. */
  lemma NeverStuck(s: State)
    requires Inv(s) && s.stream != Failed && !Settled(s)
    ensures Internal(NextStep(s)) && Enabled(s, NextStep(s))
  {
    hide Conserves;
    if |s.outPipe| == 0 && !s.delivery.Writing? && |s.wire| == 0 && |s.channel| == 0
      && !s.pump.Holding? && |s.inPipe| == 0 && |s.backlog| == 0 {
      DrainedHasAll(s);
    }
  }

  predicate AllInternal(run: seq<Step>) {
    forall i :: 0 <= i < |run| ==> Internal(run[i])
  }

  ghost predicate Stuck(s: State) {
    forall e: Step :: Internal(e) ==> !Enabled(s, e)
  }

  /**
   Left to themselves the tasks stop within `Distance` steps, and wherever they
   stop everything offered has been read, in full and in order.
   */
  lemma {:induction false} EveryInternalRunSettles(s: State, run: seq<Step>)
    requires Inv(s) && s.stream != Failed && Possible(s, run) && AllInternal(run)
    ensures |run| <= Distance(s)
    ensures Stuck(After(s, run)) ==> Settled(After(s, run))
    ensures After(s, run).offered == s.offered && After(s, run).closed == s.closed && After(s, run).stream != Failed
    decreases |run|
  {
    hide Inv, Distance, Settled, Internal;
    if |run| == 0 {
      if !Settled(s) {
        NeverStuck(s);
      }
    } else {
      InternalStepsApproach(s, run[0]);
      StepInv(s, run[0]);
      EveryInternalRunSettles(Apply(s, run[0]), run[1..]);
    }
  }

  /** And such a run exists from everywhere: in particular for a write larger than both pipes. */
  lemma {:induction false} SettlingRun(s: State) returns (run: seq<Step>)
    requires Inv(s) && s.stream != Failed
    ensures Possible(s, run) && AllInternal(run) && Settled(After(s, run))
    ensures After(s, run).offered == s.offered
    decreases Distance(s)
  {
    hide Inv, Distance, Internal, Apply, Enabled, Settled;
    if Settled(s) {
      run := [];
    } else {
      var e := NextStep(s);
      NeverStuck(s);
      InternalStepsApproach(s, e);
      StepInv(s, e);
      var rest := SettlingRun(Apply(s, e));
      HeadAndTail(rest, e);
      run := [e] + rest;
    }
  }

  // ----- After a failure -----

  lemma FailedKeepsDown(s: State, e: Step)
    requires Inv(s) && s.stream == Failed && Enabled(s, e)
    ensures Down(Apply(s, e)) == Down(s) && Apply(s, e).stream == Failed
  {
    match e {
      case Accept => AcceptKept(s);
      case Receive => ReceiveKept(s);
      case DeliverPart(n) => DeliverPartKept(s, n);
      case Read(n) => ReadKept(s, n);
      case _ =>
    }
  }

  /** Everything that got past the failure has been read, and the reader knows of an end if its pipe was closed. */
  predicate AtRest(s: State) {
    && s.header + s.delivered == Down(s)
    && (s.sawEof <==> s.outClosed)
    && (s.closesOnError && s.header == s.opening ==> s.outClosed)
  }

  lemma InHandFits(s: State)
    requires Bounded(s)
    ensures |s.outPipe| <= PIPE_CAPACITY && (s.delivery.Writing? ==> 1 <= |s.delivery.left|)
  {
  }

  lemma StuckAfterFailure(s: State)
    requires Inv(s) && s.stream == Failed && Stuck(s)
    ensures AtRest(s) && s.delivery == DeliveryEnded
  {
    hide Conserves, Down, Bounded;
    InHandFits(s);
    assert !Enabled(s, Read(1)) && !Enabled(s, DeliverPart(1));
    assert !Enabled(s, Receive) && !Enabled(s, Accept);
    assert !Enabled(s, EndDelivery) && !Enabled(s, ReadEof);
    DrainedDown(s);
  }

  lemma InvEnds(s: State)
    requires Inv(s)
    ensures EndsInOrder(s)
  {
  }

  lemma RestOfFailed(s: State)
    requires Inv(s) && s.stream == Failed && Stuck(s)
    ensures s.header + s.delivered == Down(s) && s.delivery == DeliveryEnded
    ensures (s.sawEof <==> s.outClosed) && (s.outClosed ==> s.header == s.opening)
  {
    hide Down, Conserves, Bounded, OpensProperly, Stuck;
    StuckAfterFailure(s);
  }

  /** Where failures are not taken for ends, the tasks of a broken lane leave the reader's pipe as it is. */
  lemma FailedKeepsPipe(s: State, e: Step)
    requires EndsInOrder(s) && s.stream == Failed && !s.closesOnError && Internal(e) && Enabled(s, e)
    ensures Apply(s, e).outClosed == s.outClosed && !Apply(s, e).closesOnError
  {
  }

  /**
   A broken lane winds down by itself: what was not lost is read, and then a
   client's reader is always told of an end, and a server's handler only if the
   other end of its pipe has been dropped.
   */
  lemma {:induction false} EveryFailedRunComesToRest(s: State, run: seq<Step>)
    requires Inv(s) && s.stream == Failed && Possible(s, run) && AllInternal(run)
    ensures |run| <= Distance(s)
    ensures Down(After(s, run)) == Down(s)
    ensures Stuck(After(s, run)) ==> AtRest(After(s, run))
    ensures !s.closesOnError ==> After(s, run).outClosed == s.outClosed
    decreases |run|
  {
    hide Inv, Distance, AtRest, Internal, Down;
    if |run| == 0 {
      if Stuck(s) {
        StuckAfterFailure(s);
      }
    } else {
      InternalStepsApproach(s, run[0]);
      StepInv(s, run[0]);
      FailedKeepsDown(s, run[0]);
      if !s.closesOnError {
        InvEnds(s);
        FailedKeepsPipe(s, run[0]);
      }
      EveryFailedRunComesToRest(Apply(s, run[0]), run[1..]);
    }
  }

  /** The steps that lose bytes: a break with bytes under way that it does not spare, and anything offered after it. */
  predicate Loses(s: State, e: Step)
    requires Enabled(s, e)
  {
    match e
    case Fail(kept) => |Flatten(s.wire[..kept])| < |Flatten(s.wire)| || |Up(s)| > 0
    case Offer(data) => s.stream == Failed && |data| > 0
    case _ => false
  }

  /** Some of what was offered can no longer arrive. */
  predicate Damaged(s: State) {
    s.stream == Failed && Down(s) != s.offered
  }

  lemma CutIsSeen<T>(base: seq<T>, whole: seq<T>, kept: seq<T>, up: seq<T>)
    requires kept <= whole
    ensures base + kept == (base + whole) + up <==> |kept| == |whole| && |up| == 0
  {
    if |kept| == |whole| {
      assert kept == whole;
    }
    assert |base + kept| == |base| + |kept| && |(base + whole) + up| == |base| + |whole| + |up|;
  }

  lemma FailDamages(s: State, kept: nat)
    requires Conserves(s) && Enabled(s, Fail(kept))
    ensures Damaged(Apply(s, Fail(kept))) <==> Loses(s, Fail(kept))
  {
    FlattenPrefix(s.wire, kept);
    CutIsSeen(s.header + s.delivered + s.outPipe + InHand(s), Flatten(s.wire), Flatten(s.wire[..kept]), Up(s));
  }

  /** Losses are exactly what damages a lane, and damage is for good. */
  lemma DamageHistory(s: State, e: Step)
    requires Inv(s) && Enabled(s, e)
    ensures Damaged(Apply(s, e)) <==> Damaged(s) || Loses(s, e)
  {
    if e.Fail? {
      FailDamages(s, e.kept);
    } else if s.stream == Failed {
      hide Apply, Inv, Down;
      FailedKeepsDown(s, e);
      StepConstants(s, e);
      DownIsPrefix(s);
    }
  }

  lemma DownIsPrefix(s: State)
    requires Inv(s)
    ensures Down(s) <= s.offered
  {
  }

  // ----- What the lane amounts to -----

  /**
   A reliable ordered byte stream that may break, as QUIC promises it: a clean end
   is announced only behind the last byte, a break only as an error. Each side
   learns of a break in its own time.
   */
  datatype Fifo = Fifo(sent: seq<Byte>, received: seq<Byte>, shut: bool, ended: bool, broken: bool, reset: bool)

  datatype FifoStep = Stutter | Send(data: seq<Byte>) | Shut | Recv(n: nat) | End | Break | Reset

  predicate FifoEnabled(q: Fifo, f: FifoStep) {
    match f
    case Stutter => true
    case Send(_) => !q.shut
    case Shut => !q.shut
    case Recv(n) => |q.received| + n <= |q.sent|
    case End => q.shut && q.received == q.sent
    case Break => !q.broken
    case Reset => q.broken
  }

  function FifoApply(q: Fifo, f: FifoStep): Fifo
    requires FifoEnabled(q, f)
  {
    match f
    case Stutter => q
    case Send(data) => q.(sent := q.sent + data)
    case Shut => q.(shut := true)
    case Recv(n) => q.(received := q.sent[..|q.received| + n])
    case End => q.(ended := true)
    case Break => q.(broken := true)
    case Reset => q.(reset := true)
  }

  function AsFifo(s: State): Fifo {
    Fifo(s.offered, s.header + s.delivered, s.closed, s.sawEof, s.stream == Failed, false)
  }

  /** The step of the plain stream that a step of the lane amounts to. */
  function FifoImage(s: State, e: Step): FifoStep {
    match e
    case Offer(data) => Send(data)
    case Close => Shut
    case Fail(_) => Break
    case Accept => Recv(|s.opening|)
    case Read(n) => Recv(n)
    case ReadEof => End
    case _ => Stutter
  }

  lemma PrefixIsTake<T>(a: seq<T>, b: seq<T>)
    requires a <= b
    ensures a == b[..|a|]
  {
  }

  predicate RefinedAt(s: State, e: Step)
    requires Enabled(s, e)
  {
    FifoEnabled(AsFifo(s), FifoImage(s, e)) && FifoApply(AsFifo(s), FifoImage(s, e)) == AsFifo(Apply(s, e))
  }

  lemma AcceptRefines(s: State)
    requires OpensProperly(s) && Enabled(s, Accept) && Inv(Apply(s, Accept))
    ensures RefinedAt(s, Accept)
  {
    hide Conserves, Bounded, EndsInOrder, Inv;
    var t := Apply(s, Accept);
    ReaderSeesPrefix(t);
    PrefixIsTake(t.header + t.delivered, s.offered);
    assert s.stream != Failed ==> (s.wire + s.channel)[0] == s.wire[0];
    assert t.header == s.opening && |s.header + s.delivered| == 0 && |t.delivered| == 0;
  }

  lemma ReadRefines(s: State, n: nat)
    requires Enabled(s, Read(n)) && Inv(Apply(s, Read(n)))
    ensures RefinedAt(s, Read(n))
  {
    hide Conserves, Bounded, EndsInOrder, OpensProperly, Inv;
    ReaderSeesPrefix(Apply(s, Read(n)));
    var got := s.header + (s.delivered + s.outPipe[..n]);
    PrefixIsTake(got, s.offered);
    assert |got| == |s.header + s.delivered| + n;
  }

  lemma ReadEofRefinesIff(s: State)
    requires Inv(s) && Enabled(s, ReadEof)
    ensures RefinedAt(s, ReadEof) <==> s.closed && !Damaged(s)
    ensures FifoEnabled(AsFifo(s), End) ==> RefinedAt(s, ReadEof)
  {
    hide Conserves, Bounded, Down;
    DrainedDown(s);
    if s.stream != Failed {
      DrainedHasAll(s);
    }
  }

  lemma DeliveryRefines(s: State, e: Step)
    requires Enabled(s, e) && (e.Receive? || e.DeliverPart? || e.EndDelivery? || e.DropPipe?)
    ensures RefinedAt(s, e)
  {
  }

  lemma SendingStepsRefine(s: State, e: Step)
    requires Enabled(s, e) && OfSender(e)
    ensures RefinedAt(s, e)
  {
  }

  lemma StreamStepsRefine(s: State, e: Step)
    requires Enabled(s, e) && OfStream(e)
    ensures RefinedAt(s, e)
  {
  }

  /**
   Framing, queues, pumps and pipes are invisible: every step of the lane is one
   of the plain stream, or none, with one exception. Telling the reader of an end
   is such a step exactly when the writer has closed and nothing was lost.
   */
  lemma LaneRefinesFifoIff(s: State, e: Step)
    requires Inv(s) && Enabled(s, e)
    ensures RefinedAt(s, e) <==> (e.ReadEof? ==> s.closed && !Damaged(s))
    ensures FifoEnabled(AsFifo(s), FifoImage(s, e)) ==> RefinedAt(s, e)
  {
    hide RefinedAt, Damaged, FifoEnabled;
    StepInv(s, e);
    match e {
      case Accept => AcceptRefines(s);
      case Read(n) => ReadRefines(s, n);
      case ReadEof => ReadEofRefinesIff(s);
      case Receive => DeliveryRefines(s, e);
      case DeliverPart(_) => DeliveryRefines(s, e);
      case EndDelivery => DeliveryRefines(s, e);
      case DropPipe => DeliveryRefines(s, e);
      case Transmit => StreamStepsRefine(s, e);
      case Finish => StreamStepsRefine(s, e);
      case Fail(_) => StreamStepsRefine(s, e);
      case _ => SendingStepsRefine(s, e);
    }
  }

  /**
   The exception is real: whatever the server wrote last, a break can take all of
   it and still look like a clean end to the client.
   */
  lemma TruncatedStreamEndsCleanly(data: seq<Byte>)
    requires 0 < |data| <= PIPE_CAPACITY
    ensures var run := [Offer(data), PipeWrite(|data|), Close, Fail(0), EndDelivery, ReadEof];
      Possible(Start([], true), run) &&
      var s := After(Start([], true), run);
      s.sawEof && s.closed && s.offered == data && s.delivered == []
  {
    var s0 := Start([], true);
    var s1 := Apply(s0, Offer(data));
    var s2 := Apply(s1, PipeWrite(|data|));
    var s3 := Apply(s2, Close);
    var s4 := Apply(s3, Fail(0));
    var s5 := Apply(s4, EndDelivery);
    var s6 := Apply(s5, ReadEof);
    RunOf(s5, ReadEof, []);
    RunOf(s4, EndDelivery, [ReadEof]);
    RunOf(s3, Fail(0), [EndDelivery, ReadEof]);
    RunOf(s2, Close, [Fail(0), EndDelivery, ReadEof]);
    RunOf(s1, PipeWrite(|data|), [Close, Fail(0), EndDelivery, ReadEof]);
    RunOf(s0, Offer(data), [PipeWrite(|data|), Close, Fail(0), EndDelivery, ReadEof]);
    Units(data);
  }

  lemma RunOf(s: State, e: Step, rest: seq<Step>)
    requires Enabled(s, e) && Possible(Apply(s, e), rest)
    ensures Possible(s, [e] + rest) && After(s, [e] + rest) == After(Apply(s, e), rest)
  {
    HeadAndTail(rest, e);
  }

  /** Open, and with nothing under way. */
  predicate Quiet(s: State) {
    && s.stream == Live && !s.closed && s.pump == Reading && s.delivery == Receiving && !s.outClosed && !s.sawEof
    && |s.backlog| == 0 && |s.inPipe| == 0 && |s.channel| == 0 && |s.wire| == 0 && |s.outPipe| == 0
  }

  lemma {:induction false} RunsConcat(s: State, a: seq<Step>, b: seq<Step>)
    requires Possible(s, a) && Possible(After(s, a), b)
    ensures Possible(s, a + b) && After(s, a + b) == After(After(s, a), b)
    decreases |a|
  {
    if |a| == 0 {
      Units(b);
    } else {
      TailOfConcat(a, b);
      RunsConcat(Apply(s, a[0]), a[1..], b);
    }
  }

  lemma SendQuietly(s: State, data: seq<Byte>) returns (run: seq<Step>)
    requires Quiet(s.(backlog := [])) && s.backlog == data && 0 < |data| <= FRAME_SIZE
    ensures AllInternal(run) && Possible(s, run) && After(s, run) == s.(backlog := [], wire := [data])
  {
    var n := |data|;
    Units(data);
    HeadAndTail([], data);
    var s2 := Apply(s, PipeWrite(n));
    assert s2 == s.(inPipe := data, backlog := []);
    var s3 := Apply(s2, PumpRead(n));
    assert s3 == s.(pump := Holding(data), backlog := []);
    var s4 := Apply(s3, PumpSend);
    assert s4 == s.(channel := [data], backlog := []);
    hide Quiet;
    RunOf(s4, Transmit, []);
    RunOf(s3, PumpSend, [Transmit]);
    RunOf(s2, PumpRead(n), [PumpSend, Transmit]);
    RunOf(s, PipeWrite(n), [PumpRead(n), PumpSend, Transmit]);
    run := [PipeWrite(n)] + [PumpRead(n), PumpSend, Transmit];
  }

  lemma ReceiveQuietly(s: State, data: seq<Byte>) returns (run: seq<Step>)
    requires Quiet(s.(wire := [])) && s.wire == [data] && 0 < |data| <= FRAME_SIZE
    ensures AllInternal(run) && Possible(s, run) && After(s, run) == s.(wire := [], delivered := s.delivered + data)
  {
    var n := |data|;
    Units(data);
    HeadAndTail([], data);
    var s2 := Apply(s, Receive);
    assert s2 == s.(delivery := Writing(data), wire := []);
    var s3 := Apply(s2, DeliverPart(n));
    assert s3 == s.(outPipe := data, wire := []);
    hide Quiet;
    RunOf(s3, Read(n), []);
    RunOf(s2, DeliverPart(n), [Read(n)]);
    RunOf(s, Receive, [DeliverPart(n), Read(n)]);
    run := [Receive] + [DeliverPart(n), Read(n)];
  }

  /** Handing one frame's worth of data through a quiet lane: first the offer, then what the tasks do with it. */
  lemma PassThrough(s: State, data: seq<Byte>) returns (rest: seq<Step>)
    requires Quiet(s) && 0 < |data| <= FRAME_SIZE
    ensures Enabled(s, Offer(data)) && AllInternal(rest)
    ensures Possible(Apply(s, Offer(data)), rest)
    ensures After(Apply(s, Offer(data)), rest) == s.(offered := s.offered + data, delivered := s.delivered + data)
  {
    var t := Apply(s, Offer(data));
    assert t.(backlog := []) == s.(offered := s.offered + data);
    var a := SendQuietly(t, data);
    var b := ReceiveQuietly(After(t, a), data);
    RunsConcat(t, a, b);
    rest := a + b;
  }
}
