/**
 A proxied flow over gRPC: a request lane whose first frame is the handshake, a
 response lane, and the rules that tie them together. The handler behind gRPC
 ends up with what the handler behind a plain QUIC stream would have.
 */
module Session {
  import opened Bytes
  import opened Wire
  import opened Datagrams
  import Lane

  // ----- Two ways of finding the request in a finished stream -----

  datatype View = Serves(request: Request, body: seq<Byte>) | Refuses

  /** QUIC: the request is decoded off the stream, and the rest of the stream is the body. */
  function QuicView(stream: seq<Byte>): View {
    match ParseRequest(stream)
    case Done(r, rest) => Serves(r, rest)
    case _ => Refuses
  }

  /** gRPC: the request is decoded from the first frame alone, and later frames are the body. */
  function GrpcView(frames: seq<seq<Byte>>): View {
    if |frames| == 0 then Refuses
    else
      match ParseRequest(frames[0])
      case Done(r, _) => Serves(r, Flatten(frames[1..]))
      case _ => Refuses
  }

  /** The first frame is the whole request and nothing else, or no request can come of it. */
  predicate FirstFrameIsTheRequest(frames: seq<seq<Byte>>) {
    |frames| > 0 ==>
      match ParseRequest(frames[0])
      case Done(_, rest) => |rest| == 0
      case Malformed(_) => true
      case Truncated => !ParseRequest(Flatten(frames)).Done?
  }

  /** For any client whatever, the two transports agree exactly when the first frame is the request. */
  lemma TransportsAgree(frames: seq<seq<Byte>>)
    ensures GrpcView(frames) == QuicView(Flatten(frames)) <==> FirstFrameIsTheRequest(frames)
  {
    if |frames| > 0 {
      RequestSettles(frames[0], Flatten(frames[1..]));
      var p := ParseRequest(frames[0]);
      if p.Done? {
        assert |p.rest + Flatten(frames[1..])| == |p.rest| + |Flatten(frames[1..])|;
        Units(Flatten(frames[1..]));
      }
    }
  }

  /** A client that splits its request is served over QUIC and refused over gRPC. */
  lemma SplitRequestIsRefused(r: Request, n: nat)
    requires |r.token| <= MAX_TEXT && Representable(r.target) && n < |EncodeRequest(r)|
    ensures var frames := [EncodeRequest(r)[..n], EncodeRequest(r)[n..]];
      QuicView(Flatten(frames)) == Serves(r, []) && GrpcView(frames) == Refuses
  {
    var b := EncodeRequest(r);
    var frames := [b[..n], b[n..]];
    assert frames[1..] == [b[n..]];
    FlattenOne(b[n..]);
    Lane.Rejoin(b, n);
    assert Flatten(frames) == b;
    RequestRoundTrip(r, []);
    Units(b);
    RequestPrefixFree(r, b[..n]);
  }

  /** A client that sends data along with its request loses that data over gRPC, and only there. */
  lemma DataBesideTheRequestIsLost(r: Request, data: seq<Byte>)
    requires |r.token| <= MAX_TEXT && Representable(r.target)
    ensures var frames := [EncodeRequest(r) + data];
      QuicView(Flatten(frames)) == Serves(r, data) && GrpcView(frames) == Serves(r, [])
  {
    FlattenOne(EncodeRequest(r) + data);
    RequestRoundTrip(r, data);
  }

  // ----- The flow as a transition system -----

  datatype State = State(
    request: Request,
    reply: Response,
    up: Lane.State,
    down: Lane.State,
    connected: bool)         // the response headers have reached the client, which has pipes from then on

  datatype Step = Upward(e: Lane.Step) | Downward(e: Lane.Step) | Headers

  /** What this client may ask for: everything it sends decodes back to itself. */
  predicate Sendable(r: Request) {
    |r.token| <= MAX_TEXT && Representable(r.target)
  }

  function Start(request: Request, reply: Response): State
    requires Sendable(request)
  {
    State(request, reply, Lane.Start(EncodeRequest(request), false), Lane.Start([], true), false)
  }

  /** The handler starts once the request frame has been taken. */
  predicate Handling(s: State) {
    |s.up.header| > 0
  }

  /** The bytes read so far begin with a favourable response. */
  predicate Favourable(got: seq<Byte>) {
    var p := ParseResponse(got);
    p.Done? && p.value.status == StatusOk
  }

  /** The client hands out the flow once it has read a favourable response. */
  predicate FlowOpen(s: State) {
    Favourable(s.down.delivered)
  }

  /**
   The server answers only once it has the request. Its two tasks share one end of
   the handler's pipe: when the delivery task is gone, the pipe stays open for as
   long as the response pump lives.
   */
  predicate Enabled(s: State, t: Step) {
    match t
    case Headers => Handling(s) && !s.connected && s.down.stream != Lane.Failed
    case Upward(e) =>
      && Lane.Enabled(s.up, e)
      && (e.Offer? ==> FlowOpen(s))
      && (e.Close? ==> s.connected)
      && (e.DropPipe? ==> s.down.pump == Lane.PumpEnded)
    case Downward(e) =>
      && Handling(s)
      && Lane.Enabled(s.down, e)
      && (Lane.OfReceiver(e) ==> s.connected)
      && (e.Offer? ==> if |s.down.offered| == 0 then e.data == EncodeResponse(s.reply) else s.reply.status == StatusOk)
  }

  function Apply(s: State, t: Step): State
    requires Enabled(s, t)
  {
    match t
    case Headers => s.(connected := true)
    case Upward(e) => s.(up := Lane.Apply(s.up, e))
    case Downward(e) => s.(down := Lane.Apply(s.down, e))
  }

  predicate Possible(s: State, run: seq<Step>)
    decreases |run|
  {
    |run| == 0 || (Enabled(s, run[0]) && Possible(Apply(s, run[0]), run[1..]))
  }

  function After(s: State, run: seq<Step>): State
    requires Possible(s, run)
    decreases |run|
  {
    if |run| == 0 then s else After(Apply(s, run[0]), run[1..])
  }

  /** Nothing comes down before the one response, and nothing goes up before it was read and favourable. */
  predicate InOrder(s: State) {
    && Sendable(s.request)
    && (|s.down.offered| > 0 ==> EncodeResponse(s.reply) <= s.down.offered && Handling(s))
    && (s.reply.status != StatusOk ==> |s.down.offered| <= |EncodeResponse(s.reply)|)
    && (|s.up.offered| > |s.up.opening| ==> s.reply.status == StatusOk && EncodeResponse(s.reply) <= s.down.delivered)
    && EncodeRequest(s.request) <= s.up.offered
  }

  /**
   After a break the handler's pipe is closed only once the response pump has
   ended. A client has pipes only when there is a handler.
   */
  predicate PipeShared(s: State) {
    && (s.up.outClosed && s.up.stream == Lane.Failed ==> s.down.pump == Lane.PumpEnded)
    && (s.connected ==> Handling(s))
  }

  /**
   No response lane before there is a handler; nothing for the client to read, or
   to shut down, before it has pipes.
   */
  predicate NothingEarly(s: State) {
    && (!Handling(s) ==> s.down == Lane.Start([], true))
    && (!s.connected ==> |s.down.delivered| == 0 && |s.down.outPipe| == 0 && !s.down.sawEof && !s.up.closed)
  }

  predicate Inv(s: State) {
    && Sendable(s.request)
    && s.up.opening == EncodeRequest(s.request) && !s.up.closesOnError
    && |s.down.opening| == 0 && s.down.closesOnError && |s.down.header| == 0
    && Lane.Inv(s.up) && Lane.Inv(s.down)
    && InOrder(s) && PipeShared(s) && NothingEarly(s)
  }

  lemma EncodedSizes(r: Request, p: Response)
    requires |r.token| <= MAX_TEXT
    ensures 0 < |EncodeRequest(r)| <= Lane.FRAME_SIZE && 0 < |EncodeResponse(p)|
  {
  }

  lemma StartInv(request: Request, reply: Response)
    requires Sendable(request)
    ensures Inv(Start(request, reply))
  {
    EncodedSizes(request, reply);
    Lane.StartInv(EncodeRequest(request), false);
    Lane.StartInv([], true);
  }

  /** What the client can have decoded of the response so far. */
  lemma ClientView(s: State)
    requires Inv(s)
    ensures |s.down.delivered| < |EncodeResponse(s.reply)| ==> ParseResponse(s.down.delivered) == Truncated
    ensures |s.down.delivered| >= |EncodeResponse(s.reply)| ==>
      var enc := EncodeResponse(s.reply);
      enc <= s.down.delivered && s.down.delivered <= s.down.offered &&
      ParseResponse(s.down.delivered)
        == Done(Response(s.reply.status, Shown(s.reply.message)), s.down.delivered[|enc|..])
  {
    var enc, got := EncodeResponse(s.reply), s.down.delivered;
    Lane.ReaderSeesPrefix(s.down);
    Units(got);
    assert s.down.header + got == got;
    if |got| < |enc| {
      EncodedSizes(s.request, s.reply);
      assert got < enc;
      ResponsePrefixFree(s.reply, got);
    } else {
      EncodedSizes(s.request, s.reply);
      assert got == enc + got[|enc|..];
      ResponseRoundTrip(s.reply, got[|enc|..]);
    }
  }

  lemma UpwardInOrder(s: State, e: Lane.Step)
    requires Inv(s) && Enabled(s, Upward(e))
    ensures InOrder(Apply(s, Upward(e)))
  {
    hide Lane.Apply;
    ClientView(s);
    Lane.StepConstants(s.up, e);
    Lane.StepHistory(s.up, e);
  }

  lemma DownwardInOrder(s: State, e: Lane.Step)
    requires Inv(s) && Enabled(s, Downward(e))
    ensures InOrder(Apply(s, Downward(e)))
  {
    hide Lane.Apply, EncodeResponse, EncodeRequest, ParseRequest, NothingEarly, PipeShared;
    EncodedSizes(s.request, s.reply);
    Lane.StepConstants(s.down, e);
    Lane.StepHistory(s.down, e);
  }

  lemma HeaderStaysEmpty(s: Lane.State, e: Lane.Step)
    requires Lane.Inv(s) && Lane.Enabled(s, e) && |s.opening| == 0 && |s.header| == 0
    ensures |Lane.Apply(s, e).header| == 0
  {
  }

  lemma UpwardPipeShared(s: State, e: Lane.Step)
    requires Inv(s) && Enabled(s, Upward(e))
    ensures PipeShared(Apply(s, Upward(e)))
  {
    Lane.StepHistory(s.up, e);
  }

  lemma UpwardNothingEarly(s: State, e: Lane.Step)
    requires Inv(s) && Enabled(s, Upward(e))
    ensures NothingEarly(Apply(s, Upward(e)))
  {
    Lane.StepHistory(s.up, e);
  }

  lemma DownwardNothingEarly(s: State, e: Lane.Step)
    requires Inv(s) && Enabled(s, Downward(e))
    ensures NothingEarly(Apply(s, Downward(e)))
  {
    hide Lane.Apply, Lane.Inv, Lane.Enabled, InOrder;
    if !s.connected {
      ReaderUntouched(s.down, e);
    }
  }

  lemma ReaderUntouched(s: Lane.State, e: Lane.Step)
    requires Lane.Enabled(s, e) && !Lane.OfReceiver(e)
    ensures var t := Lane.Apply(s, e); t.delivered == s.delivered && t.outPipe == s.outPipe && t.sawEof == s.sawEof
  {
  }

  lemma PumpStaysEnded(s: Lane.State, e: Lane.Step)
    requires s.pump == Lane.PumpEnded && Lane.Enabled(s, e)
    ensures Lane.Apply(s, e).pump == Lane.PumpEnded
  {
  }

  lemma StepInv(s: State, t: Step)
    requires Inv(s) && Enabled(s, t)
    ensures Inv(Apply(s, t))
  {
    hide Lane.Apply, Lane.Inv, Lane.Enabled, InOrder;
    match t {
      case Headers => SameLanes(s, Apply(s, t));
      case Upward(e) =>
        Lane.StepInv(s.up, e);
        Lane.StepConstants(s.up, e);
        UpwardInOrder(s, e);
        UpwardPipeShared(s, e);
        UpwardNothingEarly(s, e);
      case Downward(e) =>
        Lane.StepInv(s.down, e);
        Lane.StepConstants(s.down, e);
        HeaderStaysEmpty(s.down, e);
        DownwardInOrder(s, e);
        DownwardNothingEarly(s, e);
        if s.down.pump == Lane.PumpEnded {
          PumpStaysEnded(s.down, e);
        }
    }
  }

  lemma SameLanes(s: State, t: State)
    requires Inv(s) && t == s.(connected := true) && Handling(s)
    ensures Inv(t)
  {
  }

  lemma {:induction false} RunInv(s: State, run: seq<Step>)
    requires Inv(s) && Possible(s, run)
    ensures Inv(After(s, run))
    ensures After(s, run).request == s.request && After(s, run).reply == s.reply
    decreases |run|
  {
    if |run| > 0 {
      StepInv(s, run[0]);
      RunInv(Apply(s, run[0]), run[1..]);
    }
  }

  /** What the gRPC handler has been given so far, if it has been started. */
  function HandlerSees(s: State): Parse<Request> {
    if !Handling(s) then Truncated
    else
      match ParseRequest(s.up.header)
      case Done(r, _) => Done(r, s.up.delivered)
      case other => other
  }

  lemma HandlerSeesTheRequest(s: State)
    requires Inv(s) && Handling(s)
    ensures s.up.header == EncodeRequest(s.request)
    ensures ParseRequest(s.up.header) == Done(s.request, [])
  {
    RequestRoundTrip(s.request, []);
    Units(EncodeRequest(s.request));
  }

  lemma NothingParses()
    ensures ParseRequest([]) == Truncated
  {
  }

  /** In every state the gRPC handler stands where a QUIC handler fed the same bytes would stand. */
  lemma SameAsQuic(s: State)
    requires Inv(s)
    ensures HandlerSees(s) == ParseRequest(s.up.header + s.up.delivered)
    ensures s.up.header + s.up.delivered <= s.up.offered
  {
    hide InOrder, NothingEarly, PipeShared, ParseRequest;
    Lane.ReaderSeesPrefix(s.up);
    if Handling(s) {
      HandlerSeesTheRequest(s);
      RequestSettles(s.up.header, s.up.delivered);
      Units(s.up.delivered);
    } else {
      assert |s.up.delivered| == 0;
      assert s.up.header + s.up.delivered == [];
      NothingParses();
    }
  }

  /**
   For every request, every response and every schedule: the handler behind
   gRPC gets this client's request and a prefix of its bytes exactly as over
   QUIC, and the client gets one response followed by a prefix of the
   handler's bytes.
   */
  lemma GrpcRefinesQuic(request: Request, reply: Response, run: seq<Step>)
    requires Sendable(request) && Possible(Start(request, reply), run)
    ensures var s := After(Start(request, reply), run);
      var sent := EncodeRequest(request);
      var answer := EncodeResponse(reply);
      && HandlerSees(s) == ParseRequest(s.up.header + s.up.delivered)
      && s.up.header + s.up.delivered <= s.up.offered && sent <= s.up.offered
      && (Handling(s) ==> HandlerSees(s) == Done(request, s.up.delivered) && s.up.delivered <= s.up.offered[|sent|..])
      && (|s.down.delivered| < |answer| ==> ParseResponse(s.down.delivered) == Truncated)
      && (|s.down.delivered| >= |answer| ==>
            var shown := Response(reply.status, Shown(reply.message));
            ParseResponse(s.down.delivered) == Done(shown, s.down.delivered[|answer|..])
            && s.down.delivered <= s.down.offered)
      && (s.up.sawEof && s.up.stream != Lane.Failed ==> s.up.header + s.up.delivered == s.up.offered)
      && (s.down.sawEof && s.down.stream != Lane.Failed ==> s.down.delivered == s.down.offered)
  {
    StartInv(request, reply);
    RunInv(Start(request, reply), run);
    var s := After(Start(request, reply), run);
    SameAsQuic(s);
    ClientView(s);
    Lane.ReaderSeesPrefix(s.up);
    Lane.ReaderSeesPrefix(s.down);
    Units(s.down.delivered);
    if Handling(s) {
      HandlerSeesTheRequest(s);
      DropPrefix(s.up.header, s.up.delivered, s.up.offered);
    }
  }

  /**
   The order of things in every run: a response lane only once the request was
   taken; first the one response, and more only behind a favourable one; nothing up
   before that was read; and no end or byte for a client that has no pipes yet.
   */
  lemma OrderOfThings(request: Request, reply: Response, run: seq<Step>)
    requires |request.token| <= 255 && Representable(request.target)
    requires Possible(Start(request, reply), run)
    ensures var s := After(Start(request, reply), run);
      var sent, answer := EncodeRequest(request), EncodeResponse(reply);
      && (s.up.header == [] || s.up.header == sent)
      && (s.up.header == [] ==> s.down == Lane.Start([], true) && !s.connected)
      && (s.down.offered != [] ==> answer <= s.down.offered)
      && (s.down.offered != [] && reply.status != StatusOk ==> s.down.offered == answer)
      && sent <= s.up.offered
      && (s.up.offered != sent ==> reply.status == StatusOk && answer <= s.down.delivered)
      && (!s.connected ==> s.down.delivered == [] && !s.down.sawEof && !s.up.closed)
  {
    StartInv(request, reply);
    RunInv(Start(request, reply), run);
    var s := After(Start(request, reply), run);
    if Handling(s) {
      HandlerSeesTheRequest(s);
    }
  }

  // ----- The same flow over QUIC -----

  /** Two plain byte streams in place of the lanes; the request is in the first before anything else happens. */
  datatype Quic = Quic(request: Request, reply: Response, up: Lane.Fifo, down: Lane.Fifo)

  datatype QuicStep = Toward(f: Lane.FifoStep) | Back(f: Lane.FifoStep)

  function QuicStart(request: Request, reply: Response): Quic
    requires Sendable(request)
  {
    Quic(request, reply,
      Lane.Fifo(EncodeRequest(request), [], false, false, false, false), Lane.Fifo([], [], false, false, false, false))
  }

  /** The server answers once the bytes it has read decode as a request; the rest is as over gRPC. */
  predicate QuicEnabled(q: Quic, t: QuicStep) {
    match t
    case Toward(f) => Lane.FifoEnabled(q.up, f) && (f.Send? ==> Favourable(q.down.received))
    case Back(f) =>
      && Lane.FifoEnabled(q.down, f)
      && (f.Send? || f.Shut? ==> ParseRequest(q.up.received).Done?)
      && (f.Send? ==> if |q.down.sent| == 0 then f.data == EncodeResponse(q.reply) else q.reply.status == StatusOk)
  }

  function QuicApply(q: Quic, t: QuicStep): Quic
    requires QuicEnabled(q, t)
  {
    match t
    case Toward(f) => q.(up := Lane.FifoApply(q.up, f))
    case Back(f) => q.(down := Lane.FifoApply(q.down, f))
  }

  predicate QuicPossible(q: Quic, run: seq<QuicStep>)
    decreases |run|
  {
    |run| == 0 || (QuicEnabled(q, run[0]) && QuicPossible(QuicApply(q, run[0]), run[1..]))
  }

  function QuicAfter(q: Quic, run: seq<QuicStep>): Quic
    requires QuicPossible(q, run)
    decreases |run|
  {
    if |run| == 0 then q else QuicAfter(QuicApply(q, run[0]), run[1..])
  }

  /** The order of things over QUIC, which the reference keeps by itself. */
  predicate QuicInOrder(q: Quic)
    requires Sendable(q.request)
  {
    var sent, answer := EncodeRequest(q.request), EncodeResponse(q.reply);
    && q.up.received <= q.up.sent && q.down.received <= q.down.sent
    && (q.up.ended ==> q.up.shut && q.up.received == q.up.sent)
    && (q.down.ended ==> q.down.shut && q.down.received == q.down.sent)
    && (q.down.sent != [] || q.down.shut ==> sent <= q.up.received)
    && (q.down.sent != [] ==> answer <= q.down.sent)
    && (q.down.sent != [] && q.reply.status != StatusOk ==> q.down.sent == answer)
    && sent <= q.up.sent
    && (q.up.sent != sent ==> q.reply.status == StatusOk && answer <= q.down.received)
  }

  /** A decoded request was read whole: nothing shorter than what was sent first decodes. */
  lemma DecodedIsRead(q: Quic)
    requires Sendable(q.request) && QuicInOrder(q) && ParseRequest(q.up.received).Done?
    ensures EncodeRequest(q.request) <= q.up.received
  {
    var sent, got := EncodeRequest(q.request), q.up.received;
    if |got| < |sent| {
      assert got < sent;
      RequestPrefixFree(q.request, got);
    }
  }

  /** A favourable answer was read whole, and was favourable. */
  lemma FavourableIsRead(q: Quic)
    requires Sendable(q.request) && QuicInOrder(q) && Favourable(q.down.received)
    ensures q.reply.status == StatusOk && EncodeResponse(q.reply) <= q.down.received
  {
    var answer, got := EncodeResponse(q.reply), q.down.received;
    if |got| < |answer| {
      if got == [] {
        NoAnswerYet();
      } else {
        assert got < answer;
        ResponsePrefixFree(q.reply, got);
      }
    } else {
      assert got != [];
      assert got == answer + got[|answer|..];
      ResponseRoundTrip(q.reply, got[|answer|..]);
    }
  }

  lemma NoAnswerYet()
    ensures ParseResponse([]) == Truncated
  {
  }

  lemma QuicStepInOrder(q: Quic, t: QuicStep)
    requires Sendable(q.request) && QuicInOrder(q) && QuicEnabled(q, t)
    ensures QuicInOrder(QuicApply(q, t))
  {
    match t {
      case Toward(f) =>
        if f.Send? { FavourableIsRead(q); }
        TowardInOrder(q, f);
      case Back(f) =>
        if f.Send? || f.Shut? { DecodedIsRead(q); }
        BackInOrder(q, f);
    }
  }

  lemma FifoKeeps(q: Lane.Fifo, f: Lane.FifoStep)
    requires q.received <= q.sent && (q.ended ==> q.shut && q.received == q.sent) && Lane.FifoEnabled(q, f)
    ensures var r := Lane.FifoApply(q, f);
      && r.received <= r.sent && (r.ended ==> r.shut && r.received == r.sent)
      && q.received <= r.received && q.sent <= r.sent && (r.sent == q.sent || f.Send?)
  {
    if f.Recv? {
      assert q.received <= q.sent[..|q.received| + f.n];
    }
  }

  lemma TowardInOrder(q: Quic, f: Lane.FifoStep)
    requires Sendable(q.request) && QuicInOrder(q) && QuicEnabled(q, Toward(f))
    requires f.Send? ==> q.reply.status == StatusOk && EncodeResponse(q.reply) <= q.down.received
    ensures QuicInOrder(QuicApply(q, Toward(f)))
  {
    hide Lane.FifoApply, Lane.FifoEnabled, EncodeRequest, EncodeResponse, ParseRequest, ParseResponse;
    FifoKeeps(q.up, f);
  }

  lemma BackInOrder(q: Quic, f: Lane.FifoStep)
    requires Sendable(q.request) && QuicInOrder(q) && QuicEnabled(q, Back(f))
    requires f.Send? || f.Shut? ==> EncodeRequest(q.request) <= q.up.received
    ensures QuicInOrder(QuicApply(q, Back(f)))
  {
    FifoKeeps(q.down, f);
    EncodedSizes(q.request, q.reply);
    BackSends(q, f);
    hide Lane.FifoApply, Lane.FifoEnabled, EncodeRequest, EncodeResponse, ParseRequest, ParseResponse;
  }

  lemma BackSends(q: Quic, f: Lane.FifoStep)
    requires QuicEnabled(q, Back(f))
    ensures var r := Lane.FifoApply(q.down, f);
      && (f.Send? ==> r.sent == q.down.sent + f.data)
      && (f.Send? && q.down.sent == [] ==> r.sent == EncodeResponse(q.reply))
      && (f.Send? && q.down.sent != [] ==> q.reply.status == StatusOk)
      && (r.shut == (q.down.shut || f.Shut?))
  {
    if f.Send? { Units(f.data); }
  }

  lemma {:induction false} QuicRunsInOrder(q: Quic, run: seq<QuicStep>)
    requires Sendable(q.request) && QuicInOrder(q) && QuicPossible(q, run)
    ensures QuicAfter(q, run).request == q.request && QuicInOrder(QuicAfter(q, run))
    decreases |run|
  {
    QuicKeepsFlow(q, run);
    if |run| > 0 {
      hide QuicInOrder, QuicEnabled;
      QuicStepInOrder(q, run[0]);
      QuicRunsInOrder(QuicApply(q, run[0]), run[1..]);
    }
  }

  /** Every run over QUIC keeps the same order, and ends what it ends only behind the last byte. */
  lemma QuicOrderOfThings(request: Request, reply: Response, run: seq<QuicStep>)
    requires |request.token| <= 255 && Representable(request.target)
    requires QuicPossible(QuicStart(request, reply), run)
    ensures var q := QuicAfter(QuicStart(request, reply), run);
      var sent, answer := EncodeRequest(request), EncodeResponse(reply);
      && (q.down.sent != [] || q.down.shut ==> sent <= q.up.received)
      && (q.down.sent != [] ==> answer <= q.down.sent)
      && (q.down.sent != [] && reply.status != StatusOk ==> q.down.sent == answer)
      && (q.up.sent != sent ==> reply.status == StatusOk && answer <= q.down.received)
      && (q.up.ended ==> q.up.shut && q.up.received == q.up.sent)
      && (q.down.ended ==> q.down.shut && q.down.received == q.down.sent)
  {
    QuicRunsInOrder(QuicStart(request, reply), run);
    QuicKeepsFlow(QuicStart(request, reply), run);
  }

  lemma {:induction false} QuicKeepsFlow(q: Quic, run: seq<QuicStep>)
    requires QuicPossible(q, run)
    ensures QuicAfter(q, run).request == q.request && QuicAfter(q, run).reply == q.reply
    decreases |run|
  {
    if |run| > 0 {
      QuicKeepsFlow(QuicApply(q, run[0]), run[1..]);
    }
  }

  function AsQuic(s: State): Quic {
    Quic(s.request, s.reply, Lane.AsFifo(s.up), Lane.AsFifo(s.down))
  }

  function Image(s: State, t: Step): QuicStep {
    match t
    case Headers => Toward(Lane.Stutter)
    case Upward(e) => Toward(Lane.FifoImage(s.up, e))
    case Downward(e) => Back(Lane.FifoImage(s.down, e))
  }

  function ImageRun(s: State, run: seq<Step>): seq<QuicStep>
    requires Possible(s, run)
    decreases |run|
  {
    if |run| == 0 then [] else [Image(s, run[0])] + ImageRun(Apply(s, run[0]), run[1..])
  }

  /** What makes a step one that QUIC allows: an end is told to either side only when there is one. */
  predicate Truthful(s: State, t: Step) {
    && (t == Upward(Lane.ReadEof) ==> s.up.closed && !Lane.Damaged(s.up))
    && (t == Downward(Lane.ReadEof) ==> s.down.closed && !Lane.Damaged(s.down))
  }

  lemma UpwardIsAQuicStepIff(s: State, e: Lane.Step)
    requires Inv(s) && Enabled(s, Upward(e))
    ensures QuicEnabled(AsQuic(s), Image(s, Upward(e))) <==> Truthful(s, Upward(e))
    ensures Truthful(s, Upward(e)) ==> QuicApply(AsQuic(s), Image(s, Upward(e))) == AsQuic(Apply(s, Upward(e)))
  {
    hide Lane.Apply, Lane.FifoApply, Lane.FifoEnabled, Lane.Damaged, ParseResponse;
    Lane.LaneRefinesFifoIff(s.up, e);
    NoHeader(s.down);
  }

  lemma DownwardIsAQuicStepIff(s: State, e: Lane.Step)
    requires Inv(s) && Enabled(s, Downward(e))
    ensures QuicEnabled(AsQuic(s), Image(s, Downward(e))) <==> Truthful(s, Downward(e))
    ensures Truthful(s, Downward(e)) ==> QuicApply(AsQuic(s), Image(s, Downward(e))) == AsQuic(Apply(s, Downward(e)))
  {
    hide Lane.Apply, Lane.FifoApply, Lane.FifoEnabled, Lane.Damaged, ParseRequest, EncodeResponse;
    Lane.LaneRefinesFifoIff(s.down, e);
    if Handling(s) {
      HandlerSeesTheRequest(s);
      SameAsQuic(s);
    }
  }

  lemma NoHeader(s: Lane.State)
    requires |s.header| == 0
    ensures Lane.AsFifo(s).received == s.delivered
  {
    Units(s.delivered);
  }

  /**
   Either side is told of an end only behind a shutdown by the other and only while
   nothing on the way to it has been lost. The flags say whether something has,
   upward and downward.
   */
  predicate HonestEnds(s: State, run: seq<Step>, lossyUp: bool, lossyDown: bool)
    requires Possible(s, run)
    decreases |run|
  {
    |run| == 0 || (
      && (run[0] == Upward(Lane.ReadEof) ==> s.up.closed && !lossyUp)
      && (run[0] == Downward(Lane.ReadEof) ==> s.down.closed && !lossyDown)
      && HonestEnds(Apply(s, run[0]), run[1..], lossyUp || LosesUp(s, run[0]), lossyDown || LosesDown(s, run[0])))
  }

  predicate LosesUp(s: State, t: Step)
    requires Enabled(s, t)
  {
    t.Upward? && Lane.Loses(s.up, t.e)
  }

  predicate LosesDown(s: State, t: Step)
    requires Enabled(s, t)
  {
    t.Downward? && Lane.Loses(s.down, t.e)
  }

  /** The flags say what they are meant to. */
  predicate FlagsAt(s: State, lossyUp: bool, lossyDown: bool) {
    (lossyUp <==> Lane.Damaged(s.up)) && (lossyDown <==> Lane.Damaged(s.down))
  }

  lemma LossHistory(s: State, t: Step, lossyUp: bool, lossyDown: bool)
    requires Inv(s) && Enabled(s, t) && FlagsAt(s, lossyUp, lossyDown)
    ensures FlagsAt(Apply(s, t), lossyUp || LosesUp(s, t), lossyDown || LosesDown(s, t))
  {
    hide Lane.Apply, Lane.Damaged, Lane.Loses, Lane.Enabled;
    match t {
      case Headers =>
      case Upward(e) => Lane.DamageHistory(s.up, e);
      case Downward(e) => Lane.DamageHistory(s.down, e);
    }
  }

  lemma IsAQuicStepIff(s: State, t: Step)
    requires Inv(s) && Enabled(s, t)
    ensures QuicEnabled(AsQuic(s), Image(s, t)) <==> Truthful(s, t)
    ensures Truthful(s, t) ==> QuicApply(AsQuic(s), Image(s, t)) == AsQuic(Apply(s, t))
  {
    match t {
      case Headers =>
      case Upward(e) => UpwardIsAQuicStepIff(s, e);
      case Downward(e) => DownwardIsAQuicStepIff(s, e);
    }
  }

  /**
   Refinement of whole runs, exactly: a run of the flow over gRPC, under any
   schedule and with any failures, is a run of the flow over QUIC, with the same
   bytes written, read, closed and ended on either side at every step, if and
   only if no end is told to either side after a loss on the way to it or before
   the other side is done.
   */
  lemma {:induction false} QuicRunIff(s: State, run: seq<Step>, lossyUp: bool, lossyDown: bool)
    requires Inv(s) && Possible(s, run) && FlagsAt(s, lossyUp, lossyDown)
    ensures QuicPossible(AsQuic(s), ImageRun(s, run)) <==> HonestEnds(s, run, lossyUp, lossyDown)
    ensures HonestEnds(s, run, lossyUp, lossyDown) ==> QuicAfter(AsQuic(s), ImageRun(s, run)) == AsQuic(After(s, run))
    decreases |run|
  {
    if |run| > 0 {
      var t := run[0];
      hide Inv, Enabled, Apply, AsQuic, Image, QuicEnabled, QuicApply, LosesUp, LosesDown, Lane.Damaged;
      StepInv(s, t);
      LossHistory(s, t, lossyUp, lossyDown);
      IsAQuicStepIff(s, t);
      if Truthful(s, t) {
        QuicRunIff(Apply(s, t), run[1..], lossyUp || LosesUp(s, t), lossyDown || LosesDown(s, t));
      }
      HeadAndTail(ImageRun(Apply(s, t), run[1..]), Image(s, t));
    }
  }

  /** From the beginning of a flow. */
  lemma GrpcRunIsQuicRunIff(request: Request, reply: Response, run: seq<Step>)
    requires Sendable(request) && Possible(Start(request, reply), run)
    ensures var s := Start(request, reply);
      && (QuicPossible(QuicStart(request, reply), ImageRun(s, run)) <==> HonestEnds(s, run, false, false))
      && (HonestEnds(s, run, false, false) ==>
            QuicAfter(QuicStart(request, reply), ImageRun(s, run)) == AsQuic(After(s, run)))
  {
    StartInv(request, reply);
    StartIsQuicStart(request, reply);
    QuicRunIff(Start(request, reply), run, false, false);
  }

  /** Once told of an end, the reader of a lane has all there will ever be. */
  predicate EndIsComplete(s: Lane.State) {
    s.sawEof ==> s.closed && !Lane.Damaged(s)
  }

  lemma CompleteStaysSo(s: Lane.State, e: Lane.Step)
    requires Lane.Inv(s) && Lane.Enabled(s, e) && EndIsComplete(s)
    requires e.ReadEof? ==> s.closed && !Lane.Damaged(s)
    ensures EndIsComplete(Lane.Apply(s, e))
  {
    Lane.DamageHistory(s, e);
  }

  /** An honest run tells no one of an end while bytes are missing, then or later. */
  lemma {:induction false} HonestEndsAreComplete(s: State, run: seq<Step>, lossyUp: bool, lossyDown: bool)
    requires Inv(s) && Possible(s, run) && FlagsAt(s, lossyUp, lossyDown) && HonestEnds(s, run, lossyUp, lossyDown)
    requires EndIsComplete(s.up) && EndIsComplete(s.down)
    ensures EndIsComplete(After(s, run).up) && EndIsComplete(After(s, run).down)
    decreases |run|
  {
    if |run| > 0 {
      var t := run[0];
      StepInv(s, t);
      LossHistory(s, t, lossyUp, lossyDown);
      if t.Upward? { CompleteStaysSo(s.up, t.e); }
      if t.Downward? { CompleteStaysSo(s.down, t.e); }
      hide Inv, Enabled, EndIsComplete, FlagsAt, LosesUp, LosesDown, Lane.Apply;
      HonestEndsAreComplete(Apply(s, t), run[1..], lossyUp || LosesUp(s, t), lossyDown || LosesDown(s, t));
    }
  }

  lemma NotAQuicRun(request: Request, reply: Response, run: seq<Step>)
    requires Sendable(request) && Possible(Start(request, reply), run)
    requires var t := After(Start(request, reply), run); !EndIsComplete(t.up) || !EndIsComplete(t.down)
    ensures !QuicPossible(QuicStart(request, reply), ImageRun(Start(request, reply), run))
  {
    GrpcRunIsQuicRunIff(request, reply, run);
    StartInv(request, reply);
    if HonestEnds(Start(request, reply), run, false, false) {
      HonestEndsAreComplete(Start(request, reply), run, false, false);
    }
  }

  // ----- The exceptions are real -----

  /** The server has taken the request, and the client has pipes. */
  function Accepted(request: Request, reply: Response): State
    requires Sendable(request)
  {
    var s, enc := Start(request, reply), EncodeRequest(request);
    s.(up := s.up.(channel := [], header := enc, delivery := Lane.Receiving), connected := true)
  }

  const OPENING: seq<Step> := [Upward(Lane.Transmit), Upward(Lane.Accept), Headers]

  lemma OpensUp(request: Request, reply: Response)
    requires Sendable(request)
    ensures Possible(Start(request, reply), OPENING)
    ensures After(Start(request, reply), OPENING) == Accepted(request, reply)
  {
    EncodedSizes(request, reply);
    hide EncodeRequest, Sendable;
    var enc := EncodeRequest(request);
    HeadAndTail([], enc);
    var s0 := Start(request, reply);
    var s1 := Apply(s0, Upward(Lane.Transmit));
    assert s1 == s0.(up := s0.up.(channel := [], wire := [enc]));
    var s2 := Apply(s1, Upward(Lane.Accept));
    assert s2 == s0.(up := s0.up.(channel := [], header := enc, delivery := Lane.Receiving));
    RunOf(s2, Headers, []);
    RunOf(s1, Upward(Lane.Accept), [Headers]);
    RunOf(s0, Upward(Lane.Transmit), [Upward(Lane.Accept), Headers]);
  }

  /** A response stream that breaks before any answer reads to the client as one that ended. */
  lemma BrokenStreamReadsAsEnded(request: Request, reply: Response)
    requires Sendable(request)
    ensures var run := OPENING + [Downward(Lane.Fail(0)), Downward(Lane.EndDelivery), Downward(Lane.ReadEof)];
      var s := Start(request, reply);
      Possible(s, run) && After(s, run).down.sawEof && !QuicPossible(QuicStart(request, reply), ImageRun(s, run))
  {
    OpensUp(request, reply);
    EncodedSizes(request, reply);
    hide EncodeRequest, Sendable;
    var s0 := Accepted(request, reply);
    var s1 := Apply(s0, Downward(Lane.Fail(0)));
    var s2 := Apply(s1, Downward(Lane.EndDelivery));
    var tail := [Downward(Lane.Fail(0)), Downward(Lane.EndDelivery), Downward(Lane.ReadEof)];
    RunOf(s2, Downward(Lane.ReadEof), []);
    RunOf(s1, Downward(Lane.EndDelivery), [Downward(Lane.ReadEof)]);
    RunOf(s0, Downward(Lane.Fail(0)), [Downward(Lane.EndDelivery), Downward(Lane.ReadEof)]);
    RunsConcat(Start(request, reply), OPENING, tail);
    NotAQuicRun(request, reply, OPENING + tail);
  }

  /** The favourable answer has been read, and nothing else has happened. */
  function Opened(request: Request, reply: Response): State
    requires Sendable(request)
  {
    var s, answer := Accepted(request, reply), EncodeResponse(reply);
    s.(down := s.down.(offered := answer, delivered := answer))
  }

  function Lifted(run: seq<Lane.Step>): seq<Step> {
    seq(|run|, i requires 0 <= i < |run| => Downward(run[i]))
  }

  /** What the tasks of the response lane do, they do in a flow that is connected. */
  lemma {:induction false} DownRun(s: State, run: seq<Lane.Step>)
    requires Handling(s) && s.connected && Lane.Possible(s.down, run) && Lane.AllInternal(run)
    ensures Possible(s, Lifted(run)) && After(s, Lifted(run)) == s.(down := Lane.After(s.down, run))
    decreases |run|
  {
    hide Lane.Apply, Lane.Enabled;
    if |run| > 0 {
      assert Lane.Internal(run[0]);
      assert Lifted(run)[1..] == Lifted(run[1..]);
      DownRun(Apply(s, Downward(run[0])), run[1..]);
    }
  }

  lemma AnswerRun(request: Request, reply: Response) returns (run: seq<Step>)
    requires Sendable(request)
    ensures Possible(Start(request, reply), run) && After(Start(request, reply), run) == Opened(request, reply)
  {
    OpensUp(request, reply);
    EncodedSizes(request, reply);
    var s, answer := Accepted(request, reply), EncodeResponse(reply);
    assert |answer| <= Lane.FRAME_SIZE;
    hide EncodeRequest, Sendable;
    hide EncodeResponse;
    Units(answer);
    var rest := Lane.PassThrough(s.down, answer);
    var t := Apply(s, Downward(Lane.Offer(answer)));
    DownRun(t, rest);
    RunOf(s, Downward(Lane.Offer(answer)), Lifted(rest));
    run := OPENING + ([Downward(Lane.Offer(answer))] + Lifted(rest));
    RunsConcat(Start(request, reply), OPENING, [Downward(Lane.Offer(answer))] + Lifted(rest));
  }

  const DOWNLOAD_ENDS: seq<Step> := [Downward(Lane.Close), Downward(Lane.PumpEnd), Downward(Lane.Finish)]

  lemma DownloadEnds(s: State)
    requires Handling(s) && Lane.Quiet(s.down)
    ensures Possible(s, DOWNLOAD_ENDS)
    ensures After(s, DOWNLOAD_ENDS) ==
      s.(down := s.down.(closed := true, pump := Lane.PumpEnded, stream := Lane.Finished))
  {
    var s1 := Apply(s, Downward(Lane.Close));
    var s2 := Apply(s1, Downward(Lane.PumpEnd));
    RunOf(s2, Downward(Lane.Finish), []);
    RunOf(s1, Downward(Lane.PumpEnd), [Downward(Lane.Finish)]);
    RunOf(s, Downward(Lane.Close), [Downward(Lane.PumpEnd), Downward(Lane.Finish)]);
  }

  function BreaksUnder(data: seq<Byte>): seq<Step> {
    [Upward(Lane.Offer(data)), Upward(Lane.Fail(0))]
  }

  const READS_END: seq<Step> := [Upward(Lane.EndDelivery), Upward(Lane.DropPipe), Upward(Lane.ReadEof)]

  lemma BreaksUnderRun(s: State, data: seq<Byte>)
    requires Lane.Quiet(s.up) && FlowOpen(s)
    ensures Possible(s, BreaksUnder(data))
    ensures After(s, BreaksUnder(data)) ==
      s.(up := s.up.(offered := s.up.offered + data, backlog := data, stream := Lane.Failed))
  {
    hide FlowOpen;
    var s1 := Apply(s, Upward(Lane.Offer(data)));
    RunOf(s1, Upward(Lane.Fail(0)), []);
    RunOf(s, Upward(Lane.Offer(data)), [Upward(Lane.Fail(0))]);
  }

  lemma ReadsEndRun(s: State)
    requires s.up.stream == Lane.Failed && !s.up.closesOnError && s.up.delivery == Lane.Receiving
    requires |s.up.wire| == 0 && |s.up.outPipe| == 0 && !s.up.outClosed && !s.up.sawEof
    requires s.up.header == s.up.opening && s.down.pump == Lane.PumpEnded
    ensures Possible(s, READS_END)
    ensures After(s, READS_END) == s.(up := s.up.(delivery := Lane.DeliveryEnded, outClosed := true, sawEof := true))
  {
    var s1 := Apply(s, Upward(Lane.EndDelivery));
    assert s1 == s.(up := s.up.(delivery := Lane.DeliveryEnded));
    var s2 := Apply(s1, Upward(Lane.DropPipe));
    RunOf(s2, Upward(Lane.ReadEof), []);
    RunOf(s1, Upward(Lane.DropPipe), [Upward(Lane.ReadEof)]);
    RunOf(s, Upward(Lane.EndDelivery), [Upward(Lane.DropPipe), Upward(Lane.ReadEof)]);
  }

  /**
   When a download is over and the upload then breaks, the handler takes the break
   for the end of the upload, whatever is missing from it.
   */
  lemma TruncatedUploadLooksComplete(request: Request, reply: Response, data: seq<Byte>) returns (run: seq<Step>)
    requires Sendable(request) && reply.status == StatusOk
    ensures Possible(Start(request, reply), run)
    ensures var t := After(Start(request, reply), run);
      t.up.sawEof && t.up.delivered == [] && t.up.offered == EncodeRequest(request) + data && !t.up.closed
    ensures !QuicPossible(QuicStart(request, reply), ImageRun(Start(request, reply), run))
  {
    var s := Start(request, reply);
    var answered := Opened(request, reply);
    run := AnswerRun(request, reply);
    OpenedIsFavourable(request, reply);
    DownloadEnds(answered);
    RunsConcat(s, run, DOWNLOAD_ENDS);
    run := run + DOWNLOAD_ENDS;
    hide EncodeRequest, EncodeResponse, Sendable, ParseResponse;
    BreaksUnderRun(After(s, run), data);
    RunsConcat(s, run, BreaksUnder(data));
    run := run + BreaksUnder(data);
    ReadsEndRun(After(s, run));
    RunsConcat(s, run, READS_END);
    run := run + READS_END;
    NotAQuicRun(request, reply, run);
  }

  lemma OpenedIsFavourable(request: Request, reply: Response)
    requires Sendable(request) && reply.status == StatusOk
    ensures FlowOpen(Opened(request, reply)) && Handling(Opened(request, reply))
  {
    EncodedSizes(request, reply);
    ResponseRoundTrip(reply, []);
    Units(EncodeResponse(reply));
  }

  lemma {:induction false} RunsConcat(s: State, a: seq<Step>, b: seq<Step>)
    requires Possible(s, a) && Possible(After(s, a), b)
    ensures Possible(s, a + b) && After(s, a + b) == After(After(s, a), b)
    decreases |a|
  {
    hide Enabled, Apply;
    if |a| == 0 {
      Units(b);
    } else {
      TailOfConcat(a, b);
      RunsConcat(Apply(s, a[0]), a[1..], b);
    }
  }

  lemma RunOf(s: State, t: Step, rest: seq<Step>)
    requires Enabled(s, t) && Possible(Apply(s, t), rest)
    ensures Possible(s, [t] + rest) && After(s, [t] + rest) == After(Apply(s, t), rest)
  {
    HeadAndTail(rest, t);
  }

  lemma StartIsQuicStart(request: Request, reply: Response)
    requires Sendable(request)
    ensures AsQuic(Start(request, reply)) == QuicStart(request, reply)
  {
  }

  // ----- Progress -----

  /** Steps that need nothing from outside; closing a dropped pipe is one of them here. */
  predicate Internal(t: Step) {
    t.Headers? || Lane.Internal(t.e) || t.e.DropPipe?
  }

  predicate AllInternal(run: seq<Step>) {
    forall i :: 0 <= i < |run| ==> Internal(run[i])
  }

  ghost predicate Stuck(s: State) {
    forall t: Step :: Internal(t) ==> !Enabled(s, t)
  }

  predicate Unbroken(s: State) {
    s.up.stream != Lane.Failed && s.down.stream != Lane.Failed
  }

  function Distance(s: State): nat {
    Lane.Distance(s.up) + Lane.Distance(s.down) + Lane.Flag(!s.connected)
  }

  /** The same streams are broken, and what can still arrive on them is the same. */
  predicate SameBreaks(s: State, t: State) {
    && (t.up.stream == Lane.Failed <==> s.up.stream == Lane.Failed)
    && (t.down.stream == Lane.Failed <==> s.down.stream == Lane.Failed)
    && (s.up.stream == Lane.Failed ==> Lane.Down(t.up) == Lane.Down(s.up))
    && (s.down.stream == Lane.Failed ==> Lane.Down(t.down) == Lane.Down(s.down) && t.connected == s.connected)
  }

  lemma LaneStepApproaches(s: Lane.State, e: Lane.Step)
    requires Lane.Inv(s) && (Lane.Internal(e) || e.DropPipe?) && Lane.Enabled(s, e)
    ensures Lane.Distance(Lane.Apply(s, e)) < Lane.Distance(s)
    ensures Lane.Apply(s, e).stream == Lane.Failed <==> s.stream == Lane.Failed
    ensures s.stream == Lane.Failed ==> Lane.Down(Lane.Apply(s, e)) == Lane.Down(s)
  {
    hide Lane.Apply, Lane.Inv, Lane.Distance, Lane.Down;
    Lane.InternalStepsApproach(s, e);
    if s.stream == Lane.Failed {
      Lane.FailedKeepsDown(s, e);
    }
  }

  lemma InternalStepApproaches(s: State, t: Step)
    requires Inv(s) && Internal(t) && Enabled(s, t)
    ensures Distance(Apply(s, t)) < Distance(s) && SameBreaks(s, Apply(s, t))
  {
    hide Lane.Apply, Lane.Distance, Lane.Down, Lane.Enabled, Lane.Inv;
    match t {
      case Headers =>
      case Upward(e) => LaneStepApproaches(s.up, e);
      case Downward(e) => LaneStepApproaches(s.down, e);
    }
  }

  lemma UpCanMove(s: State)
    requires Inv(s) && s.up.stream != Lane.Failed && !Lane.Settled(s.up)
    ensures !Stuck(s)
  {
    hide Lane.Inv, Lane.Enabled, Lane.Settled, Lane.NextStep, InOrder;
    Lane.NeverStuck(s.up);
    assert Enabled(s, Upward(Lane.NextStep(s.up)));
  }

  lemma DownCanMove(s: State)
    requires Inv(s) && s.down.stream != Lane.Failed && Handling(s) && !(s.connected && Lane.Settled(s.down))
    ensures !Stuck(s)
  {
    hide Lane.Inv, Lane.Enabled, Lane.Settled, Lane.NextStep, InOrder;
    if s.connected {
      Lane.NeverStuck(s.down);
      assert Enabled(s, Downward(Lane.NextStep(s.down)));
    } else {
      assert Enabled(s, Headers);
    }
  }

  lemma StuckLanes(s: State)
    requires Inv(s) && Stuck(s)
    ensures s.up.stream != Lane.Failed ==> Lane.Settled(s.up)
    ensures Handling(s) && s.down.stream != Lane.Failed ==> s.connected && Lane.Settled(s.down)
  {
    hide Inv, Stuck, Lane.Settled, Handling;
    if s.up.stream != Lane.Failed && !Lane.Settled(s.up) {
      UpCanMove(s);
    }
    if Handling(s) && s.down.stream != Lane.Failed && !(s.connected && Lane.Settled(s.down)) {
      DownCanMove(s);
    }
  }

  /**
   The handshake cannot hang: without further input every run is bounded, and
   where it stops the handler has been started, and once it has answered, the
   client has its verdict.
   */
  lemma {:induction false} HandshakeCompletes(s: State, run: seq<Step>)
    requires Inv(s) && Unbroken(s) && Possible(s, run) && AllInternal(run)
    ensures |run| <= Distance(s)
    ensures var t := After(s, run);
      Stuck(t) ==>
        && Handling(t) && HandlerSees(t) == Done(t.request, t.up.delivered)
        && t.up.header + t.up.delivered == t.up.offered && t.down.delivered == t.down.offered
        && (|t.down.offered| > 0 ==> (FlowOpen(t) <==> t.reply.status == StatusOk))
    decreases |run|
  {
    hide Inv, Distance, Internal, Handling, HandlerSees, FlowOpen, Apply, Lane.Down;
    if |run| > 0 {
      InternalStepApproaches(s, run[0]);
      StepInv(s, run[0]);
      HandshakeCompletes(Apply(s, run[0]), run[1..]);
    } else if Stuck(s) {
      WhenNothingMoves(s);
    }
  }

  lemma WhenNothingMoves(s: State)
    requires Inv(s) && Unbroken(s) && Stuck(s)
    ensures Handling(s) && HandlerSees(s) == Done(s.request, s.up.delivered)
    ensures s.up.header + s.up.delivered == s.up.offered && s.down.delivered == s.down.offered
    ensures |s.down.offered| > 0 ==> (FlowOpen(s) <==> s.reply.status == StatusOk)
  {
    hide ParseRequest, ParseResponse, EncodeRequest, EncodeResponse, Stuck;
    StuckLanes(s);
    NoHeader(s.down);
    EncodedSizes(s.request, s.reply);
    assert |s.up.header| > 0;
    HandlerSeesTheRequest(s);
    ClientView(s);
  }

  /** What each side of a broken stream has been told once nothing moves any more. */
  predicate ToldOfBreaks(s: State) {
    && (s.up.stream == Lane.Failed ==>
          && s.up.header + s.up.delivered == Lane.Down(s.up)
          && (s.up.sawEof <==> Handling(s) && s.down.pump == Lane.PumpEnded)
          && (s.down.stream != Lane.Failed ==> (s.up.sawEof <==> Handling(s) && s.down.closed)))
    && (s.down.stream == Lane.Failed && s.connected ==> s.down.delivered == Lane.Down(s.down) && s.down.sawEof)
  }

  lemma {:induction false} BrokenRun(s: State, run: seq<Step>)
    requires Inv(s) && Possible(s, run) && AllInternal(run)
    ensures |run| <= Distance(s)
    ensures Inv(After(s, run)) && SameBreaks(s, After(s, run))
    ensures Stuck(After(s, run)) ==> ToldOfBreaks(After(s, run))
    decreases |run|
  {
    hide Inv, Distance, Internal, ToldOfBreaks, Apply, Lane.Down, Stuck;
    if |run| > 0 {
      InternalStepApproaches(s, run[0]);
      StepInv(s, run[0]);
      BrokenRun(Apply(s, run[0]), run[1..]);
    } else if Stuck(s) {
      StuckAfterBreaks(s);
    }
  }

  /**
   Breaks run out: without further input every run is bounded, and where it stops
   all that was not lost has been read. A client that had its pipes has been told
   of an end; a handler exactly if its response pump has ended, which on an
   unbroken response stream means exactly if it has closed its own side.
   */
  lemma BreaksRunOut(s: State, run: seq<Step>)
    requires Inv(s) && Possible(s, run) && AllInternal(run)
    ensures |run| <= Distance(s)
    ensures var t := After(s, run);
      Stuck(t) ==>
        && (s.up.stream == Lane.Failed ==>
              && t.up.header + t.up.delivered == Lane.Down(s.up)
              && (t.up.sawEof <==> Handling(t) && t.down.pump == Lane.PumpEnded)
              && (s.down.stream != Lane.Failed ==> (t.up.sawEof <==> Handling(t) && t.down.closed)))
        && (s.down.stream == Lane.Failed && s.connected ==>
              t.down.delivered == Lane.Down(s.down) && t.down.sawEof)
  {
    hide Inv, Distance, Lane.Down, Stuck, Handling;
    BrokenRun(s, run);
  }

  lemma StuckAfterBreaks(s: State)
    requires Inv(s) && Stuck(s)
    ensures ToldOfBreaks(s)
  {
    hide Lane.Down;
    if s.up.stream == Lane.Failed {
      HandlerToldIff(s);
      if s.down.stream != Lane.Failed && Handling(s) {
        StuckLanes(s);
        PumpEndedIffClosed(s.down);
      }
    }
    if s.down.stream == Lane.Failed && s.connected {
      ClientIsTold(s);
    }
  }

  lemma StuckUp(s: State)
    requires Stuck(s)
    ensures Lane.Stuck(s.up)
  {
    hide Lane.Enabled, Lane.Internal;
    forall e: Lane.Step | Lane.Internal(e)
      ensures !Lane.Enabled(s.up, e)
    {
      assert Internal(Upward(e)) && !Enabled(s, Upward(e));
      NotOffered(e);
    }
  }

  lemma NotOffered(e: Lane.Step)
    requires Lane.Internal(e)
    ensures !e.Offer? && !e.Close? && !e.DropPipe?
  {
  }

  lemma HandlerToldIff(s: State)
    requires Inv(s) && Stuck(s) && s.up.stream == Lane.Failed
    ensures s.up.header + s.up.delivered == Lane.Down(s.up)
    ensures s.up.sawEof <==> Handling(s) && s.down.pump == Lane.PumpEnded
  {
    hide Lane.Down, InOrder, Lane.Stuck, Lane.Inv, EncodeRequest, ParseRequest, Stuck, Lane.Enabled;
    StuckUp(s);
    Lane.RestOfFailed(s.up);
    EncodedSizes(s.request, s.reply);
    if Handling(s) {
      HandlerSeesTheRequest(s);
      if s.down.pump == Lane.PumpEnded {
        PipeNotLeftOpen(s);
      }
    }
  }

  /** Where nothing moves, the pipe of a delivery task that is gone is open only if the response pump lives. */
  lemma PipeNotLeftOpen(s: State)
    requires Stuck(s) && s.up.delivery == Lane.DeliveryEnded && s.up.header == s.up.opening
    requires s.down.pump == Lane.PumpEnded
    ensures s.up.outClosed
  {
    assert Internal(Upward(Lane.DropPipe)) && !Enabled(s, Upward(Lane.DropPipe));
  }

  lemma PumpEndedIffClosed(s: Lane.State)
    requires Lane.Inv(s) && s.stream != Lane.Failed && Lane.Settled(s)
    ensures s.pump == Lane.PumpEnded <==> s.closed
  {
  }

  lemma ClientIsTold(s: State)
    requires Inv(s) && Stuck(s) && s.down.stream == Lane.Failed && s.connected && Handling(s)
    ensures s.down.delivered == Lane.Down(s.down) && s.down.sawEof
  {
    hide Lane.Down, InOrder;
    forall e: Lane.Step | Lane.Internal(e) ensures !Lane.Enabled(s.down, e) {
      assert !Enabled(s, Downward(e));
    }
    Lane.StuckAfterFailure(s.down);
    NoHeader(s.down);
  }

  // ----- Prefixes -----

  lemma DropPrefix<T>(h: seq<T>, d: seq<T>, all: seq<T>)
    requires h + d <= all
    ensures d <= all[|h|..]
  {
  }

  // ----- Datagrams through a lane -----

  /** A lane announces an end that is one: no failure was taken for it. */
  predicate CleanEnd(s: Lane.State) {
    s.sawEof && s.stream != Lane.Failed
  }

  /** What a datagram reader makes of a stream of which `lead` was read before, by whatever reads that. */
  lemma DatagramsBehind(lead: seq<Byte>, got: seq<Byte>, offered: seq<Byte>, ds: seq<Datagram>)
    requires Fits(ds) && lead + got <= offered <= lead + FrameAll(ds)
    ensures Unframe(got) == ds[..Complete(ds, |got|)]
    ensures lead + got == lead + FrameAll(ds) ==> Unframe(got) == ds
  {
    PrefixChain(lead, got, offered, FrameAll(ds));
    CutStreamYieldsCompleteFrames(ds, got);
    if lead + got == lead + FrameAll(ds) {
      SameTail(lead, got, FrameAll(ds));
      UnframeFrameAll(ds);
    }
  }

  /**
   Upward, a datagram reader obtains, at every moment of every run, exactly the
   frames that have arrived whole; and all of them at an end that is one.
   */
  lemma DatagramsUp(s: State, ds: seq<Datagram>)
    requires Inv(s) && Handling(s) && Fits(ds)
    requires s.up.offered <= EncodeRequest(s.request) + FrameAll(ds)
    ensures Unframe(s.up.delivered) == ds[..Complete(ds, |s.up.delivered|)]
    ensures CleanEnd(s.up) && s.up.offered == EncodeRequest(s.request) + FrameAll(ds) ==> Unframe(s.up.delivered) == ds
  {
    Lane.ReaderSeesPrefix(s.up);
    HandlerSeesTheRequest(s);
    DatagramsBehind(EncodeRequest(s.request), s.up.delivered, s.up.offered, ds);
  }

  /** Downward the same holds of what follows the response, and of the end when no failure was taken for it. */
  lemma DatagramsDown(s: State, ds: seq<Datagram>)
    requires Inv(s) && Fits(ds)
    requires EncodeResponse(s.reply) <= s.down.delivered && s.down.offered <= EncodeResponse(s.reply) + FrameAll(ds)
    ensures var got := s.down.delivered[|EncodeResponse(s.reply)|..];
      && Unframe(got) == ds[..Complete(ds, |got|)]
      && (CleanEnd(s.down) && s.down.offered == EncodeResponse(s.reply) + FrameAll(ds) ==> Unframe(got) == ds)
  {
    var enc := EncodeResponse(s.reply);
    var got := s.down.delivered[|enc|..];
    assert enc + got == s.down.delivered;
    Lane.ReaderSeesPrefix(s.down);
    NoHeader(s.down);
    DatagramsBehind(enc, got, s.down.offered, ds);
  }

  lemma PrefixChain<T>(o: seq<T>, d: seq<T>, mid: seq<T>, f: seq<T>)
    requires o + d <= mid && mid <= o + f
    ensures d <= f
  {
    assert o + d <= o + f;
    assert forall i :: 0 <= i < |d| ==> d[i] == (o + d)[|o| + i] && f[i] == (o + f)[|o| + i];
  }

  lemma SameTail<T>(o: seq<T>, a: seq<T>, b: seq<T>)
    requires o + a == o + b
    ensures a == b
  {
    assert (o + a)[|o|..] == a && (o + b)[|o|..] == b;
  }
}
