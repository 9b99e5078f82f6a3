/**
 What the server does with a request, whichever transport brought it: check the
 token, resolve, filter by policy, dial, answer once, then relay.
 */
module Proxy {
  import opened Bytes
  import opened Utf8
  import opened Wire
  import opened Streams
  import opened Wrappers
  import Routing
  import Session

  // ----- Token comparison -----

  /** A byte, or zero beyond the end. */
  function At(b: seq<Byte>, i: nat): Byte {
    if i < |b| then b[i] else 0
  }

  function Longer(a: seq<Byte>, b: seq<Byte>): nat { if |a| >= |b| then |a| else |b| }

  /** Equal once the shorter one is padded with zeros, and of the same length modulo 256. */
  predicate Indistinguishable(a: seq<Byte>, b: seq<Byte>) {
    |a| % 256 == |b| % 256 && forall i: nat :: i < Longer(a, b) ==> At(a, i) == At(b, i)
  }

  function Power2(bits: nat): nat { if bits == 0 then 1 else 2 * Power2(bits - 1) }

  // Bitwise operations on numbers of a given width.

  function Xor(x: nat, y: nat, bits: nat): (z: nat)
    ensures z < Power2(bits)
    ensures x < Power2(bits) && y < Power2(bits) ==> (z == 0 <==> x == y)
  {
    if bits == 0 then 0 else 2 * Xor(x / 2, y / 2, bits - 1) + (if x % 2 == y % 2 then 0 else 1)
  }

  function Or(x: nat, y: nat, bits: nat): (z: nat)
    ensures z < Power2(bits)
    ensures x < Power2(bits) && y < Power2(bits) ==> (z == 0 <==> x == 0 && y == 0)
  {
    if bits == 0 then 0 else 2 * Or(x / 2, y / 2, bits - 1) + (if x % 2 == 0 && y % 2 == 0 then 0 else 1)
  }

  lemma EightBits()
    ensures Power2(8) == 256
  {
    assert Power2(4) == 16;
  }

  /** Accumulates differences over the longer of the two, never stopping early; the lengths are compared as bytes. */
  method TokenMatches(expected: seq<Byte>, got: seq<Byte>) returns (same: bool)
    ensures same <==> Indistinguishable(expected, got)
  {
    EightBits();
    var difference := Xor(|expected| % 256, |got| % 256, 8);
    for index := 0 to Longer(expected, got)
      invariant difference < 256
      invariant difference == 0 <==>
        |expected| % 256 == |got| % 256 && forall i: nat :: i < index ==> At(expected, i) == At(got, i)
    {
      difference := Or(difference, Xor(At(expected, index) as nat, At(got, index) as nat, 8), 8);
    }
    same := difference == 0;
  }

  /** On the lengths configuration and wire allow, the comparison is equality. */
  lemma TokensOfAtMost255Bytes(a: seq<Byte>, b: seq<Byte>)
    requires |a| <= 255 && |b| <= 255
    ensures Indistinguishable(a, b) <==> a == b
  {
    if Indistinguishable(a, b) {
      assert forall i :: 0 <= i < |a| ==> At(a, i) == a[i] && At(b, i) == b[i];
    }
  }

  /** Beyond them it is not: 256 zero bytes match the empty token. */
  lemma LongTokensMayMatch()
    ensures var zeros: seq<Byte> := seq(256, _ => 0); Indistinguishable(zeros, []) && zeros != []
  {
  }

  // ----- Policy -----

  datatype Socket = Socket(ip: Routing.Addr, port: U16)

  datatype ServerConfig = ServerConfig(
    token: Text,
    allow: seq<Routing.Net>,
    deny: seq<Routing.Net>,
    connectTimeout: nat)

  predicate Any(nets: seq<Routing.Net>, ip: Routing.Addr) {
    exists i :: 0 <= i < |nets| && Routing.Contains(nets[i], ip)
  }

  /** Deny wins; an empty allow list allows everything else. */
  predicate Permits(cfg: ServerConfig, ip: Routing.Addr) {
    !Any(cfg.deny, ip) && (|cfg.allow| == 0 || Any(cfg.allow, ip))
  }

  function Permitted(cfg: ServerConfig, candidates: seq<Socket>): seq<Socket>
    decreases |candidates|
  {
    if |candidates| == 0 then []
    else (if Permits(cfg, candidates[0].ip) then [candidates[0]] else []) + Permitted(cfg, candidates[1..])
  }

  lemma {:induction false} PermittedAreAllowed(cfg: ServerConfig, candidates: seq<Socket>)
    ensures forall c :: c in Permitted(cfg, candidates) <==> c in candidates && Permits(cfg, c.ip)
    decreases |candidates|
  {
    if |candidates| > 0 {
      PermittedAreAllowed(cfg, candidates[1..]);
    }
  }

  /** What the policy means: outside every denied network, and inside an allowed one unless none is listed. */
  lemma PermitsIs(cfg: ServerConfig, ip: Routing.Addr)
    ensures Permits(cfg, ip) <==>
      && (forall n :: n in cfg.deny ==> !Routing.Contains(n, ip))
      && (cfg.allow == [] || exists n :: n in cfg.allow && Routing.Contains(n, ip))
  {
    if n :| n in cfg.deny && Routing.Contains(n, ip) {
      var i :| 0 <= i < |cfg.deny| && cfg.deny[i] == n;
      assert Any(cfg.deny, ip);
    }
    if n :| n in cfg.allow && Routing.Contains(n, ip) {
      var i :| 0 <= i < |cfg.allow| && cfg.allow[i] == n;
      assert Any(cfg.allow, ip);
    }
  }

  /** `kept` are the elements of `all` at these positions, in order. */
  ghost predicate Picks<T>(all: seq<T>, kept: seq<T>, at: seq<nat>) {
    && |at| == |kept|
    && (forall i, j :: 0 <= i < j < |at| ==> at[i] < at[j])
    && (forall i :: 0 <= i < |at| ==> at[i] < |all| && kept[i] == all[at[i]])
  }

  function Shifted(at: seq<nat>): (later: seq<nat>)
    ensures |later| == |at| && forall i :: 0 <= i < |at| ==> later[i] == at[i] + 1
  {
    seq(|at|, i requires 0 <= i < |at| => at[i] + 1)
  }

  lemma PicksLater<T>(all: seq<T>, kept: seq<T>, at: seq<nat>)
    requires |all| > 0 && Picks(all[1..], kept, at)
    ensures Picks(all, kept, Shifted(at))
  {
  }

  lemma PicksFirst<T>(all: seq<T>, kept: seq<T>, at: seq<nat>)
    requires |all| > 0 && Picks(all, kept, at) && forall i :: 0 <= i < |at| ==> at[i] > 0
    ensures Picks(all, [all[0]] + kept, [0] + at)
  {
  }

  lemma ShiftedMembers(at: seq<nat>, k: nat)
    ensures k in Shifted(at) <==> k > 0 && k - 1 in at
  {
    var later := Shifted(at);
    if k in later {
      var i :| 0 <= i < |later| && later[i] == k;
      assert at[i] == k - 1;
    }
    if k > 0 && k - 1 in at {
      var i :| 0 <= i < |at| && at[i] == k - 1;
      assert later[i] == k;
    }
  }

  lemma {:induction false} PermittedPicks(cfg: ServerConfig, candidates: seq<Socket>) returns (at: seq<nat>)
    ensures Picks(candidates, Permitted(cfg, candidates), at)
    ensures forall k: nat :: k in at <==> k < |candidates| && Permits(cfg, candidates[k].ip)
    decreases |candidates|
  {
    if |candidates| == 0 {
      at := [];
    } else {
      var rest := PermittedPicks(cfg, candidates[1..]);
      var kept := Permitted(cfg, candidates[1..]);
      PicksLater(candidates, kept, rest);
      Units(kept);
      hide Picks, Permits;
      var first := Permits(cfg, candidates[0].ip);
      if first {
        PicksFirst(candidates, kept, Shifted(rest));
      }
      at := (if first then [0] else []) + Shifted(rest);
      Units(Shifted(rest));
      forall k: nat
        ensures k in at <==> k < |candidates| && Permits(cfg, candidates[k].ip)
      {
        ShiftedMembers(rest, k);
        assert k > 0 && k < |candidates| ==> candidates[k] == candidates[1..][k - 1];
      }
    }
  }

  /** Exactly the candidates that meet the policy are kept, each as often as it was resolved, in the order resolved. */
  lemma PermittedInOrder(cfg: ServerConfig, candidates: seq<Socket>) returns (at: seq<nat>)
    ensures |at| == |Permitted(cfg, candidates)|
    ensures forall i, j :: 0 <= i < j < |at| ==> at[i] < at[j]
    ensures forall i :: 0 <= i < |at| ==> at[i] < |candidates| && Permitted(cfg, candidates)[i] == candidates[at[i]]
    ensures forall k: nat :: k in at <==> k < |candidates| && Permits(cfg, candidates[k].ip)
  {
    at := PermittedPicks(cfg, candidates);
  }

  // ----- Dialling -----

  /** How the k-th connect attempt would go: how long, and whether it succeeds in the end. */
  datatype Dial = Dial(takes: nat, succeeds: bool)

  predicate Connects(cfg: ServerConfig, d: Dial) {
    d.succeeds && d.takes <= cfg.connectTimeout
  }

  function Spent(cfg: ServerConfig, d: Dial): nat {
    if d.takes <= cfg.connectTimeout then d.takes else cfg.connectTimeout
  }

  /** The time the first `n` dials take, one after another. */
  function TimeFor(cfg: ServerConfig, dials: nat -> Dial, n: nat): nat {
    if n == 0 then 0 else TimeFor(cfg, dials, n - 1) + Spent(cfg, dials(n - 1))
  }

  lemma {:induction false} TimeForIs(cfg: ServerConfig, dials: nat -> Dial, n: nat)
    ensures TimeFor(cfg, dials, n) <= n * cfg.connectTimeout
    ensures (forall k :: 0 <= k < n ==> dials(k).takes >= cfg.connectTimeout) ==>
      TimeFor(cfg, dials, n) == n * cfg.connectTimeout
    ensures n > 0 && dials(n - 1).takes <= cfg.connectTimeout ==>
      TimeFor(cfg, dials, n) == TimeFor(cfg, dials, n - 1) + dials(n - 1).takes
  {
    if n > 0 {
      TimeForIs(cfg, dials, n - 1);
      assert n * cfg.connectTimeout == (n - 1) * cfg.connectTimeout + cfg.connectTimeout;
    }
  }

  /** Tries candidates in order up to the first that connects in time. */
  method DialAll(cfg: ServerConfig, candidates: seq<Socket>, dials: nat -> Dial)
    returns (upstream: Option<Socket>, dialled: seq<Socket>, elapsed: nat)
    ensures dialled <= candidates
    ensures upstream.Some? ==>
      && |dialled| > 0 && upstream.value == dialled[|dialled| - 1]
      && dials(|dialled| - 1).succeeds && dials(|dialled| - 1).takes <= cfg.connectTimeout
      && forall k :: 0 <= k < |dialled| - 1 ==> !(dials(k).succeeds && dials(k).takes <= cfg.connectTimeout)
    ensures upstream.None? ==>
      && dialled == candidates
      && forall k :: 0 <= k < |candidates| ==> !(dials(k).succeeds && dials(k).takes <= cfg.connectTimeout)
    ensures elapsed == TimeFor(cfg, dials, |dialled|)
  {
    upstream, dialled, elapsed := None, [], 0;
    while |dialled| < |candidates|
      invariant dialled <= candidates
      invariant forall k :: 0 <= k < |dialled| ==> !Connects(cfg, dials(k))
      invariant elapsed == TimeFor(cfg, dials, |dialled|)
      decreases |candidates| - |dialled|
    {
      var k := |dialled|;
      var candidate := candidates[k];
      dialled := dialled + [candidate];
      elapsed := elapsed + Spent(cfg, dials(k));
      if Connects(cfg, dials(k)) {
        upstream := Some(candidate);
        return;
      }
    }
  }

  // ----- Requests -----

  /** What resolving the target yields. */
  datatype Resolution = Resolved(candidates: seq<Socket>) | ResolveFailed | ResolveTimedOut

  /** How setting up a UDP socket goes. */
  datatype UdpSetup = UdpReady | BindFails | ConnectFails

  datatype Refusal =
    | BadToken | NothingResolved | CannotResolve | ResolvingTookTooLong | NotAllowed | CannotConnect | CannotBind

  function StatusOfRefusal(r: Refusal): Status {
    match r
    case BadToken => AuthFailed
    case NothingResolved => Unreachable
    case CannotResolve => Unreachable
    case ResolvingTookTooLong => Unreachable
    case NotAllowed => Forbidden
    case CannotConnect => Unreachable
    case CannotBind => ServerError
  }

  /** The answer, and the socket relayed to when it is favourable. */
  datatype Outcome = Relays(upstream: Socket) | Refused(why: Refusal)

  function ResponseFor(o: Outcome, wording: Refusal -> Text): Response {
    match o
    case Relays(_) => Response(StatusOk, [])
    case Refused(why) => Response(StatusOfRefusal(why), wording(why))
  }

  /** The client is entitled to a connection. */
  predicate Entitled(cfg: ServerConfig, r: Request, res: Resolution) {
    Indistinguishable(cfg.token, r.token) && res.Resolved? && |Permitted(cfg, res.candidates)| > 0
  }

  /** Why a request that is not entitled is refused: the first obstacle on the way. */
  function Obstacle(cfg: ServerConfig, r: Request, res: Resolution): Refusal
    requires !Entitled(cfg, r, res)
  {
    if !Indistinguishable(cfg.token, r.token) then BadToken
    else match res
      case ResolveFailed => CannotResolve
      case ResolveTimedOut => ResolvingTookTooLong
      case Resolved(candidates) => if |candidates| == 0 then NothingResolved else NotAllowed
  }

  /** Dials for a TCP request; sets a socket up towards the first candidate for a UDP one. */
  method Reach(cfg: ServerConfig, cmd: Cmd, allowed: seq<Socket>, dials: nat -> Dial, udp: UdpSetup)
    returns (outcome: Outcome, dialled: seq<Socket>, elapsed: nat)
    requires |allowed| > 0
    ensures cmd == ConnectTcp ==>
      && dialled <= allowed
      && (outcome.Relays? <==>
            exists k :: 0 <= k < |allowed| && dials(k).succeeds && dials(k).takes <= cfg.connectTimeout)
      && (outcome.Relays? ==>
            && |dialled| > 0 && outcome.upstream == dialled[|dialled| - 1]
            && forall k :: 0 <= k < |dialled| - 1 ==> !(dials(k).succeeds && dials(k).takes <= cfg.connectTimeout))
      && (outcome.Refused? ==> outcome.why == CannotConnect && dialled == allowed)
      && elapsed == TimeFor(cfg, dials, |dialled|) && elapsed <= |allowed| * cfg.connectTimeout
    ensures cmd == BindUdp ==>
      && dialled == [] && elapsed == 0
      && outcome == (match udp
           case UdpReady => Relays(allowed[0])
           case BindFails => Refused(CannotBind)
           case ConnectFails => Refused(CannotConnect))
    ensures forall s :: s in dialled || outcome == Relays(s) ==> s in allowed
  {
    dialled, elapsed := [], 0;
    if cmd == ConnectTcp {
      var upstream;
      upstream, dialled, elapsed := DialAll(cfg, allowed, dials);
      TimeForIs(cfg, dials, |dialled|);
      MoreCandidatesMoreTime(|dialled|, |allowed|, cfg.connectTimeout);
      outcome := if upstream.Some? then Relays(upstream.value) else Refused(CannotConnect);
    } else {
      match udp {
        case UdpReady => outcome := Relays(allowed[0]);
        case BindFails => outcome := Refused(CannotBind);
        case ConnectFails => outcome := Refused(CannotConnect);
      }
    }
  }

  /**
   One request from token to answer. Exactly one response is written, as far as
   the peer takes it; relaying starts only behind a favourable one written in
   full, and a refusal written in full also shuts the stream down.
   */
  method HandleRequest(cfg: ServerConfig, r: Request, res: Resolution, dials: nat -> Dial, udp: UdpSetup,
                       wording: Refusal -> Text, send: Sink)
    returns (outcome: Outcome, relaying: bool, dialled: seq<Socket>, elapsed: nat)
    modifies send
    ensures var answer := EncodeResponse(ResponseFor(outcome, wording));
      && send.written == old(send.written) + Taken(answer, old(send.room))
      && (relaying <==> outcome.Relays? && FitsIn(answer, old(send.room)))
      && send.closed == (old(send.closed) || (outcome.Refused? && FitsIn(answer, old(send.room))))
    ensures !Entitled(cfg, r, res) ==>
      outcome == Refused(Obstacle(cfg, r, res)) && dialled == [] && elapsed == 0
    ensures Entitled(cfg, r, res) && r.cmd == ConnectTcp ==>
      var allowed := Permitted(cfg, res.candidates);
      && dialled <= allowed
      && (outcome.Relays? <==>
            exists k :: 0 <= k < |allowed| && dials(k).succeeds && dials(k).takes <= cfg.connectTimeout)
      && (outcome.Relays? ==>
            && |dialled| > 0 && outcome.upstream == dialled[|dialled| - 1]
            && forall k :: 0 <= k < |dialled| - 1 ==> !(dials(k).succeeds && dials(k).takes <= cfg.connectTimeout))
      && (outcome.Refused? ==> outcome.why == CannotConnect && dialled == allowed)
      && elapsed == TimeFor(cfg, dials, |dialled|) && elapsed <= |allowed| * cfg.connectTimeout
    ensures Entitled(cfg, r, res) && r.cmd == BindUdp ==>
      && dialled == [] && elapsed == 0
      && outcome == (match udp
           case UdpReady => Relays(Permitted(cfg, res.candidates)[0])
           case BindFails => Refused(CannotBind)
           case ConnectFails => Refused(CannotConnect))
    // Where traffic may go, by the configured networks alone.
    ensures forall s :: s in dialled || outcome == Relays(s) ==>
      && res.Resolved? && s in res.candidates
      && (forall n :: n in cfg.deny ==> !Routing.Contains(n, s.ip))
      && (cfg.allow == [] || exists n :: n in cfg.allow && Routing.Contains(n, s.ip))
    // What the client is told, by what stood in the way.
    ensures var status := ResponseFor(outcome, wording).status;
      && (outcome.Relays? <==> status == StatusOk)
      && (outcome.Relays? ==> ResponseFor(outcome, wording).message == [])
      && (!Indistinguishable(cfg.token, r.token) <==> status == AuthFailed)
      && (Indistinguishable(cfg.token, r.token) ==>
            && (res.ResolveFailed? || res.ResolveTimedOut? || res == Resolved([]) ==> status == Unreachable)
            && (res.Resolved? && res.candidates != [] && Permitted(cfg, res.candidates) == [] ==> status == Forbidden))
      && (Entitled(cfg, r, res) && outcome.Refused? ==>
            status == if r.cmd == BindUdp && udp == BindFails then ServerError else Unreachable)
  {
    hide EncodeResponse, Indistinguishable, Permitted, Routing.Contains, Taken, RoomAfter;
    NoneOfNone(cfg);
    relaying, dialled, elapsed := false, [], 0;
    var same := TokenMatches(cfg.token, r.token);
    if !same {
      outcome := Refuse(BadToken, wording, send);
      return;
    }
    match res {
      case ResolveFailed =>
        outcome := Refuse(CannotResolve, wording, send);
        return;
      case ResolveTimedOut =>
        outcome := Refuse(ResolvingTookTooLong, wording, send);
        return;
      case Resolved(candidates) =>
        if |candidates| == 0 {
          outcome := Refuse(NothingResolved, wording, send);
          return;
        }
    }
    var allowed := Permitted(cfg, res.candidates);
    AllowedMeetPolicy(cfg, res.candidates);
    if |allowed| == 0 {
      outcome := Refuse(NotAllowed, wording, send);
      return;
    }
    outcome, dialled, elapsed := Reach(cfg, r.cmd, allowed, dials, udp);
    if outcome.Refused? {
      outcome := Refuse(outcome.why, wording, send);
      return;
    }
    var written := send.WriteResponse(Response(StatusOk, []));
    relaying := written.Ok?;
  }

  lemma NoneOfNone(cfg: ServerConfig)
    ensures Permitted(cfg, []) == []
  {
  }

  lemma AllowedMeetPolicy(cfg: ServerConfig, candidates: seq<Socket>)
    ensures forall s :: s in Permitted(cfg, candidates) ==>
      && s in candidates
      && (forall n :: n in cfg.deny ==> !Routing.Contains(n, s.ip))
      && (cfg.allow == [] || exists n :: n in cfg.allow && Routing.Contains(n, s.ip))
  {
    PermittedAreAllowed(cfg, candidates);
    forall s | s in Permitted(cfg, candidates)
      ensures (forall n :: n in cfg.deny ==> !Routing.Contains(n, s.ip))
        && (cfg.allow == [] || exists n :: n in cfg.allow && Routing.Contains(n, s.ip))
    {
      PermitsIs(cfg, s.ip);
    }
  }

  lemma MoreCandidatesMoreTime(m: nat, n: nat, t: nat)
    requires m <= n
    ensures m * t <= n * t
  {
  }

  method Refuse(why: Refusal, wording: Refusal -> Text, send: Sink) returns (outcome: Outcome)
    modifies send
    ensures outcome == Refused(why)
    ensures var answer := EncodeResponse(ResponseFor(outcome, wording));
      && send.written == old(send.written) + Taken(answer, old(send.room))
      && send.closed == (old(send.closed) || FitsIn(answer, old(send.room)))
  {
    outcome := Refused(why);
    var written := send.WriteResponse(ResponseFor(outcome, wording));
    if written.Ok? {
      send.Shutdown();
    }
  }

  /** Whatever is dialled or relayed to was resolved for this request and meets the policy. */
  lemma OnlyPermittedDestinations(cfg: ServerConfig, candidates: seq<Socket>, dialled: seq<Socket>)
    requires dialled <= Permitted(cfg, candidates)
    ensures forall c :: c in dialled ==>
      && c in candidates
      && (forall n :: n in cfg.deny ==> !Routing.Contains(n, c.ip))
      && (cfg.allow == [] || exists n :: n in cfg.allow && Routing.Contains(n, c.ip))
  {
    AllowedMeetPolicy(cfg, candidates);
    assert forall c :: c in dialled ==> c in Permitted(cfg, candidates);
  }

  // ----- The two ways in -----

  /** QUIC: decode off the stream; the handler gets what is left of it. */
  method OpenQuic(stream: Source) returns (view: Session.View)
    modifies stream
    ensures view == Session.QuicView(old(stream.Bytes()))
  {
    var r := stream.ReadRequest();
    view := if r.Ok? then Session.Serves(r.value, Flatten(stream.chunks)) else Session.Refuses;
  }

  /** gRPC: decode the first frame by itself; the handler gets the frames after it. */
  method OpenGrpc(frames: seq<seq<Byte>>) returns (view: Session.View)
    ensures view == Session.GrpcView(frames)
  {
    if |frames| == 0 {
      return Session.Refuses;
    }
    var cursor := new Source([frames[0]], false);
    FlattenOne(frames[0]);
    var r := cursor.ReadRequest();
    view := if r.Ok? then Session.Serves(r.value, Flatten(frames[1..])) else Session.Refuses;
  }
}
