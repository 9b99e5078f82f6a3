/**
 The handshake codec: how requests and responses are laid out, and what a
 decoder reading from the front of a byte stream makes of it.
 */
module Wire {
  import opened Bytes
  import opened Utf8

  const MAGIC: seq<Byte> := [0x56, 0x42, 0x52, 0x47]
  const VERSION: Byte := 1
  const MAX_TEXT := 255

  const ATYP_IPV4: Byte := 1
  const ATYP_DOMAIN: Byte := 3
  const ATYP_IPV6: Byte := 4

  type Octets4 = b: seq<Byte> | |b| == 4 witness [0, 0, 0, 0]
  type Octets16 = b: seq<Byte> | |b| == 16 witness seq(16, _ => 0)

  datatype Cmd = ConnectTcp | BindUdp

  datatype Status = StatusOk | AuthFailed | Forbidden | Unreachable | BadRequest | Unsupported | ServerError

  /** Target endpoint; an IPv6 socket address also carries two fields the wire has no room for. */
  datatype Address =
    | IpV4(octets4: Octets4, port: U16)
    | IpV6(octets16: Octets16, port: U16, flowInfo: U32, scopeId: U32)
    | Domain(host: Text, port: U16)

  datatype Request = Request(cmd: Cmd, token: Text, target: Address)

  datatype Response = Response(status: Status, message: Text)

  datatype Reason =
    | BadMagic | BadVersion | UnknownCommand | TokenNotUtf8 | DomainNotUtf8 | UnknownAddressType | UnknownStatus

  /** What a decoder says about the bytes at the front of a stream. */
  datatype Parse<+T> =
    | Done(value: T, rest: seq<Byte>)
    | Truncated
    | Malformed(reason: Reason)
  {
    predicate IsFailure() { !Done? }

    function PropagateFailure<U>(): Parse<U>
      requires IsFailure()
    {
      if Truncated? then Truncated else Malformed(reason)
    }

    function Extract(): (T, seq<Byte>)
      requires Done?
    {
      (value, rest)
    }
  }

  function Min(a: nat, b: nat): nat { if a <= b then a else b }

  // ----- Pieces of the layout, each with its decoder -----

  const PREAMBLE: seq<Byte> := MAGIC + [VERSION]

  function CmdCode(c: Cmd): Byte {
    match c case ConnectTcp => 1 case BindUdp => 2
  }

  function StatusCode(s: Status): Byte {
    match s
    case StatusOk => 0 case AuthFailed => 1 case Forbidden => 2 case Unreachable => 3
    case BadRequest => 4 case Unsupported => 5 case ServerError => 6
  }

  /** A length byte and that many bytes. */
  function Counted(b: seq<Byte>): seq<Byte>
    requires |b| <= MAX_TEXT
  {
    [|b| as Byte] + b
  }

  function Take(b: seq<Byte>, n: nat): (p: Parse<seq<Byte>>)
    ensures p.Done? ==> |p.value| == n && b == p.value + p.rest
  {
    if |b| < n then Truncated else Done(b[..n], b[n..])
  }

  function TakeByte(b: seq<Byte>): (p: Parse<Byte>)
    ensures p.Done? ==> b == [p.value] + p.rest
  {
    if b == [] then Truncated else Done(b[0], b[1..])
  }

  function TakeU16(b: seq<Byte>): (p: Parse<U16>)
    ensures p.Done? ==> b == BigEndian(p.value) + p.rest
  {
    var (two, rest) :- Take(b, 2);
    Done(FromBigEndian(two), rest)
  }

  function TakeCounted(b: seq<Byte>): (p: Parse<seq<Byte>>)
    ensures p.Done? ==> |p.value| <= MAX_TEXT && b == Counted(p.value) + p.rest
  {
    var (len, body) :- TakeByte(b);
    Take(body, len as nat)
  }

  /** Magic, then version; the version is not read when the magic is wrong. */
  function TakePreamble(b: seq<Byte>): (p: Parse<()>)
    ensures p.Done? ==> b == PREAMBLE + p.rest
  {
    var (magic, b1) :- Take(b, 4);
    if magic != MAGIC then Malformed(BadMagic)
    else
      var (version, b2) :- TakeByte(b1);
      if version != VERSION then Malformed(BadVersion) else Done((), b2)
  }

  function TakeCmd(b: seq<Byte>): (p: Parse<Cmd>)
    ensures p.Done? ==> b == [CmdCode(p.value)] + p.rest
  {
    var (code, rest) :- TakeByte(b);
    if code == 1 then Done(ConnectTcp, rest) else if code == 2 then Done(BindUdp, rest) else Malformed(UnknownCommand)
  }

  function TakeStatus(b: seq<Byte>): (p: Parse<Status>)
    ensures p.Done? ==> b == [StatusCode(p.value)] + p.rest
  {
    var (code, rest) :- TakeByte(b);
    match code
    case 0 => Done(StatusOk, rest) case 1 => Done(AuthFailed, rest) case 2 => Done(Forbidden, rest)
    case 3 => Done(Unreachable, rest) case 4 => Done(BadRequest, rest) case 5 => Done(Unsupported, rest)
    case 6 => Done(ServerError, rest) case _ => Malformed(UnknownStatus)
  }

  // ----- Messages -----

  function EncodeAddress(a: Address): seq<Byte> {
    match a
    case IpV4(octets, port) => [ATYP_IPV4] + (octets + BigEndian(port))
    case IpV6(octets, port, _, _) => [ATYP_IPV6] + (octets + BigEndian(port))
    case Domain(host, port) => [ATYP_DOMAIN] + (Counted(host[..Min(|host|, MAX_TEXT)]) + BigEndian(port))
  }

  function EncodeRequest(r: Request): seq<Byte>
    requires |r.token| <= MAX_TEXT
  {
    PREAMBLE + ([CmdCode(r.cmd)] + (Counted(r.token) + EncodeAddress(r.target)))
  }

  function EncodeResponse(r: Response): seq<Byte> {
    PREAMBLE + ([StatusCode(r.status)] + Counted(r.message[..Min(|r.message|, MAX_TEXT)]))
  }

  function ParseIpV4(b: seq<Byte>): Parse<Address> {
    var (octets, b1) :- Take(b, 4);
    var (port, b2) :- TakeU16(b1);
    Done(IpV4(octets, port), b2)
  }

  function ParseIpV6(b: seq<Byte>): Parse<Address> {
    var (octets, b1) :- Take(b, 16);
    var (port, b2) :- TakeU16(b1);
    Done(IpV6(octets, port, 0, 0), b2)
  }

  /** The text check comes after the port has been read. */
  function ParseDomain(b: seq<Byte>): Parse<Address> {
    var (host, b1) :- TakeCounted(b);
    var (port, b2) :- TakeU16(b1);
    if Valid(host) then Done(Domain(host, port), b2) else Malformed(DomainNotUtf8)
  }

  function ParseAddress(b: seq<Byte>): Parse<Address> {
    var (atyp, body) :- TakeByte(b);
    if atyp == ATYP_IPV4 then ParseIpV4(body)
    else if atyp == ATYP_IPV6 then ParseIpV6(body)
    else if atyp == ATYP_DOMAIN then ParseDomain(body)
    else Malformed(UnknownAddressType)
  }

  /** The token is checked before the address is looked at. */
  function ParseToken(b: seq<Byte>): Parse<Text> {
    var (token, rest) :- TakeCounted(b);
    if Valid(token) then Done(token, rest) else Malformed(TokenNotUtf8)
  }

  function ParseTokenAndTarget(cmd: Cmd, b: seq<Byte>): Parse<Request> {
    var (token, b1) :- ParseToken(b);
    var (target, b2) :- ParseAddress(b1);
    Done(Request(cmd, token, target), b2)
  }

  function ParseRequest(b: seq<Byte>): Parse<Request> {
    var (_, b1) :- TakePreamble(b);
    var (cmd, b2) :- TakeCmd(b1);
    ParseTokenAndTarget(cmd, b2)
  }

  function ParseMessage(status: Status, b: seq<Byte>): Parse<Response> {
    var (message, rest) :- TakeCounted(b);
    LossyIsValid(message);
    Done(Response(status, Lossy(message)), rest)
  }

  function ParseResponse(b: seq<Byte>): Parse<Response> {
    var (_, b1) :- TakePreamble(b);
    var (status, b2) :- TakeStatus(b1);
    ParseMessage(status, b2)
  }

  // ----- More input never changes an answer -----

  /** `q` says about `b + more` what `p` already settled about `b`. */
  ghost predicate Settles<T>(p: Parse<T>, q: Parse<T>, more: seq<Byte>) {
    match p
    case Done(v, rest) => q == Done(v, rest + more)
    case Malformed(reason) => q == p
    case Truncated => true
  }

  lemma TakeSettles(b: seq<Byte>, more: seq<Byte>, n: nat)
    ensures Settles(Take(b, n), Take(b + more, n), more)
  {
    if |b| >= n {
      assert (b + more)[..n] == b[..n];
      assert (b + more)[n..] == b[n..] + more;
    }
  }

  lemma TakeByteSettles(b: seq<Byte>, more: seq<Byte>)
    ensures Settles(TakeByte(b), TakeByte(b + more), more)
  {
    if b != [] {
      assert (b + more)[1..] == b[1..] + more;
    }
  }

  lemma TakeCountedSettles(b: seq<Byte>, more: seq<Byte>)
    ensures Settles(TakeCounted(b), TakeCounted(b + more), more)
  {
    TakeByteSettles(b, more);
    if b != [] {
      TakeSettles(b[1..], more, b[0] as nat);
    }
  }

  lemma PreambleSettles(b: seq<Byte>, more: seq<Byte>)
    ensures Settles(TakePreamble(b), TakePreamble(b + more), more)
  {
    TakeSettles(b, more, 4);
    if |b| >= 4 {
      TakeByteSettles(b[4..], more);
    }
  }

  lemma DomainSettles(b: seq<Byte>, more: seq<Byte>)
    ensures Settles(ParseDomain(b), ParseDomain(b + more), more)
  {
    TakeCountedSettles(b, more);
    var p := TakeCounted(b);
    if p.Done? {
      TakeSettles(p.rest, more, 2);
    }
  }

  lemma AddressSettles(b: seq<Byte>, more: seq<Byte>)
    ensures Settles(ParseAddress(b), ParseAddress(b + more), more)
  {
    TakeByteSettles(b, more);
    if b != [] {
      var b1 := b[1..];
      if b[0] == ATYP_IPV4 {
        TakeSettles(b1, more, 4);
        if |b1| >= 4 { TakeSettles(b1[4..], more, 2); }
      } else if b[0] == ATYP_IPV6 {
        TakeSettles(b1, more, 16);
        if |b1| >= 16 { TakeSettles(b1[16..], more, 2); }
      } else if b[0] == ATYP_DOMAIN {
        DomainSettles(b1, more);
      }
    }
  }

  /** Once a request is decoded or refused, later bytes change nothing and stay unread. */
  lemma RequestSettles(b: seq<Byte>, more: seq<Byte>)
    ensures Settles(ParseRequest(b), ParseRequest(b + more), more)
  {
    PreambleSettles(b, more);
    var p := TakePreamble(b);
    if p.Done? {
      TakeByteSettles(p.rest, more);
      var c := TakeCmd(p.rest);
      if c.Done? {
        TakeCountedSettles(c.rest, more);
        var t := ParseToken(c.rest);
        if t.Done? {
          AddressSettles(t.rest, more);
        }
      }
    }
  }

  lemma MessageSettles(status: Status, b: seq<Byte>, more: seq<Byte>)
    ensures Settles(ParseMessage(status, b), ParseMessage(status, b + more), more)
  {
    TakeCountedSettles(b, more);
  }

  /** The same for a response. */
  lemma ResponseSettles(b: seq<Byte>, more: seq<Byte>)
    ensures Settles(ParseResponse(b), ParseResponse(b + more), more)
  {
    hide TakePreamble, ParseMessage;
    PreambleSettles(b, more);
    var p := TakePreamble(b);
    if p.Done? {
      TakeByteSettles(p.rest, more);
      var c := TakeStatus(p.rest);
      if c.Done? {
        MessageSettles(c.value, c.rest, more);
      }
    }
  }

  // ----- Round trips -----

  lemma TakeConcat(x: seq<Byte>, y: seq<Byte>)
    ensures Take(x + y, |x|) == Done(x, y)
    ensures |x| == 1 ==> TakeByte(x + y) == Done(x[0], y)
  {
    assert (x + y)[..|x|] == x && (x + y)[|x|..] == y;
  }

  lemma TakeU16Concat(port: U16, y: seq<Byte>)
    ensures TakeU16(BigEndian(port) + y) == Done(port, y)
  {
    TakeConcat(BigEndian(port), y);
  }

  lemma TakeCountedConcat(x: seq<Byte>, y: seq<Byte>)
    requires |x| <= MAX_TEXT
    ensures TakeCounted(Counted(x) + y) == Done(x, y)
  {
    assert Counted(x) + y == [|x| as Byte] + (x + y);
    TakeConcat([|x| as Byte], x + y);
    TakeConcat(x, y);
  }

  lemma TakePreambleConcat(y: seq<Byte>)
    ensures TakePreamble(PREAMBLE + y) == Done((), y)
  {
    assert PREAMBLE + y == MAGIC + ([VERSION] + y);
    TakeConcat(MAGIC, [VERSION] + y);
    TakeConcat([VERSION], y);
  }

  /** The address the far end sees, when it accepts the encoding at all. */
  function Received(a: Address): Parse<Address> {
    match a
    case IpV4(_, _) => Done(a, [])
    case IpV6(octets, port, _, _) => Done(IpV6(octets, port, 0, 0), [])
    case Domain(host, port) =>
      var kept := host[..Min(|host|, MAX_TEXT)];
      if Valid(kept) then Done(Domain(kept, port), []) else Malformed(DomainNotUtf8)
  }

  lemma DecodeIp(octets: seq<Byte>, port: U16, rest: seq<Byte>)
    ensures |octets| == 4 ==>
      ParseAddress([ATYP_IPV4] + (octets + (BigEndian(port) + rest))) == Done(IpV4(octets, port), rest)
    ensures |octets| == 16 ==>
      ParseAddress([ATYP_IPV6] + (octets + (BigEndian(port) + rest))) == Done(IpV6(octets, port, 0, 0), rest)
  {
    var tail := BigEndian(port) + rest;
    TakeU16Concat(port, rest);
    TakeConcat(octets, tail);
    TakeConcat([ATYP_IPV4], octets + tail);
    TakeConcat([ATYP_IPV6], octets + tail);
  }

  lemma DecodeDomain(kept: seq<Byte>, port: U16, rest: seq<Byte>)
    requires |kept| <= MAX_TEXT
    ensures ParseAddress([ATYP_DOMAIN] + (Counted(kept) + (BigEndian(port) + rest)))
         == if Valid(kept) then Done(Domain(kept, port), rest) else Malformed(DomainNotUtf8)
  {
    var tail := BigEndian(port) + rest;
    TakeU16Concat(port, rest);
    TakeCountedConcat(kept, tail);
    TakeConcat([ATYP_DOMAIN], Counted(kept) + tail);
  }

  lemma DecodeEncodedAddress(a: Address, rest: seq<Byte>)
    ensures !Received(a).Truncated?
    ensures Settles(Received(a), ParseAddress(EncodeAddress(a) + rest), rest)
  {
    assert [] + rest == rest;
    var port := BigEndian(a.port);
    match a {
      case IpV4(octets, _) =>
        Assoc3([ATYP_IPV4], octets, port, rest);
        DecodeIp(octets, a.port, rest);
      case IpV6(octets, _, _, _) =>
        Assoc3([ATYP_IPV6], octets, port, rest);
        DecodeIp(octets, a.port, rest);
      case Domain(host, _) =>
        var kept := host[..Min(|host|, MAX_TEXT)];
        Assoc3([ATYP_DOMAIN], Counted(kept), port, rest);
        DecodeDomain(kept, a.port, rest);
    }
  }

  /** Which addresses cross the wire unchanged. */
  predicate Representable(a: Address) {
    match a
    case IpV4(_, _) => true
    case IpV6(_, _, flowInfo, scopeId) => flowInfo == 0 && scopeId == 0
    case Domain(host, _) => |host| <= MAX_TEXT
  }

  /** An address survives encoding exactly when it is representable, whatever follows it. */
  lemma AddressRoundTrip(a: Address, rest: seq<Byte>)
    ensures ParseAddress(EncodeAddress(a) + rest) == Done(a, rest) <==> Representable(a)
  {
    DecodeEncodedAddress(a, rest);
    if a.Domain? && |a.host| <= MAX_TEXT {
      assert a.host[..|a.host|] == a.host;
    }
    assert [] + rest == rest;
  }

  /** A longer domain arrives shortened when the cut falls between characters, and is refused otherwise. */
  lemma LongDomain(a: Address, rest: seq<Byte>)
    requires a.Domain? && |a.host| > MAX_TEXT
    ensures var p := ParseAddress(EncodeAddress(a) + rest);
      if Cut(a.host, MAX_TEXT) == MAX_TEXT
      then p.Done? && p.rest == rest && p.value.Domain? && p.value.host == a.host[..MAX_TEXT] && p.value.port == a.port
      else p == Malformed(DomainNotUtf8)
  {
    DecodeEncodedAddress(a, rest);
    ValidCutOnlyAtBoundary(a.host, MAX_TEXT);
    assert [] + rest == rest;
  }

  lemma DecodeFromToken(r: Request, rest: seq<Byte>)
    requires |r.token| <= MAX_TEXT
    ensures var p := ParseTokenAndTarget(r.cmd, Counted(r.token) + (EncodeAddress(r.target) + rest));
      match ParseAddress(EncodeAddress(r.target) + rest)
      case Done(a, left) => p == Done(Request(r.cmd, r.token, a), left)
      case Truncated => p == Truncated
      case Malformed(why) => p == Malformed(why)
  {
    TakeCountedConcat(r.token, EncodeAddress(r.target) + rest);
  }

  lemma DecodeHeader(cmd: Cmd, body: seq<Byte>)
    ensures ParseRequest(PREAMBLE + ([CmdCode(cmd)] + body)) == ParseTokenAndTarget(cmd, body)
  {
    TakePreambleConcat([CmdCode(cmd)] + body);
    TakeConcat([CmdCode(cmd)], body);
  }

  /** Decoding inverts encoding exactly for representable targets, leaving what follows unread. */
  lemma RequestRoundTrip(r: Request, rest: seq<Byte>)
    requires |r.token| <= MAX_TEXT
    ensures ParseRequest(EncodeRequest(r) + rest) == Done(r, rest) <==> Representable(r.target)
  {
    Assoc4(PREAMBLE, [CmdCode(r.cmd)], Counted(r.token), EncodeAddress(r.target), rest);
    DecodeHeader(r.cmd, Counted(r.token) + (EncodeAddress(r.target) + rest));
    DecodeFromToken(r, rest);
    AddressRoundTrip(r.target, rest);
  }

  lemma IpInverse(b: seq<Byte>)
    ensures ParseIpV4(b).Done? ==> [ATYP_IPV4] + b == EncodeAddress(ParseIpV4(b).value) + ParseIpV4(b).rest
    ensures ParseIpV6(b).Done? ==> [ATYP_IPV6] + b == EncodeAddress(ParseIpV6(b).value) + ParseIpV6(b).rest
  {
    if ParseIpV4(b).Done? {
      var a := ParseIpV4(b).value;
      Assoc3([ATYP_IPV4], a.octets4, BigEndian(a.port), ParseIpV4(b).rest);
    }
    if ParseIpV6(b).Done? {
      var a := ParseIpV6(b).value;
      Assoc3([ATYP_IPV6], a.octets16, BigEndian(a.port), ParseIpV6(b).rest);
    }
  }

  lemma DomainInverse(b: seq<Byte>)
    requires ParseDomain(b).Done?
    ensures var p := ParseDomain(b); Representable(p.value) && [ATYP_DOMAIN] + b == EncodeAddress(p.value) + p.rest
  {
    var a, rest := ParseDomain(b).value, ParseDomain(b).rest;
    assert a.host[..|a.host|] == a.host;
    Assoc3([ATYP_DOMAIN], Counted(a.host), BigEndian(a.port), rest);
  }

  lemma AddressInverse(b: seq<Byte>)
    requires ParseAddress(b).Done?
    ensures Representable(ParseAddress(b).value)
    ensures EncodeAddress(ParseAddress(b).value) + ParseAddress(b).rest == b
  {
    var body := b[1..];
    assert b == [b[0]] + body;
    if b[0] == ATYP_DOMAIN {
      DomainInverse(body);
    } else {
      IpInverse(body);
    }
  }

  lemma TokenAndTargetInverse(cmd: Cmd, b: seq<Byte>)
    requires ParseTokenAndTarget(cmd, b).Done?
    ensures var p := ParseTokenAndTarget(cmd, b);
      |p.value.token| <= MAX_TEXT && Representable(p.value.target) && p.value.cmd == cmd &&
      b == Counted(p.value.token) + (EncodeAddress(p.value.target) + p.rest)
  {
    AddressInverse(ParseToken(b).rest);
  }

  /** Nothing but the encoding decodes: the bytes consumed are the encoding of the value produced. */
  lemma RequestInverse(b: seq<Byte>)
    requires ParseRequest(b).Done?
    ensures var p := ParseRequest(b);
      |p.value.token| <= MAX_TEXT && Representable(p.value.target) && EncodeRequest(p.value) + p.rest == b
  {
    var b1 := TakePreamble(b).rest;
    var c := TakeCmd(b1);
    TokenAndTargetInverse(c.value, c.rest);
    var p := ParseTokenAndTarget(c.value, c.rest);
    var r := p.value;
    Assoc4(PREAMBLE, [CmdCode(r.cmd)], Counted(r.token), EncodeAddress(r.target), p.rest);
  }

  /** Every strict prefix of a request leaves the decoder asking for more. */
  lemma RequestPrefixFree(r: Request, p: seq<Byte>)
    requires |r.token| <= MAX_TEXT && Representable(r.target)
    requires p < EncodeRequest(r)
    ensures ParseRequest(p) == Truncated
  {
    var b := EncodeRequest(r);
    assert b + [] == b;
    RequestRoundTrip(r, []);
    assert p + b[|p|..] == b;
    RequestSettles(p, b[|p|..]);
  }

  /** The message a response delivers: cut to 255 bytes, then decoded lossily. */
  function Shown(message: Text): Text {
    LossyIsValid(message[..Min(|message|, MAX_TEXT)]);
    Lossy(message[..Min(|message|, MAX_TEXT)])
  }

  lemma DecodeStatus(status: Status, body: seq<Byte>)
    ensures ParseResponse(PREAMBLE + ([StatusCode(status)] + body)) == ParseMessage(status, body)
  {
    TakePreambleConcat([StatusCode(status)] + body);
    TakeConcat([StatusCode(status)], body);
  }

  /** The status and everything after the response survive, whatever happens to the message. */
  lemma ResponseRoundTrip(r: Response, rest: seq<Byte>)
    ensures ParseResponse(EncodeResponse(r) + rest) == Done(Response(r.status, Shown(r.message)), rest)
  {
    var kept := r.message[..Min(|r.message|, MAX_TEXT)];
    Assoc3(PREAMBLE, [StatusCode(r.status)], Counted(kept), rest);
    DecodeStatus(r.status, Counted(kept) + rest);
    TakeCountedConcat(kept, rest);
  }

  lemma ResponsePrefixFree(r: Response, p: seq<Byte>)
    requires p < EncodeResponse(r)
    ensures ParseResponse(p) == Truncated
  {
    var b := EncodeResponse(r);
    assert b + [] == b;
    ResponseRoundTrip(r, []);
    assert p + b[|p|..] == b;
    ResponseSettles(p, b[|p|..]);
  }

  /**
   A message arrives as its longest run of whole characters within 255 bytes,
   followed by one replacement character when the cut split a character.
   */
  lemma ShownIsWholeCharacters(m: Text)
    ensures |m| <= MAX_TEXT ==> Shown(m) == m
    ensures |m| > MAX_TEXT ==>
      var k := Cut(m, MAX_TEXT);
      252 <= k <= 255 && Valid(m[..k]) && Shown(m) == m[..k] + (if k < MAX_TEXT then REPLACEMENT else [])
  {
    if |m| <= MAX_TEXT {
      assert m[..|m|] == m;
      LossyOfValid(m);
    } else {
      CutIsBoundary(m, MAX_TEXT);
      LossyOfCutText(m, MAX_TEXT);
    }
  }

  predicate EndsAcrossTheLimit(m: Text) {
    256 <= |m| <= 257 && m[|m| - 3..] == REPLACEMENT
  }

  /**
   Messages that survive unchanged: the short ones, and the few long ones whose
   last character, split by the cut, already was the replacement character.
   */
  lemma MessageSurvives(m: Text)
    ensures Shown(m) == m <==> |m| <= MAX_TEXT || EndsAcrossTheLimit(m)
  {
    ShownIsWholeCharacters(m);
    if EndsAcrossTheLimit(m) {
      var a := m[..|m| - 3];
      assert m == a + REPLACEMENT;
      CutBeforeFinalReplacement(a, MAX_TEXT);
    } else if |m| > MAX_TEXT {
      var k := Cut(m, MAX_TEXT);
      if k < MAX_TEXT && |m| == k + 3 {
        assert m == m[..k] + m[k..];
      }
    }
  }

  // ----- The layout, byte by byte -----

  /** A 16-bit number, high byte first, at `k`. */
  predicate NumberAt(b: seq<Byte>, k: nat, n: int)
    requires k + 1 < |b|
  {
    b[k] as int * 256 + b[k + 1] as int == n
  }

  /** ATYP: 1 is IPv4, 3 a domain name, 4 IPv6; the port comes last. */
  lemma AddressLayout(a: Address)
    ensures var b := EncodeAddress(a);
      match a
      case IpV4(octets, port) => |b| == 7 && b[0] == 1 && b[1..5] == octets && NumberAt(b, 5, port)
      case IpV6(octets, port, _, _) => |b| == 19 && b[0] == 4 && b[1..17] == octets && NumberAt(b, 17, port)
      case Domain(host, port) =>
        var n := if |host| <= 255 then |host| else 255;
        |b| == 4 + n && b[0] == 3 && b[1] as int == n && b[2..2 + n] == host[..n] && NumberAt(b, 2 + n, port)
  {
    match a {
      case IpV4(octets, port) => TypedLayout(ATYP_IPV4, octets, port);
      case IpV6(octets, port, _, _) => TypedLayout(ATYP_IPV6, octets, port);
      case Domain(host, port) =>
        var kept := host[..Min(|host|, MAX_TEXT)];
        TypedLayout(ATYP_DOMAIN, Counted(kept), port);
        TailOfTail(EncodeAddress(a), Counted(kept));
    }
  }

  lemma TypedLayout(atyp: Byte, x: seq<Byte>, port: U16)
    ensures var b := [atyp] + (x + BigEndian(port));
      |b| == 3 + |x| && b[0] == atyp && b[1..1 + |x|] == x && NumberAt(b, 1 + |x|, port)
  {
  }

  lemma TailOfTail(b: seq<Byte>, x: seq<Byte>)
    requires |x| > 0 && |b| >= 1 + |x| && b[1..1 + |x|] == x
    ensures b[1] == x[0] && b[2..1 + |x|] == x[1..]
  {
    assert b[2..1 + |x|] == b[1..1 + |x|][1..];
  }

  /** MAGIC(4) VER(1) CMD(1) TOKEN_LEN(1) TOKEN(n) ADDR, for every token a length byte can count. */
  lemma RequestLayout(r: Request)
    requires |r.token| <= 255
    ensures var b, n := EncodeRequest(r), |r.token|;
      && |b| > 7 + n && b[..5] == [0x56, 0x42, 0x52, 0x47, 1]
      && b[5] == (if r.cmd == ConnectTcp then 1 else 2)
      && b[6] as int == n && b[7..7 + n] == r.token && b[7 + n..] == EncodeAddress(r.target)
  {
    var head: seq<Byte> := [0x56, 0x42, 0x52, 0x47, 1, CmdCode(r.cmd), |r.token| as Byte];
    assert EncodeRequest(r) == head + r.token + EncodeAddress(r.target);
  }

  /** MAGIC(4) VER(1) STATUS(1) MSG_LEN(1) MSG(n). */
  lemma ResponseLayout(r: Response)
    ensures var b, n := EncodeResponse(r), if |r.message| <= 255 then |r.message| else 255;
      && |b| == 7 + n && b[..5] == [0x56, 0x42, 0x52, 0x47, 1]
      && b[6] as int == n && b[7..] == r.message[..n]
      && (r.status == StatusOk <==> b[5] == 0) && (r.status == AuthFailed <==> b[5] == 1)
      && (r.status == Forbidden <==> b[5] == 2) && (r.status == Unreachable <==> b[5] == 3)
      && (r.status == BadRequest <==> b[5] == 4) && (r.status == Unsupported <==> b[5] == 5)
      && (r.status == ServerError <==> b[5] == 6)
  {
    var kept := r.message[..Min(|r.message|, MAX_TEXT)];
    assert EncodeResponse(r) == [0x56, 0x42, 0x52, 0x47, 1, StatusCode(r.status), |kept| as Byte] + kept;
  }

  /** Magic and version are those of this protocol. */
  predicate Preambled(b: seq<Byte>) {
    |b| >= 5 && b[..5] == [0x56, 0x42, 0x52, 0x47, 1]
  }

  lemma PreambleVerdict(b: seq<Byte>)
    ensures var p := TakePreamble(b);
      && (|b| < 4 ==> p == Truncated)
      && (|b| >= 4 && b[..4] != [0x56, 0x42, 0x52, 0x47] ==> p == Malformed(BadMagic))
      && (|b| == 4 && b == [0x56, 0x42, 0x52, 0x47] ==> p == Truncated)
      && (|b| >= 5 && b[..4] == [0x56, 0x42, 0x52, 0x47] && b[4] != 1 ==> p == Malformed(BadVersion))
      && (|b| >= 5 && b[..5] == [0x56, 0x42, 0x52, 0x47, 1] ==> p == Done((), b[5..]) && Preambled(b))
  {
    if |b| >= 5 {
      assert b[..5] == b[..4] + [b[4]];
      assert b[4..][1..] == b[5..];
    }
  }

  /** Which requests are refused, and why, by what stands where. */
  lemma RequestVerdict(b: seq<Byte>)
    ensures var p := ParseRequest(b);
      && (|b| >= 4 && b[..4] != [0x56, 0x42, 0x52, 0x47] ==> p == Malformed(BadMagic))
      && (|b| >= 5 && b[..4] == [0x56, 0x42, 0x52, 0x47] && b[4] != 1 ==> p == Malformed(BadVersion))
      && (Preambled(b) && |b| > 5 && b[5] != 1 && b[5] != 2 ==> p == Malformed(UnknownCommand))
      && (Preambled(b) && |b| > 6 && (b[5] == 1 || b[5] == 2) && |b| >= 7 + b[6] as int ==>
            var n := b[6] as int;
            && (!Valid(b[7..7 + n]) ==> p == Malformed(TokenNotUtf8))
            && (Valid(b[7..7 + n]) && |b| > 7 + n && b[7 + n] != 1 && b[7 + n] != 3 && b[7 + n] != 4 ==>
                  p == Malformed(UnknownAddressType)))
  {
    hide TakePreamble, ParseIpV4, ParseIpV6, ParseDomain;
    PreambleVerdict(b);
    if Preambled(b) && |b| > 6 {
      var n := b[6] as int;
      assert b[5..][0] == b[5] && b[5..][1..] == b[6..];
      assert b[6..][0] == b[6] && b[6..][1..] == b[7..];
      if |b| >= 7 + n {
        assert b[7..][..n] == b[7..7 + n] && b[7..][n..] == b[7 + n..];
        if |b| > 7 + n {
          assert b[7 + n..][0] == b[7 + n];
        }
      }
    }
  }

  lemma ResponseVerdict(b: seq<Byte>)
    ensures var p := ParseResponse(b);
      && (|b| >= 4 && b[..4] != [0x56, 0x42, 0x52, 0x47] ==> p == Malformed(BadMagic))
      && (|b| >= 5 && b[..4] == [0x56, 0x42, 0x52, 0x47] && b[4] != 1 ==> p == Malformed(BadVersion))
      && (Preambled(b) && |b| > 5 && b[5] > 6 ==> p == Malformed(UnknownStatus))
  {
    PreambleVerdict(b);
  }

  /** A domain that is no text is refused, but not before the port behind it is there. */
  lemma DomainVerdict(b: seq<Byte>)
    requires |b| > 1 && b[0] == 3
    ensures |b| < 4 + b[1] as int ==> ParseAddress(b) == Truncated
    ensures |b| >= 4 + b[1] as int ==>
      (ParseAddress(b) == Malformed(DomainNotUtf8) <==> !Valid(b[2..2 + b[1] as int]))
  {
    var n := b[1] as int;
    assert b[1..][0] == b[1] && b[1..][1..] == b[2..];
    if |b| >= 2 + n {
      assert b[2..][..n] == b[2..2 + n];
    }
  }
}
