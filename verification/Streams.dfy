/**
 The reading and writing side of the protocol: streams that hand over bytes in
 chunks of any size, and the loops that decode messages from them.
 */
module Streams {
  import opened Bytes
  import opened Utf8
  import opened Wire
  import opened Datagrams
  import opened Wrappers

  datatype IoError = UnexpectedEof | ConnectionLost | InvalidData(reason: Reason) | InvalidInput | LocalFailure

  datatype Result<+T> = Ok(value: T) | Err(error: IoError)
  {
    predicate IsFailure() { Err? }
    function PropagateFailure<U>(): Result<U> requires Err? { Err(error) }
    function Extract(): T requires Ok? { value }
  }

  /** What a reader that still needs bytes gets to hear at the end of a stream. */
  function AtEnd(broken: bool): IoError {
    if broken then ConnectionLost else UnexpectedEof
  }

  /** `r`, leaving `left` unread, is what decoding the whole stream would say. */
  ghost predicate Agrees<T>(r: Result<T>, left: seq<Byte>, p: Parse<T>, broken: bool) {
    match p
    case Done(v, rest) => r == Ok(v) && left == rest
    case Truncated => r == Err(AtEnd(broken)) && left == []
    case Malformed(why) => r == Err(InvalidData(why))
  }

  /** A byte stream that ends once its chunks are used up: cleanly, or because the connection is lost. */
  class Source {
    var chunks: seq<seq<Byte>>
    const broken: bool

    constructor (chunks: seq<seq<Byte>>, broken: bool)
      ensures this.chunks == chunks && this.broken == broken
    {
      this.chunks, this.broken := chunks, broken;
    }

    ghost function Bytes(): seq<Byte>
      reads this
    {
      Flatten(chunks)
    }

    /** One read: some bytes of the next chunk; nothing at a clean end, an error at any other. */
    method Read(limit: nat) returns (r: Result<seq<Byte>>)
      requires limit > 0
      modifies this
      ensures r.Ok? ==> r.value + Bytes() == old(Bytes()) && |r.value| <= limit
      ensures r == Ok([]) ==> old(Bytes()) == Bytes() == [] && !broken
      ensures r.Err? ==> r.error == ConnectionLost && old(Bytes()) == Bytes() == [] && broken
    {
      while |chunks| > 0 && |chunks[0]| == 0
        invariant Bytes() == old(Bytes())
        decreases |chunks|
      {
        chunks := chunks[1..];
      }
      if |chunks| == 0 {
        return if broken then Err(ConnectionLost) else Ok([]);
      }
      var head, tail := chunks[0], chunks[1..];
      var got := head[..Min(limit, |head|)];
      chunks := [head[|got|..]] + tail;
      assert chunks[1..] == tail;
      Assoc2(got, head[|got|..], Flatten(tail));
      assert got + head[|got|..] == head;
      return Ok(got);
    }

    method ReadExact(n: nat) returns (r: Result<seq<Byte>>)
      modifies this
      ensures Agrees(r, Bytes(), Take(old(Bytes()), n), broken)
    {
      var got: seq<Byte> := [];
      while |got| < n
        invariant |got| <= n && got + Bytes() == old(Bytes())
        decreases n - |got|
      {
        var more :- Read(n - |got|);
        if more == [] {
          return Err(UnexpectedEof);
        }
        Assoc2(got, more, Bytes());
        got := got + more;
      }
      TakeConcat(got, Bytes());
      return Ok(got);
    }

    method ReadByte() returns (r: Result<Byte>)
      modifies this
      ensures Agrees(r, Bytes(), TakeByte(old(Bytes())), broken)
    {
      var one := ReadExact(1);
      if one.Err? { return Err(one.error); }
      return Ok(one.value[0]);
    }

    method ReadU16() returns (r: Result<U16>)
      modifies this
      ensures Agrees(r, Bytes(), TakeU16(old(Bytes())), broken)
    {
      var two := ReadExact(2);
      if two.Err? { return Err(two.error); }
      return Ok(FromBigEndian(two.value));
    }

    method ReadAddress() returns (r: Result<Address>)
      modifies this
      ensures Agrees(r, Bytes(), ParseAddress(old(Bytes())), broken)
    {
      var atyp :- ReadByte();
      if atyp == ATYP_IPV4 {
        var octets :- ReadExact(4);
        var port :- ReadU16();
        return Ok(IpV4(octets, port));
      } else if atyp == ATYP_IPV6 {
        var octets :- ReadExact(16);
        var port :- ReadU16();
        return Ok(IpV6(octets, port, 0, 0));
      } else if atyp == ATYP_DOMAIN {
        var len :- ReadByte();
        var host :- ReadExact(len as nat);
        var port :- ReadU16();
        if !Valid(host) { return Err(InvalidData(DomainNotUtf8)); }
        return Ok(Domain(host, port));
      } else {
        return Err(InvalidData(UnknownAddressType));
      }
    }

    method ReadPreamble() returns (r: Result<()>)
      modifies this
      ensures Agrees(r, Bytes(), TakePreamble(old(Bytes())), broken)
    {
      var magic :- ReadExact(4);
      if magic != MAGIC { return Err(InvalidData(BadMagic)); }
      var version :- ReadByte();
      if version != VERSION { return Err(InvalidData(BadVersion)); }
      return Ok(());
    }

    /** However the stream is chunked, a request is decoded from its bytes alone, and no byte past it is taken. */
    method ReadRequest() returns (r: Result<Request>)
      modifies this
      ensures Agrees(r, Bytes(), ParseRequest(old(Bytes())), broken)
    {
      var _ :- ReadPreamble();
      var code :- ReadByte();
      if code == 1 {
        r := ReadTokenAndTarget(ConnectTcp);
      } else if code == 2 {
        r := ReadTokenAndTarget(BindUdp);
      } else {
        return Err(InvalidData(UnknownCommand));
      }
    }

    method ReadTokenAndTarget(cmd: Cmd) returns (r: Result<Request>)
      modifies this
      ensures Agrees(r, Bytes(), ParseTokenAndTarget(cmd, old(Bytes())), broken)
    {
      var len :- ReadByte();
      var token :- ReadExact(len as nat);
      if !Valid(token) { return Err(InvalidData(TokenNotUtf8)); }
      var target :- ReadAddress();
      return Ok(Request(cmd, token, target));
    }

    method ReadResponse() returns (r: Result<Response>)
      modifies this
      ensures Agrees(r, Bytes(), ParseResponse(old(Bytes())), broken)
    {
      var _ :- ReadPreamble();
      var code :- ReadByte();
      var status;
      match code {
        case 0 => status := StatusOk;
        case 1 => status := AuthFailed;
        case 2 => status := Forbidden;
        case 3 => status := Unreachable;
        case 4 => status := BadRequest;
        case 5 => status := Unsupported;
        case 6 => status := ServerError;
        case _ => return Err(InvalidData(UnknownStatus));
      }
      var len :- ReadByte();
      var message :- ReadExact(len as nat);
      LossyIsValid(message);
      return Ok(Response(status, Lossy(message)));
    }

    /** Fills `buffer` with the next payload, replacing whatever it held. */
    method ReadDatagram(buffer: Buffer) returns (r: Result<nat>)
      modifies this, buffer
      ensures match TakeDatagram(old(Bytes()))
        case Done(d, rest) => r == Ok(|d|) && buffer.data == d && Bytes() == rest
        case _ => r == Err(AtEnd(broken)) && Bytes() == []
    {
      var len :- ReadU16();
      buffer.data := seq(len, _ => 0);
      var payload :- ReadExact(len);
      buffer.data := payload;
      return Ok(len);
    }
  }

  /** One turn of an unframing loop. */
  method NextDatagram(tunnel: Source, buffer: Buffer) returns (r: Result<nat>)
    modifies tunnel, buffer
    ensures r.Ok? ==> |buffer.data| <= MAX_DATAGRAM && |tunnel.Bytes()| < |old(tunnel.Bytes())|
    ensures r.Ok? ==> Unframe(old(tunnel.Bytes())) == [buffer.data] + Unframe(tunnel.Bytes())
    ensures r.Err? ==> Unframe(old(tunnel.Bytes())) == [] && tunnel.Bytes() == [] && r.error == AtEnd(tunnel.broken)
  {
    r := tunnel.ReadDatagram(buffer);
  }

  /** A growable buffer, as messages are built in before they are written. */
  class Buffer {
    var data: seq<Byte>

    method Extend(b: seq<Byte>)
      modifies this
      ensures data == old(data) + b
    {
      data := data + b;
    }

    method AppendAddress(a: Address)
      modifies this
      ensures data == old(data) + EncodeAddress(a)
    {
      ghost var before := data;
      var port := BigEndian(a.port);
      match a {
        case IpV4(octets, _) =>
          Extend([ATYP_IPV4]);
          Extend(octets);
          Extend(port);
          AssocLeft4(before, [ATYP_IPV4], octets, port);
        case IpV6(octets, _, _, _) =>
          Extend([ATYP_IPV6]);
          Extend(octets);
          Extend(port);
          AssocLeft4(before, [ATYP_IPV6], octets, port);
        case Domain(host, _) =>
          var len := Min(|host|, MAX_TEXT);
          Extend([ATYP_DOMAIN]);
          Extend([len as Byte] + host[..len]);
          Extend(port);
          AssocLeft4(before, [ATYP_DOMAIN], Counted(host[..len]), port);
      }
    }
  }

  // ----- Writing to a peer that may go away -----

  predicate FitsIn<T>(items: seq<T>, room: Option<nat>) {
    room.Some? ==> |items| <= room.value
  }

  /** What a peer with this much room takes of `items` before it is gone. */
  function Taken<T>(items: seq<T>, room: Option<nat>): seq<T> {
    if FitsIn(items, room) then items else items[..room.value]
  }

  function RoomAfter<T>(items: seq<T>, room: Option<nat>): Option<nat> {
    if room.None? then None else if |items| <= room.value then Some(room.value - |items|) else Some(0)
  }

  /** Room is counted in items, and all of it is used before the peer is gone. */
  lemma TakenIs<T>(items: seq<T>, room: Option<nat>)
    ensures Taken(items, room) <= items
    ensures FitsIn(items, room) <==> room == None || |items| <= room.value
    ensures if FitsIn(items, room) then Taken(items, room) == items else |Taken(items, room)| == room.value
    ensures room.Some? <==> RoomAfter(items, room).Some?
    ensures room.Some? ==> RoomAfter(items, room).value == room.value - |Taken(items, room)|
  {
  }

  lemma TakenInParts<T>(a: seq<T>, b: seq<T>, c: seq<T>, room: Option<nat>)
    requires FitsIn(a, room)
    ensures FitsIn(a + b, room) <==> FitsIn(b, RoomAfter(a, room))
    ensures Taken(a + b, room) == a + Taken(b, RoomAfter(a, room))
    ensures RoomAfter(a + b, room) == RoomAfter(b, RoomAfter(a, room))
    ensures !FitsIn(a + b, room) ==> !FitsIn(a + (b + c), room) && Taken(a + (b + c), room) == Taken(a + b, room)
  {
  }

  /** A write half: what was written, how much more the peer will take (`None`: anything), whether it was shut down. */
  class Sink {
    var written: seq<Byte>
    var room: Option<nat>
    var closed: bool

    constructor (room: Option<nat>)
      ensures written == [] && this.room == room && !closed
    {
      written, this.room, closed := [], room, false;
    }

    method WriteAll(b: seq<Byte>) returns (r: Result<()>)
      modifies this`written, this`room
      ensures written == old(written) + Taken(b, old(room)) && room == RoomAfter(b, old(room))
      ensures r == if FitsIn(b, old(room)) then Ok(()) else Err(ConnectionLost)
    {
      written := written + Taken(b, room);
      r := if FitsIn(b, room) then Ok(()) else Err(ConnectionLost);
      room := RoomAfter(b, room);
    }

    method Shutdown()
      modifies this`closed
      ensures closed
    {
      closed := true;
    }

    /** Builds the whole message first; a token the length byte cannot count writes nothing. */
    method WriteRequest(r: Request) returns (res: Result<()>)
      modifies this`written, this`room
      ensures |r.token| > 255 ==> res == Err(InvalidInput) && written == old(written) && room == old(room)
      ensures |r.token| <= 255 ==>
        var enc := EncodeRequest(r);
        && written == old(written) + Taken(enc, old(room)) && room == RoomAfter(enc, old(room))
        && res == if FitsIn(enc, old(room)) then Ok(()) else Err(ConnectionLost)
    {
      if |r.token| > MAX_TEXT {
        return Err(InvalidInput);
      }
      var buf := new Buffer;
      buf.data := [];
      buf.Extend(MAGIC);
      buf.Extend([VERSION]);
      buf.Extend([CmdCode(r.cmd)]);
      buf.Extend([|r.token| as Byte]);
      buf.Extend(r.token);
      ghost var head := buf.data;
      buf.AppendAddress(r.target);
      assert head == PREAMBLE + ([CmdCode(r.cmd)] + Counted(r.token));
      Assoc3(PREAMBLE, [CmdCode(r.cmd)], Counted(r.token), EncodeAddress(r.target));
      res := WriteAll(buf.data);
    }

    method WriteResponse(r: Response) returns (res: Result<()>)
      modifies this`written, this`room
      ensures var enc := EncodeResponse(r);
        && written == old(written) + Taken(enc, old(room)) && room == RoomAfter(enc, old(room))
        && res == if FitsIn(enc, old(room)) then Ok(()) else Err(ConnectionLost)
    {
      var len := Min(|r.message|, MAX_TEXT);
      var buf := new Buffer;
      buf.data := [];
      buf.Extend(MAGIC);
      buf.Extend([VERSION]);
      buf.Extend([StatusCode(r.status)]);
      buf.Extend([len as Byte]);
      buf.Extend(r.message[..len]);
      assert buf.data == EncodeResponse(r);
      res := WriteAll(buf.data);
    }

    method WriteDatagram(payload: seq<Byte>) returns (res: Result<()>)
      modifies this`written, this`room
      ensures |payload| > 65535 ==> res == Err(InvalidInput) && written == old(written) && room == old(room)
      ensures |payload| <= 65535 ==>
        && written == old(written) + Taken(Frame(payload), old(room)) && room == RoomAfter(Frame(payload), old(room))
        && res == if FitsIn(Frame(payload), old(room)) then Ok(()) else Err(ConnectionLost)
    {
      if |payload| > MAX_DATAGRAM {
        return Err(InvalidInput);
      }
      res := WriteAll(BigEndian(|payload|) + payload);
    }
  }

  // ----- Relay loops -----

  const CHUNK := 16384

  /** How one turn of a copy loop ends: a chunk read and written, the end of the reader passed on, or an error. */
  datatype Turn = Moved | AtItsEnd | Lost

  /** One turn of a copy loop; `chunk` is what it read. */
  method CopyTurn(reader: Source, writer: Sink) returns (turn: Turn, chunk: seq<Byte>)
    modifies reader, writer
    ensures chunk + reader.Bytes() == old(reader.Bytes()) && |chunk| <= CHUNK
    ensures writer.written == old(writer.written) + Taken(chunk, old(writer.room))
    ensures writer.room == RoomAfter(chunk, old(writer.room))
    ensures turn == (if |old(reader.Bytes())| == 0 then (if reader.broken then Lost else AtItsEnd)
                     else if FitsIn(chunk, old(writer.room)) then Moved else Lost)
    ensures |chunk| == 0 <==> |old(reader.Bytes())| == 0
    ensures writer.closed == (old(writer.closed) || turn == AtItsEnd)
  {
    Units(writer.written);
    Units(reader.Bytes());
    var r := reader.Read(CHUNK);
    if r.Err? {
      return Lost, [];
    }
    chunk := r.value;
    if |chunk| == 0 {
      writer.Shutdown();
      return AtItsEnd, chunk;
    }
    var w := writer.WriteAll(chunk);
    return if w.Ok? then Moved else Lost, chunk;
  }

  /**
   Copies until the reader ends or either side fails, one activity mark per chunk
   written in full. The writer gets all there is, as far as it takes it; it is
   shut down exactly when the reader ended cleanly and everything was taken.
   */
  method CopyWithActivity(reader: Source, writer: Sink) returns (res: Result<()>, marks: nat)
    modifies reader, writer
    ensures writer.written == old(writer.written) + Taken(old(reader.Bytes()), old(writer.room))
    ensures res ==
      if reader.broken || !FitsIn(old(reader.Bytes()), old(writer.room)) then Err(ConnectionLost) else Ok(())
    ensures writer.closed == (old(writer.closed) || res.Ok?)
    ensures marks <= |old(reader.Bytes())|
    ensures FitsIn(old(reader.Bytes()), old(writer.room)) ==>
      reader.Bytes() == [] && |old(reader.Bytes())| <= marks * CHUNK
  {
    marks := 0;
    ghost var copied: seq<Byte> := [];
    ghost var all, room := reader.Bytes(), writer.room;
    Units(all);
    Units(writer.written);
    while true
      invariant copied + reader.Bytes() == all
      invariant FitsIn(copied, room) && writer.room == RoomAfter(copied, room)
      invariant writer.written == old(writer.written) + copied && writer.closed == old(writer.closed)
      invariant |copied| <= marks * CHUNK && marks <= |copied|
      decreases |reader.Bytes()|
    {
      Units(copied);
      Units(writer.written);
      ghost var left := writer.room;
      var turn, chunk := CopyTurn(reader, writer);
      Assoc2(copied, chunk, reader.Bytes());
      TakenInParts(copied, chunk, reader.Bytes(), room);
      Assoc2(old(writer.written), copied, Taken(chunk, left));
      match turn {
        case AtItsEnd =>
          return Ok(()), marks;
        case Lost =>
          return Err(ConnectionLost), marks;
        case Moved =>
          copied := copied + chunk;
          marks := marks + 1;
      }
    }
  }

  /**
   Forwards local datagrams, one per read, until a read returns nothing; after
   `inputs` the local side is either at its end or broken.
   */
  method UploadDatagrams(inputs: seq<Datagram>, localBroken: bool, tunnel: Sink) returns (res: Result<()>)
    requires forall i :: 0 <= i < |inputs| ==> |inputs[i]| <= 65535
    modifies tunnel
    ensures var all := FrameAll(UntilEmpty(inputs));
      && tunnel.written == old(tunnel.written) + Taken(all, old(tunnel.room))
      && res == (if !FitsIn(all, old(tunnel.room)) then Err(ConnectionLost)
                 else if localBroken && |UntilEmpty(inputs)| == |inputs| then Err(LocalFailure) else Ok(()))
    ensures tunnel.closed == (old(tunnel.closed) || res.Ok?)
  {
    var left := inputs;
    ghost var all, room := FrameAll(UntilEmpty(inputs)), tunnel.room;
    ghost var sent: seq<Byte> := [];
    Units(tunnel.written);
    Units(all);
    while |left| > 0 && |left[0]| > 0
      invariant Fits(left) && all == sent + FrameAll(UntilEmpty(left))
      invariant |UntilEmpty(inputs)| - |inputs| == |UntilEmpty(left)| - |left|
      invariant FitsIn(sent, room) && tunnel.room == RoomAfter(sent, room)
      invariant tunnel.written == old(tunnel.written) + sent && tunnel.closed == old(tunnel.closed)
      decreases |left|
    {
      var d := left[0];
      ghost var rest := FrameAll(UntilEmpty(left[1..]));
      HeadAndTail(UntilEmpty(left[1..]), d);
      Assoc2(sent, Frame(d), rest);
      TakenInParts(sent, Frame(d), rest, room);
      Assoc2(old(tunnel.written), sent, Taken(Frame(d), tunnel.room));
      var w := tunnel.WriteDatagram(d);
      if w.Err? {
        return w;
      }
      sent := sent + Frame(d);
      left := left[1..];
    }
    Units(sent);
    if |left| == 0 && localBroken {
      return Err(LocalFailure);
    }
    tunnel.Shutdown();
    return Ok(());
  }

  /** A local datagram stream: a write of no bytes leaves no trace on it and cannot fail. */
  class LocalSink {
    var datagrams: seq<Datagram>
    var room: Option<nat>

    constructor (room: Option<nat>)
      ensures datagrams == [] && this.room == room
    {
      datagrams, this.room := [], room;
    }

    method WriteAll(d: Datagram) returns (r: Result<()>)
      modifies this
      ensures datagrams == old(datagrams) + Taken(NonEmpty([d]), old(room))
      ensures room == RoomAfter(NonEmpty([d]), old(room))
      ensures r == if FitsIn(NonEmpty([d]), old(room)) then Ok(()) else Err(LocalFailure)
    {
      HeadAndTail([], d);
      Units([d]);
      Units(datagrams);
      if |d| == 0 {
        return Ok(());
      }
      if room == Some(0) {
        return Err(LocalFailure);
      }
      datagrams := datagrams + [d];
      room := RoomAfter([d], room);
      return Ok(());
    }
  }

  /** Unframes the tunnel onto the local stream until one of them fails; the tunnel's end is such a failure. */
  method DownloadDatagrams(tunnel: Source, local: LocalSink) returns (error: IoError)
    modifies tunnel, local
    ensures var all := NonEmpty(Unframe(old(tunnel.Bytes())));
      && local.datagrams == old(local.datagrams) + Taken(all, old(local.room))
      && if FitsIn(all, old(local.room)) then error == AtEnd(tunnel.broken) && tunnel.Bytes() == []
         else error == LocalFailure
  {
    hide Unframe;
    var buffer := new Buffer;
    ghost var all, room := Unframe(tunnel.Bytes()), local.room;
    ghost var done: seq<Datagram> := [];
    Units(all);
    Units(local.datagrams);
    while true
      invariant done + Unframe(tunnel.Bytes()) == all
      invariant FitsIn(NonEmpty(done), room) && local.room == RoomAfter(NonEmpty(done), room)
      invariant local.datagrams == old(local.datagrams) + NonEmpty(done)
      modifies tunnel, local, buffer
      decreases |tunnel.Bytes()|
    {
      var more := NextDatagram(tunnel, buffer);
      Units(done);
      if more.Err? {
        return more.error;
      }
      var d := buffer.data;
      ghost var rest := Unframe(tunnel.Bytes());
      Assoc2(done, [d], rest);
      NonEmptyConcat(done, [d]);
      NonEmptyConcat(done + [d], rest);
      Assoc2(NonEmpty(done), NonEmpty([d]), NonEmpty(rest));
      TakenInParts(NonEmpty(done), NonEmpty([d]), NonEmpty(rest), room);
      Assoc2(old(local.datagrams), NonEmpty(done), Taken(NonEmpty([d]), local.room));
      var w := local.WriteAll(d);
      if w.Err? {
        return w.error;
      }
      done := done + [d];
    }
  }

  const COUNTER := 0x1_0000_0000_0000_0000

  /** The counter after `n` more datagrams. */
  function Counted64(counter: nat, n: nat): nat {
    if n == 0 then counter else (Counted64(counter, n - 1) + 1) % COUNTER
  }

  lemma OneMore(m: nat)
    ensures (m % COUNTER + 1) % COUNTER == (m + 1) % COUNTER
  {
    assert m == m / COUNTER * COUNTER + m % COUNTER;
  }

  lemma {:induction false} Counted64Wraps(counter: nat, n: nat)
    requires counter < 0x1_0000_0000_0000_0000
    ensures Counted64(counter, n) == (counter + n) % 0x1_0000_0000_0000_0000
  {
    if n > 0 {
      Counted64Wraps(counter, n - 1);
      OneMore(counter + (n - 1));
    }
  }

  /** The datagrams before the first one the socket will not send. */
  function UpToRefused(ds: seq<Datagram>, sends: Datagram -> bool): seq<Datagram> {
    if |ds| == 0 || !sends(ds[0]) then [] else [ds[0]] + UpToRefused(ds[1..], sends)
  }

  lemma UpToRefusedHead(d: Datagram, rest: seq<Datagram>, sends: Datagram -> bool)
    ensures UpToRefused([d] + rest, sends) == if sends(d) then [d] + UpToRefused(rest, sends) else []
  {
    HeadAndTail(rest, d);
  }

  lemma UpToRefusedNone(sends: Datagram -> bool)
    ensures UpToRefused([], sends) == []
  {
  }

  lemma CountedStep(counter: nat, n: nat)
    ensures Counted64(counter, 0) == counter
    ensures Counted64(counter, n + 1) == (Counted64(counter, n) + 1) % COUNTER
  {
  }

  /** The datagrams before the first refused one, and all of them if none is. */
  lemma {:induction false} UpToRefusedIs(ds: seq<Datagram>, sends: Datagram -> bool)
    ensures var sent := UpToRefused(ds, sends);
      && sent <= ds
      && (forall i :: 0 <= i < |sent| ==> sends(ds[i]))
      && (|sent| < |ds| ==> !sends(ds[|sent|]))
  {
    if |ds| > 0 && sends(ds[0]) {
      UpToRefusedIs(ds[1..], sends);
      var sent := UpToRefused(ds, sends);
      forall i | 0 <= i < |sent| ensures sends(ds[i]) {
        if i > 0 { assert ds[i] == ds[1..][i - 1]; }
      }
    }
  }

  /**
   Unframes the tunnel onto a UDP socket, which does send empty datagrams, counting
   each on a 64-bit counter. A datagram the socket refuses ends the relay uncounted.
   */
  method ServeUplink(tunnel: Source, activity: nat, sends: Datagram -> bool)
    returns (sent: seq<Datagram>, counter: nat, error: IoError)
    modifies tunnel
    ensures sent == UpToRefused(Unframe(old(tunnel.Bytes())), sends)
    ensures counter == Counted64(activity, |sent|)
    ensures error == if |sent| < |Unframe(old(tunnel.Bytes()))| then LocalFailure else AtEnd(tunnel.broken)
  {
    hide Unframe, UpToRefused, Counted64;
    sent, counter := [], activity;
    CountedStep(activity, 0);
    var buffer := new Buffer;
    ghost var all := Unframe(tunnel.Bytes());
    Units(all);
    Units(UpToRefused(all, sends));
    while true
      invariant sent + Unframe(tunnel.Bytes()) == all
      invariant sent + UpToRefused(Unframe(tunnel.Bytes()), sends) == UpToRefused(all, sends)
      invariant counter == Counted64(activity, |sent|)
      modifies tunnel, buffer
      decreases |tunnel.Bytes()|
    {
      var more := NextDatagram(tunnel, buffer);
      Units(sent);
      if more.Err? {
        UpToRefusedNone(sends);
        return sent, counter, more.error;
      }
      var d := buffer.data;
      ghost var rest := Unframe(tunnel.Bytes());
      UpToRefusedHead(d, rest, sends);
      if !sends(d) {
        return sent, counter, LocalFailure;
      }
      Assoc2(sent, [d], rest);
      Assoc2(sent, [d], UpToRefused(rest, sends));
      CountedStep(activity, |sent|);
      sent := sent + [d];
      counter := (counter + 1) % COUNTER;
    }
  }

  // ----- End to end -----

  /** Cuts a stream into chunks of the given sizes, and one for the remainder. */
  method Rechunk(b: seq<Byte>, sizes: seq<nat>) returns (chunks: seq<seq<Byte>>)
    ensures Flatten(chunks) == b
    ensures |chunks| == |sizes| + 1
    ensures forall i :: 0 <= i < |sizes| ==> |chunks[i]| <= sizes[i]
  {
    chunks := [];
    var left := b;
    Units(b);
    for k := 0 to |sizes|
      invariant Flatten(chunks) + left == b && |chunks| == k
      invariant forall i :: 0 <= i < k ==> |chunks[i]| <= sizes[i]
    {
      var n := Min(sizes[k], |left|);
      Assoc2(Flatten(chunks), left[..n], left[n..]);
      assert left[..n] + left[n..] == left;
      FlattenConcat(chunks, [left[..n]]);
      FlattenOne(left[..n]);
      chunks := chunks + [left[..n]];
      left := left[n..];
    }
    FlattenConcat(chunks, [left]);
    FlattenOne(left);
    chunks := chunks + [left];
  }

  /**
   Datagrams end to end, the upload and download loops joined by a stream that
   hands over chunks of any sizes: whatever was read locally before the first
   empty read comes out, one for one.
   */
  method SendThrough(inputs: seq<Datagram>, sizes: seq<nat>) returns (out: seq<Datagram>)
    requires forall i :: 0 <= i < |inputs| ==> |inputs[i]| <= 65535
    ensures out <= inputs
    ensures forall i :: 0 <= i < |out| ==> |inputs[i]| > 0
    ensures |out| < |inputs| ==> |inputs[|out|]| == 0
  {
    var up := new Sink(None);
    var sent := UploadDatagrams(inputs, false, up);
    assert sent.Ok? && up.closed;
    Units(FrameAll(UntilEmpty(inputs)));
    var chunks := Rechunk(up.written, sizes);
    var tunnel := new Source(chunks, false);
    var local := new LocalSink(None);
    var error := DownloadDatagrams(tunnel, local);
    assert error == UnexpectedEof;
    Units(NonEmpty(Unframe(up.written)));
    UnframeFrameAll(UntilEmpty(inputs));
    UntilEmptyIsNonEmpty(inputs);
    UntilEmptyIs(inputs);
    out := local.datagrams;
  }
}
