/**
 Start-up routing of the host agent: look up where traffic goes now, create the
 TUN device, pin what must stay outside the tunnel, then steer the configured
 networks into it.
 */
module HostRoutes {
  import opened Bytes
  import opened Wrappers
  import opened Routing

  datatype HostConfig = HostConfig(
    server: Addr,             // the VM agent
    routes: seq<Net>,         // networks for the tunnel
    exclude: seq<Net>,        // networks the tunnel must not swallow
    autoRoute: bool,
    tunName: string,
    tunNet: Net)              // the network of the device's own address

  predicate Covers(nets: seq<Net>, a: Addr) {
    exists i :: 0 <= i < |nets| && Contains(nets[i], a)
  }

  predicate Captures(cfg: HostConfig, a: Addr) { Covers(cfg.routes, a) }

  predicate Excludes(cfg: HostConfig, a: Addr) { Covers(cfg.exclude, a) }

  function TunHop(cfg: HostConfig): Hop { Hop(cfg.tunName, None) }

  // ----- What the start-up sequence computes -----

  datatype Pin = Pin(net: Net, hop: Hop)

  /** Excluded networks and the hop of their first address; those without a route are skipped. */
  function ExcludeHops(t: Table, nets: seq<Net>): seq<Pin>
    decreases |nets|
  {
    if |nets| == 0 then []
    else
      var rest := ExcludeHops(t, nets[1..]);
      match Forward(t, Network(nets[0]))
      case Some(hop) => [Pin(nets[0], hop)] + rest
      case None => rest
  }

  /** Bringing the device up makes its own network reachable through it. */
  function CreateTun(t: Table, cfg: HostConfig): Table {
    if cfg.tunNet in t then t else t[cfg.tunNet := TunHop(cfg)]
  }

  datatype Installed = Installed(table: Table, added: seq<RawPrefix>, ok: bool)

  /** An exact route that exists already is left alone, and so is not remembered. */
  function PinOne(s: Installed, p: Pin, refused: set<RawPrefix>): Installed {
    if p.net in s.table then s
    else if p.net in refused then s.(ok := false)
    else Installed(s.table[p.net := p.hop], s.added + [p.net], s.ok)
  }

  /** Failures to pin an excluded network are only reported. */
  function PinAll(s: Installed, pins: seq<Pin>, refused: set<RawPrefix>): Installed
    decreases |pins|
  {
    if |pins| == 0 then s else PinAll(PinOne(s, pins[0], refused).(ok := s.ok), pins[1..], refused)
  }

  /** Tunnel routes replace whatever is there; the first failure stops the start-up. */
  function SteerAll(s: Installed, nets: seq<Net>, hop: Hop, refused: set<RawPrefix>): Installed
    decreases |nets|
  {
    if |nets| == 0 then s
    else if nets[0] in refused then s.(ok := false)
    else SteerAll(Installed(s.table[nets[0] := hop], s.added + [nets[0]], s.ok), nets[1..], hop, refused)
  }

  function NeedsServerPin(cfg: HostConfig): bool {
    Captures(cfg, cfg.server) && !Excludes(cfg, cfg.server)
  }

  /** The table with the device and every pin, before any tunnel route. */
  function Pinned(cfg: HostConfig, t0: Table, refused: set<RawPrefix>): Installed {
    var s1 := Installed(CreateTun(t0, cfg), [], true);
    var s2 := if WantsServerPin(cfg, t0)
              then PinOne(s1, Pin(HostNet(cfg.server), Forward(t0, cfg.server).value), refused) else s1;
    if !s2.ok then s2 else PinAll(s2, ExcludeHops(t0, cfg.exclude), refused)
  }

  function Startup(cfg: HostConfig, t0: Table, refused: set<RawPrefix>): Installed {
    if NeedsServerPin(cfg) && Forward(t0, cfg.server).None? then Installed(t0, [], false)
    else if !cfg.autoRoute then Installed(CreateTun(t0, cfg), [], true)
    else
      var s := Pinned(cfg, t0, refused);
      if !s.ok then s else SteerAll(s, cfg.routes, TunHop(cfg), refused)
  }

  // ----- What will be in the table, from the inputs alone -----

  function WantsServerPin(cfg: HostConfig, t0: Table): bool {
    NeedsServerPin(cfg) && Forward(t0, cfg.server).Some?
  }

  /** Pinning the agent, where it is wanted, will not be refused. */
  predicate ServerPinned(cfg: HostConfig, t0: Table, refused: set<RawPrefix>) {
    WantsServerPin(cfg, t0) ==> HostNet(cfg.server) in CreateTun(t0, cfg) || HostNet(cfg.server) !in refused
  }

  /** A prefix that pinning adds for the agent or for an excluded network. */
  predicate NewPin(cfg: HostConfig, t0: Table, refused: set<RawPrefix>, p: RawPrefix) {
    && p !in refused
    && ((WantsServerPin(cfg, t0) && p == HostNet(cfg.server))
        || (ServerPinned(cfg, t0, refused) && p in cfg.exclude
            && |p.bits| <= Width(p.family) && Forward(t0, Network(p)).Some?))
  }

  predicate Present(cfg: HostConfig, t0: Table, refused: set<RawPrefix>, p: RawPrefix) {
    p in CreateTun(t0, cfg) || NewPin(cfg, t0, refused, p)
  }

  /** The longest prefix around `a` that will be present. */
  ghost predicate Decides(cfg: HostConfig, t0: Table, refused: set<RawPrefix>, a: Addr, q: RawPrefix) {
    && Present(cfg, t0, refused, q) && Contains(q, a)
    && forall r :: Present(cfg, t0, refused, r) && Contains(r, a) ==> |r.bits| <= |q.bits|
  }

  /**
   The route deciding for `a` will be a new pin, and inside the pinned network an
   older route holds its first address and leads elsewhere than `a` goes.
   */
  ghost predicate HopMoves(cfg: HostConfig, t0: Table, refused: set<RawPrefix>, a: Addr) {
    exists q: RawPrefix, r: RawPrefix ::
      && Decides(cfg, t0, refused, a, q) && q !in t0
      && |q.bits| <= Width(q.family) && |q.bits| < |r.bits|
      && IsLongest(t0, Network(q), r) && Forward(t0, a) != Some(t0[r])
  }

  // ----- Steering, exactly -----

  lemma {:induction false} SteerAllOverlays(s: Installed, nets: seq<Net>, hop: Hop, refused: set<RawPrefix>)
    requires SteerAll(s, nets, hop, refused).ok
    ensures var r := SteerAll(s, nets, hop, refused).table;
      && (forall p :: p in r <==> p in s.table || p in nets)
      && (forall p :: p in r ==> r[p] == if p in nets then hop else s.table[p])
    decreases |nets|
  {
    if |nets| > 0 {
      SteerAllOverlays(Installed(s.table[nets[0] := hop], s.added + [nets[0]], s.ok), nets[1..], hop, refused);
    }
  }

  /** `net` contains `a` and is at least as long as every route in the table that does. */
  predicate WinsBy(t: Table, net: Net, a: Addr) {
    Contains(net, a) && forall q :: q in t && Contains(q, a) ==> |q.bits| <= |net.bits|
  }

  /** A tunnel route for `a` at least as long as every route in the table that contains `a`. */
  predicate Wins(t: Table, nets: seq<Net>, a: Addr) {
    exists i :: 0 <= i < |nets| && WinsBy(t, nets[i], a)
  }

  lemma LongestOf(nets: seq<Net>, a: Addr) returns (k: nat)
    requires Covers(nets, a)
    ensures k < |nets| && Contains(nets[k], a)
    ensures forall i :: 0 <= i < |nets| && Contains(nets[i], a) ==> |nets[i].bits| <= |nets[k].bits|
    decreases |nets|
  {
    var last := |nets| - 1;
    if Covers(nets[..last], a) {
      k := LongestOf(nets[..last], a);
      assert forall i :: 0 <= i < last ==> nets[..last][i] == nets[i];
      if Contains(nets[last], a) && |nets[last].bits| > |nets[k].bits| {
        k := last;
      }
    } else {
      k := last;
      assert forall j :: 0 <= j < last ==> nets[..last][j] == nets[j];
    }
  }

  /**
   Longest match against tunnel routes, for every address: it goes into the
   tunnel when a tunnel route wins, and otherwise exactly where it went before.
   */
  lemma SteeredForward(s: Installed, nets: seq<Net>, hop: Hop, refused: set<RawPrefix>, a: Addr)
    requires SteerAll(s, nets, hop, refused).ok
    ensures Forward(SteerAll(s, nets, hop, refused).table, a)
         == if Wins(s.table, nets, a) then Some(hop) else Forward(s.table, a)
  {
    var r := SteerAll(s, nets, hop, refused).table;
    SteerAllOverlays(s, nets, hop, refused);
    if Wins(s.table, nets, a) {
      var i :| 0 <= i < |nets| && WinsBy(s.table, nets[i], a);
      var k := LongestOf(nets, a);
      assert IsLongest(r, a, nets[k]);
      ForwardBy(r, a, nets[k]);
    } else {
      LosingRoutesChangeNothing(s.table, r, nets, hop, a);
    }
  }

  lemma LosingRoutesChangeNothing(t: Table, r: Table, nets: seq<Net>, hop: Hop, a: Addr)
    requires !Wins(t, nets, a)
    requires forall p :: p in r <==> p in t || p in nets
    requires forall p :: p in r ==> r[p] == if p in nets then hop else t[p]
    ensures Forward(r, a) == Forward(t, a)
  {
    MatchIsLongest(t, a, HostNet(a));
    if Match(t, a) == None {
      assert forall i :: 0 <= i < |nets| ==> !Contains(nets[i], a);
      ForwardAgrees(r, t, a);
    } else {
      var p := Match(t, a).value;
      MatchIsLongest(t, a, p);
      assert forall i :: 0 <= i < |nets| && Contains(nets[i], a) ==> |nets[i].bits| < |p.bits|;
      assert IsLongest(r, a, p);
      ForwardBy(r, a, p);
    }
  }

  // ----- Pinning -----

  /** Where a pin may come from, and that it repeats the hop its first address had. */
  predicate IsPinFor(t0: Table, cfg: HostConfig, p: RawPrefix, hop: Hop) {
    (p in cfg.exclude || (NeedsServerPin(cfg) && p == HostNet(cfg.server)))
    && |p.bits| <= Width(p.family) && Forward(t0, Network(p)) == Some(hop)
  }

  /** Old entries are untouched; new ones are pins, and are remembered. */
  ghost predicate OnlyPins(t0: Table, cfg: HostConfig, s: Installed) {
    var t1 := CreateTun(t0, cfg);
    && (forall p :: p in t1 ==> p in s.table && s.table[p] == t1[p])
    && (forall p :: p in s.table && p !in t1 ==> IsPinFor(t0, cfg, p, s.table[p]))
    && (forall p :: p in s.added <==> p in s.table && p !in t1)
  }

  lemma {:induction false} ExcludeHopsArePins(t0: Table, cfg: HostConfig, nets: seq<Net>)
    requires forall p :: p in nets ==> p in cfg.exclude
    ensures forall q :: q in ExcludeHops(t0, nets) ==> IsPinFor(t0, cfg, q.net, q.hop)
    decreases |nets|
  {
    if |nets| > 0 {
      ExcludeHopsArePins(t0, cfg, nets[1..]);
      assert nets[0] in cfg.exclude;
    }
  }

  lemma PinOneOnly(t0: Table, cfg: HostConfig, s: Installed, p: Pin, refused: set<RawPrefix>)
    requires OnlyPins(t0, cfg, s) && IsPinFor(t0, cfg, p.net, p.hop)
    ensures OnlyPins(t0, cfg, PinOne(s, p, refused))
  {
  }

  lemma {:induction false} PinAllOnly(t0: Table, cfg: HostConfig, s: Installed, pins: seq<Pin>, refused: set<RawPrefix>)
    requires OnlyPins(t0, cfg, s) && forall q :: q in pins ==> IsPinFor(t0, cfg, q.net, q.hop)
    ensures OnlyPins(t0, cfg, PinAll(s, pins, refused)) && PinAll(s, pins, refused).ok == s.ok
    ensures forall q :: q in pins && q.net !in refused ==> q.net in PinAll(s, pins, refused).table
    ensures forall q :: q in s.table ==> q in PinAll(s, pins, refused).table
    decreases |pins|
  {
    if |pins| > 0 {
      var next := PinOne(s, pins[0], refused).(ok := s.ok);
      assert pins[0] in pins;
      PinOneOnly(t0, cfg, s, pins[0], refused);
      PinAllOnly(t0, cfg, next, pins[1..], refused);
      assert forall q :: q in pins ==> q == pins[0] || q in pins[1..];
    }
  }

  lemma PinnedOnly(t0: Table, cfg: HostConfig, refused: set<RawPrefix>)
    ensures OnlyPins(t0, cfg, Pinned(cfg, t0, refused))
    ensures Pinned(cfg, t0, refused).ok && NeedsServerPin(cfg) && Forward(t0, cfg.server).Some? ==>
      HostNet(cfg.server) in Pinned(cfg, t0, refused).table
  {
    var s1 := Installed(CreateTun(t0, cfg), [], true);
    assert OnlyPins(t0, cfg, s1);
    var s2 := s1;
    if NeedsServerPin(cfg) && Forward(t0, cfg.server).Some? {
      var pin := Pin(HostNet(cfg.server), Forward(t0, cfg.server).value);
      NetworkOfHost(cfg.server);
      PinOneOnly(t0, cfg, s1, pin, refused);
      s2 := PinOne(s1, pin, refused);
    }
    if s2.ok {
      ExcludeHopsArePins(t0, cfg, cfg.exclude);
      PinAllOnly(t0, cfg, s2, ExcludeHops(t0, cfg.exclude), refused);
    }
  }

  /** Before the device exists nothing is forwarded to it. */
  predicate TunUnused(t0: Table, cfg: HostConfig) {
    forall p :: p in t0 ==> t0[p].device != cfg.tunName
  }

  /** The device's own network is new and contains `a`. */
  predicate OnTunNet(t0: Table, cfg: HostConfig, a: Addr) {
    cfg.tunNet !in t0 && Contains(cfg.tunNet, a)
  }

  predicate PinsNet(pins: seq<Pin>, p: RawPrefix) {
    exists i :: 0 <= i < |pins| && pins[i].net == p
  }

  lemma PinsNetCons(pin: Pin, pins: seq<Pin>, p: RawPrefix)
    ensures PinsNet([pin] + pins, p) <==> p == pin.net || PinsNet(pins, p)
  {
    var all := [pin] + pins;
    assert all[0] == pin && forall i :: 0 <= i < |pins| ==> all[i + 1] == pins[i];
  }

  lemma {:induction false} ExcludeHopsCover(t0: Table, nets: seq<Net>, p: RawPrefix)
    ensures PinsNet(ExcludeHops(t0, nets), p)
       <==> p in nets && |p.bits| <= Width(p.family) && Forward(t0, Network(p)).Some?
    decreases |nets|
  {
    if |nets| > 0 {
      ExcludeHopsCover(t0, nets[1..], p);
      var hop := Forward(t0, Network(nets[0]));
      if hop.Some? {
        PinsNetCons(Pin(nets[0], hop.value), ExcludeHops(t0, nets[1..]), p);
      }
    }
  }

  lemma {:induction false} PinAllAdds(s: Installed, pins: seq<Pin>, refused: set<RawPrefix>, p: RawPrefix)
    ensures p in PinAll(s, pins, refused).table <==> p in s.table || (PinsNet(pins, p) && p !in refused)
    ensures PinAll(s, pins, refused).ok == s.ok
    decreases |pins|
  {
    if |pins| > 0 {
      var next := PinOne(s, pins[0], refused).(ok := s.ok);
      PinAllAdds(next, pins[1..], refused, p);
      PinsNetCons(pins[0], pins[1..], p);
      assert [pins[0]] + pins[1..] == pins;
    }
  }

  /** The table after pinning, in closed form: which prefixes it holds, and whether it is completed. */
  lemma PinnedExactly(cfg: HostConfig, t0: Table, refused: set<RawPrefix>, p: RawPrefix)
    ensures Pinned(cfg, t0, refused).ok <==> ServerPinned(cfg, t0, refused)
    ensures p in Pinned(cfg, t0, refused).table <==> Present(cfg, t0, refused, p)
  {
    var s1 := Installed(CreateTun(t0, cfg), [], true);
    var s2 := if WantsServerPin(cfg, t0)
              then PinOne(s1, Pin(HostNet(cfg.server), Forward(t0, cfg.server).value), refused) else s1;
    assert s2.ok <==> ServerPinned(cfg, t0, refused);
    if s2.ok {
      ExcludeHopsCover(t0, cfg.exclude, p);
      PinAllAdds(s2, ExcludeHops(t0, cfg.exclude), refused, p);
    }
  }

  lemma DecidesIsLongest(cfg: HostConfig, t0: Table, refused: set<RawPrefix>, a: Addr, q: RawPrefix)
    ensures Decides(cfg, t0, refused, a, q) <==> IsLongest(Pinned(cfg, t0, refused).table, a, q)
  {
    forall p ensures p in Pinned(cfg, t0, refused).table <==> Present(cfg, t0, refused, p) {
      PinnedExactly(cfg, t0, refused, p);
    }
  }

  /** With no older route inside `q` around its first address, its addresses with nothing longer went the same way. */
  lemma SameMatchAsNetwork(t0: Table, q: Net, r: RawPrefix, a: Addr)
    requires Contains(q, a) && IsLongest(t0, Network(q), r) && |r.bits| <= |q.bits|
    requires forall x :: x in t0 && Contains(x, a) ==> |x.bits| <= |q.bits|
    ensures IsLongest(t0, a, r)
  {
    NetworkInside(q);
    Nested(r, q, Network(q));
    forall x | x in t0 && Contains(x, a)
      ensures |x.bits| <= |r.bits|
    {
      Nested(x, q, a);
    }
  }

  lemma LongestIsOne(t: Table, a: Addr, p: RawPrefix, q: RawPrefix)
    requires IsLongest(t, a, p) && IsLongest(t, a, q)
    ensures p == q
  {
    SameLengthSamePrefix(p, q, a);
  }

  /** A new pin that decides for `a` gives it the hop of the pinned network's first address. */
  lemma NewPinForward(t0: Table, cfg: HostConfig, refused: set<RawPrefix>, a: Addr, q: RawPrefix) returns (r: RawPrefix)
    requires !OnTunNet(t0, cfg, a) && Decides(cfg, t0, refused, a, q) && q !in t0
    ensures |q.bits| <= Width(q.family) && IsLongest(t0, Network(q), r)
    ensures Forward(Pinned(cfg, t0, refused).table, a) == Some(t0[r])
    ensures |r.bits| <= |q.bits| ==> Forward(t0, a) == Some(t0[r])
  {
    var t := Pinned(cfg, t0, refused).table;
    PinnedOnly(t0, cfg, refused);
    DecidesIsLongest(cfg, t0, refused, a, q);
    ForwardBy(t, a, q);
    var b := Network(q);
    MatchIsLongest(t0, b, HostNet(b));
    r := Match(t0, b).value;
    MatchIsLongest(t0, b, r);
    ForwardBy(t0, b, r);
    if |r.bits| <= |q.bits| {
      SameMatchAsNetwork(t0, q, r, a);
      ForwardBy(t0, a, r);
    }
  }

  /** What pinning does to an address, exactly, in terms of what was there before. */
  lemma PinnedForward(t0: Table, cfg: HostConfig, refused: set<RawPrefix>, a: Addr)
    requires !OnTunNet(t0, cfg, a)
    ensures Forward(Pinned(cfg, t0, refused).table, a) != Forward(t0, a) <==> HopMoves(cfg, t0, refused, a)
  {
    var t := Pinned(cfg, t0, refused).table;
    MatchIsLongest(t, a, HostNet(a));
    if Match(t, a).None? {
      PinnedOnly(t0, cfg, refused);
      MatchIsLongest(t0, a, HostNet(a));
      forall q ensures !Decides(cfg, t0, refused, a, q) { DecidesIsLongest(cfg, t0, refused, a, q); }
    } else {
      var q := Match(t, a).value;
      MatchIsLongest(t, a, q);
      DecidesIsLongest(cfg, t0, refused, a, q);
      forall x | Decides(cfg, t0, refused, a, x) ensures x == q {
        DecidesIsLongest(cfg, t0, refused, a, x);
        LongestIsOne(t, a, x, q);
      }
      if q in t0 {
        OldRouteForward(t0, cfg, refused, a, q);
      } else {
        var r := NewPinForward(t0, cfg, refused, a, q);
        forall x | IsLongest(t0, Network(q), x) ensures x == r { LongestIsOne(t0, Network(q), x, r); }
      }
    }
  }

  lemma OldRouteForward(t0: Table, cfg: HostConfig, refused: set<RawPrefix>, a: Addr, q: RawPrefix)
    requires q in t0 && IsLongest(Pinned(cfg, t0, refused).table, a, q)
    ensures Forward(Pinned(cfg, t0, refused).table, a) == Forward(t0, a)
  {
    PinnedOnly(t0, cfg, refused);
    ForwardBy(Pinned(cfg, t0, refused).table, a, q);
    ForwardBy(t0, a, q);
  }

  /**
   A condition that is easier to check: pinning is invisible where the excluded
   networks hold no older, narrower route to their first address.
   */
  lemma PinsKeepHops(t0: Table, cfg: HostConfig, refused: set<RawPrefix>, a: Addr)
    requires !OnTunNet(t0, cfg, a)
    requires forall e, q :: e in cfg.exclude && Contains(e, a) && q in t0 && Contains(q, Network(e)) ==>
      |q.bits| <= |e.bits|
    ensures Forward(Pinned(cfg, t0, refused).table, a) == Forward(t0, a)
  {
    PinnedForward(t0, cfg, refused, a);
    forall q: RawPrefix, r: RawPrefix |
      Decides(cfg, t0, refused, a, q) && q !in t0 && |q.bits| <= Width(q.family) && IsLongest(t0, Network(q), r)
      ensures |r.bits| <= |q.bits|
    {
      if q in cfg.exclude {
        var i :| 0 <= i < |cfg.exclude| && cfg.exclude[i] == q;
      }
    }
  }

  lemma CoversIs(nets: seq<Net>, a: Addr)
    ensures Covers(nets, a) <==> exists n :: n in nets && Contains(n, a)
  {
    if n :| n in nets && Contains(n, a) {
      var i :| 0 <= i < |nets| && nets[i] == n;
      assert Contains(nets[i], a);
    }
  }

  /** The agent needs a route of its own exactly when a tunnel route would swallow it and no exclusion protects it. */
  lemma NeedsServerPinIff(cfg: HostConfig)
    ensures NeedsServerPin(cfg) <==>
      && (exists n :: n in cfg.routes && Contains(n, cfg.server))
      && (forall n :: n in cfg.exclude ==> !Contains(n, cfg.server))
  {
    CoversIs(cfg.routes, cfg.server);
    CoversIs(cfg.exclude, cfg.server);
  }

  /** An agent that no tunnel route captures, or that an exclusion protects, gets no route of its own. */
  lemma AgentNotPinnedInVain(t0: Table, cfg: HostConfig, refused: set<RawPrefix>)
    requires (forall n :: n in cfg.routes ==> !Contains(n, cfg.server))
      || exists n :: n in cfg.exclude && Contains(n, cfg.server)
    requires HostNet(cfg.server) !in cfg.exclude && HostNet(cfg.server) !in CreateTun(t0, cfg)
    ensures HostNet(cfg.server) !in Pinned(cfg, t0, refused).table
    ensures HostNet(cfg.server) !in Startup(cfg, t0, refused).table || HostNet(cfg.server) in cfg.routes
  {
    NeedsServerPinIff(cfg);
    PinnedExactly(cfg, t0, refused, HostNet(cfg.server));
    if cfg.autoRoute && Pinned(cfg, t0, refused).ok {
      SteerAllRemembers(Pinned(cfg, t0, refused), cfg.routes, TunHop(cfg), refused);
      UpToRefusedIsPart(cfg.routes, refused);
    }
  }

  lemma {:induction false} UpToRefusedIsPart(nets: seq<Net>, refused: set<RawPrefix>)
    ensures var done := UpToRefused(nets, refused);
      && done <= nets && (forall p :: p in done ==> p !in refused)
      && (|done| < |nets| ==> nets[|done|] in refused)
    decreases |nets|
  {
    if |nets| > 0 && nets[0] !in refused {
      UpToRefusedIsPart(nets[1..], refused);
    }
  }

  /** Start-up succeeds exactly when the agent is reachable and nothing it insists on is refused. */
  lemma StartupSucceedsIff(t0: Table, cfg: HostConfig, refused: set<RawPrefix>)
    ensures Startup(cfg, t0, refused).ok <==>
      var needed := (exists n :: n in cfg.routes && Contains(n, cfg.server))
                 && forall n :: n in cfg.exclude ==> !Contains(n, cfg.server);
      && (needed ==> Forward(t0, cfg.server).Some?)
      && (cfg.autoRoute ==>
            && (needed ==> HostNet(cfg.server) in CreateTun(t0, cfg) || HostNet(cfg.server) !in refused)
            && forall p :: p in cfg.routes ==> p !in refused)
  {
    NeedsServerPinIff(cfg);
    var s := Pinned(cfg, t0, refused);
    PinnedExactly(cfg, t0, refused, HostNet(cfg.server));
    if s.ok {
      SteerAllSucceedsIff(s, cfg.routes, TunHop(cfg), refused);
    }
  }

  lemma {:induction false} SteerAllSucceedsIff(s: Installed, nets: seq<Net>, hop: Hop, refused: set<RawPrefix>)
    requires s.ok
    ensures SteerAll(s, nets, hop, refused).ok <==> forall p :: p in nets ==> p !in refused
    decreases |nets|
  {
    if |nets| > 0 && nets[0] !in refused {
      SteerAllSucceedsIff(Installed(s.table[nets[0] := hop], s.added + [nets[0]], s.ok), nets[1..], hop, refused);
      assert forall p :: p in nets <==> p == nets[0] || p in nets[1..];
    }
  }

  /**
   An address of an excluded network that has a route of its own, or gets one
   pinned, never enters the tunnel, unless a tunnel route is at least as specific.
   Its hop stays the same exactly when pinning does not move it.
   */
  lemma ExcludedStaysOut(t0: Table, cfg: HostConfig, refused: set<RawPrefix>, e: Net, a: Addr)
    requires TunUnused(t0, cfg) && Startup(cfg, t0, refused).ok && cfg.autoRoute
    requires e in cfg.exclude && Contains(e, a) && Present(cfg, t0, refused, e)
    requires !OnTunNet(t0, cfg, a)
    requires forall i :: 0 <= i < |cfg.routes| && Contains(cfg.routes[i], a) ==> |cfg.routes[i].bits| < |e.bits|
    ensures var hop := Forward(Startup(cfg, t0, refused).table, a); hop.Some? && hop.value.device != cfg.tunName
    ensures Forward(Startup(cfg, t0, refused).table, a) != Forward(t0, a) <==> HopMoves(cfg, t0, refused, a)
  {
    var s := Pinned(cfg, t0, refused);
    PinnedForward(t0, cfg, refused, a);
    PinnedExactly(cfg, t0, refused, e);
    SteeredForward(s, cfg.routes, TunHop(cfg), refused, a);
    MatchIsLongest(s.table, a, e);
    var q := Match(s.table, a).value;
    MatchIsLongest(s.table, a, q);
    ForwardBy(s.table, a, q);
    PinnedHopsAreOld(t0, cfg, refused, q);
  }

  lemma PinnedHopsAreOld(t0: Table, cfg: HostConfig, refused: set<RawPrefix>, q: RawPrefix)
    requires TunUnused(t0, cfg) && q in Pinned(cfg, t0, refused).table && (q == cfg.tunNet ==> q in t0)
    ensures Pinned(cfg, t0, refused).table[q].device != cfg.tunName
  {
    PinnedOnly(t0, cfg, refused);
    if q !in t0 {
      var b := Network(q);
      MatchIsLongest(t0, b, HostNet(b));
      var r := Match(t0, b).value;
      MatchIsLongest(t0, b, r);
      ForwardBy(t0, b, r);
    }
  }

  /**
   The tunnel's own connection: the agent's address keeps its hop exactly when its
   host route is not itself a tunnel route.
   */
  lemma AgentNotCaptured(t0: Table, cfg: HostConfig, refused: set<RawPrefix>)
    requires TunUnused(t0, cfg) && Startup(cfg, t0, refused).ok && cfg.autoRoute
    requires exists n :: n in cfg.routes && Contains(n, cfg.server)
    requires forall n :: n in cfg.exclude ==> !Contains(n, cfg.server)
    requires !OnTunNet(t0, cfg, cfg.server)
    ensures Forward(t0, cfg.server).Some?
    ensures Forward(Startup(cfg, t0, refused).table, cfg.server) == Forward(t0, cfg.server)
       <==> HostNet(cfg.server) !in cfg.routes
  {
    NeedsServerPinIff(cfg);
    var a, s, host := cfg.server, Pinned(cfg, t0, refused), HostNet(cfg.server);
    PinnedOnly(t0, cfg, refused);
    SteeredForward(s, cfg.routes, TunHop(cfg), refused, a);
    NetworkOfHost(a);
    HostRouteDecides(s.table, a);
    if host in t0 {
      HostRouteDecides(t0, a);
    }
    PinnedHopsAreOld(t0, cfg, refused, host);
    forall i | 0 <= i < |cfg.routes| && Contains(cfg.routes[i], a) && |host.bits| <= |cfg.routes[i].bits|
      ensures cfg.routes[i] == host
    {
      SameLengthSamePrefix(cfg.routes[i], host, a);
    }
    if host in cfg.routes {
      var i :| 0 <= i < |cfg.routes| && cfg.routes[i] == host;
      assert Wins(s.table, cfg.routes, a);
    } else {
      assert Contains(host, a) && host in s.table;
      assert !Wins(s.table, cfg.routes, a);
    }
  }

  /** The table a completed start-up leaves: which prefixes it holds, and where each leads. */
  lemma StartupTable(t0: Table, cfg: HostConfig, refused: set<RawPrefix>, p: RawPrefix)
    requires Startup(cfg, t0, refused).ok && cfg.autoRoute
    ensures var t := Startup(cfg, t0, refused).table;
      && (p in t <==> p in cfg.routes || Present(cfg, t0, refused, p))
      && (p in cfg.routes ==> t[p] == Hop(cfg.tunName, None))
      && (p !in cfg.routes && p in t0 ==> t[p] == t0[p])
      && (p !in cfg.routes && p !in t0 && p == cfg.tunNet ==> t[p] == Hop(cfg.tunName, None))
      && (p in t && p !in cfg.routes && p !in t0 && p != cfg.tunNet ==>
            |p.bits| <= Width(p.family) && Some(t[p]) == Forward(t0, Network(p)))
  {
    var s := Pinned(cfg, t0, refused);
    SteerAllOverlays(s, cfg.routes, TunHop(cfg), refused);
    PinnedExactly(cfg, t0, refused, p);
    PinnedOnly(t0, cfg, refused);
  }

  /** With automatic routes off, and when there is no way to the agent, no route is touched but the device's own. */
  lemma HandsOff(t0: Table, cfg: HostConfig, refused: set<RawPrefix>, p: RawPrefix)
    requires !cfg.autoRoute || (NeedsServerPin(cfg) && Forward(t0, cfg.server).None?)
    ensures var r := Startup(cfg, t0, refused);
      && r.added == []
      && (p in r.table ==> p in t0 || p == cfg.tunNet)
      && (p in t0 ==> p in r.table && r.table[p] == t0[p])
      && (r.ok && p == cfg.tunNet && p !in t0 ==> p in r.table && r.table[p] == Hop(cfg.tunName, None))
  {
  }

  /** What goes into the tunnel, exactly: addresses with a tunnel route at least as long as all else around them. */
  lemma IntoTunnelIff(t0: Table, cfg: HostConfig, refused: set<RawPrefix>, a: Addr)
    requires TunUnused(t0, cfg) && Startup(cfg, t0, refused).ok && cfg.autoRoute && !OnTunNet(t0, cfg, a)
    ensures var hop := Forward(Startup(cfg, t0, refused).table, a);
      hop.Some? && hop.value.device == cfg.tunName <==>
        exists n :: n in cfg.routes && Contains(n, a)
          && forall q :: Present(cfg, t0, refused, q) && Contains(q, a) ==> |q.bits| <= |n.bits|
  {
    var s := Pinned(cfg, t0, refused);
    SteeredForward(s, cfg.routes, TunHop(cfg), refused, a);
    forall q ensures q in s.table <==> Present(cfg, t0, refused, q) { PinnedExactly(cfg, t0, refused, q); }
    WinsIs(cfg, t0, refused, a);
    if !Wins(s.table, cfg.routes, a) && Forward(s.table, a).Some? {
      var q := Match(s.table, a).value;
      MatchIsLongest(s.table, a, q);
      ForwardBy(s.table, a, q);
      PinnedHopsAreOld(t0, cfg, refused, q);
    }
  }

  lemma WinsIs(cfg: HostConfig, t0: Table, refused: set<RawPrefix>, a: Addr)
    ensures Wins(Pinned(cfg, t0, refused).table, cfg.routes, a) <==>
      exists n :: n in cfg.routes && Contains(n, a)
        && forall q :: Present(cfg, t0, refused, q) && Contains(q, a) ==> |q.bits| <= |n.bits|
  {
    var t := Pinned(cfg, t0, refused).table;
    forall q ensures q in t <==> Present(cfg, t0, refused, q) { PinnedExactly(cfg, t0, refused, q); }
    forall n | n in cfg.routes && WinsBy(t, n, a)
      ensures Wins(t, cfg.routes, a)
    {
      var i :| 0 <= i < |cfg.routes| && cfg.routes[i] == n;
      assert WinsBy(t, cfg.routes[i], a);
    }
    if Wins(t, cfg.routes, a) {
      var i :| 0 <= i < |cfg.routes| && WinsBy(t, cfg.routes[i], a);
      assert cfg.routes[i] in cfg.routes;
    }
  }

  /** Traffic that is nobody's business is left alone. */
  lemma OthersUnchanged(t0: Table, cfg: HostConfig, refused: set<RawPrefix>, a: Addr)
    requires Startup(cfg, t0, refused).ok && cfg.autoRoute && !OnTunNet(t0, cfg, a)
    requires !Captures(cfg, a) && !Excludes(cfg, a) && a != cfg.server
    ensures Forward(Startup(cfg, t0, refused).table, a) == Forward(t0, a)
  {
    SteeredForward(Pinned(cfg, t0, refused), cfg.routes, TunHop(cfg), refused, a);
    PinsKeepHops(t0, cfg, refused, a);
  }

  lemma NarrowerAtFirstAddress(t0: Table, near: Hop, far: Hop, e: Net, lower: Net, a: Addr)
    requires e.family == a.family == lower.family && Contains(e, a) && !Contains(lower, a)
    requires |lower.bits| > 0 && lower.bits <= Network(e).bits
    requires t0 == map[Prefix(e.family, []) := far, lower := near]
    ensures Forward(t0, a) == Some(far) && IsLongest(t0, Network(e), lower) && Forward(t0, Network(e)) == Some(near)
  {
    var everything := Prefix(e.family, []);
    assert IsLongest(t0, a, everything);
    ForwardBy(t0, a, everything);
    ForwardBy(t0, Network(e), lower);
  }

  /** Excluding just `e` moves `a`, whatever shorter networks are steered into the tunnel. */
  lemma NarrowerRouteMovesHop(t0: Table, cfg: HostConfig, near: Hop, far: Hop, e: Net, lower: Net, a: Addr)
    requires e.family == a.family == lower.family && Contains(e, a) && !Contains(lower, a)
    requires 0 < |e.bits| < |lower.bits| && lower.bits <= Network(e).bits
    requires t0 == map[Prefix(e.family, []) := far, lower := near] && near != far
    requires cfg.exclude == [e] && cfg.autoRoute && !NeedsServerPin(cfg) && !Contains(cfg.tunNet, a)
    requires forall i :: 0 <= i < |cfg.routes| && Contains(cfg.routes[i], a) ==> |cfg.routes[i].bits| < |e.bits|
    ensures Startup(cfg, t0, {}).ok && Forward(t0, a) == Some(far)
    ensures Forward(Startup(cfg, t0, {}).table, a) == Some(near)
  {
    NarrowerAtFirstAddress(t0, near, far, e, lower, a);
    hide Forward, Network, IsLongest, Pinned, PinAll, SteerAll;
    assert cfg.exclude[0] == e;
    assert Decides(cfg, t0, {}, a, e) && e !in t0;
    var r := NewPinForward(t0, cfg, {}, a, e);
    LongestIsOne(t0, Network(e), r, lower);
    StartupSucceedsIff(t0, cfg, {});
    PinnedExactly(cfg, t0, {}, e);
    SteeredForward(Pinned(cfg, t0, {}), cfg.routes, TunHop(cfg), {}, a);
    assert !Wins(Pinned(cfg, t0, {}).table, cfg.routes, a);
  }

  /**
   The hop of an excluded network is that of its first address, so other addresses
   in it may change theirs: here the upper half of a /24 whose lower half had a
   route of its own, carved out of a /1 that goes into the tunnel.
   */
  lemma PinningCanChangeAHop()
    ensures exists t0: Table, cfg: HostConfig, a: Addr ::
      && Excludes(cfg, a) && Captures(cfg, a) && TunUnused(t0, cfg) && !OnTunNet(t0, cfg, a)
      && Startup(cfg, t0, {}).ok && cfg.autoRoute
      && Forward(Startup(cfg, t0, {}).table, a) != Forward(t0, a)
  {
    hide Forward, Startup;
    var e: Net := Prefix(V4, seq(24, _ => false));
    var lower: Net := Prefix(V4, seq(25, _ => false));
    var near, far := Hop("near", None), Hop("far", None);
    var t0: Table := map[Prefix(V4, []) := far, lower := near];
    var a: Addr := Address(V4, e.bits + [true] + seq(7, _ => false));
    var cfg := HostConfig(a, [Prefix(V4, [false])], [e], true, "tun", Prefix(V4, [true]));
    assert a.bits[24] && !lower.bits[24] && !a.bits[0];
    assert cfg.exclude[0] == e && Contains(e, a) && Contains(cfg.routes[0], a);
    NarrowerRouteMovesHop(t0, cfg, near, far, e, lower, a);
  }

  // ----- Taking it back -----

  /** The tunnel routes that get installed: all, or those before the first refused one. */
  function UpToRefused(nets: seq<Net>, refused: set<RawPrefix>): seq<Net>
    decreases |nets|
  {
    if |nets| == 0 || nets[0] in refused then [] else [nets[0]] + UpToRefused(nets[1..], refused)
  }

  lemma {:induction false} SteerAllRemembers(s: Installed, nets: seq<Net>, hop: Hop, refused: set<RawPrefix>)
    requires s.ok
    ensures var r, done := SteerAll(s, nets, hop, refused), UpToRefused(nets, refused);
      && r.added == s.added + done
      && (forall p :: p in r.table <==> p in s.table || p in done)
      && (forall p :: p in r.table && p !in done ==> r.table[p] == s.table[p])
      && (r.ok <==> done == nets)
    decreases |nets|
  {
    if |nets| == 0 || nets[0] in refused {
      assert s.added + [] == s.added;
    } else {
      var next := Installed(s.table[nets[0] := hop], s.added + [nets[0]], s.ok);
      SteerAllRemembers(next, nets[1..], hop, refused);
      assert next.added + UpToRefused(nets[1..], refused) == s.added + ([nets[0]] + UpToRefused(nets[1..], refused));
    }
  }

  /**
   Cleanup deletes what start-up added, completely or up to a failure; but tunnel
   routes were installed with `replace`: the table comes back exactly when none
   of those installed had been there.
   */
  lemma CleanupRestoresIff(t0: Table, cfg: HostConfig, refused: set<RawPrefix>)
    requires cfg.autoRoute && (NeedsServerPin(cfg) ==> Forward(t0, cfg.server).Some?)
    ensures var r := Startup(cfg, t0, refused);
      RemoveAll(r.table, r.added) == CreateTun(t0, cfg)
      <==> (ServerPinned(cfg, t0, refused) ==>
              forall p :: p in UpToRefused(cfg.routes, refused) ==> p !in CreateTun(t0, cfg))
  {
    var s := Pinned(cfg, t0, refused);
    var r := Startup(cfg, t0, refused);
    var t1 := CreateTun(t0, cfg);
    PinnedOnly(t0, cfg, refused);
    PinnedExactly(cfg, t0, refused, HostNet(cfg.server));
    RemoveAllIsMinus(r.table, r.added);
    if s.ok {
      SteerAllRemembers(s, cfg.routes, TunHop(cfg), refused);
    }
    var back, done := RemoveAll(r.table, r.added), UpToRefused(cfg.routes, refused);
    if s.ok && exists p :: p in done && p in t1 {
      var p :| p in done && p in t1;
      assert p !in back;
    } else {
      assert back == t1;
    }
  }

  /** A route of the same prefix as a tunnel route is gone after a start and a cleanup. */
  lemma ReplacedRouteIsLost(t0: Table, cfg: HostConfig, refused: set<RawPrefix>, p: RawPrefix)
    requires Startup(cfg, t0, refused).ok && cfg.autoRoute && p in cfg.routes
    ensures var r := Startup(cfg, t0, refused); p !in RemoveAll(r.table, r.added)
  {
    var s, r := Pinned(cfg, t0, refused), Startup(cfg, t0, refused);
    SteerAllRemembers(s, cfg.routes, TunHop(cfg), refused);
    RemoveAllIsMinus(r.table, r.added);
  }

  lemma TunKeepsRoutes(t0: Table, cfg: HostConfig, p: RawPrefix)
    requires p in t0
    ensures p in CreateTun(t0, cfg)
  {
  }

  /** And such start-ups exist. */
  lemma CleanupCanLoseARoute()
    ensures exists t0: Table, cfg: HostConfig, p: RawPrefix ::
      var r := Startup(cfg, t0, {});
      r.ok && p in t0 && p in CreateTun(t0, cfg) && p !in RemoveAll(r.table, r.added)
  {
    var net: Net := Prefix(V4, [true]);
    var t0: Table := map[net := Hop("near", None)];
    var cfg := HostConfig(Address(V4, seq(32, _ => false)), [net], [], true, "tun", Prefix(V4, [false]));
    assert net.bits[0] && !cfg.server.bits[0];
    assert !Contains(net, cfg.server);
    hide Startup, CreateTun;
    StartupSucceedsIff(t0, cfg, {});
    assert net in cfg.routes;
    TunKeepsRoutes(t0, cfg, net);
    ReplacedRouteIsLost(t0, cfg, {}, net);
  }

  // ----- The program -----

  class RouteManager {
    var added: seq<RawPrefix>

    constructor ()
      ensures added == []
    {
      added := [];
    }

    method AddToDev(kernel: Kernel, net: Net, device: string) returns (ok: bool)
      modifies this, kernel
      ensures ok <==> net !in kernel.refused
      ensures ok ==> kernel.table == old(kernel.table)[net := Hop(device, None)] && added == old(added) + [net]
      ensures !ok ==> kernel.table == old(kernel.table) && added == old(added)
    {
      ok := kernel.Replace(net, Hop(device, None));
      if ok { added := added + [net]; }
    }

    method PinDirect(kernel: Kernel, net: Net, hop: Hop) returns (ok: bool)
      modifies this, kernel
      ensures Installed(kernel.table, added, ok)
           == PinOne(Installed(old(kernel.table), old(added), true), Pin(net, hop), kernel.refused)
    {
      if net in kernel.table {
        return true;
      }
      ok := kernel.Add(net, hop);
      if ok { added := added + [net]; }
    }

    method Cleanup(kernel: Kernel)
      modifies this, kernel
      ensures kernel.table == RemoveAll(old(kernel.table), old(added)) && added == []
    {
      while |added| > 0
        invariant RemoveAll(kernel.table, added) == RemoveAll(old(kernel.table), old(added))
        decreases |added|
      {
        var _ := kernel.Delete(added[|added| - 1]);
        added := added[..|added| - 1];
      }
    }
  }

  /** Looks up all hops first, then creates the device, pins, and steers. */
  method Start(cfg: HostConfig, kernel: Kernel, routes: RouteManager) returns (ok: bool)
    requires routes.added == []
    modifies kernel, routes
    ensures Installed(kernel.table, routes.added, ok) == Startup(cfg, old(kernel.table), kernel.refused)
  {
    var serverHop := None;
    if NeedsServerPin(cfg) {
      serverHop := Forward(kernel.table, cfg.server);
      if serverHop.None? {
        return false;
      }
    }
    var hops := LookUpExcluded(kernel.table, cfg.exclude);
    if cfg.tunNet !in kernel.table {
      kernel.table := kernel.table[cfg.tunNet := TunHop(cfg)];
    }
    if !cfg.autoRoute {
      return true;
    }
    if serverHop.Some? {
      ok := routes.PinDirect(kernel, HostNet(cfg.server), serverHop.value);
      if !ok {
        return false;
      }
    }
    PinExcluded(kernel, routes, hops);
    ok := Steer(kernel, routes, cfg.routes, cfg.tunName);
  }

  method LookUpExcluded(table: Table, nets: seq<Net>) returns (hops: seq<Pin>)
    ensures hops == ExcludeHops(table, nets)
  {
    hide Forward;
    hops := [];
    var left := nets;
    Units(ExcludeHops(table, nets));
    while |left| > 0
      invariant hops + ExcludeHops(table, left) == ExcludeHops(table, nets)
      decreases |left|
    {
      var hop := Forward(table, Network(left[0]));
      if hop.Some? {
        Assoc2(hops, [Pin(left[0], hop.value)], ExcludeHops(table, left[1..]));
        hops := hops + [Pin(left[0], hop.value)];
      }
      left := left[1..];
    }
    Units(hops);
  }

  method PinExcluded(kernel: Kernel, routes: RouteManager, hops: seq<Pin>)
    modifies kernel, routes
    ensures Installed(kernel.table, routes.added, true)
         == PinAll(Installed(old(kernel.table), old(routes.added), true), hops, kernel.refused)
  {
    var left := hops;
    while |left| > 0
      invariant PinAll(Installed(kernel.table, routes.added, true), left, kernel.refused)
             == PinAll(Installed(old(kernel.table), old(routes.added), true), hops, kernel.refused)
      decreases |left|
    {
      var _ := routes.PinDirect(kernel, left[0].net, left[0].hop);
      left := left[1..];
    }
  }

  method Steer(kernel: Kernel, routes: RouteManager, nets: seq<Net>, device: string) returns (ok: bool)
    modifies kernel, routes
    ensures Installed(kernel.table, routes.added, ok)
         == SteerAll(Installed(old(kernel.table), old(routes.added), true), nets, Hop(device, None), kernel.refused)
  {
    var left := nets;
    while |left| > 0
      invariant SteerAll(Installed(kernel.table, routes.added, true), left, Hop(device, None), kernel.refused)
             == SteerAll(Installed(old(kernel.table), old(routes.added), true), nets, Hop(device, None), kernel.refused)
      decreases |left|
    {
      ok := routes.AddToDev(kernel, left[0], device);
      if !ok {
        return false;
      }
      left := left[1..];
    }
    return true;
  }
}
