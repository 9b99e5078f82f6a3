/** Routes of the proxy client: added one by one, all taken back on exit or failure. */
module ClientRoutes {
  import opened Bytes
  import opened Wrappers
  import opened Routing

  datatype Installed = Installed(table: Table, added: seq<RawPrefix>, ok: bool)

  /** `add` stops at the first prefix that is already there or refused. */
  function AddAll(t: Table, added: seq<RawPrefix>, nets: seq<RawPrefix>, hop: Hop, refused: set<RawPrefix>): Installed
    decreases |nets|
  {
    if |nets| == 0 then Installed(t, added, true)
    else if nets[0] in t || nets[0] in refused then Installed(t, added, false)
    else AddAll(t[nets[0] := hop], added + [nets[0]], nets[1..], hop, refused)
  }

  /** The current table is the initial one plus what was added, and nothing of the initial one was touched. */
  ghost predicate Extends(initial: Table, added: seq<RawPrefix>, hop: Hop, t: Table) {
    && (forall p :: p in t <==> p in initial || p in added)
    && (forall p :: p in initial ==> p !in added && t[p] == initial[p])
    && (forall p :: p in added ==> t[p] == hop)
    && (forall i, j :: 0 <= i < j < |added| ==> added[i] != added[j])
  }

  lemma {:induction false} AddAllExtends(
    initial: Table, t: Table, added: seq<RawPrefix>, nets: seq<RawPrefix>, hop: Hop, refused: set<RawPrefix>)
    requires Extends(initial, added, hop, t)
    ensures var r := AddAll(t, added, nets, hop, refused);
      && Extends(initial, r.added, hop, r.table)
      && added <= r.added
      && (forall p :: p in r.added ==> p in added || p in nets)
      && (r.ok ==> forall p :: p in nets ==> p in r.added)
    decreases |nets|
  {
    if |nets| > 0 && nets[0] !in t && nets[0] !in refused {
      var more := added + [nets[0]];
      assert Extends(initial, more, hop, t[nets[0] := hop]);
      AddAllExtends(initial, t[nets[0] := hop], more, nets[1..], hop, refused);
    }
  }

  /** What any number of added routes leave: the old ones untouched, the new ones through the device, each once. */
  lemma WhatInstallingLeaves(initial: Table, nets: seq<RawPrefix>, hop: Hop, refused: set<RawPrefix>)
    ensures var r := AddAll(initial, [], nets, hop, refused);
      && (forall p :: p in r.table <==> p in initial || p in r.added)
      && (forall p :: p in initial ==> p !in r.added && r.table[p] == initial[p])
      && (forall p :: p in r.added ==> p in nets && p !in refused && r.table[p] == hop)
      && (forall i, j :: 0 <= i < j < |r.added| ==> r.added[i] != r.added[j])
      && r.added <= nets && (r.ok <==> r.added == nets)
  {
    AddAllExtends(initial, initial, [], nets, hop, refused);
    AddsInOrder(initial, [], nets, hop, refused);
    Units(nets);
  }

  lemma {:induction false} AddsInOrder(
    t: Table, added: seq<RawPrefix>, nets: seq<RawPrefix>, hop: Hop, refused: set<RawPrefix>)
    ensures var r := AddAll(t, added, nets, hop, refused);
      && added <= r.added && r.added <= added + nets
      && (r.ok <==> r.added == added + nets)
      && (forall i :: |added| <= i < |r.added| ==> r.added[i] !in refused)
    decreases |nets|
  {
    Units(added);
    if |nets| > 0 && nets[0] !in t && nets[0] !in refused {
      var more := added + [nets[0]];
      AddsInOrder(t[nets[0] := hop], more, nets[1..], hop, refused);
      Assoc2(added, [nets[0]], nets[1..]);
      assert [nets[0]] + nets[1..] == nets;
      var r := AddAll(t, added, nets, hop, refused);
      assert r.added[|added|] == nets[0];
    }
  }

  /** Installing succeeds exactly when the prefixes are new, distinct and accepted. */
  lemma {:induction false} AddAllSucceeds(
    t: Table, added: seq<RawPrefix>, nets: seq<RawPrefix>, hop: Hop, refused: set<RawPrefix>)
    ensures AddAll(t, added, nets, hop, refused).ok <==>
      && (forall i :: 0 <= i < |nets| ==> nets[i] !in t && nets[i] !in refused)
      && (forall i, j :: 0 <= i < j < |nets| ==> nets[i] != nets[j])
    decreases |nets|
  {
    if |nets| > 0 {
      var rest := nets[1..];
      assert forall i :: 0 < i < |nets| ==> nets[i] == rest[i - 1];
      if nets[0] !in t && nets[0] !in refused {
        AddAllSucceeds(t[nets[0] := hop], added + [nets[0]], rest, hop, refused);
        assert forall i :: 0 <= i < |rest| ==> rest[i] == nets[i + 1];
      }
    }
  }

  /** For every table and route list, failures midway included, taking back what was added restores the table. */
  lemma CleanupRestores(initial: Table, nets: seq<RawPrefix>, hop: Hop, refused: set<RawPrefix>)
    ensures var r := AddAll(initial, [], nets, hop, refused); RemoveAll(r.table, r.added) == initial
  {
    var r := AddAll(initial, [], nets, hop, refused);
    AddAllExtends(initial, initial, [], nets, hop, refused);
    RemoveAllIsMinus(r.table, r.added);
  }

  /** At every moment an address outside the routes keeps its hop. */
  lemma OutsideUnaffected(initial: Table, nets: seq<RawPrefix>, hop: Hop, refused: set<RawPrefix>, a: Addr)
    requires forall p :: p in nets ==> !Contains(p, a)
    ensures var r := AddAll(initial, [], nets, hop, refused); Forward(r.table, a) == Forward(initial, a)
  {
    var r := AddAll(initial, [], nets, hop, refused);
    AddAllExtends(initial, initial, [], nets, hop, refused);
    ForwardAgrees(r.table, initial, a);
  }

  datatype ClientConfig = ClientConfig(
    quicEnabled: bool, grpcEnabled: bool,
    server: Addr, quicServer: Option<Addr>, grpcServer: Option<Addr>,
    routes: seq<RawPrefix>)

  function EnabledServers(cfg: ClientConfig): seq<Addr> {
    (if cfg.quicEnabled then [if cfg.quicServer.Some? then cfg.quicServer.value else cfg.server] else [])
    + (if cfg.grpcEnabled then [if cfg.grpcServer.Some? then cfg.grpcServer.value else cfg.server] else [])
  }

  /** The part of validation that concerns addresses. */
  predicate ValidRoutes(cfg: ClientConfig) {
    && (cfg.quicEnabled || cfg.grpcEnabled)
    && |cfg.routes| > 0
    && (forall p :: p in cfg.routes ==> p.family == V4)
    && (forall s :: s in EnabledServers(cfg) ==> forall p :: p in cfg.routes ==> !Contains(p, s))
  }

  /** A server in use is one of an enabled transport: its own if it has one, the common one otherwise. */
  lemma EnabledServersAre(cfg: ClientConfig, s: Addr)
    ensures s in EnabledServers(cfg) <==>
      || (cfg.quicEnabled && cfg.quicServer.Some? && s == cfg.quicServer.value)
      || (cfg.quicEnabled && cfg.quicServer.None? && s == cfg.server)
      || (cfg.grpcEnabled && cfg.grpcServer.Some? && s == cfg.grpcServer.value)
      || (cfg.grpcEnabled && cfg.grpcServer.None? && s == cfg.server)
  {
  }

  /**
   Validation refuses a configuration exactly when nothing is enabled or routed, a
   route is IPv6, or a server in use is inside a route.
   */
  lemma ValidRoutesIff(cfg: ClientConfig)
    ensures !ValidRoutes(cfg) <==>
      || (!cfg.quicEnabled && !cfg.grpcEnabled)
      || cfg.routes == []
      || (exists p :: p in cfg.routes && p.family == V6)
      || (exists p, s :: p in cfg.routes && s in EnabledServers(cfg) && Contains(p, s))
  {
  }

  /**
   A validated client never captures its own tunnel: after the first `k` routes of
   the start-up, and after taking back all but `j` of those added, every server
   it may dial keeps its hop.
   */
  lemma TunnelNotCaptured(
    cfg: ClientConfig, initial: Table, device: string, refused: set<RawPrefix>, k: nat, j: nat, s: Addr)
    requires ValidRoutes(cfg) && s in EnabledServers(cfg) && k <= |cfg.routes|
    requires j <= |AddAll(initial, [], cfg.routes[..k], Hop(device, None), refused).added|
    ensures var r := AddAll(initial, [], cfg.routes[..k], Hop(device, None), refused);
      Forward(r.table, s) == Forward(initial, s) == Forward(RemoveAll(r.table, r.added[j..]), s)
  {
    var hop := Hop(device, None);
    var r := AddAll(initial, [], cfg.routes[..k], hop, refused);
    OutsideUnaffected(initial, cfg.routes[..k], hop, refused, s);
    AddAllExtends(initial, initial, [], cfg.routes[..k], hop, refused);
    RemoveAllIsMinus(r.table, r.added[j..]);
    ForwardAgrees(RemoveAll(r.table, r.added[j..]), initial, s);
  }

  class RouteManager {
    const device: string
    var added: seq<RawPrefix>

    constructor (device: string)
      ensures this.device == device && added == []
    {
      this.device, added := device, [];
    }

    method Add(kernel: Kernel, net: RawPrefix) returns (ok: bool)
      modifies this, kernel
      ensures ok <==> net !in old(kernel.table) && net !in kernel.refused
      ensures ok ==> kernel.table == old(kernel.table)[net := Hop(device, None)] && added == old(added) + [net]
      ensures !ok ==> kernel.table == old(kernel.table) && added == old(added)
    {
      ok := kernel.Add(net, Hop(device, None));
      if ok { added := added + [net]; }
    }

    method Cleanup(kernel: Kernel)
      modifies this, kernel
      ensures kernel.table == RemoveAll(old(kernel.table), old(added)) && added == []
    {
      while |added| > 0
        invariant RemoveAll(kernel.table, added) == RemoveAll(old(kernel.table), old(added))
        decreases |added|
      {
        var _ := kernel.Delete(added[|added| - 1]);
        added := added[..|added| - 1];
      }
    }

    /** Start-up: all routes in order, stopping at the first failure. */
    method Install(kernel: Kernel, nets: seq<RawPrefix>) returns (ok: bool)
      requires added == []
      modifies this, kernel
      ensures Installed(kernel.table, added, ok)
           == AddAll(old(kernel.table), [], nets, Hop(device, None), kernel.refused)
    {
      var left := nets;
      while |left| > 0
        invariant AddAll(kernel.table, added, left, Hop(device, None), kernel.refused)
               == AddAll(old(kernel.table), [], nets, Hop(device, None), kernel.refused)
        decreases |left|
      {
        ok := Add(kernel, left[0]);
        if !ok { return false; }
        left := left[1..];
      }
      return true;
    }
  }

  /** A whole life of the client, whether start-up succeeds or not, leaves the table as it was. */
  method RunClient(kernel: Kernel, device: string, nets: seq<RawPrefix>) returns (ok: bool)
    modifies kernel
    ensures kernel.table == old(kernel.table)
  {
    var routes := new RouteManager(device);
    ok := routes.Install(kernel, nets);
    CleanupRestores(old(kernel.table), nets, Hop(device, None), kernel.refused);
    routes.Cleanup(kernel);
  }
}
