/**
 The kernel's forwarding table. Addresses are bit strings, most significant bit
 first, and a prefix is a bit string that addresses may start with; forwarding
 follows the longest one (section 5.1 of RFC 4632).
 */
module Routing {
  import opened Wrappers

  datatype Family = V4 | V6

  function Width(f: Family): nat { if f == V4 then 32 else 128 }

  datatype RawAddress = Address(family: Family, bits: seq<bool>)

  type Addr = a: RawAddress | |a.bits| == Width(a.family) witness Address(V4, seq(32, _ => false))

  datatype RawPrefix = Prefix(family: Family, bits: seq<bool>)

  type Net = p: RawPrefix | |p.bits| <= Width(p.family) witness Prefix(V4, [])

  datatype Hop = Hop(device: string, gateway: Option<RawAddress>)

  type Table = map<RawPrefix, Hop>

  predicate Contains(p: RawPrefix, a: Addr) {
    p.family == a.family && p.bits <= a.bits
  }

  function HostNet(a: Addr): Net {
    Prefix(a.family, a.bits)
  }

  /** The first address of a network. */
  function Network(p: Net): Addr {
    Address(p.family, p.bits + seq(Width(p.family) - |p.bits|, _ => false))
  }

  function Best(t: Table, a: Addr, n: nat): Option<RawPrefix>
    requires n <= |a.bits|
  {
    var p := Prefix(a.family, a.bits[..n]);
    if p in t then Some(p) else if n == 0 then None else Best(t, a, n - 1)
  }

  /** The longest prefix in the table that contains `a`. */
  function Match(t: Table, a: Addr): Option<RawPrefix> {
    Best(t, a, |a.bits|)
  }

  lemma {:induction false} BestFound(t: Table, a: Addr, n: nat)
    requires n <= |a.bits|
    ensures match Best(t, a, n)
      case Some(p) =>
        && p in t && Contains(p, a) && |p.bits| <= n
        && forall q :: q in t && Contains(q, a) && |q.bits| <= n ==> |q.bits| <= |p.bits|
      case None => forall q :: q in t && Contains(q, a) ==> |q.bits| > n
  {
    var p := Prefix(a.family, a.bits[..n]);
    if p !in t {
      forall q | q in t && Contains(q, a) && |q.bits| <= n
        ensures |q.bits| < n
      {
        assert q.bits == a.bits[..|q.bits|];
      }
      if n > 0 {
        BestFound(t, a, n - 1);
      }
    }
  }

  /** `p` is in the table, contains `a`, and no longer prefix in the table does. */
  predicate IsLongest(t: Table, a: Addr, p: RawPrefix) {
    p in t && Contains(p, a) && forall q :: q in t && Contains(q, a) ==> |q.bits| <= |p.bits|
  }

  predicate NoneContains(t: Table, a: Addr) {
    forall q :: q in t ==> !Contains(q, a)
  }

  lemma SameLengthSamePrefix(p: RawPrefix, q: RawPrefix, a: Addr)
    requires Contains(p, a) && Contains(q, a) && |p.bits| == |q.bits|
    ensures p == q
  {
    assert p.bits == a.bits[..|p.bits|] && q.bits == a.bits[..|q.bits|];
  }

  /** The search finds the longest match, and only that. */
  lemma MatchIsLongest(t: Table, a: Addr, p: RawPrefix)
    ensures Match(t, a) == Some(p) <==> IsLongest(t, a, p)
    ensures Match(t, a) == None <==> NoneContains(t, a)
  {
    BestFound(t, a, |a.bits|);
    if IsLongest(t, a, p) && Match(t, a).Some? {
      SameLengthSamePrefix(p, Match(t, a).value, a);
    }
  }

  function Forward(t: Table, a: Addr): Option<Hop>
  {
    MatchIsLongest(t, a, if Match(t, a).Some? then Match(t, a).value else HostNet(a));
    match Match(t, a)
    case Some(p) => Some(t[p])
    case None => None
  }

  lemma ForwardBy(t: Table, a: Addr, p: RawPrefix)
    requires IsLongest(t, a, p)
    ensures Forward(t, a) == Some(t[p])
  {
    MatchIsLongest(t, a, p);
  }

  /** Tables that agree on every prefix containing `a` forward it alike. */
  lemma ForwardAgrees(t: Table, u: Table, a: Addr)
    requires forall q :: Contains(q, a) ==> (q in t <==> q in u) && (q in t ==> t[q] == u[q])
    ensures Match(t, a) == Match(u, a) && Forward(t, a) == Forward(u, a)
  {
    match Match(t, a) {
      case Some(p) =>
        MatchIsLongest(t, a, p);
        assert IsLongest(u, a, p);
        MatchIsLongest(u, a, p);
      case None =>
        MatchIsLongest(t, a, HostNet(a));
        assert NoneContains(u, a);
        MatchIsLongest(u, a, HostNet(a));
    }
  }

  /** A host route decides alone. */
  lemma HostRouteDecides(t: Table, a: Addr)
    requires HostNet(a) in t
    ensures Match(t, a) == Some(HostNet(a)) && Forward(t, a) == Some(t[HostNet(a)])
  {
    assert IsLongest(t, a, HostNet(a));
    ForwardBy(t, a, HostNet(a));
    MatchIsLongest(t, a, HostNet(a));
  }

  /** A prefix contains the addresses of its family that start with it. */
  lemma ContainsIs(p: RawPrefix, a: Addr)
    ensures Contains(p, a) <==>
      && p.family == a.family && |p.bits| <= |a.bits| && forall i :: 0 <= i < |p.bits| ==> p.bits[i] == a.bits[i]
  {
  }

  /** The first address of a network is inside it and goes on with zeros. */
  lemma NetworkIs(p: Net)
    ensures var a := Network(p);
      && Contains(p, a) && |a.bits| == (if p.family == V4 then 32 else 128)
      && forall i :: |p.bits| <= i < |a.bits| ==> !a.bits[i]
  {
  }

  lemma NetworkOfHost(a: Addr)
    ensures Network(HostNet(a)) == a
  {
    assert a.bits + [] == a.bits;
  }

  lemma NetworkInside(p: Net)
    ensures Contains(p, Network(p))
  {
  }

  /** Two prefixes of the same address are nested. */
  lemma Nested(p: RawPrefix, q: RawPrefix, a: Addr)
    requires Contains(p, a) && Contains(q, a) && |p.bits| <= |q.bits|
    ensures p.bits <= q.bits
  {
    assert p.bits == a.bits[..|p.bits|] && q.bits == a.bits[..|q.bits|];
  }

  // ----- The table as programs change it -----

  /** Deletes in reverse order of installation. */
  function RemoveAll(t: Table, added: seq<RawPrefix>): Table
    decreases |added|
  {
    if |added| == 0 then t else RemoveAll(t - {added[|added| - 1]}, added[..|added| - 1])
  }

  lemma {:induction false} RemoveAllIsMinus(t: Table, added: seq<RawPrefix>)
    ensures RemoveAll(t, added) == t - (set p | p in added)
    decreases |added|
  {
    if |added| > 0 {
      var last, front := added[|added| - 1], added[..|added| - 1];
      RemoveAllIsMinus(t - {last}, front);
      assert added == front + [last];
      assert (set p | p in added) == (set p | p in front) + {last};
    }
  }

  /** Commands fail on prefixes the kernel refuses, besides failing the way `add` and `del` do. */
  class Kernel {
    var table: Table
    const refused: set<RawPrefix>

    constructor (table: Table, refused: set<RawPrefix>)
      ensures this.table == table && this.refused == refused
    {
      this.table, this.refused := table, refused;
    }

    method Add(net: RawPrefix, hop: Hop) returns (ok: bool)
      modifies this
      ensures ok <==> net !in old(table) && net !in refused
      ensures table == if ok then old(table)[net := hop] else old(table)
    {
      ok := net !in table && net !in refused;
      if ok { table := table[net := hop]; }
    }

    method Replace(net: RawPrefix, hop: Hop) returns (ok: bool)
      modifies this
      ensures ok <==> net !in refused
      ensures table == if ok then old(table)[net := hop] else old(table)
    {
      ok := net !in refused;
      if ok { table := table[net := hop]; }
    }

    method Delete(net: RawPrefix) returns (ok: bool)
      modifies this
      ensures ok <==> net in old(table)
      ensures table == old(table) - {net}
    {
      ok := net in table;
      table := table - {net};
    }
  }
}
