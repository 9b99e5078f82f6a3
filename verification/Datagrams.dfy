/** Length-prefixed datagrams inside a byte stream, and what a cut stream still yields. */
module Datagrams {
  import opened Bytes
  import opened Wire

  const MAX_DATAGRAM := 65535

  type Datagram = seq<Byte>

  /** The length goes out as sixteen bits; the writer refuses what they cannot hold. */
  function Frame(d: Datagram): seq<Byte> {
    BigEndian(|d| % 65536) + d
  }

  predicate Fits(ds: seq<Datagram>) {
    forall i :: 0 <= i < |ds| ==> |ds[i]| <= MAX_DATAGRAM
  }

  function FrameAll(ds: seq<Datagram>): seq<Byte> {
    if |ds| == 0 then [] else Frame(ds[0]) + FrameAll(ds[1..])
  }

  function TakeDatagram(b: seq<Byte>): (p: Parse<Datagram>)
    ensures p.Done? ==> |p.value| <= MAX_DATAGRAM && b == Frame(p.value) + p.rest
    ensures !p.Malformed?
  {
    var (len, body) :- TakeU16(b);
    Take(body, len)
  }

  /** Every datagram a reader obtains from `b` before running out of bytes. */
  function Unframe(b: seq<Byte>): (ds: seq<Datagram>)
    ensures Fits(ds)
  {
    match TakeDatagram(b)
    case Done(d, rest) => [d] + Unframe(rest)
    case _ => []
  }

  /** How many of the frames of `ds` lie wholly within the first `n` bytes. */
  function Complete(ds: seq<Datagram>, n: nat): (k: nat)
    ensures k <= |ds|
  {
    if |ds| == 0 || |Frame(ds[0])| > n then 0 else 1 + Complete(ds[1..], n - |Frame(ds[0])|)
  }

  lemma TakeFrame(d: Datagram, rest: seq<Byte>)
    requires |d| <= MAX_DATAGRAM
    ensures TakeDatagram(Frame(d) + rest) == Done(d, rest)
  {
    Assoc2(BigEndian(|d|), d, rest);
    TakeU16Concat(|d|, d + rest);
    TakeConcat(d, rest);
  }

  lemma TakePartOfFrame(d: Datagram, p: seq<Byte>)
    requires |d| <= MAX_DATAGRAM && p < Frame(d)
    ensures TakeDatagram(p) == Truncated
  {
    var f := Frame(d);
    var q := f[|p|..];
    assert p + q == f && f + [] == f;
    TakeFrame(d, []);
    if TakeDatagram(p).Done? {
      var got := TakeDatagram(p);
      TakeFrame(got.value, got.rest + q);
      Assoc2(Frame(got.value), got.rest, q);
    }
  }

  lemma {:induction false} FrameAllConcat(a: seq<Datagram>, b: seq<Datagram>)
    ensures FrameAll(a + b) == FrameAll(a) + FrameAll(b)
  {
    if |a| == 0 {
      Units(b);
      Units(FrameAll(b));
    } else {
      TailOfConcat(a, b);
      FrameAllConcat(a[1..], b);
      Assoc2(Frame(a[0]), FrameAll(a[1..]), FrameAll(b));
    }
  }

  lemma PrefixOfCons<T>(ds: seq<T>, k: nat)
    requires |ds| > 0 && k < |ds|
    ensures ds[..1 + k] == [ds[0]] + ds[1..][..k]
  {
  }

  lemma CutOfConcat<T>(head: seq<T>, rest: seq<T>, p: seq<T>)
    requires p <= head + rest
    ensures if |head| <= |p| then p == head + p[|head|..] && p[|head|..] <= rest else p < head
  {
  }

  /**
   A framed stream cut anywhere yields exactly the frames that are complete:
   none partial, none merged, none out of order.
   */
  lemma {:induction false} CutStreamYieldsCompleteFrames(ds: seq<Datagram>, p: seq<Byte>)
    requires Fits(ds) && p <= FrameAll(ds)
    ensures Unframe(p) == ds[..Complete(ds, |p|)]
  {
    if |ds| > 0 {
      var f := Frame(ds[0]);
      CutOfConcat(f, FrameAll(ds[1..]), p);
      if |f| <= |p| {
        var p' := p[|f|..];
        TakeFrame(ds[0], p');
        CutStreamYieldsCompleteFrames(ds[1..], p');
        PrefixOfCons(ds, Complete(ds[1..], |p'|));
      } else {
        TakePartOfFrame(ds[0], p);
      }
    }
  }

  lemma {:induction false} AllCompleteAtTheEnd(ds: seq<Datagram>)
    ensures Complete(ds, |FrameAll(ds)|) == |ds|
  {
    if |ds| > 0 {
      AllCompleteAtTheEnd(ds[1..]);
    }
  }

  /** A stream that ends cleanly gives back the very datagrams that went in. */
  lemma UnframeFrameAll(ds: seq<Datagram>)
    requires Fits(ds)
    ensures Unframe(FrameAll(ds)) == ds
  {
    CutStreamYieldsCompleteFrames(ds, FrameAll(ds));
    AllCompleteAtTheEnd(ds);
    assert ds[..|ds|] == ds;
  }

  lemma PrefixPastHead<T>(b: seq<T>, head: seq<T>, rest: seq<T>, more: seq<T>)
    requires b == head + rest && more <= rest
    ensures head + more <= b && b[|head + more|..] == rest[|more|..]
  {
  }

  /** Conversely, reading loses only an incomplete tail: no bytes are invented or skipped. */
  lemma {:induction false} UnframeAccountsForEveryByte(b: seq<Byte>)
    ensures FrameAll(Unframe(b)) <= b
    ensures TakeDatagram(b[|FrameAll(Unframe(b))|..]) == Truncated
  {
    var p := TakeDatagram(b);
    if p.Done? {
      UnframeAccountsForEveryByte(p.rest);
      var ds := Unframe(p.rest);
      HeadAndTail(ds, p.value);
      assert FrameAll([p.value] + ds) == Frame(p.value) + FrameAll(ds);
      PrefixPastHead(b, Frame(p.value), p.rest, FrameAll(ds));
    } else {
      assert b[0..] == b;
    }
  }

  // ----- The local side of a flow -----

  /** The local reads an upload loop forwards: a zero-length read ends it. */
  function UntilEmpty(inputs: seq<Datagram>): (sent: seq<Datagram>)
    ensures sent <= inputs
  {
    if |inputs| == 0 || |inputs[0]| == 0 then [] else [inputs[0]] + UntilEmpty(inputs[1..])
  }

  /** What a local stream sees of a list of writes: writing nothing is invisible. */
  function NonEmpty(ds: seq<Datagram>): seq<Datagram> {
    if |ds| == 0 then []
    else (if |ds[0]| == 0 then [] else [ds[0]]) + NonEmpty(ds[1..])
  }

  lemma {:induction false} UntilEmptyIsNonEmpty(inputs: seq<Datagram>)
    ensures NonEmpty(UntilEmpty(inputs)) == UntilEmpty(inputs)
  {
    if |inputs| > 0 && |inputs[0]| > 0 {
      UntilEmptyIsNonEmpty(inputs[1..]);
      HeadAndTail(UntilEmpty(inputs[1..]), inputs[0]);
    }
  }

  lemma {:induction false} NonEmptyConcat(a: seq<Datagram>, b: seq<Datagram>)
    ensures NonEmpty(a + b) == NonEmpty(a) + NonEmpty(b)
  {
    if |a| == 0 {
      Units(b);
      Units(NonEmpty(b));
    } else {
      TailOfConcat(a, b);
      NonEmptyConcat(a[1..], b);
      Assoc2(if |a[0]| == 0 then [] else [a[0]], NonEmpty(a[1..]), NonEmpty(b));
    }
  }

  // ----- What these functions are, without naming how they go about it -----

  /** LEN(2, big endian) PAYLOAD(LEN), for every payload sixteen bits can count. */
  lemma FrameLayout(d: Datagram)
    requires |d| <= 65535
    ensures |Frame(d)| == 2 + |d| && NumberAt(Frame(d), 0, |d|) && Frame(d)[2..] == d
  {
  }

  /** `k` counts the frames within the first `n` bytes: those before the k-th fit, and it does not, if there is one. */
  lemma {:induction false} CompleteIs(ds: seq<Datagram>, n: nat)
    ensures var k := Complete(ds, n);
      |FrameAll(ds[..k])| <= n && (k < |ds| ==> |FrameAll(ds[..k + 1])| > n)
  {
    if |ds| > 0 {
      var f := Frame(ds[0]);
      HeadAndTail([], ds[0]);
      Units(f);
      assert ds[..1] == [ds[0]];
      if |f| <= n {
        var k := Complete(ds[1..], n - |f|);
        CompleteIs(ds[1..], n - |f|);
        CountsOneMore(ds, k);
        if k + 1 < |ds| {
          CountsOneMore(ds, k + 1);
        }
      }
    }
  }

  lemma CountsOneMore(ds: seq<Datagram>, k: nat)
    requires |ds| > 0 && k < |ds|
    ensures |FrameAll(ds[..1 + k])| == |Frame(ds[0])| + |FrameAll(ds[1..][..k])|
  {
    PrefixOfCons(ds, k);
    HeadAndTail(ds[1..][..k], ds[0]);
  }

  /** The reads before the first empty one, and all of them if there is none. */
  lemma {:induction false} UntilEmptyIs(inputs: seq<Datagram>)
    ensures var sent := UntilEmpty(inputs);
      && sent <= inputs
      && (forall i :: 0 <= i < |sent| ==> |inputs[i]| > 0)
      && (|sent| < |inputs| ==> |inputs[|sent|]| == 0)
  {
    if |inputs| > 0 && |inputs[0]| > 0 {
      var rest := UntilEmpty(inputs[1..]);
      UntilEmptyIs(inputs[1..]);
      var sent := [inputs[0]] + rest;
      forall i | 0 <= i < |sent| ensures |inputs[i]| > 0 {
        if i > 0 { assert inputs[i] == inputs[1..][i - 1]; }
      }
    }
  }

  /** Only a write of no bytes at all is invisible, and order is kept. */
  lemma NonEmptyIs(ds: seq<Datagram>, d: Datagram)
    ensures NonEmpty([]) == []
    ensures NonEmpty(ds + [d]) == if |d| == 0 then NonEmpty(ds) else NonEmpty(ds) + [d]
  {
    NonEmptyConcat(ds, [d]);
    HeadAndTail([], d);
    Units(NonEmpty(ds));
    Units([d]);
  }
}
