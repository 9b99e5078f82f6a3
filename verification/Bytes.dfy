/** Octets, big-endian lengths and chunked byte streams. */
module Bytes {

  newtype Byte = x: int | 0 <= x < 256
  type U16 = x: int | 0 <= x < 65536
  type U32 = x: int | 0 <= x < 0x1_0000_0000

  function BigEndian(n: U16): seq<Byte> {
    [(n / 256) as Byte, (n % 256) as Byte]
  }

  function FromBigEndian(b: seq<Byte>): U16
    requires |b| == 2
  {
    (b[0] as int) * 256 + b[1] as int
  }

  // Facts about sequences, stated once for elements of any type.

  lemma TailOfConcat<T>(a: seq<T>, b: seq<T>)
    requires |a| > 0
    ensures (a + b)[0] == a[0] && (a + b)[1..] == a[1..] + b
  {
  }

  lemma HeadAndTail<T>(a: seq<T>, x: T)
    ensures ([x] + a)[0] == x && ([x] + a)[1..] == a
  {
  }

  lemma Units<T>(a: seq<T>)
    ensures a + [] == a && [] + a == a
  {
  }

  lemma Assoc2<T>(a: seq<T>, b: seq<T>, c: seq<T>)
    ensures (a + b) + c == a + (b + c)
  {
  }

  lemma Assoc3<T>(a: seq<T>, b: seq<T>, c: seq<T>, d: seq<T>)
    ensures (a + (b + c)) + d == a + (b + (c + d))
  {
  }

  lemma Assoc4<T>(a: seq<T>, b: seq<T>, c: seq<T>, d: seq<T>, e: seq<T>)
    ensures (a + (b + (c + d))) + e == a + (b + (c + (d + e)))
  {
    Assoc3(b, c, d, e);
  }

  lemma AssocLeft4<T>(o: seq<T>, a: seq<T>, b: seq<T>, c: seq<T>)
    ensures ((o + a) + b) + c == o + (a + (b + c))
  {
    Assoc2(o, a, b);
    Assoc2(o, a + b, c);
    Assoc2(a, b, c);
  }

  lemma SplitTwice<T>(a: seq<T>, n: nat, limit: nat)
    requires n <= limit <= |a|
    ensures a[..limit][n..] == a[n..][..limit - n] && a[..limit][..n] == a[..n]
  {
  }

  /** The byte stream a list of chunks spells out. */
  function Flatten(chunks: seq<seq<Byte>>): seq<Byte> {
    if |chunks| == 0 then [] else chunks[0] + Flatten(chunks[1..])
  }

  lemma {:induction false} FlattenConcat(a: seq<seq<Byte>>, b: seq<seq<Byte>>)
    ensures Flatten(a + b) == Flatten(a) + Flatten(b)
  {
    if |a| == 0 {
      Units(b);
      Units(Flatten(b));
    } else {
      TailOfConcat(a, b);
      FlattenConcat(a[1..], b);
      Assoc2(a[0], Flatten(a[1..]), Flatten(b));
    }
  }

  lemma FlattenOne(c: seq<Byte>)
    ensures Flatten([c]) == c
  {
    HeadAndTail([], c);
    Units(c);
  }
}
