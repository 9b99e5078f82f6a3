/**
 UTF-8 as section 4 of RFC 3629 defines it, checked and repaired the way the
 Rust standard library does: `String::from_utf8` accepts exactly the valid
 sequences, `String::from_utf8_lossy` replaces each maximal ill-formed run.
 */
module Utf8 {
  import opened Bytes

  const REPLACEMENT: seq<Byte> := [0xEF, 0xBF, 0xBD]

  /** Length of the character a leading byte announces; 0 when it cannot lead. */
  function Announced(lead: Byte): nat {
    if lead < 0x80 then 1
    else if 0xC2 <= lead <= 0xDF then 2
    else if 0xE0 <= lead <= 0xEF then 3
    else if 0xF0 <= lead <= 0xF4 then 4
    else 0
  }

  predicate Continues(b: Byte) {
    0x80 <= b <= 0xBF
  }

  predicate SecondFits(lead: Byte, second: Byte) {
    if lead == 0xE0 then 0xA0 <= second <= 0xBF
    else if lead == 0xED then 0x80 <= second <= 0x9F
    else if lead == 0xF0 then 0x90 <= second <= 0xBF
    else if lead == 0xF4 then 0x80 <= second <= 0x8F
    else Continues(second)
  }

  /** How many bytes at the head of `b` agree with what the first one announces. */
  function Fitting(b: seq<Byte>): (n: nat)
    requires b != []
    ensures 1 <= n <= 4 && n <= |b|
  {
    var want := Announced(b[0]);
    if |b| == 1 || want <= 1 || !SecondFits(b[0], b[1]) then 1
    else if |b| == 2 || want == 2 || !Continues(b[2]) then 2
    else if |b| == 3 || want == 3 || !Continues(b[3]) then 3
    else 4
  }

  predicate StartsWithCharacter(b: seq<Byte>)
    requires b != []
  {
    Fitting(b) == Announced(b[0])
  }

  predicate Valid(b: seq<Byte>) {
    b == [] || (StartsWithCharacter(b) && Valid(b[Fitting(b)..]))
  }

  type Text = b: seq<Byte> | Valid(b)

  function Lossy(b: seq<Byte>): seq<Byte> {
    if b == [] then []
    else
      var n := Fitting(b);
      (if StartsWithCharacter(b) then b[..n] else REPLACEMENT) + Lossy(b[n..])
  }

  /** The last character boundary of `b` at or before `limit`. */
  function Cut(b: seq<Byte>, limit: nat): (k: nat)
    ensures k <= limit && k <= |b|
  {
    if b == [] || Fitting(b) > limit then 0
    else Fitting(b) + Cut(b[Fitting(b)..], limit - Fitting(b))
  }

  lemma HeadExtends(a: seq<Byte>, b: seq<Byte>)
    requires a != [] && StartsWithCharacter(a)
    ensures Fitting(a + b) == Fitting(a) && StartsWithCharacter(a + b)
  {
  }

  lemma {:induction false} ValidConcat(a: seq<Byte>, b: seq<Byte>)
    requires Valid(a)
    ensures Valid(a + b) <==> Valid(b)
  {
    if a == [] {
      assert a + b == b;
    } else {
      HeadExtends(a, b);
      var n := Fitting(a);
      assert (a + b)[n..] == a[n..] + b;
      ValidConcat(a[n..], b);
    }
  }

  lemma {:induction false} LossyOfValid(b: seq<Byte>)
    requires Valid(b)
    ensures Lossy(b) == b
  {
    if b != [] {
      LossyOfValid(b[Fitting(b)..]);
    }
  }

  /** A byte that cannot begin a character is replaced by itself. */
  lemma LossyOfStrayByte(x: Byte, rest: seq<Byte>)
    requires 0x80 <= x <= 0xC1 || x >= 0xF5
    ensures Lossy([x] + rest) == REPLACEMENT + Lossy(rest)
  {
    HeadAndTail(rest, x);
  }

  lemma {:induction false} LossyIsValid(b: seq<Byte>)
    ensures Valid(Lossy(b))
  {
    if b != [] {
      var n := Fitting(b);
      LossyIsValid(b[n..]);
      var head := if StartsWithCharacter(b) then b[..n] else REPLACEMENT;
      assert Valid(head) by {
        assert Fitting(head) == |head| && StartsWithCharacter(head);
        assert head[|head|..] == [];
      }
      ValidConcat(head, Lossy(b[n..]));
    }
  }

  /** A character cut short fits as far as it goes, and is ill-formed. */
  lemma HeadOfCut(b: seq<Byte>, limit: nat)
    requires b != [] && StartsWithCharacter(b) && 1 <= limit <= |b|
    ensures limit < Fitting(b) ==> Fitting(b[..limit]) == limit && !StartsWithCharacter(b[..limit])
    ensures Fitting(b) <= limit ==> Fitting(b[..limit]) == Fitting(b) && StartsWithCharacter(b[..limit])
  {
  }

  lemma OneCharacterIsValid(b: seq<Byte>)
    requires b != [] && StartsWithCharacter(b)
    ensures Valid(b[..Fitting(b)])
  {
    HeadOfCut(b, Fitting(b));
    assert b[..Fitting(b)][Fitting(b)..] == [];
  }

  lemma GlueHead(b: seq<Byte>, n: nat, k: nat, tail: seq<Byte>)
    requires n + k <= |b|
    ensures b[..n] + (b[n..][..k] + tail) == b[..n + k] + tail
  {
  }

  lemma OneCharacterMore(b: seq<Byte>, n: nat, k: nat)
    requires b != [] && StartsWithCharacter(b) && n == Fitting(b) && n + k <= |b| && Valid(b[n..][..k])
    ensures Valid(b[..n + k])
  {
    OneCharacterIsValid(b);
    ValidConcat(b[..n], b[n..][..k]);
    assert b[..n] + b[n..][..k] == b[..n + k];
  }

  lemma {:induction false} CutIsBoundary(b: seq<Byte>, limit: nat)
    requires Valid(b) && limit <= |b|
    ensures limit - Cut(b, limit) <= 3
    ensures Valid(b[..Cut(b, limit)])
  {
    if limit > 0 && Fitting(b) <= limit {
      CutIsBoundary(b[Fitting(b)..], limit - Fitting(b));
      OneCharacterMore(b, Fitting(b), Cut(b[Fitting(b)..], limit - Fitting(b)));
    }
  }

  lemma ValidPastHead(b: seq<Byte>, n: nat, limit: nat)
    requires b != [] && StartsWithCharacter(b) && n == Fitting(b) && n <= limit <= |b|
    ensures Valid(b[..limit]) <==> Valid(b[n..][..limit - n])
  {
    HeadOfCut(b, limit);
    SplitTwice(b, n, limit);
  }

  lemma {:induction false} ValidCutOnlyAtBoundary(b: seq<Byte>, limit: nat)
    requires Valid(b) && limit <= |b|
    ensures Valid(b[..limit]) <==> Cut(b, limit) == limit
  {
    if limit == 0 {
      assert b[..0] == [];
    } else if limit < Fitting(b) {
      HeadOfCut(b, limit);
    } else {
      ValidCutOnlyAtBoundary(b[Fitting(b)..], limit - Fitting(b));
      ValidPastHead(b, Fitting(b), limit);
    }
  }

  lemma LossyOfBrokenHead(b: seq<Byte>, limit: nat)
    requires b != [] && StartsWithCharacter(b) && 1 <= limit < Fitting(b)
    ensures Lossy(b[..limit]) == REPLACEMENT
  {
    HeadOfCut(b, limit);
    assert b[..limit][limit..] == [];
    assert REPLACEMENT + [] == REPLACEMENT;
  }

  lemma LossyOfWholeHead(b: seq<Byte>, limit: nat)
    requires b != [] && StartsWithCharacter(b) && Fitting(b) <= limit <= |b|
    ensures Lossy(b[..limit]) == b[..Fitting(b)] + Lossy(b[Fitting(b)..][..limit - Fitting(b)])
  {
    var n := Fitting(b);
    HeadOfCut(b, limit);
    SplitTwice(b, n, limit);
  }

  lemma LossyOfCutPastHead(b: seq<Byte>, limit: nat, n: nat)
    requires b != [] && StartsWithCharacter(b) && n == Fitting(b) <= limit <= |b|
    requires var k := Cut(b[n..], limit - n);
      Lossy(b[n..][..limit - n]) == b[n..][..k] + (if k < limit - n then REPLACEMENT else [])
    ensures Lossy(b[..limit]) == b[..Cut(b, limit)] + (if Cut(b, limit) < limit then REPLACEMENT else [])
  {
    var k := Cut(b[n..], limit - n);
    assert Cut(b, limit) == n + k;
    LossyOfWholeHead(b, limit);
    GlueHead(b, n, k, if k < limit - n then REPLACEMENT else []);
  }

  /**
   Cutting a valid text anywhere loses at most one character: the pieces before
   the last boundary survive, and a split character becomes one replacement.
   */
  lemma {:induction false} LossyOfCutText(b: seq<Byte>, limit: nat)
    requires Valid(b) && limit <= |b|
    ensures Lossy(b[..limit]) == b[..Cut(b, limit)] + (if Cut(b, limit) < limit then REPLACEMENT else [])
  {
    if limit == 0 {
      assert b[..0] == [];
    } else if Fitting(b) > limit {
      LossyOfBrokenHead(b, limit);
    } else {
      LossyOfCutText(b[Fitting(b)..], limit - Fitting(b));
      LossyOfCutPastHead(b, limit, Fitting(b));
    }
  }

  /** A byte that cannot continue a character is not inside one. */
  lemma NotInside(b: seq<Byte>, p: nat)
    requires 0 < p < |b| && StartsWithCharacter(b) && b[p] == 0xEF
    ensures Fitting(b) <= p
  {
  }

  /** A replacement character at the end of a valid text is a character of its own. */
  lemma {:induction false} CutBeforeFinalReplacement(a: seq<Byte>, limit: nat)
    requires Valid(a + REPLACEMENT) && |a| < limit < |a| + 3
    ensures Cut(a + REPLACEMENT, limit) == |a|
  {
    var b := a + REPLACEMENT;
    if a == [] {
      assert b == REPLACEMENT;
      assert Fitting(b) == 3;
    } else {
      NotInside(b, |a|);
      var n := Fitting(b);
      assert b[n..] == a[n..] + REPLACEMENT;
      CutBeforeFinalReplacement(a[n..], limit - n);
    }
  }

  // ----- What the tables amount to: the encoding of section 3 of RFC 3629 -----

  /** A Unicode scalar value: any code point that is no surrogate. */
  type Scalar = c: int | 0 <= c < 0xD800 || 0xE000 <= c < 0x11_0000

  /** Six bits of a scalar value, in the form they continue a character with. */
  function Sextet(bits: int): Byte {
    (0x80 + bits % 64) as Byte
  }

  function EncodeScalar(c: Scalar): (b: seq<Byte>)
    ensures 1 <= |b| <= 4
  {
    if c < 0x80 then [c as Byte]
    else if c < 0x800 then [(0xC0 + c / 64) as Byte, Sextet(c)]
    else if c < 0x1_0000 then [(0xE0 + c / 4096) as Byte, Sextet(c / 64), Sextet(c)]
    else [(0xF0 + c / 0x4_0000) as Byte, Sextet(c / 4096), Sextet(c / 64), Sextet(c)]
  }

  function EncodeAll(cs: seq<Scalar>): seq<Byte> {
    if |cs| == 0 then [] else EncodeScalar(cs[0]) + EncodeAll(cs[1..])
  }

  lemma ScalarIsCharacter(c: Scalar)
    ensures var b := EncodeScalar(c); StartsWithCharacter(b) && Fitting(b) == |b|
  {
    if c < 0x800 {
      ShortScalar(c);
    } else if c < 0x1_0000 {
      ThreeByteScalar(c);
    } else {
      FourByteScalar(c);
    }
  }

  lemma ShortScalar(c: Scalar)
    requires c < 0x800
    ensures var b := EncodeScalar(c); StartsWithCharacter(b) && Fitting(b) == |b|
  {
  }

  lemma ThreeByteScalar(c: Scalar)
    requires 0x800 <= c < 0x1_0000
    ensures var b := EncodeScalar(c); StartsWithCharacter(b) && Fitting(b) == |b|
  {
    var b := EncodeScalar(c);
    assert Continues(b[2]);
    assert SecondFits(b[0], b[1]);
  }

  lemma FourByteScalar(c: Scalar)
    requires 0x1_0000 <= c
    ensures var b := EncodeScalar(c); StartsWithCharacter(b) && Fitting(b) == |b|
  {
    var b := EncodeScalar(c);
    assert Continues(b[2]) && Continues(b[3]);
    assert SecondFits(b[0], b[1]);
  }

  /** Six bits back from a byte that continues a character. */
  function Low(b: Byte): (bits: int)
    ensures 0 <= bits < 64
    ensures Continues(b) ==> Sextet(bits) == b && bits == b as int - 0x80
  {
    b as int % 64
  }

  lemma Sextets(high: int, mid: int, low: int)
    requires 0 <= mid < 64 && 0 <= low < 64
    ensures var c := high * 4096 + mid * 64 + low; c / 4096 == high && c / 64 == high * 64 + mid && c % 64 == low
    ensures (high * 64 + mid) % 64 == mid
  {
  }

  lemma TwoBytes(b: seq<Byte>) returns (c: Scalar)
    requires |b| == 2 && 0xC2 <= b[0] <= 0xDF && Continues(b[1])
    ensures b == EncodeScalar(c)
  {
    c := (b[0] as int - 0xC0) * 64 + Low(b[1]);
    Sextets(0, b[0] as int - 0xC0, Low(b[1]));
  }

  lemma ThreeBytes(b: seq<Byte>) returns (c: Scalar)
    requires |b| == 3 && 0xE0 <= b[0] <= 0xEF && SecondFits(b[0], b[1]) && Continues(b[2])
    ensures b == EncodeScalar(c)
  {
    var high, mid, low := b[0] as int - 0xE0, Low(b[1]), Low(b[2]);
    c := high * 4096 + mid * 64 + low;
    Sextets(high, mid, low);
  }

  lemma FourBytes(b: seq<Byte>) returns (c: Scalar)
    requires |b| == 4 && 0xF0 <= b[0] <= 0xF4 && SecondFits(b[0], b[1]) && Continues(b[2]) && Continues(b[3])
    ensures b == EncodeScalar(c)
  {
    var top, high, mid, low := b[0] as int - 0xF0, Low(b[1]), Low(b[2]), Low(b[3]);
    var upper := top * 64 + high;
    c := upper * 4096 + mid * 64 + low;
    Sextets(upper, mid, low);
    Sextets(0, top, high);
    assert c / 0x4_0000 == top;
  }

  lemma CharacterIsScalar(b: seq<Byte>) returns (c: Scalar)
    requires b != [] && StartsWithCharacter(b)
    ensures b[..Fitting(b)] == EncodeScalar(c)
  {
    hide EncodeScalar;
    match Fitting(b)
    case 1 => c := OneByte(b[..1]);
    case 2 => c := TwoBytes(b[..2]);
    case 3 => c := ThreeBytes(b[..3]);
    case _ => c := FourBytes(b[..4]);
  }

  lemma OneByte(b: seq<Byte>) returns (c: Scalar)
    requires |b| == 1 && b[0] < 0x80
    ensures b == EncodeScalar(c)
  {
    c := b[0] as int;
  }

  lemma {:induction false} EncodedIsValid(cs: seq<Scalar>)
    ensures Valid(EncodeAll(cs))
  {
    if |cs| > 0 {
      EncodedIsValid(cs[1..]);
      ScalarIsCharacter(cs[0]);
      var head := EncodeScalar(cs[0]);
      assert head[|head|..] == [];
      ValidConcat(head, EncodeAll(cs[1..]));
    }
  }

  lemma {:induction false} ValidIsEncoded(b: seq<Byte>) returns (cs: seq<Scalar>)
    requires Valid(b)
    ensures EncodeAll(cs) == b
  {
    if b == [] {
      cs := [];
    } else {
      var n := Fitting(b);
      var c := CharacterIsScalar(b);
      var rest := ValidIsEncoded(b[n..]);
      cs := [c] + rest;
      HeadAndTail(rest, c);
      assert b[..n] + b[n..] == b;
    }
  }

  /** The byte tables accept exactly the encodings of sequences of Unicode scalar values. */
  lemma ValidIffScalars(b: seq<Byte>)
    ensures Valid(b) <==> exists cs: seq<Scalar> :: EncodeAll(cs) == b
    ensures REPLACEMENT == EncodeScalar(0xFFFD)
  {
    if Valid(b) {
      var cs := ValidIsEncoded(b);
    }
    if cs: seq<Scalar> :| EncodeAll(cs) == b {
      EncodedIsValid(cs);
    }
  }
}
