/**
 * The bitwise CRC-32 that protects queued events.
 *
 * A 32-bit register is a natural number below 2^32; `>> 1`, `& 1` and `~` are
 * division, remainder and complement, and `Xor` is bitwise exclusive or.
 */
module Crc {
  import opened Bytes

  const POLY: u32 := 0xEDB88320
  const BITS: nat := 8

  function Xor(a: nat, b: nat): nat
    decreases a + b
  {
    if a == 0 && b == 0 then 0
    else (if a % 2 != b % 2 then 1 else 0) + 2 * Xor(a / 2, b / 2)
  }

  function Pow2(k: nat): (p: nat)
    ensures p >= 1
  {
    if k == 0 then 1 else 2 * Pow2(k - 1)
  }

  lemma {:induction false} XorBound(a: nat, b: nat, k: nat)
    requires a < Pow2(k) && b < Pow2(k)
    ensures Xor(a, b) < Pow2(k)
  {
    if k > 0 {
      XorBound(a / 2, b / 2, k - 1);
    }
  }

  lemma XorBound32(a: u32, b: u32)
    ensures Xor(a, b) < 0x1_0000_0000
  {
    Pow2At32();
    XorBound(a, b, 32);
  }

  lemma Pow2At32()
    ensures Pow2(8) == 0x100 && Pow2(16) == 0x1_0000 && Pow2(24) == 0x100_0000
    ensures Pow2(31) == 0x8000_0000 && Pow2(32) == 0x1_0000_0000
  {
    assert Pow2(4) == 16;
    assert Pow2(8) == 256;
    assert Pow2(12) == 4096;
    assert Pow2(16) == 0x1_0000;
    assert Pow2(20) == 0x10_0000;
    assert Pow2(24) == 0x100_0000;
    assert Pow2(28) == 0x1000_0000;
    assert Pow2(31) == 0x8000_0000;
  }

  function Xor32(a: u32, b: u32): u32 {
    XorBound32(a, b);
    Xor(a, b)
  }

  /** One iteration of the inner loop: shift right, subtracting the polynomial. */
  function Round(c: u32): (r: u32)
    ensures c % 2 == 0 ==> r == c / 2
  {
    XorZero(c / 2);
    Xor32(c / 2, if c % 2 == 1 then POLY else 0)
  }

  function Rounds(c: u32, k: nat): u32
    decreases k
  {
    if k == 0 then c else Rounds(Round(c), k - 1)
  }

  /** One iteration of the outer loop. */
  function Absorb(c: u32, b: byte): u32 {
    Rounds(Xor32(c, b), BITS)
  }

  function Feed(c: u32, data: seq<byte>): u32
    decreases |data|
  {
    if data == [] then c else Feed(Absorb(c, data[0]), data[1..])
  }

  function Checksum(data: seq<byte>): u32 {
    0xFFFF_FFFF - Feed(0xFFFF_FFFF, data)
  }

  lemma {:induction false} FeedAppend(c: u32, data: seq<byte>, b: byte)
    ensures Feed(c, data + [b]) == Absorb(Feed(c, data), b)
    decreases |data|
  {
    if data == [] {
      assert Feed(Absorb(c, b), []) == Absorb(c, b);
      assert ([b])[1..] == [];
    } else {
      assert (data + [b])[1..] == data[1..] + [b];
      FeedAppend(Absorb(c, data[0]), data[1..], b);
    }
  }

  lemma FeedNext(data: seq<byte>, i: nat)
    requires i < |data|
    ensures Feed(0xFFFF_FFFF, data[..i + 1]) == Absorb(Feed(0xFFFF_FFFF, data[..i]), data[i])
  {
    assert data[..i + 1] == data[..i] + [data[i]];
    FeedAppend(0xFFFF_FFFF, data[..i], data[i]);
  }

  lemma {:induction false} RoundsLast(c: u32, k: nat)
    ensures Rounds(c, k + 1) == Round(Rounds(c, k))
    decreases k
  {
    if k > 0 {
      RoundsLast(Round(c), k - 1);
    } else {
      assert Rounds(Round(c), 0) == Round(c);
    }
  }

  method Crc32(data: seq<byte>, len: nat) returns (crc: u32)
    requires len <= |data|
    ensures crc == Checksum(data[..len])
  {
    crc := 0xFFFF_FFFF;
    for i := 0 to len
      invariant crc == Feed(0xFFFF_FFFF, data[..i])
    {
      crc := Xor32(crc, data[i]);
      ghost var mixed := crc;
      for b := 0 to BITS
        invariant crc == Rounds(mixed, b)
      {
        RoundsLast(mixed, b);
        var mask := if crc % 2 == 1 then POLY else 0;
        crc := Xor32(crc / 2, mask);
      }
      FeedNext(data, i);
    }
    crc := 0xFFFF_FFFF - crc;
  }

  // ----- Algebra of Xor -----

  lemma XorZero(a: nat)
    ensures Xor(a, 0) == a && Xor(0, a) == a
    decreases a
  {
    if a > 0 {
      XorZero(a / 2);
    }
  }

  lemma {:induction false} XorEqual(a: nat, b: nat)
    ensures Xor(a, b) == 0 <==> a == b
    decreases a + b
  {
    if a != 0 || b != 0 {
      XorEqual(a / 2, b / 2);
    }
  }

  /** (a ^ b) ^ (c ^ d) == (a ^ c) ^ (b ^ d) */
  lemma {:induction false} XorExchange(a: nat, b: nat, c: nat, d: nat)
    ensures Xor(Xor(a, b), Xor(c, d)) == Xor(Xor(a, c), Xor(b, d))
    decreases a + b + c + d
  {
    if a != 0 || b != 0 || c != 0 || d != 0 {
      XorHalves(a, b);
      XorHalves(c, d);
      XorHalves(a, c);
      XorHalves(b, d);
      XorHalves(Xor(a, b), Xor(c, d));
      XorHalves(Xor(a, c), Xor(b, d));
      XorExchange(a / 2, b / 2, c / 2, d / 2);
    }
  }

  lemma XorHalves(a: nat, b: nat)
    ensures Xor(a, b) / 2 == Xor(a / 2, b / 2)
    ensures Xor(a, b) % 2 == if a % 2 != b % 2 then 1 else 0
  {
  }

  /** a ^ b == c  ==>  a == c ^ b */
  lemma XorMove(a: nat, b: nat)
    ensures Xor(Xor(a, b), b) == a
  {
    XorExchange(a, b, 0, b);
    XorZero(b);
    XorZero(a);
    XorEqual(b, b);
  }

  /** The bit above both operands' range survives. */
  lemma {:induction false} XorTopBit(a: nat, b: nat, k: nat)
    requires a < Pow2(k) <= b < Pow2(k + 1)
    ensures Xor(a, b) >= Pow2(k)
  {
    if k > 0 {
      XorTopBit(a / 2, b / 2, k - 1);
    }
  }

  // ----- The register update is linear and, on zero, injective -----

  lemma RoundXor(a: u32, b: u32)
    ensures Xor(a, b) < 0x1_0000_0000
    ensures Round(Xor(a, b)) == Xor(Round(a), Round(b))
  {
    XorBound32(a, b);
    XorHalves(a, b);
    var ma, mb := if a % 2 == 1 then POLY else 0, if b % 2 == 1 then POLY else 0;
    XorExchange(a / 2, ma, b / 2, mb);
    XorZero(POLY);
    XorEqual(POLY, POLY);
    XorZero(0);
  }

  lemma {:induction false} RoundsXor(a: u32, b: u32, k: nat)
    ensures Xor(a, b) < 0x1_0000_0000
    ensures Rounds(Xor(a, b), k) == Xor(Rounds(a, k), Rounds(b, k))
    decreases k
  {
    XorBound32(a, b);
    if k > 0 {
      RoundXor(a, b);
      RoundsXor(Round(a), Round(b), k - 1);
    }
  }

  /** A register whose top bit is clear after a round was merely shifted. */
  lemma RoundBack(z: u32)
    requires Round(z) < 0x8000_0000
    ensures z == 2 * Round(z)
  {
    if z % 2 == 1 {
      Pow2At32();
      XorTopBit(z / 2, POLY, 31);
      assert false;
    }
  }

  lemma {:induction false} RoundsBack(z: u32, k: nat)
    requires k <= 8 && Rounds(z, k) < 0x100_0000
    ensures z == Pow2(k) * Rounds(z, k)
    decreases k
  {
    if k > 0 {
      RoundsBack(Round(z), k - 1);
      PowStep(k, Rounds(z, k));
      RoundBack(z);
    }
  }

  lemma PowStep(k: nat, v: nat)
    requires 0 < k <= 8 && v < 0x100_0000
    ensures Pow2(k - 1) * v < 0x8000_0000
    ensures Pow2(k) * v == 2 * (Pow2(k - 1) * v)
  {
    assert Pow2(k - 1) <= 128 by { PowMono(k - 1, 7); }
  }

  lemma {:induction false} PowMono(a: nat, b: nat)
    requires a <= b
    ensures Pow2(a) <= Pow2(b)
    decreases b - a
  {
    if a < b {
      PowMono(a + 1, b);
    }
  }

  // ----- Two streams: the registers' difference is fed by the streams' difference -----

  function Difference(a: seq<byte>, b: seq<byte>): (d: seq<byte>)
    requires |a| == |b|
    ensures |d| == |a|
  {
    if a == [] then [] else
      Pow2At32();
      XorBound(a[0], b[0], 8);
      [Xor(a[0], b[0])] + Difference(a[1..], b[1..])
  }

  lemma {:induction false} FeedDifference(c: u32, e: u32, a: seq<byte>, b: seq<byte>)
    requires |a| == |b|
    ensures Xor(c, e) < 0x1_0000_0000
    ensures Feed(Xor(c, e), Difference(a, b)) == Xor(Feed(c, a), Feed(e, b))
    decreases |a|
  {
    XorBound32(c, e);
    if a != [] {
      var d := Difference(a, b);
      XorBound32(c, a[0]);
      XorBound32(e, b[0]);
      XorExchange(c, a[0], e, b[0]);
      RoundsXor(Xor(c, a[0]), Xor(e, b[0]), BITS);
      assert Absorb(Xor(c, e), d[0]) == Xor(Absorb(c, a[0]), Absorb(e, b[0]));
      FeedDifference(Absorb(c, a[0]), Absorb(e, b[0]), a[1..], b[1..]);
      assert d[1..] == Difference(a[1..], b[1..]);
    }
  }

  ghost predicate AllZero(d: seq<byte>) {
    forall i :: 0 <= i < |d| ==> d[i] == 0
  }

  lemma {:induction false} FeedZeros(c: u32, d: seq<byte>)
    requires AllZero(d)
    ensures Feed(c, d) == 0 <==> c == 0
    decreases |d|
  {
    if d != [] {
      XorZero(c);
      assert Xor32(c, d[0]) == c;
      RoundsZero(c, BITS);
      FeedZeros(Absorb(c, 0), d[1..]);
    }
  }

  lemma {:induction false} RoundsZero(c: u32, k: nat)
    requires k <= 8
    ensures Rounds(c, k) == 0 <==> c == 0
    decreases k
  {
    if k > 0 {
      RoundsZero(Round(c), k - 1);
      if Round(c) == 0 {
        RoundBack(c);
      }
    }
  }

  /** Running one byte backwards from a small register: it was the shifted register plus the byte. */
  lemma AbsorbBack(c: u32, b: byte, r: u32)
    requires r == Absorb(c, b) && r < 0x100_0000
    ensures c == Xor(256 * r, b) && Xor(c, b) == 256 * r
  {
    XorBound32(c, b);
    RoundsBack(Xor(c, b), BITS);
    Pow2At32();
    XorMove(c, b);
  }

  /** A difference confined to four bytes that leaves no trace in the register is no difference. */
  lemma FourBytesVanish(d0: byte, d1: byte, d2: byte, d3: byte)
    requires Feed(0, [d0, d1, d2, d3]) == 0
    ensures d0 == 0 && d1 == 0 && d2 == 0 && d3 == 0
  {
    var c1 := Absorb(0, d0);
    var c2 := Absorb(c1, d1);
    var c3 := Absorb(c2, d2);
    FeedFour(d0, d1, d2, d3);
    Pow2At32();
    AbsorbBack(c3, d3, 0);
    XorZero(d3);
    AbsorbBack(c2, d2, c3);
    XorBound(256 * c3, d2, 16);
    AbsorbBack(c1, d1, c2);
    XorBound(256 * c2, d1, 24);
    AbsorbBack(0, d0, c1);
    XorZero(d0);
    assert d0 == 256 * c1;
    XorZero(d1);
    assert d1 == 256 * c2;
    XorZero(d2);
  }

  lemma FeedFour(d0: byte, d1: byte, d2: byte, d3: byte)
    ensures Feed(0, [d0, d1, d2, d3]) == Absorb(Absorb(Absorb(Absorb(0, d0), d1), d2), d3)
  {
    hide Absorb;
    FeedAppend(0, [], d0);
    FeedAppend(0, [d0], d1);
    FeedAppend(0, [d0, d1], d2);
    FeedAppend(0, [d0, d1, d2], d3);
    assert [] + [d0] == [d0] && [d0] + [d1] == [d0, d1];
    assert [d0, d1] + [d2] == [d0, d1, d2] && [d0, d1, d2] + [d3] == [d0, d1, d2, d3];
  }

  lemma {:induction false} FeedSplit(c: u32, a: seq<byte>, b: seq<byte>)
    ensures Feed(c, a + b) == Feed(Feed(c, a), b)
    decreases |a|
  {
    if a == [] {
      assert a + b == b;
    } else {
      assert (a + b)[1..] == a[1..] + b;
      FeedSplit(Absorb(c, a[0]), a[1..], b);
    }
  }

  /** Equal up to a window of four consecutive bytes starting at `at`. */
  ghost predicate AgreeOutside(a: seq<byte>, b: seq<byte>, at: nat) {
    && |a| == |b|
    && forall i :: 0 <= i < |a| && !(at <= i < at + 4) ==> a[i] == b[i]
  }

  lemma {:induction false} DifferenceAt(a: seq<byte>, b: seq<byte>)
    requires |a| == |b|
    ensures forall i :: 0 <= i < |a| ==> Difference(a, b)[i] == Xor(a[i], b[i])
    ensures forall i :: 0 <= i < |a| && a[i] == b[i] ==> Difference(a, b)[i] == 0
  {
    if a != [] {
      DifferenceAt(a[1..], b[1..]);
      XorEqual(a[0], b[0]);
      var d, e := Difference(a, b), Difference(a[1..], b[1..]);
      forall i | 1 <= i < |a|
        ensures d[i] == Xor(a[i], b[i]) && (a[i] == b[i] ==> d[i] == 0)
      {
        assert d[i] == e[i - 1] && a[i] == a[1..][i - 1] && b[i] == b[1..][i - 1];
      }
    }
  }

  /** Every burst of damage within four consecutive bytes changes the checksum. */
  lemma BurstDetected(a: seq<byte>, b: seq<byte>, at: nat)
    requires AgreeOutside(a, b, at)
    ensures Checksum(a) == Checksum(b) <==> a == b
  {
    if Checksum(a) == Checksum(b) {
      NoDifferenceFed(a, b);
      DifferenceAt(a, b);
      DifferenceVanishes(Difference(a, b), at);
      AgreeEverywhere(a, b);
    }
  }

  lemma NoDifferenceFed(a: seq<byte>, b: seq<byte>)
    requires |a| == |b| && Checksum(a) == Checksum(b)
    ensures Feed(0, Difference(a, b)) == 0
  {
    var full: u32 := 0xFFFF_FFFF;
    XorEqual(full, full);
    XorEqual(Feed(full, a), Feed(full, b));
    FeedDifference(full, full, a, b);
  }

  lemma AgreeEverywhere(a: seq<byte>, b: seq<byte>)
    requires |a| == |b| && AllZero(Difference(a, b))
    ensures a == b
  {
    DifferenceAt(a, b);
    forall i | 0 <= i < |a|
      ensures a[i] == b[i]
    {
      XorEqual(a[i], b[i]);
    }
  }

  lemma DifferenceVanishes(d: seq<byte>, at: nat)
    requires forall i :: 0 <= i < |d| && !(at <= i < at + 4) ==> d[i] == 0
    requires Feed(0, d) == 0
    ensures AllZero(d)
  {
    var lo := if at < |d| then at else |d|;
    var hi := if at + 4 < |d| then at + 4 else |d|;
    var pre, mid, post := d[..lo], d[lo..hi], d[hi..];
    assert d == pre + mid + post;
    assert AllZero(pre) && AllZero(post);
    WindowVanishes(pre, mid, post);
  }

  lemma WindowVanishes(pre: seq<byte>, mid: seq<byte>, post: seq<byte>)
    requires AllZero(pre) && |mid| <= 4 && AllZero(post)
    requires Feed(0, pre + mid + post) == 0
    ensures AllZero(pre + mid + post)
  {
    FeedSplit(0, pre + mid, post);
    FeedSplit(0, pre, mid);
    FeedZeros(0, pre);
    FeedZeros(Feed(0, mid), post);
    ShortWindowVanishes(mid);
  }

  lemma ShortWindowVanishes(mid: seq<byte>)
    requires |mid| <= 4 && Feed(0, mid) == 0
    ensures AllZero(mid)
  {
    var zeros: seq<byte> := seq(4 - |mid|, _ => 0);
    FeedSplit(0, mid, zeros);
    FeedZeros(0, zeros);
    FourVanish(mid + zeros);
    assert forall i :: 0 <= i < |mid| ==> mid[i] == (mid + zeros)[i];
  }

  lemma FourVanish(m: seq<byte>)
    requires |m| == 4 && Feed(0, m) == 0
    ensures AllZero(m)
  {
    assert m == [m[0], m[1], m[2], m[3]];
    FourBytesVanish(m[0], m[1], m[2], m[3]);
  }

  // ----- Which CRC it is -----

  /** The register shifted by `k` bits, without a borrow from the polynomial. */
  lemma {:induction false} ShiftedOut(q: u32, k: nat)
    requires q * Pow2(k) < 0x1_0000_0000
    ensures Rounds(q * Pow2(k), k) == q
    decreases k
  {
    if k > 0 {
      assert q * Pow2(k) == 2 * (q * Pow2(k - 1));
      ShiftedOut(q, k - 1);
    }
  }

  /** Exclusive or with its own lowest bits clears them. */
  lemma {:induction false} LowBitsCleared(q: nat, r: nat, k: nat)
    requires r < Pow2(k)
    ensures Xor(q * Pow2(k) + r, r) == q * Pow2(k)
    decreases k
  {
    if k == 0 {
      XorZero(q);
    } else {
      var x := q * Pow2(k) + r;
      assert q * Pow2(k) == 2 * (q * Pow2(k - 1));
      assert x / 2 == q * Pow2(k - 1) + r / 2 && x % 2 == r % 2;
      LowBitsCleared(q, r / 2, k - 1);
      XorHalves(x, r);
    }
  }

  lemma OnesAbsorbed(q: u32)
    requires q < 0x100_0000
    ensures Absorb(q * 0x100 + 0xFF, 0xFF) == q
  {
    hide Xor, Rounds;
    Pow2At32();
    LowBitsCleared(q, 0xFF, 8);
    ShiftedOut(q, 8);
  }

  /** The last bit of a byte leaves the polynomial of IEEE 802.3, reflected, in the register. */
  lemma PolynomialAbsorbed()
    ensures Absorb(0, 0x80) == 0xEDB88320
  {
    hide Xor;
    XorZero(0x80);
    assert Pow2(7) == 128;
    ShiftedOut(1, 7);
    RoundsLast(0x80, 7);
    assert Round(1) == POLY by { XorZero(POLY); }
  }

  /** Known checksums: of nothing, of four bytes of ones, and of those with the highest bit behind them. */
  lemma CheckValues(ones: seq<byte>)
    requires ones == [0xFF, 0xFF, 0xFF, 0xFF]
    ensures Checksum([]) == 0 && Checksum(ones) == 0xFFFF_FFFF && Checksum(ones + [0x80]) == 0x1247_7CDF
  {
    hide Absorb;
    OnesAbsorbed(0xFF_FFFF);
    OnesAbsorbed(0xFFFF);
    OnesAbsorbed(0xFF);
    OnesAbsorbed(0);
    assert ones == [0xFF] + ([0xFF] + ([0xFF] + ([0xFF] + [])));
    FedOne(0xFFFF_FFFF, 0xFF, [0xFF] + ([0xFF] + ([0xFF] + [])));
    FedOne(0xFF_FFFF, 0xFF, [0xFF] + ([0xFF] + []));
    FedOne(0xFFFF, 0xFF, [0xFF] + []);
    FedOne(0xFF, 0xFF, []);
    PolynomialAbsorbed();
    FeedAppend(0xFFFF_FFFF, ones, 0x80);
  }

  lemma FedOne(c: u32, b: byte, rest: seq<byte>)
    ensures Feed(c, [b] + rest) == Feed(Absorb(c, b), rest)
  {
    hide Absorb;
    assert ([b] + rest)[1..] == rest;
  }
}
