/** The 160-bit ring of QuickXorHash: src/utils/quickxor.ts, up to the 20 output bytes. */
module QuickXor {
  const WIDTH_IN_BITS := 160
  const SHIFT := 11
  const OUT_BYTES := 20

  predicate Xor(a: bool, b: bool) { a != b }

  // ---------------------------------------------------------------- bits of bytes and of numbers

  function Mask(k: nat): bv8
    requires k < 8
  {
    if k == 0 then 1 else if k == 1 then 2 else if k == 2 then 4 else if k == 3 then 8
    else if k == 4 then 16 else if k == 5 then 32 else if k == 6 then 64 else 128
  }

  /** Bit `k` of a byte, counted from the least significant. */
  predicate Bit(v: bv8, k: nat)
    requires k < 8
  {
    v & Mask(k) != 0
  }

  predicate NumberBit(n: nat, k: nat) {
    if k == 0 then n % 2 == 1 else NumberBit(n / 2, k - 1)
  }

  function Digit(n: nat, k: nat): bv8
    requires k < 8
  {
    if NumberBit(n, k) then Mask(k) else 0
  }

  /** `n & 0xff` */
  function LowByte(n: nat): bv8 {
    Digit(n, 0) | Digit(n, 1) | Digit(n, 2) | Digit(n, 3) | Digit(n, 4) | Digit(n, 5) | Digit(n, 6) | Digit(n, 7)
  }

  lemma LowByteBits(n: nat, k: nat)
    requires k < 8
    ensures Bit(LowByte(n), k) == NumberBit(n, k)
  {
  }

  lemma XorMasked(a: bv8, b: bv8, m: bv8)
    ensures (a ^ b) & m == (a & m) ^ (b & m)
  {
  }

  lemma OneBit(v: bv8, k: nat)
    requires k < 8
    ensures v & Mask(k) == 0 || v & Mask(k) == Mask(k)
  {
  }

  lemma XorBits(a: bv8, b: bv8, k: nat)
    requires k < 8
    ensures Bit(a ^ b, k) == Xor(Bit(a, k), Bit(b, k))
  {
    XorMasked(a, b, Mask(k));
    OneBit(a, k);
    OneBit(b, k);
  }

  lemma MaskBit(j: nat, k: nat)
    requires j < 8 && k < 8
    ensures Bit(Mask(j), k) <==> j == k
  {
  }

  lemma FlipBits(v: bv8, j: nat, k: nat)
    requires j < 8 && k < 8
    ensures Bit(v ^ Mask(j), k) == Xor(Bit(v, k), j == k)
  {
    XorBits(v, Mask(j), k);
    MaskBit(j, k);
  }

  lemma {:induction false} ShiftedBit(n: nat, k: nat, count: nat)
    ensures NumberBit(Shifted(n, count), k) == NumberBit(n, k + count)
    decreases count
  {
    if count > 0 {
      ShiftedBit(n / 2, k, count - 1);
    }
  }

  /** `n` without its low `count` bits. */
  function Shifted(n: nat, count: nat): nat {
    if count == 0 then n else Shifted(n / 2, count - 1)
  }

  // ---------------------------------------------------------------- the ring

  /** Bit `g` of the 20 bytes. */
  predicate RingBit(ring: seq<bv8>, g: nat)
    requires |ring| == OUT_BYTES && g < WIDTH_IN_BITS
  {
    Bit(ring[g / 8], g % 8)
  }

  /** Whether a byte placed at ring offset `pos` sets ring bit `g`. */
  predicate ByteBit(value: bv8, pos: nat, g: nat)
    requires pos < WIDTH_IN_BITS && g < WIDTH_IN_BITS
  {
    var k := (g + WIDTH_IN_BITS - pos) % WIDTH_IN_BITS;
    k < 8 && Bit(value, k)
  }

  lemma OffsetIs(pos: nat, g: nat, k: nat)
    requires pos < WIDTH_IN_BITS && g < WIDTH_IN_BITS && k < 8
    ensures (pos + k) % WIDTH_IN_BITS == g <==> (g + WIDTH_IN_BITS - pos) % WIDTH_IN_BITS == k
  {
  }

  /** XOR an 8-bit value into the ring from bit `bitPos` on, wrapping around. */
  method XorByteAtBit(rgb: array<bv8>, value: bv8, bitPos: nat)
    requires rgb.Length == OUT_BYTES && bitPos < WIDTH_IN_BITS
    modifies rgb
    ensures forall g | 0 <= g < WIDTH_IN_BITS ::
              RingBit(rgb[..], g) == Xor(RingBit(old(rgb[..]), g), ByteBit(value, bitPos, g))
  {
    for k := 0 to 8
      invariant forall g | 0 <= g < WIDTH_IN_BITS ::
                  RingBit(rgb[..], g) ==
                  Xor(RingBit(old(rgb[..]), g),
                      ByteBit(value, bitPos, g) && (g + WIDTH_IN_BITS - bitPos) % WIDTH_IN_BITS < k)
    {
      ghost var before := rgb[..];
      if Bit(value, k) {
        var pos := (bitPos + k) % WIDTH_IN_BITS;
        var i := pos / 8;
        rgb[i] := rgb[i] ^ Mask(pos % 8);
        FlippedRing(before, pos, rgb[..]);
      }
      forall g | 0 <= g < WIDTH_IN_BITS
        ensures RingBit(rgb[..], g) ==
                Xor(RingBit(old(rgb[..]), g),
                    ByteBit(value, bitPos, g) && (g + WIDTH_IN_BITS - bitPos) % WIDTH_IN_BITS < k + 1)
      {
        OffsetIs(bitPos, g, k);
      }
    }
  }

  /** Flipping one bit of one byte flips that ring bit alone. */
  lemma FlippedRing(before: seq<bv8>, pos: nat, after: seq<bv8>)
    requires |before| == OUT_BYTES && pos < WIDTH_IN_BITS
    requires after == before[pos / 8 := before[pos / 8] ^ Mask(pos % 8)]
    ensures forall g | 0 <= g < WIDTH_IN_BITS :: RingBit(after, g) == Xor(RingBit(before, g), g == pos)
  {
    forall g | 0 <= g < WIDTH_IN_BITS ensures RingBit(after, g) == Xor(RingBit(before, g), g == pos) {
      if g / 8 == pos / 8 {
        FlipBits(before[pos / 8], pos % 8, g % 8);
      }
    }
  }

  // ---------------------------------------------------------------- what the hash is

  /** Where byte `i` goes: the offset advances by 11 bits around the ring. */
  function Offset(i: nat): (pos: nat)
    ensures pos < WIDTH_IN_BITS
  {
    if i == 0 then 0
    else
      var pos := Offset(i - 1) + SHIFT;
      if pos >= WIDTH_IN_BITS then pos - WIDTH_IN_BITS else pos
  }

  /** How often the offset has gone round before byte `i`. */
  ghost function Turns(i: nat): nat {
    if i == 0 then 0 else Turns(i - 1) + if Offset(i - 1) + SHIFT >= WIDTH_IN_BITS then 1 else 0
  }

  lemma {:induction false} OffsetAndTurns(i: nat)
    ensures SHIFT * i == WIDTH_IN_BITS * Turns(i) + Offset(i)
  {
    if i > 0 {
      OffsetAndTurns(i - 1);
    }
  }

  lemma Remainder(x: nat, q: nat, r: nat)
    requires x == WIDTH_IN_BITS * q + r && r < WIDTH_IN_BITS
    ensures x % WIDTH_IN_BITS == r
  {
  }

  lemma OffsetIsModular(i: nat)
    ensures Offset(i) == (SHIFT * i) % WIDTH_IN_BITS
  {
    OffsetAndTurns(i);
    Remainder(SHIFT * i, Turns(i), Offset(i));
  }

  /** The fold of the data, byte by byte. */
  predicate Fold(data: seq<bv8>, g: nat)
    requires g < WIDTH_IN_BITS
  {
    if data == [] then false
    else
      var n := |data| - 1;
      Xor(Fold(data[..n], g), ByteBit(data[n], Offset(n), g))
  }

  /** The length, as a 64-bit number in bits 96 to 159. */
  predicate LengthBit(length: nat, g: nat) {
    96 <= g < WIDTH_IN_BITS && NumberBit(length, g - 96)
  }

  ghost predicate HashBit(data: seq<bv8>, g: nat)
    requires g < WIDTH_IN_BITS
  {
    Xor(Fold(data, g), LengthBit(|data|, g))
  }

  /** The first loop: every byte at its offset, zero bytes skipped. */
  method FoldBytes(rgb: array<bv8>, bytes: seq<bv8>)
    requires rgb.Length == OUT_BYTES && forall g | 0 <= g < WIDTH_IN_BITS :: !RingBit(rgb[..], g)
    modifies rgb
    ensures forall g | 0 <= g < WIDTH_IN_BITS :: RingBit(rgb[..], g) == Fold(bytes, g)
  {
    var bitPos := 0;
    for i := 0 to |bytes|
      invariant bitPos == Offset(i)
      invariant forall g | 0 <= g < WIDTH_IN_BITS :: RingBit(rgb[..], g) == Fold(bytes[..i], g)
    {
      assert bytes[..i + 1][..i] == bytes[..i];
      if bytes[i] != 0 {
        XorByteAtBit(rgb, bytes[i], bitPos);
      }
      bitPos := bitPos + SHIFT;
      if bitPos >= WIDTH_IN_BITS {
        bitPos := bitPos - WIDTH_IN_BITS;
      }
    }
    assert bytes[..|bytes|] == bytes;
  }

  /** One byte of the length, into its place. */
  lemma LengthStep(before: seq<bv8>, length: nat, k: nat, after: seq<bv8>, g: nat)
    requires |before| == OUT_BYTES && k < 8 && g < WIDTH_IN_BITS
    requires after == before[12 + k := before[12 + k] ^ LowByte(Shifted(length, 8 * k))]
    ensures RingBit(after, g) == Xor(RingBit(before, g), g / 8 == 12 + k && LengthBit(length, g))
  {
    if g / 8 == 12 + k {
      XorBits(before[g / 8], LowByte(Shifted(length, 8 * k)), g % 8);
      LowByteBits(Shifted(length, 8 * k), g % 8);
      ShiftedBit(length, g % 8, 8 * k);
    }
  }

  /** The second loop: the length, as eight little-endian bytes, into the last eight. */
  method FoldLength(rgb: array<bv8>, length: nat)
    requires rgb.Length == OUT_BYTES
    modifies rgb
    ensures forall g | 0 <= g < WIDTH_IN_BITS ::
              RingBit(rgb[..], g) == Xor(RingBit(old(rgb[..]), g), LengthBit(length, g))
  {
    var len := length;
    for k := 0 to 8
      invariant len == Shifted(length, 8 * k)
      invariant forall g | 0 <= g < WIDTH_IN_BITS ::
                  RingBit(rgb[..], g) == Xor(RingBit(old(rgb[..]), g), g < 96 + 8 * k && LengthBit(length, g))
    {
      ghost var before := rgb[..];
      rgb[12 + k] := rgb[12 + k] ^ LowByte(len);
      forall g | 0 <= g < WIDTH_IN_BITS
        ensures RingBit(rgb[..], g) == Xor(RingBit(before, g), g / 8 == 12 + k && LengthBit(length, g))
      {
        LengthStep(before, length, k, rgb[..], g);
      }
      ShiftBy8(len);
      ShiftedMore(length, 8 * k, 8);
      len := len / 256;
    }
  }

  /** The twenty bytes before they are written as text. */
  method QuickXorRing(bytes: seq<bv8>) returns (rgb: array<bv8>)
    ensures fresh(rgb) && rgb.Length == OUT_BYTES
    ensures forall g | 0 <= g < WIDTH_IN_BITS :: RingBit(rgb[..], g) == HashBit(bytes, g)
  {
    rgb := new bv8[OUT_BYTES](_ => 0);
    FoldBytes(rgb, bytes);
    FoldLength(rgb, |bytes|);
  }

  lemma ShiftBy2(n: nat)
    ensures Shifted(n, 2) == n / 4
  {
    assert Shifted(n, 2) == Shifted(n / 2, 1) == Shifted(n / 2 / 2, 0);
  }

  lemma ShiftBy4(n: nat)
    ensures Shifted(n, 4) == n / 16
  {
    ShiftBy2(n);
    ShiftBy2(n / 4);
    ShiftedMore(n, 2, 2);
  }

  lemma ShiftBy8(n: nat)
    ensures Shifted(n, 8) == n / 256
  {
    ShiftBy4(n);
    ShiftBy4(n / 16);
    ShiftedMore(n, 4, 4);
  }

  lemma {:induction false} ShiftedMore(n: nat, a: nat, b: nat)
    ensures Shifted(Shifted(n, a), b) == Shifted(n, a + b)
    decreases a
  {
    if a > 0 {
      ShiftedMore(n / 2, a - 1, b);
    }
  }

  // ---------------------------------------------------------------- the fold as a parity

  /** Bit `k` of byte `i` is set and lands on ring bit `g`. */
  ghost predicate Lands(data: seq<bv8>, g: nat, i: nat, k: nat) {
    i < |data| && k < 8 && (SHIFT * i + k) % WIDTH_IN_BITS == g && Bit(data[i], k)
  }

  /** The set bits of the data that land on ring bit `g`. */
  ghost function Landing(data: seq<bv8>, g: nat): set<(nat, nat)> {
    set i: nat, k: nat | i < |data| && k < 8 && Lands(data, g, i, k) :: (i, k)
  }

  /** The fold is the exclusive or over every bit that lands there: set exactly when an odd number of them is. */
  lemma {:induction false} FoldIsParity(data: seq<bv8>, g: nat)
    requires g < WIDTH_IN_BITS
    ensures Fold(data, g) == (|Landing(data, g)| % 2 == 1)
  {
    if data == [] {
      assert Landing(data, g) == {};
    } else {
      var n := |data| - 1;
      FoldIsParity(data[..n], g);
      LandingSnoc(data, g);
      OneMoreFlips(|Landing(data[..n], g)|, ByteBit(data[n], Offset(n), g));
    }
  }

  lemma OneMoreFlips(count: nat, more: bool)
    ensures ((count + if more then 1 else 0) % 2 == 1) == Xor(count % 2 == 1, more)
  {
  }

  lemma LandsWhere(n: nat, g: nat, k: nat)
    requires g < WIDTH_IN_BITS && k < 8
    ensures (SHIFT * n + k) % WIDTH_IN_BITS == g <==> (g + WIDTH_IN_BITS - Offset(n)) % WIDTH_IN_BITS == k
  {
    OffsetIsModular(n);
    OffsetIs(Offset(n), g, k);
    ModAdds(SHIFT * n, k);
  }

  lemma LandsSnoc(data: seq<bv8>, g: nat, i: nat, k: nat)
    requires data != [] && g < WIDTH_IN_BITS
    ensures var n := |data| - 1;
            Lands(data, g, i, k) <==>
              (Lands(data[..n], g, i, k) ||
               (i == n && k == (g + WIDTH_IN_BITS - Offset(n)) % WIDTH_IN_BITS && ByteBit(data[n], Offset(n), g)))
  {
    var n := |data| - 1;
    if i == n && k < 8 {
      LandsWhere(n, g, k);
    }
  }

  /** The last byte adds at most one landing bit. */
  lemma LandingSnoc(data: seq<bv8>, g: nat)
    requires data != [] && g < WIDTH_IN_BITS
    ensures var n := |data| - 1;
            |Landing(data, g)| == |Landing(data[..n], g)| + if ByteBit(data[n], Offset(n), g) then 1 else 0
  {
    var n := |data| - 1;
    var last := (n, (g + WIDTH_IN_BITS - Offset(n)) % WIDTH_IN_BITS);
    var before, after := Landing(data[..n], g), Landing(data, g);
    forall i: nat, k: nat ensures Lands(data, g, i, k) <==> (i, k) in after {}
    forall i: nat, k: nat ensures Lands(data[..n], g, i, k) <==> (i, k) in before {}
    forall i: nat, k: nat
      ensures (i, k) in after <==> ((i, k) in before || ((i, k) == last && ByteBit(data[n], Offset(n), g)))
    {
      LandsSnoc(data, g, i, k);
    }
    assert last !in before;
    assert after == if ByteBit(data[n], Offset(n), g) then before + {last} else before;
  }

  lemma ModAdds(a: nat, k: nat)
    ensures (a + k) % WIDTH_IN_BITS == (a % WIDTH_IN_BITS + k) % WIDTH_IN_BITS
  {
  }

  // ---------------------------------------------------------------- consequences

  function XorAll(a: seq<bv8>, b: seq<bv8>): seq<bv8>
    requires |a| == |b|
  {
    seq(|a|, i requires 0 <= i < |a| => a[i] ^ b[i])
  }

  lemma ByteBitLinear(x: bv8, y: bv8, pos: nat, g: nat)
    requires pos < WIDTH_IN_BITS && g < WIDTH_IN_BITS
    ensures ByteBit(x ^ y, pos, g) == Xor(ByteBit(x, pos, g), ByteBit(y, pos, g))
  {
    var k := (g + WIDTH_IN_BITS - pos) % WIDTH_IN_BITS;
    if k < 8 {
      XorBits(x, y, k);
    }
  }

  lemma XorAllSnoc(a: seq<bv8>, b: seq<bv8>)
    requires |a| == |b| && a != []
    ensures XorAll(a, b)[..|a| - 1] == XorAll(a[..|a| - 1], b[..|a| - 1])
    ensures XorAll(a, b)[|a| - 1] == a[|a| - 1] ^ b[|a| - 1]
  {
  }

  lemma {:induction false} FoldIsLinear(a: seq<bv8>, b: seq<bv8>, g: nat)
    requires |a| == |b| && g < WIDTH_IN_BITS
    ensures Fold(XorAll(a, b), g) == Xor(Fold(a, g), Fold(b, g))
  {
    if a != [] {
      var n := |a| - 1;
      XorAllSnoc(a, b);
      FoldIsLinear(a[..n], b[..n], g);
      FoldSnoc(a, b, g);
    }
  }

  lemma FoldSnoc(a: seq<bv8>, b: seq<bv8>, g: nat)
    requires |a| == |b| && a != [] && g < WIDTH_IN_BITS
    ensures var n, pos := |a| - 1, Offset(|a| - 1);
            Fold(XorAll(a, b), g) == Xor(Fold(XorAll(a, b)[..n], g), Xor(ByteBit(a[n], pos, g), ByteBit(b[n], pos, g)))
  {
    ByteBitLinear(a[|a| - 1], b[|a| - 1], Offset(|a| - 1), g);
  }

  /** For equal lengths the hash is linear, but for the length term that all three carry. */
  lemma HashIsLinear(a: seq<bv8>, b: seq<bv8>, g: nat)
    requires |a| == |b| && g < WIDTH_IN_BITS
    ensures HashBit(XorAll(a, b), g) == Xor(Xor(HashBit(a, g), HashBit(b, g)), LengthBit(|a|, g))
  {
    FoldIsLinear(a, b, g);
  }

  /** Replacing one byte takes its bits out and puts the new ones in. */
  lemma {:induction false} FoldUpdate(data: seq<bv8>, i: nat, v: bv8, g: nat)
    requires i < |data| && g < WIDTH_IN_BITS
    ensures Fold(data[i := v], g) ==
            Xor(Fold(data, g), Xor(ByteBit(data[i], Offset(i), g), ByteBit(v, Offset(i), g)))
  {
    var n := |data| - 1;
    if i == n {
      assert data[i := v][..n] == data[..n];
    } else {
      FoldUpdate(data[..n], i, v, g);
      assert data[i := v][..n] == data[..n][i := v];
    }
  }

  /** Bytes a multiple of 160 apart share their offset, so swapping them leaves the hash alone. */
  lemma SwapKeepsHash(data: seq<bv8>, i: nat, j: nat, g: nat)
    requires i < |data| && j < |data| && i % WIDTH_IN_BITS == j % WIDTH_IN_BITS && g < WIDTH_IN_BITS
    ensures HashBit(data[i := data[j]][j := data[i]], g) == HashBit(data, g)
  {
    FoldUpdate(data, i, data[j], g);
    FoldUpdate(data[i := data[j]], j, data[i], g);
    SameOffset(i, j);
  }

  lemma Period(i: nat, times: nat)
    ensures Offset(i + WIDTH_IN_BITS * times) == Offset(i)
  {
    OffsetAndTurns(i);
    OffsetIsModular(i + WIDTH_IN_BITS * times);
    Remainder(SHIFT * (i + WIDTH_IN_BITS * times), Turns(i) + SHIFT * times, Offset(i));
  }

  lemma SameOffset(i: nat, j: nat)
    requires i % WIDTH_IN_BITS == j % WIDTH_IN_BITS
    ensures Offset(i) == Offset(j)
  {
    Period(i % WIDTH_IN_BITS, i / WIDTH_IN_BITS);
    Period(j % WIDTH_IN_BITS, j / WIDTH_IN_BITS);
  }
}
