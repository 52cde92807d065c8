/** What the two checksums are, as sections 8.2 and 9 of RFC 1950 and section 8 of RFC 1952
    define them: sums over the whole string, and a shift register fed bit by bit. */
module ChecksumValues {
  import opened Bits
  import opened Checksums

  // ---- Adler-32

  /** The sum of the first k bytes. */
  function ByteSum(data: seq<byte>, k: nat): nat
    requires k <= |data|
  {
    if k == 0 then 0 else ByteSum(data, k - 1) + data[k - 1]
  }

  /** The sum of the first k bytes, byte i counted n - i times. */
  function Weighted(data: seq<byte>, n: nat, k: nat): nat
    requires k <= |data| && k <= n
  {
    if k == 0 then 0 else Weighted(data, n, k - 1) + (n - (k - 1)) * data[k - 1]
  }

  lemma {:induction false} SumPrefix(a: seq<byte>, b: seq<byte>, k: nat)
    requires k <= |a| && a <= b
    ensures ByteSum(a, k) == ByteSum(b, k)
  {
    if k > 0 {
      SumPrefix(a, b, k - 1);
    }
  }

  lemma OnceMore(n: nat, b: nat)
    ensures (n + 1) * b == n * b + b
  {
  }

  /** With one byte more to come, every byte counts once more. */
  lemma {:induction false} WeightedMore(a: seq<byte>, b: seq<byte>, n: nat, k: nat)
    requires k <= |a| && a <= b && k <= n
    ensures Weighted(b, n + 1, k) == Weighted(a, n, k) + ByteSum(a, k)
  {
    if k > 0 {
      WeightedMore(a, b, n, k - 1);
      OnceMore(n - (k - 1), a[k - 1]);
    }
  }

  lemma Reduce(a: nat, b: nat, c: nat)
    ensures (a % 65521 + c) % 65521 == (a + c) % 65521
    ensures (b % 65521 + a % 65521 + c) % 65521 == (b + a + c) % 65521
  {
  }

  /** The zlib checksum of n bytes: 1 and all of them, and n and byte i counted n - i times. */
  lemma {:induction false} AdlerValue(data: seq<byte>)
    ensures var n := |data|;
      Checksum(Zlib, data) == Adler((1 + ByteSum(data, n)) % 65521, (n + Weighted(data, n, n)) % 65521)
  {
    var n := |data|;
    if n > 0 {
      var rest, b := data[..n - 1], data[n - 1];
      AdlerValue(rest);
      SumPrefix(rest, data, n - 1);
      WeightedMore(rest, data, n - 1, n - 1);
      Reduce(1 + ByteSum(rest, n - 1), n - 1 + Weighted(rest, n - 1, n - 1), b);
    }
  }

  // ---- CRC-32

  // The operations on words are functions, so that proofs about many steps need not look inside.

  function Half(x: bv32): bv32 {
    x >> 1
  }

  function Lowest(x: bv32): bv32 {
    x & 1
  }

  function HighPart(x: bv32): bv32 {
    x & 0xFFFFFF00
  }

  /** A number without its k lowest bits. */
  function Dropped(n: bv32, k: nat): bv32 {
    if k == 0 then n else Half(Dropped(n, k - 1))
  }

  /** Bit k of a byte. */
  function BitOf(b: byte, k: nat): bv32 {
    Lowest(Dropped(ByteWord(b), k))
  }

  /** One bit in: if it differs from the lowest bit of the register, the polynomial is subtracted. */
  function Shifted(c: bv32, bit: bv32): bv32 {
    if Xor(Lowest(c), bit) == 1 then Xor(Half(c), 0xEDB88320) else Half(c)
  }

  /** The first k bits of a byte in, lowest first. */
  function BitsIn(c: bv32, b: byte, k: nat): bv32
    requires k <= 8
  {
    if k == 0 then c else Shifted(BitsIn(c, b, k - 1), BitOf(b, k - 1))
  }

  function Register(c: bv32, data: seq<byte>): bv32 {
    if data == [] then c else BitsIn(Register(c, data[..|data| - 1]), data[|data| - 1], 8)
  }

  /** A number shifted through k times. */
  function Through(n: bv32, k: nat): bv32 {
    if k == 0 then n else Shifted(Through(n, k - 1), 0)
  }

  lemma OneStep(n: bv32)
    ensures Shifted(n, 0) == if n & 1 == 1 then (n >> 1) ^ 0xEDB88320 else n >> 1
  {
    BitsApart(n, 0);
  }

  lemma EntryStep(n: bv32, k: nat)
    ensures CrcEntry(n, 0) == n && CrcEntry(n, k + 1) == CrcEntry(Shifted(n, 0), k)
  {
    OneStep(n);
    hide Shifted;
  }

  /** The table entry's eight steps. */
  lemma {:induction false} EntryIs(n: bv32, m: nat, k: nat)
    ensures CrcEntry(Through(n, m), k) == Through(n, m + k)
    decreases k
  {
    hide Shifted, CrcEntry;
    EntryStep(Through(n, m), if k == 0 then 0 else k - 1);
    if k > 0 {
      EntryIs(n, m + 1, k - 1);
    }
  }

  lemma BitsApart(c: bv32, w: bv32)
    ensures Lowest(Xor(c, w)) == Xor(Lowest(c), Lowest(w)) && Xor(Lowest(Xor(c, w)), 0) == Lowest(Xor(c, w))
  {
  }

  lemma HalvesApart(c: bv32, w: bv32)
    ensures Half(Xor(c, w)) == Xor(Half(c), Half(w))
  {
  }

  lemma Commutes(x: bv32, y: bv32)
    ensures Xor(x, y) == Xor(y, x)
  {
  }

  lemma Associates(x: bv32, y: bv32, z: bv32)
    ensures Xor(Xor(x, y), z) == Xor(x, Xor(y, z))
  {
  }

  lemma Swap(x: bv32, y: bv32, z: bv32)
    ensures Xor(Xor(x, y), z) == Xor(Xor(x, z), y)
  {
    hide Xor;
    Associates(x, y, z);
    Associates(x, z, y);
    Commutes(y, z);
  }

  lemma XorShift(c: bv32, w: bv32)
    ensures Xor(Shifted(c, Lowest(w)), Half(w)) == Shifted(Xor(c, w), 0)
  {
    hide Xor, Half, Lowest;
    BitsApart(c, w);
    HalvesApart(c, w);
    Swap(Half(c), 0xEDB88320, Half(w));
  }

  /** A bit fed in now is as good as one that was there from the start. */
  lemma {:induction false} FedIsThere(c: bv32, b: byte, k: nat)
    requires k <= 8
    ensures Xor(BitsIn(c, b, k), Dropped(ByteWord(b), k)) == Through(Xor(c, ByteWord(b)), k)
  {
    hide Shifted, ByteWord, Xor, Half, Lowest;
    if k > 0 {
      FedIsThere(c, b, k - 1);
      XorShift(BitsIn(c, b, k - 1), Dropped(ByteWord(b), k - 1));
    }
  }

  lemma ShiftHigh(low: bv32, high: bv32)
    requires Lowest(high) == 0
    ensures Shifted(Xor(low, high), 0) == Xor(Shifted(low, 0), Half(high))
  {
    hide Shifted, Xor, Half;
    XorShift(low, high);
  }

  lemma EightHalves(n: bv32)
    ensures Half(Half(Half(Half(Half(Half(Half(Half(n)))))))) == Above(n)
  {
  }

  lemma EightDropped(n: bv32)
    ensures Dropped(n, 8) == Above(n)
  {
    EightHalves(n);
    hide Half;
    assert Dropped(n, 1) == Half(n);
    assert Dropped(n, 2) == Half(Half(n));
    assert Dropped(n, 4) == Half(Half(Half(Half(n))));
    assert Dropped(n, 6) == Half(Half(Half(Half(Half(Half(n))))));
  }

  lemma NoLowBits(h: bv32)
    requires LowByte(h) == 0
    ensures Lowest(h) == 0 && Lowest(Half(h)) == 0 && Lowest(Half(Half(h))) == 0 && Lowest(Half(Half(Half(h)))) == 0
    ensures var q := Half(Half(Half(Half(h))));
      Lowest(q) == 0 && Lowest(Half(q)) == 0 && Lowest(Half(Half(q))) == 0 && Lowest(Half(Half(Half(q)))) == 0
  {
  }

  /** Of a number whose lowest byte is zero, it takes eight steps to reach the bits. */
  lemma HighBits(h: bv32, k: nat)
    requires LowByte(h) == 0 && k < 8
    ensures Lowest(Dropped(h, k)) == 0
  {
    NoLowBits(h);
    hide Half, LowByte, Lowest;
    assert Dropped(h, 1) == Half(h);
    assert Dropped(h, 2) == Half(Half(h));
    assert Dropped(h, 4) == Half(Half(Half(Half(h))));
    assert Dropped(h, 6) == Half(Half(Half(Half(Half(Half(h))))));
  }

  lemma Parts(x: bv32)
    ensures Xor(LowByte(x), HighPart(x)) == x && LowByte(HighPart(x)) == 0
  {
  }

  /** What lies above the lowest byte just moves down. */
  lemma {:induction false} HighMoves(x: bv32, k: nat)
    requires k <= 8
    ensures Through(x, k) == Xor(Through(LowByte(x), k), Dropped(HighPart(x), k))
  {
    hide Shifted, Xor, Half, Lowest, LowByte, HighPart;
    Parts(x);
    if k > 0 {
      HighMoves(x, k - 1);
      HighBits(HighPart(x), k - 1);
      ShiftHigh(Through(LowByte(x), k - 1), Dropped(HighPart(x), k - 1));
    }
  }

  lemma NothingAbove(r: bv32, w: bv32)
    requires w < 0x100
    ensures Xor(r, Above(w)) == r
  {
    assert w >> 8 == 0;
  }

  lemma AboveOnly(c: bv32, w: bv32)
    requires w < 0x100
    ensures Above(HighPart(Xor(c, w))) == Above(c)
  {
    assert w >> 8 == 0;
  }

  lemma SmallWord(b: byte)
    ensures ByteWord(b) < 0x100
  {
  }

  /** The table does for a byte what the register does for its bits. */
  lemma ByteIn(c: bv32, b: byte)
    ensures CrcRaw(c, ByteWord(b)) == BitsIn(c, b, 8)
  {
    SmallWord(b);
    var w := ByteWord(b);
    var low := LowByte(Xor(c, w));
    hide Shifted, ByteWord, BitsIn, CrcEntry, Dropped, Through, Xor, Above, LowByte, HighPart;
    NothingAbove(BitsIn(c, b, 8), w);
    AboveOnly(c, w);
    Commutes(c, w);
    Commutes(Above(c), CrcEntry(low, 8));
    EightDropped(w);
    EightDropped(HighPart(Xor(c, w)));
    FedIsThere(c, b, 8);
    HighMoves(Xor(c, w), 8);
    ThroughStart(low);
    EntryIs(low, 0, 8);
  }

  lemma ThroughStart(n: bv32)
    ensures Through(n, 0) == n
  {
  }

  lemma Twice(w: bv32)
    ensures Xor(Xor(w, 0xFFFFFFFF), 0xFFFFFFFF) == w && Xor(0xFFFFFFFF, 0xFFFFFFFF) == 0
  {
  }

  /** The gzip checksum: a register of ones, all bits fed in, and the complement. */
  lemma {:induction false} CrcValue(data: seq<byte>)
    ensures Checksum(Gzip, data) == Crc(Xor(Register(0xFFFFFFFF, data), 0xFFFFFFFF))
  {
    hide CrcRaw, BitsIn, ByteWord, Xor;
    Twice(Register(0xFFFFFFFF, data));
    if data != [] {
      var n := |data| - 1;
      CrcValue(data[..n]);
      Twice(Register(0xFFFFFFFF, data[..n]));
      ByteIn(Register(0xFFFFFFFF, data[..n]), data[n]);
    }
  }
}
