/** The container checksums: Adler-32 (RFC 1950) and CRC-32 (RFC 1952). */
module Checksums {
  import opened Bits

  datatype Kind = Bare | Zlib | Gzip

  /** The running value of the container's checksum: two 16-bit sums, or a CRC word. */
  datatype Sum = NoSum | Adler(s1: nat, s2: nat) | Crc(word: bv32)

  const ADLER_MOD: nat := 65521
  const TWO16: nat := 0x1_0000
  const TWO32: nat := 0x1_0000_0000

  function AdlerByte(s1: nat, s2: nat, b: byte): Sum {
    Adler((s1 + b) % ADLER_MOD, (s2 + s1 + b) % ADLER_MOD)
  }

  function Xor(x: bv32, y: bv32): bv32 {
    x ^ y
  }

  /** A shift by eight bits. */
  function Above(x: bv32): bv32 {
    x >> 8
  }

  function LowByte(x: bv32): bv32 {
    x & 0xFF
  }

  /** Entry n of the CRC table: n run through eight steps of the reflected
      polynomial 0xEDB88320. */
  function CrcEntry(n: bv32, steps: nat): bv32
    decreases steps
  {
    if steps == 0 then n
    else CrcEntry(if n & 1 == 1 then (n >> 1) ^ 0xEDB88320 else n >> 1, steps - 1)
  }

  function ByteWord(b: byte): bv32 {
    b as bv32
  }

  function Complement(w: bv32): bv32 {
    Xor(w, 0xFFFFFFFF)
  }

  lemma ComplementTwice(w: bv32)
    ensures Complement(Complement(w)) == w
  {
  }

  function CrcRaw(c: bv32, b: bv32): bv32 {
    Xor(Above(c), CrcEntry(LowByte(Xor(b, c)), 8))
  }

  function Initial(kind: Kind): Sum {
    match kind
    case Bare => NoSum
    case Zlib => Adler(1, 0)
    case Gzip => Crc(0)
  }

  /** One more byte. The CRC is complemented before and after. */
  function UpdateByte(s: Sum, b: byte): Sum {
    match s
    case NoSum => NoSum
    case Adler(s1, s2) => AdlerByte(s1, s2, b)
    case Crc(w) => Crc(Complement(CrcRaw(Complement(w), ByteWord(b))))
  }

  function Updated(s: Sum, data: seq<byte>): Sum {
    if data == [] then s else UpdateByte(Updated(s, data[..|data| - 1]), data[|data| - 1])
  }

  /** The checksum of a byte string. */
  function Checksum(kind: Kind, data: seq<byte>): Sum {
    Updated(Initial(kind), data)
  }

  /** Checksumming piece by piece is checksumming the whole. */
  lemma {:induction false} UpdatedAppend(s: Sum, a: seq<byte>, b: seq<byte>)
    ensures Updated(s, a + b) == Updated(Updated(s, a), b)
  {
    if b == [] {
      assert a + b == a;
    } else {
      var n := |b| - 1;
      UpdatedAppend(s, a, b[..n]);
      assert (a + b)[..|a + b| - 1] == a + b[..n];
    }
  }

  /** a and b are congruent to the two Adler sums. */
  predicate Halves(s: Sum, a: nat, b: nat)
    requires s.Adler?
  {
    a % ADLER_MOD == s.s1 % ADLER_MOD && b % ADLER_MOD == s.s2 % ADLER_MOD
  }

  lemma HalvesStep(s: Sum, a: nat, b: nat, c: byte)
    requires s.Adler? && Halves(s, a, b)
    ensures Halves(UpdateByte(s, c), a + c, b + (a + c))
  {
    ModAdd(a, s.s1, c);
    ModAdd(a + c, s.s1 + c, b);
    ModAdd(b, s.s2, s.s1 + c);
  }

  lemma ModAdd(x: nat, y: nat, c: nat)
    requires x % ADLER_MOD == y % ADLER_MOD
    ensures (x + c) % ADLER_MOD == (y + c) % ADLER_MOD
  {
  }

  predicate Reduced(s: Sum) {
    s.Adler? ==> s.s1 < ADLER_MOD && s.s2 < ADLER_MOD
  }

  lemma {:induction false} AdlerStays(s: Sum, data: seq<byte>)
    requires s.Adler? && Reduced(s)
    ensures Updated(s, data).Adler? && Reduced(Updated(s, data))
  {
    if data != [] {
      AdlerStays(s, data[..|data| - 1]);
    }
  }

  /** adler32_update: the sums run in 32-bit words that never overflow although
      they are reduced only every 4096 bytes. */
  method Adler32Update(s: Sum, data: seq<byte>) returns (r: Sum)
    requires s.Adler? && Reduced(s)
    ensures r == Updated(s, data)
  {
    hide Updated, UpdateByte, Bounded, Halves;
    var s1: nat, s2: nat := s.s1, s.s2;
    StartSums(s);
    ghost var k := 0;
    for i := 0 to |data|
      invariant Updated(s, data[..i]).Adler? && Halves(Updated(s, data[..i]), s1, s2)
      invariant Bounded(s1, s2, k) && (i > 0 ==> k == (i - 1) % 4096)
    {
      UpdatedOne(s, data, i);
      AdlerStays(s, data[..i + 1]);
      HalvesStep(Updated(s, data[..i]), s1, s2, data[i]);
      BoundedStep(s1, s2, k, data[i]);
      s1 := s1 + data[i];
      s2 := s2 + s1;
      assert s2 < TWO32;
      if i % 4096 == 0 {
        ReduceSums(Updated(s, data[..i + 1]), s1, s2);
        s1 := s1 % ADLER_MOD;
        s2 := s2 % ADLER_MOD;
        k := 0;
      } else {
        NextPhase(i);
        k := k + 1;
      }
    }
    AdlerStays(s, data);
    assert data[..|data|] == data;
    SumsAre(Updated(s, data), s1, s2);
    r := Adler(s1 % ADLER_MOD, s2 % ADLER_MOD);
  }

  lemma StartSums(s: Sum)
    requires s.Adler? && Reduced(s)
    ensures Updated(s, []) == s && Halves(s, s.s1, s.s2) && Bounded(s.s1, s.s2, 0)
  {
  }

  lemma SumsAre(s: Sum, s1: nat, s2: nat)
    requires s.Adler? && Reduced(s) && Halves(s, s1, s2)
    ensures s == Adler(s1 % ADLER_MOD, s2 % ADLER_MOD)
  {
  }

  lemma NextPhase(i: nat)
    requires i % 4096 != 0
    ensures i % 4096 == (i - 1) % 4096 + 1
  {
  }

  function Triangle(k: nat): nat {
    if k == 0 then 0 else Triangle(k - 1) + k
  }

  lemma {:induction false} TriangleBound(k: nat)
    ensures 2 * Triangle(k) == k * (k + 1)
    ensures k <= 4096 ==> 2 * Triangle(k) <= 4097 * k
  {
    if k > 0 {
      TriangleBound(k - 1);
      NextProduct(k);
    }
    if k <= 4096 {
      MulGrows(k, 4096 - k);
      SplitProduct(k);
    }
  }

  lemma NextProduct(k: int)
    ensures k * (k + 1) == (k - 1) * k + 2 * k
  {
  }

  lemma SplitProduct(k: int)
    ensures 4097 * k == k * (k + 1) + k * (4096 - k)
  {
  }

  /** How far the unreduced sums can have grown k bytes after a reduction. */
  predicate Bounded(s1: nat, s2: nat, k: nat) {
    s1 <= 65520 + 255 * k && s2 <= 65520 + 65520 * k + 255 * Triangle(k) && k < 4096
  }

  lemma BoundedStep(s1: nat, s2: nat, k: nat, b: byte)
    requires Bounded(s1, s2, k)
    ensures s1 + b < TWO32 && s2 + (s1 + b) < TWO32
    ensures k + 1 < 4096 ==> Bounded(s1 + b, s2 + (s1 + b), k + 1)
  {
    TriangleBound(k + 1);
  }

  lemma ReduceSums(s: Sum, a: nat, b: nat)
    requires s.Adler? && Halves(s, a, b)
    ensures Halves(s, a % ADLER_MOD, b % ADLER_MOD) && Bounded(a % ADLER_MOD, b % ADLER_MOD, 0)
  {
  }

  lemma UpdatedNothing(s: Sum)
    ensures Updated(s, []) == s
  {
  }

  lemma UpdatedOne(s: Sum, data: seq<byte>, i: nat)
    requires i < |data|
    ensures Updated(s, data[..i + 1]) == UpdateByte(Updated(s, data[..i]), data[i])
  {
    assert data[..i + 1][..i] == data[..i];
  }

  /** crc32_update: complement, fold every byte in, complement back. */
  method Crc32Update(s: Sum, data: seq<byte>) returns (r: Sum)
    requires s.Crc?
    ensures r == Updated(s, data)
  {
    hide Updated, CrcEntry, ByteWord, Complement, Xor, Above, LowByte;
    var crcword := Complement(s.word);
    UpdatedNothing(s);
    ComplementTwice(s.word);
    for i := 0 to |data|
      invariant Updated(s, data[..i]) == Crc(Complement(crcword))
    {
      UpdatedOne(s, data, i);
      ComplementTwice(crcword);
      var newbyte := ByteWord(data[i]);
      assert UpdateByte(Crc(Complement(crcword)), data[i]) == Crc(Complement(CrcRaw(crcword, newbyte)));
      newbyte := LowByte(Xor(newbyte, crcword));
      crcword := Xor(Above(crcword), CrcEntry(newbyte, 8));
    }
    assert data[..|data|] == data;
    r := Crc(Complement(crcword));
  }

  /** The checksum as the 32-bit number stored in the container. */
  function Word(s: Sum): (w: nat)
    requires Reduced(s)
    ensures w < TWO32
  {
    match s
    case NoSum => 0
    case Adler(s1, s2) => s2 * TWO16 + s1
    case Crc(w) => w as nat
  }
}
