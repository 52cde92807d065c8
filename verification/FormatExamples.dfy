/** What a few items look like in the formats of the small codecs, byte by byte. */
module FormatExamples {
  import opened Bits
  import opened Tokens
  import FastLz
  import Lengths
  import Lzfx
  import Lzp
  import Lzss
  import Lzwc
  import Shrinker

  /** LZP: a length counts 254 for each zero behind a byte that is one more than the rest; read from the end. */
  lemma LzpLengths()
    ensures Lzp.LengthBytes(0) == [1] && Lzp.LengthBytes(253) == [254]
    ensures Lzp.LengthBytes(254) == [1, 0] && Lzp.LengthBytes(600) == [93, 0, 0]
  {
    assert Lzp.LengthBytes(92) == [93] && Lzp.LengthBytes(346) == [93, 0];
  }

  /** LZSS: six bits of length below the low two of the distance, then eight and eight more; a flag for each item,
      the first in the lowest bit. */
  lemma LzssItems()
    ensures Lzss.ItemBytes(Copy(0x12347, 10)) == [0x87, 0xD1, 0x48]
    ensures Lzss.FlagBits([Literal(65), Copy(1, 3), Copy(1, 66)]) == 6
    ensures Lzss.AllFit([Literal(65), Copy(1, 66)]) && Lzss.Groups([Literal(65), Copy(1, 66)]) == [2, 65, 63, 0, 0]
  {
    var ts := [Literal(65), Copy(1, 3), Copy(1, 66)];
    assert ts[1..] == [Copy(1, 3), Copy(1, 66)] && ts[1..][1..] == [Copy(1, 66)] && ts[1..][1..][1..] == [];
    assert Lzss.FlagBits(ts[1..][1..][1..]) == 0;
    var us := [Literal(65), Copy(1, 66)];
    assert us[1..] == [Copy(1, 66)] && us[1..][1..] == [];
    assert Lzss.Payload(us[1..][1..]) == [] && Lzss.FlagBits(us[1..][1..]) == 0;
    assert Lzss.ItemBytes(Copy(1, 66)) == [63, 0, 0];
    assert Lzss.Payload(us) == [65] + Lzss.Payload(us[1..]) && Lzss.Payload(us[1..]) == [63, 0, 0] + [];
  }

  /** LZFX: three bits of length and thirteen of distance; lengths from nine on have a byte of their own between. */
  lemma LzfxReferences()
    ensures Lzfx.RefBytes(0x123, 5) == [0x61, 0x23]
    ensures Lzfx.RefBytes(0x123, 20) == [0xE1, 11, 0x23]
  {
  }

  /** FastLZ: as LZFX at level 1; at level 2 lengths go on in bytes of 255, and 31, 255 is no near distance. */
  lemma FastReferences()
    ensures FastLz.RefBytes(1, 0x123, 3) == [0x61, 0x23]
    ensures FastLz.RefBytes(1, 0x123, 18) == [0xE1, 11, 0x23]
    ensures FastLz.RefBytes(2, 0x123, 300) == [0xE1, 255, 38, 0x23]
    ensures FastLz.RefBytes(2, 8191 + 0x1234, 3) == [0x7F, 255, 0x12, 0x34]
  {
    assert Lengths.Tail(11) == [11] && Lengths.Tail(38) == [38] && Lengths.Tail(293) == [255] + Lengths.Tail(38);
  }

  /** LZWC: two bytes a code, the high one first. */
  lemma LzwcCodes()
    ensures Lzwc.CodeBytes([0x102, 0x41]) == [1, 2, 0, 0x41]
  {
    var cs: seq<nat> := [0x102, 0x41];
    assert cs[..1] == [0x102] && cs[..1][..0] == [];
    assert Lzwc.CodeBytes(cs[..1][..0]) == [];
    assert Lzwc.CodeBytes(cs[..1]) == [1, 2];
  }

  /** Shrinker: three bits of literals, one for a long distance, four of length; what does not fit follows, then the
      distance less one, then the literals. The end has the distance 0xffff. */
  lemma ShrinkerCommands()
    ensures Shrinker.CommandBytes(Shrinker.Command([1, 2], 1, 4)) == [0x40, 0, 1, 2]
    ensures Shrinker.CommandBytes(Shrinker.Command([], 0x101, 22)) == [0x1F, 3, 0, 1]
    ensures Shrinker.EndBytes([9]) == [0x37, 0xFF, 0xFF, 9]
  {
    assert Lengths.Tail(3) == [3];
  }
}
