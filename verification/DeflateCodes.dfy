/** Deflate's length and distance codes (section 3.2.5 of RFC 1951) and the
    transmission order of code-length code lengths (section 3.2.7). */
module DeflateCodes {
  import opened Bits

  datatype CodeRecord = CodeRecord(code: nat, extrabits: nat, min: nat, max: nat)

  const LENCODES: seq<CodeRecord> := [
    CodeRecord(257, 0, 3, 3), CodeRecord(258, 0, 4, 4), CodeRecord(259, 0, 5, 5),
    CodeRecord(260, 0, 6, 6), CodeRecord(261, 0, 7, 7), CodeRecord(262, 0, 8, 8),
    CodeRecord(263, 0, 9, 9), CodeRecord(264, 0, 10, 10), CodeRecord(265, 1, 11, 12),
    CodeRecord(266, 1, 13, 14), CodeRecord(267, 1, 15, 16), CodeRecord(268, 1, 17, 18),
    CodeRecord(269, 2, 19, 22), CodeRecord(270, 2, 23, 26), CodeRecord(271, 2, 27, 30),
    CodeRecord(272, 2, 31, 34), CodeRecord(273, 3, 35, 42), CodeRecord(274, 3, 43, 50),
    CodeRecord(275, 3, 51, 58), CodeRecord(276, 3, 59, 66), CodeRecord(277, 4, 67, 82),
    CodeRecord(278, 4, 83, 98), CodeRecord(279, 4, 99, 114), CodeRecord(280, 4, 115, 130),
    CodeRecord(281, 5, 131, 162), CodeRecord(282, 5, 163, 194), CodeRecord(283, 5, 195, 226),
    CodeRecord(284, 5, 227, 257), CodeRecord(285, 0, 258, 258)
  ]

  const DISTCODES: seq<CodeRecord> := [
    CodeRecord(0, 0, 1, 1), CodeRecord(1, 0, 2, 2), CodeRecord(2, 0, 3, 3),
    CodeRecord(3, 0, 4, 4), CodeRecord(4, 1, 5, 6), CodeRecord(5, 1, 7, 8),
    CodeRecord(6, 2, 9, 12), CodeRecord(7, 2, 13, 16), CodeRecord(8, 3, 17, 24),
    CodeRecord(9, 3, 25, 32), CodeRecord(10, 4, 33, 48), CodeRecord(11, 4, 49, 64),
    CodeRecord(12, 5, 65, 96), CodeRecord(13, 5, 97, 128), CodeRecord(14, 6, 129, 192),
    CodeRecord(15, 6, 193, 256), CodeRecord(16, 7, 257, 384), CodeRecord(17, 7, 385, 512),
    CodeRecord(18, 8, 513, 768), CodeRecord(19, 8, 769, 1024), CodeRecord(20, 9, 1025, 1536),
    CodeRecord(21, 9, 1537, 2048), CodeRecord(22, 10, 2049, 3072), CodeRecord(23, 10, 3073, 4096),
    CodeRecord(24, 11, 4097, 6144), CodeRecord(25, 11, 6145, 8192), CodeRecord(26, 12, 8193, 12288),
    CodeRecord(27, 12, 12289, 16384), CodeRecord(28, 13, 16385, 24576), CodeRecord(29, 13, 24577, 32768)
  ]

  /** The order in which code-length code lengths are sent. */
  const LENLENMAP: seq<nat> := [16, 17, 18, 0, 8, 7, 9, 6, 10, 5, 11, 4, 12, 3, 13, 2, 14, 1, 15]

  lemma LenLenMapRange(k: nat)
    requires k < |LENLENMAP|
    ensures LENLENMAP[k] < 19
  {
    if k < 10 {
      assert LENLENMAP[k] < 19;
    }
  }

  /** Record k numbers its code base + k, and its extra bits reach from min to max. */
  predicate RecordOk(r: CodeRecord, base: nat, k: nat) {
    r.code == base + k && 1 <= r.min <= r.max <= 32768 && r.extrabits <= 13 && r.max - r.min < Pow2(r.extrabits)
  }

  /** The records number their codes in order and tile [lo, hi]. */
  predicate Tiles(rs: seq<CodeRecord>, base: nat, lo: nat, hi: nat) {
    && |rs| > 0 && rs[0].min == lo && rs[|rs| - 1].max == hi
    && (forall k :: 0 <= k < |rs| ==> RecordOk(rs[k], base, k))
    && (forall k, m :: 0 <= k && m == k + 1 < |rs| ==> rs[m].min == rs[k].max + 1)
  }

  lemma Powers()
    ensures Pow2(0) == 1 && Pow2(1) == 2 && Pow2(2) == 4 && Pow2(3) == 8 && Pow2(4) == 16 && Pow2(5) == 32
    ensures Pow2(6) == 64 && Pow2(7) == 128 && Pow2(8) == 256 && Pow2(9) == 512 && Pow2(10) == 1024
    ensures Pow2(11) == 2048 && Pow2(12) == 4096 && Pow2(13) == 8192
  {
    assert Pow2(2) == 4 && Pow2(4) == 16 && Pow2(6) == 64 && Pow2(8) == 256 && Pow2(10) == 1024;
  }

  lemma LenCodesTile()
    ensures |LENCODES| == 29 && Tiles(LENCODES, 257, 3, 258)
  {
    Powers();
    hide Pow2;
    forall k | 0 <= k < |LENCODES|
      ensures RecordOk(LENCODES[k], 257, k)
    {
    }
  }

  lemma DistRecordsOk()
    ensures |DISTCODES| == 30 && forall k :: 0 <= k < 30 ==> RecordOk(DISTCODES[k], 0, k)
  {
    Powers();
    hide Pow2;
    forall k | 0 <= k < |DISTCODES|
      ensures RecordOk(DISTCODES[k], 0, k)
    {
    }
  }

  lemma DistCodesTile()
    ensures |DISTCODES| == 30 && Tiles(DISTCODES, 0, 1, 32768)
  {
    hide Pow2, RecordOk;
    DistRecordsOk();
  }

  lemma {:induction false} TilesIncrease(rs: seq<CodeRecord>, base: nat, lo: nat, hi: nat, k: nat, m: nat)
    requires Tiles(rs, base, lo, hi) && k < m < |rs|
    ensures rs[k].max < rs[m].min
    decreases m
  {
    assert rs[m].min == rs[m - 1].max + 1;
    if k < m - 1 {
      TilesIncrease(rs, base, lo, hi, k, m - 1);
      assert RecordOk(rs[m - 1], base, m - 1);
    }
  }

  /** The binary search of match(): the record whose range holds v. */
  method FindRecord(rs: seq<CodeRecord>, v: nat, ghost base: nat, ghost lo: nat, ghost hi: nat) returns (k: nat)
    requires Tiles(rs, base, lo, hi) && lo <= v <= hi
    ensures k < |rs| && rs[k].min <= v <= rs[k].max
  {
    var i, j := -1, |rs|;
    while true
      invariant -1 <= i < j <= |rs|
      invariant i >= 0 ==> rs[i].max < v
      invariant j < |rs| ==> v < rs[j].min
      decreases j - i
    {
      assert j - i >= 2;
      k := (j + i) / 2;
      if v < rs[k].min {
        j := k;
      } else if v > rs[k].max {
        i := k;
      } else {
        return;
      }
    }
  }

  /** Only one record holds a value. */
  lemma RecordUnique(rs: seq<CodeRecord>, base: nat, lo: nat, hi: nat, k: nat, m: nat, v: nat)
    requires Tiles(rs, base, lo, hi) && k < |rs| && m < |rs|
    requires rs[k].min <= v <= rs[k].max && rs[m].min <= v <= rs[m].max
    ensures k == m
  {
    if k < m {
      TilesIncrease(rs, base, lo, hi, k, m);
    } else if m < k {
      TilesIncrease(rs, base, lo, hi, m, k);
    }
  }
}
