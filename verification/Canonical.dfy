/** hufcodes: canonical Huffman codes from code lengths (section 3.2.2 of
    RFC 1951), and why they form a complete prefix code exactly when the Kraft
    sum is one. */
module Canonical {
  import opened Bits

  const MAXCODELEN: nat := 16

  type CodeLen = b: int | 0 <= b < 16

  /** How many of the first n symbols have code length len. */
  function CountTo(ls: seq<CodeLen>, n: nat, len: nat): (c: nat)
    requires n <= |ls|
    ensures c <= n
  {
    if n == 0 then 0 else CountTo(ls, n - 1, len) + if ls[n - 1] == len then 1 else 0
  }

  function Count(ls: seq<CodeLen>, len: nat): nat {
    CountTo(ls, |ls|, len)
  }

  /** First code number of the codes of length len. */
  function Start(ls: seq<CodeLen>, len: nat): nat {
    if len <= 1 then 0 else 2 * (Start(ls, len - 1) + Count(ls, len - 1))
  }

  function CodeNum(ls: seq<CodeLen>, i: nat): nat
    requires i < |ls|
  {
    Start(ls, ls[i]) + CountTo(ls, i, ls[i])
  }

  function Reverse(s: seq<bool>): (r: seq<bool>)
    ensures |r| == |s|
  {
    if s == [] then [] else Reverse(s[1..]) + [s[0]]
  }

  /** The code of symbol i in the order its bits are sent: highest bit first. */
  function CodeBits(ls: seq<CodeLen>, i: nat): (s: seq<bool>)
    requires i < |ls|
    ensures |s| == ls[i]
  {
    Reverse(BitsOf(CodeNum(ls, i), ls[i]))
  }

  /** The code of symbol i is a prefix of s. */
  ghost predicate IsCode(ls: seq<CodeLen>, i: int, s: seq<bool>) {
    0 <= i < |ls| && ls[i] > 0 && CodeBits(ls, i) <= s
  }

  /** Where the codes of length len begin when all codes of the first n
      symbols are laid out in order in a space of 2^15. */
  function BaseTo(ls: seq<CodeLen>, n: nat, len: nat): nat
    requires n <= |ls| && len <= 16
  {
    if len <= 1 then 0 else BaseTo(ls, n, len - 1) + CountTo(ls, n, len - 1) * Pow2(15 - (len - 1))
  }

  function Base(ls: seq<CodeLen>, len: nat): nat
    requires len <= 16
  {
    BaseTo(ls, |ls|, len)
  }

  /** The Kraft sum of the first n lengths, scaled by 2^15. */
  function KraftTo(ls: seq<CodeLen>, n: nat): nat
    requires n <= |ls|
  {
    if n == 0 then 0 else KraftTo(ls, n - 1) + if ls[n - 1] > 0 then Pow2(15 - ls[n - 1]) else 0
  }

  lemma {:induction false} BaseAddsSymbol(ls: seq<CodeLen>, n: nat, len: nat)
    requires n < |ls| && len <= 16
    ensures BaseTo(ls, n + 1, len) == BaseTo(ls, n, len) + if 0 < ls[n] < len then Pow2(15 - ls[n]) else 0
  {
    if len > 1 {
      BaseAddsSymbol(ls, n, len - 1);
      if ls[n] == len - 1 {
        Distribute(CountTo(ls, n, len - 1), 1, Pow2(15 - (len - 1)));
      }
    }
  }

  /** Laying the codes out by length or adding them up by symbol is the same. */
  lemma {:induction false} BaseIsKraft(ls: seq<CodeLen>, n: nat)
    requires n <= |ls|
    ensures BaseTo(ls, n, 16) == KraftTo(ls, n)
  {
    if n == 0 {
      BaseOfNothing(ls, 16);
    } else {
      BaseIsKraft(ls, n - 1);
      BaseAddsSymbol(ls, n - 1, 16);
    }
  }

  lemma {:induction false} BaseOfNothing(ls: seq<CodeLen>, len: nat)
    requires len <= 16
    ensures BaseTo(ls, 0, len) == 0
  {
    if len > 1 {
      BaseOfNothing(ls, len - 1);
    }
  }

  /** The codes exactly fill the code space. */
  predicate Complete(ls: seq<CodeLen>) {
    Base(ls, 16) == Pow2(15)
  }

  lemma {:induction false} BaseMonotone(ls: seq<CodeLen>, a: nat, b: nat)
    requires a <= b <= 16
    ensures Base(ls, a) <= Base(ls, b)
    decreases b
  {
    if a < b {
      BaseMonotone(ls, a, b - 1);
    }
  }

  lemma PowStep(len: nat)
    requires 1 <= len <= 15
    ensures Pow2(15 - (len - 1)) == 2 * Pow2(15 - len)
  {
  }

  lemma {:induction false} BaseIsStart(ls: seq<CodeLen>, len: nat)
    requires 1 <= len <= 15
    ensures Base(ls, len) == Start(ls, len) * Pow2(15 - len)
  {
    if len > 1 {
      BaseIsStart(ls, len - 1);
      PowStep(len);
      Doubling(Start(ls, len - 1), Count(ls, len - 1), Pow2(15 - len));
    }
  }

  lemma Doubling(s: nat, c: nat, p: nat)
    ensures s * (2 * p) + c * (2 * p) == (2 * (s + c)) * p
  {
  }

  /** The end of the length-len codes, in units of one length-len code. */
  lemma BaseEnd(ls: seq<CodeLen>, len: nat)
    requires 1 <= len <= 15
    ensures Base(ls, len + 1) == (Start(ls, len) + Count(ls, len)) * Pow2(15 - len)
  {
    BaseIsStart(ls, len);
    Distribute(Start(ls, len), Count(ls, len), Pow2(15 - len));
  }

  lemma Distribute(a: nat, b: nat, p: nat)
    ensures (a + b) * p == a * p + b * p
  {
  }

  // ---- Big-endian values

  function Big(s: seq<bool>): nat {
    if s == [] then 0 else 2 * Big(s[..|s| - 1]) + if s[|s| - 1] then 1 else 0
  }

  lemma {:induction false} BigReverse(v: nat, n: nat)
    requires v < Pow2(n)
    ensures Big(Reverse(BitsOf(v, n))) == v
  {
    if n > 0 {
      BigReverse(v / 2, n - 1);
      var s := Reverse(BitsOf(v, n));
      assert BitsOf(v, n)[1..] == BitsOf(v / 2, n - 1);
      assert s[..|s| - 1] == Reverse(BitsOf(v / 2, n - 1));
    }
  }

  lemma {:induction false} BigPrefix(s: seq<bool>, k: nat)
    requires k <= |s|
    ensures Big(s[..k]) * Pow2(|s| - k) <= Big(s) < (Big(s[..k]) + 1) * Pow2(|s| - k)
  {
    if k == |s| {
      assert s[..k] == s;
    } else {
      var t := s[..|s| - 1];
      BigPrefix(t, k);
      assert t[..k] == s[..k];
      Twice(Big(s[..k]), Pow2(|t| - k), Big(t));
      Twice(Big(s[..k]) + 1, Pow2(|t| - k), Big(t));
      BelowTwice((Big(s[..k]) + 1) * Pow2(|t| - k), Big(t));
    }
  }

  lemma Twice(a: nat, p: nat, b: nat)
    ensures a * (2 * p) == 2 * (a * p)
  {
  }

  lemma BelowTwice(m: nat, b: nat)
    requires b < m
    ensures 2 * b + 1 < 2 * m
  {
  }

  lemma {:induction false} BigInjective(a: seq<bool>, b: seq<bool>)
    requires |a| == |b| && Big(a) == Big(b)
    ensures a == b
  {
    if a != [] {
      var n := |a| - 1;
      BigInjective(a[..n], b[..n]);
      assert a == a[..n] + [a[n]] && b == b[..n] + [b[n]];
    }
  }

  // ---- Intervals

  /** A symbol's share of the code space. */
  function Left(ls: seq<CodeLen>, i: nat): nat
    requires i < |ls|
  {
    CodeNum(ls, i) * Pow2(15 - ls[i])
  }

  function Width(ls: seq<CodeLen>, i: nat): nat
    requires i < |ls|
  {
    Pow2(15 - ls[i])
  }

  lemma {:induction false} RankBelowCount(ls: seq<CodeLen>, i: nat, n: nat)
    requires i < n <= |ls|
    ensures CountTo(ls, i, ls[i]) < CountTo(ls, n, ls[i])
    decreases n
  {
    if i < n - 1 {
      RankBelowCount(ls, i, n - 1);
    }
  }

  lemma IntervalInBlock(ls: seq<CodeLen>, i: nat)
    requires i < |ls| && ls[i] > 0
    ensures Base(ls, ls[i]) <= Left(ls, i) && Left(ls, i) + Width(ls, i) <= Base(ls, ls[i] as int + 1)
  {
    var len := ls[i];
    var p := Pow2(15 - len);
    RankBelowCount(ls, i, |ls|);
    BaseIsStart(ls, len);
    BaseEnd(ls, len);
    MulMono(Start(ls, len), CodeNum(ls, i), p);
    MulMono(CodeNum(ls, i) + 1, Start(ls, len) + Count(ls, len), p);
    Distribute(CodeNum(ls, i), 1, p);
  }

  lemma MulMono(a: nat, b: nat, p: nat)
    requires a <= b
    ensures a * p <= b * p
  {
    assert b * p - a * p == (b - a) * p;
  }

  /** Different symbols own disjoint shares. */
  lemma IntervalsDisjoint(ls: seq<CodeLen>, i: nat, j: nat)
    requires i < |ls| && j < |ls| && ls[i] > 0 && ls[j] > 0
    requires ls[i] < ls[j] || (ls[i] == ls[j] && i < j)
    ensures Left(ls, i) + Width(ls, i) <= Left(ls, j)
  {
    if ls[i] < ls[j] {
      IntervalInBlock(ls, i);
      IntervalInBlock(ls, j);
      BaseMonotone(ls, ls[i] as int + 1, ls[j]);
    } else {
      RankBelowCount(ls, i, j);
      MulMono(CodeNum(ls, i) + 1, CodeNum(ls, j), Pow2(15 - ls[i]));
      Distribute(CodeNum(ls, i), 1, Pow2(15 - ls[i]));
    }
  }

  /** No code number outgrows its length unless the space is overcommitted. */
  lemma CodeNumFits(ls: seq<CodeLen>, i: nat)
    requires i < |ls| && ls[i] > 0 && Base(ls, 16) <= Pow2(15)
    ensures CodeNum(ls, i) < Pow2(ls[i])
    ensures Big(CodeBits(ls, i)) == CodeNum(ls, i)
  {
    IntervalInBlock(ls, i);
    BaseMonotone(ls, ls[i] as int + 1, 16);
    PowSum(ls[i], 15 - ls[i]);
    var p := Pow2(15 - ls[i]);
    Distribute(CodeNum(ls, i), 1, p);
    CancelMul(CodeNum(ls, i) + 1, Pow2(ls[i]), p);
    BigReverse(CodeNum(ls, i), ls[i]);
  }

  lemma CancelMul(a: nat, b: nat, p: nat)
    requires p > 0 && a * p <= b * p
    ensures a <= b
  {
    MulGrows(p, a - b);
    assert p * (a - b) == a * p - b * p;
  }

  /** A 15-bit string starts with symbol i's code exactly when it lies in
      symbol i's share of the code space. */
  lemma CodeIsInterval(ls: seq<CodeLen>, i: nat, s: seq<bool>)
    requires i < |ls| && ls[i] > 0 && Base(ls, 16) <= Pow2(15) && |s| == 15
    ensures IsCode(ls, i, s) <==> Left(ls, i) <= Big(s) < Left(ls, i) + Width(ls, i)
  {
    hide Base, Big, CodeNum, CodeBits, Pow2;
    var k := ls[i];
    var p := Pow2(15 - k);
    CodeNumFits(ls, i);
    BigPrefix(s, k);
    Distribute(CodeNum(ls, i), 1, p);
    if IsCode(ls, i, s) {
      assert s[..k] == CodeBits(ls, i);
    }
    if Left(ls, i) <= Big(s) < Left(ls, i) + Width(ls, i) {
      SameCell(Big(s), Big(s[..k]), CodeNum(ls, i), p);
      BigInjective(s[..k], CodeBits(ls, i));
    }
  }

  lemma SameCell(v: nat, a: nat, b: nat, p: nat)
    requires a * p <= v < (a + 1) * p && b * p <= v < (b + 1) * p
    ensures a == b
  {
    if a < b {
      MulMono(a + 1, b, p);
    } else if b < a {
      MulMono(b + 1, a, p);
    }
  }

  function Pad15(s: seq<bool>): (r: seq<bool>)
    requires |s| <= 15
    ensures |r| == 15 && s <= r
  {
    s + Zeros(15 - |s|)
  }

  /** Codes that both start s belong to one symbol: no code is a prefix of another. */
  lemma PrefixFree(ls: seq<CodeLen>, i: int, j: int, s: seq<bool>)
    requires Base(ls, 16) <= Pow2(15) && IsCode(ls, i, s) && IsCode(ls, j, s)
    ensures i == j
  {
    var t := if |s| >= 15 then s[..15] else Pad15(s);
    assert IsCode(ls, i, t) && IsCode(ls, j, t);
    CodeIsInterval(ls, i, t);
    CodeIsInterval(ls, j, t);
    if ls[i] < ls[j] || (ls[i] == ls[j] && i < j) {
      IntervalsDisjoint(ls, i, j);
    } else if i != j {
      IntervalsDisjoint(ls, j, i);
    }
  }

  lemma {:induction false} NthOfLength(ls: seq<CodeLen>, n: nat, len: nat, rank: nat) returns (i: nat)
    requires n <= |ls| && rank < CountTo(ls, n, len)
    ensures i < n && ls[i] == len && CountTo(ls, i, len) == rank
  {
    if ls[n - 1] == len && CountTo(ls, n - 1, len) == rank {
      i := n - 1;
    } else {
      i := NthOfLength(ls, n - 1, len, rank);
    }
  }

  lemma {:induction false} FindBlock(ls: seq<CodeLen>, v: nat, len: nat) returns (k: nat)
    requires 1 <= len <= 16 && v < Base(ls, len)
    ensures 1 <= k < len && Base(ls, k) <= v < Base(ls, k + 1)
  {
    if Base(ls, len - 1) <= v {
      k := len - 1;
    } else {
      k := FindBlock(ls, v, len - 1);
    }
  }

  /** When the codes fill the space, every 15-bit string starts with a code. */
  lemma EveryStringDecodes(ls: seq<CodeLen>, s: seq<bool>) returns (i: nat)
    requires Complete(ls) && |s| == 15
    ensures IsCode(ls, i, s)
  {
    var v := Big(s);
    BigPrefix(s, 0);
    assert Big(s[..0]) == 0;
    var k := FindBlock(ls, v, 16);
    BaseIsStart(ls, k);
    BaseEnd(ls, k);
    var p := Pow2(15 - k);
    hide Base, BaseTo, Start, Count, CountTo, IsCode, Complete, Big, Left, Width, Pow2;
    var q := DivCell(v, p);
    QuotientBetween(v, q, Start(ls, k), Start(ls, k) + Count(ls, k), p);
    i := NthOfLength(ls, |ls|, k, q - Start(ls, k));
    CellOfRank(ls, i, v, q);
    CodeIsInterval(ls, i, s);
  }

  lemma CellOfRank(ls: seq<CodeLen>, i: nat, v: nat, q: nat)
    requires i < |ls| && ls[i] > 0 && q == Start(ls, ls[i]) + CountTo(ls, i, ls[i])
    requires q * Pow2(15 - ls[i]) <= v < (q + 1) * Pow2(15 - ls[i])
    ensures Left(ls, i) <= v < Left(ls, i) + Width(ls, i)
  {
    hide Start, CountTo, Pow2;
    Distribute(q, 1, Pow2(15 - ls[i]));
  }

  lemma DivCell(v: nat, p: nat) returns (q: nat)
    requires p > 0
    ensures q * p <= v < (q + 1) * p
  {
    q := v / p;
    assert v == p * q + v % p;
    Distribute(q, 1, p);
  }

  lemma QuotientBetween(v: nat, q: nat, a: nat, b: nat, p: nat)
    requires q * p <= v < (q + 1) * p && a * p <= v < b * p
    ensures a <= q < b
  {
    if q < a {
      MulMono(q + 1, a, p);
    } else if b <= q {
      MulMono(b, q, p);
    }
  }

  // ---- The method

  function LongestTo(ls: seq<CodeLen>, n: nat): (m: nat)
    requires n <= |ls|
    ensures m <= 15 && forall i :: 0 <= i < n ==> ls[i] <= m
    ensures m > 0 ==> exists i :: 0 <= i < n && ls[i] == m
  {
    if n == 0 then 0 else
      var m := LongestTo(ls, n - 1);
      if m < ls[n - 1] then ls[n - 1] else m
  }

  /** hufcodes' result: the longest length, or why there is no complete code. */
  function Verdict(ls: seq<CodeLen>): int {
    var k := KraftTo(ls, |ls|);
    if k > Pow2(15) then -1 else if k < Pow2(15) then -2 else LongestTo(ls, |ls|)
  }

  /** The result is non-negative exactly when the Kraft sum is one. */
  lemma VerdictIsKraft(ls: seq<CodeLen>)
    ensures Verdict(ls) >= 0 <==> Complete(ls)
    ensures Complete(ls) ==> 1 <= Verdict(ls) <= 15
  {
    BaseIsKraft(ls, |ls|);
    if Complete(ls) {
      var i := EveryStringDecodes(ls, Zeros(15));
    }
  }

  /** Overcommitment seen at some length is overcommitment in the end. */
  lemma OvercommitStep(ls: seq<CodeLen>, len: nat)
    requires 1 <= len <= 15
    ensures Start(ls, len) + Count(ls, len) > Pow2(len) <==> Base(ls, len + 1) > Pow2(15)
  {
    hide Base, Start, Count, Pow2;
    BaseEnd(ls, len);
    PowSum(len, 15 - len);
    MulCompare(Start(ls, len) + Count(ls, len), Pow2(len), Pow2(15 - len));
  }

  lemma MulCompare(a: nat, b: nat, p: nat)
    requires p > 0
    ensures a > b <==> a * p > b * p
  {
    if a > b {
      MulMono(b + 1, a, p);
      Distribute(b, 1, p);
    } else {
      MulMono(a, b, p);
    }
  }

  /** The counting loop of hufcodes. */
  method CountLengths(lengths: array<CodeLen>, nsyms: nat, count: array<int>) returns (maxlen: nat)
    requires nsyms <= lengths.Length && count.Length == MAXCODELEN
    modifies count
    ensures forall len :: 1 <= len < MAXCODELEN ==> count[len] == CountTo(lengths[..nsyms], nsyms, len)
    ensures maxlen == LongestTo(lengths[..nsyms], nsyms)
  {
    maxlen := 0;
    ghost var ls := lengths[..nsyms];
    for i := 1 to MAXCODELEN
      invariant forall len :: 1 <= len < i ==> count[len] == 0
    {
      count[i] := 0;
    }
    for i := 0 to nsyms
      invariant forall len :: 1 <= len < MAXCODELEN ==> count[len] == CountTo(ls, i, len)
      invariant maxlen == LongestTo(ls, i)
    {
      count[lengths[i]] := count[lengths[i]] + 1;
      if maxlen < lengths[i] {
        maxlen := lengths[i];
      }
    }
  }

  lemma StartAndBase(ls: seq<CodeLen>, i: nat)
    requires i <= 15
    ensures i == 0 ==> Start(ls, 1) == 0 && Base(ls, 1) == 0
    ensures i > 0 ==> Start(ls, i + 1) == 2 * (Start(ls, i) + Count(ls, i)) && Base(ls, i) <= Base(ls, i + 1)
    ensures i > 0 ==> (Start(ls, i) + Count(ls, i) > Pow2(i) <==> Base(ls, i + 1) > Pow2(15))
  {
    if i > 0 {
      OvercommitStep(ls, i);
      BaseMonotone(ls, i, i + 1);
      hide Base, Count, Pow2;
    }
  }

  lemma BaseAtEnd(ls: seq<CodeLen>)
    ensures Base(ls, 16) == KraftTo(ls, |ls|) && Pow2(16) == 2 * Pow2(15)
    ensures 2 * Base(ls, 16) == Start(ls, 16)
  {
    hide *;
    EndUnfolds(ls);
    BaseEnd(ls, 15);
    BaseIsKraft(ls, |ls|);
  }

  lemma EndUnfolds(ls: seq<CodeLen>)
    ensures Pow2(15 - 15) == 1 && Pow2(16) == 2 * Pow2(15)
    ensures Start(ls, 16) == 2 * (Start(ls, 15) + Count(ls, 15))
    ensures Base(ls, 16) == BaseTo(ls, |ls|, 16) && Base(ls, 15 + 1) == Base(ls, 16)
  {
    hide BaseTo, Count, KraftTo;
  }

  /** The loop that assigns the first code number of each length. */
  method StartCodes(count: array<int>, startcode: array<int>, longest: nat, ghost ls: seq<CodeLen>)
    returns (maxlen: int)
    requires count.Length == startcode.Length == MAXCODELEN && count != startcode
    requires forall len :: 1 <= len < MAXCODELEN ==> count[len] == Count(ls, len)
    requires longest == LongestTo(ls, |ls|)
    modifies startcode
    ensures forall len :: 1 <= len < MAXCODELEN ==> startcode[len] == Start(ls, len)
    ensures maxlen == Verdict(ls)
  {
    StartAndBase(ls, 0);
    hide Start, Base, Count, Pow2, KraftTo, LongestTo;
    maxlen := longest;
    var code := 0;
    for i := 1 to MAXCODELEN
      invariant forall len :: 1 <= len < MAXCODELEN ==> count[len] == Count(ls, len)
      invariant forall len :: 1 <= len < i ==> startcode[len] == Start(ls, len)
      invariant code == Start(ls, i)
      invariant maxlen == if Base(ls, i) > Pow2(15) then -1 else longest
    {
      startcode[i] := code;
      code := code + count[i];
      StartAndBase(ls, i);
      if code > Pow2(i) {
        maxlen := -1;
      }
      code := code * 2;
    }
    BaseAtEnd(ls);
    if code < Pow2(16) {
      maxlen := -2;
    }
  }

  /** The mirroring loop of hufcodes, for one code. */
  method Mirror(num: nat, len: nat) returns (mirrored: nat)
    ensures mirrored == Val(Reverse(BitsOf(num, len)))
  {
    mirrored := 0;
    var code := num;
    for j := 0 to len
      invariant code == Shifted(num, j)
      invariant mirrored == Val(Reverse(BitsOf(num, j)))
    {
      MirrorStep(num, j);
      mirrored := mirrored * 2 + code % 2;
      code := code / 2;
    }
  }

  function Shifted(v: nat, j: nat): nat {
    if j == 0 then v else Shifted(v, j - 1) / 2
  }

  lemma {:induction false} MirrorStep(v: nat, j: nat)
    ensures Reverse(BitsOf(v, j + 1)) == [Shifted(v, j) % 2 == 1] + Reverse(BitsOf(v, j))
    ensures Val(Reverse(BitsOf(v, j + 1))) == Shifted(v, j) % 2 + 2 * Val(Reverse(BitsOf(v, j)))
  {
    if j > 0 {
      MirrorStep(v / 2, j - 1);
      ShiftedTwice(v, j);
      assert BitsOf(v, j + 1)[1..] == BitsOf(v / 2, j) && BitsOf(v, j)[1..] == BitsOf(v / 2, j - 1);
    }
    assert Reverse(BitsOf(v, j + 1)) == [Shifted(v, j) % 2 == 1] + Reverse(BitsOf(v, j));
    var r := Reverse(BitsOf(v, j + 1));
    assert r[1..] == Reverse(BitsOf(v, j));
  }

  lemma {:induction false} ShiftedTwice(v: nat, j: nat)
    requires j > 0
    ensures Shifted(v, j) == Shifted(v / 2, j - 1)
  {
    if j > 1 {
      ShiftedTwice(v, j - 1);
    }
  }

  /** hufcodes. */
  method HufCodes(lengths: array<CodeLen>, codes: array<int>, nsyms: nat) returns (maxlen: int)
    requires nsyms <= lengths.Length && nsyms <= codes.Length
    modifies codes
    ensures var ls := lengths[..nsyms];
      && maxlen == Verdict(ls)
      && forall i :: 0 <= i < nsyms ==> codes[i] == Val(CodeBits(ls, i))
  {
    hide CountTo, Start, CodeNum, LongestTo, Verdict, BitsOf, Val, Reverse;
    ghost var ls := lengths[..nsyms];
    var count := new int[MAXCODELEN];
    var startcode := new int[MAXCODELEN];
    var longest := CountLengths(lengths, nsyms, count);
    maxlen := StartCodes(count, startcode, longest, ls);
    AssignStart(ls, startcode[..]);
    for i := 0 to nsyms
      invariant forall len :: 1 <= len < MAXCODELEN ==> startcode[len] == Start(ls, len) + CountTo(ls, i, len)
      invariant forall k :: 0 <= k < i ==> codes[k] == Val(CodeBits(ls, k))
    {
      var len := lengths[i];
      AssignStep(ls, i);
      assert ls[i] == len;
      ghost var before := startcode[..];
      var code := startcode[len];
      startcode[len] := startcode[len] + 1;
      assert forall l :: 1 <= l < MAXCODELEN ==> startcode[l] == before[l] + if l == len then 1 else 0;
      assert forall l :: 1 <= l < MAXCODELEN ==> CountTo(ls, i + 1, l) == CountTo(ls, i, l) + if ls[i] == l then 1 else 0;
      if len > 0 {
        codes[i] := Mirror(code, len);
      } else {
        codes[i] := 0;
      }
    }
  }

  lemma AssignStart(ls: seq<CodeLen>, start: seq<int>)
    requires |start| == MAXCODELEN && forall len :: 1 <= len < MAXCODELEN ==> start[len] == Start(ls, len)
    ensures forall len :: 1 <= len < MAXCODELEN ==> start[len] == Start(ls, len) + CountTo(ls, 0, len)
  {
  }

  lemma AssignStep(ls: seq<CodeLen>, i: nat)
    requires i < |ls|
    ensures forall len {:trigger CountTo(ls, i + 1, len)} ::
      CountTo(ls, i + 1, len) == CountTo(ls, i, len) + if ls[i] == len then 1 else 0
    ensures CodeNum(ls, i) == Start(ls, ls[i]) + CountTo(ls, i, ls[i])
    ensures ls[i] == 0 ==> Val(CodeBits(ls, i)) == 0
  {
  }
}
