/** LZWC: a trie of strings that the decoder rebuilds, one entry behind the encoder. */
module Lzwc {
  import opened Bits

  const LIMIT: nat := 65536
  const ROOT: int := -1

  /** A node of the trie: the string of its parent, and one byte more. */
  datatype Node = Node(parent: int, val: byte)

  predicate NodeOk(dict: seq<Node>, i: nat)
    requires i < |dict|
  {
    ROOT <= dict[i].parent < i && (i < 256 ==> dict[i] == Node(ROOT, i))
  }

  /** Parents come first, and the first 256 entries are the bytes. */
  predicate Trie(dict: seq<Node>) {
    && 256 <= |dict| <= LIMIT
    && forall i :: 0 <= i < |dict| ==> NodeOk(dict, i)
  }

  /** The string a node stands for. */
  function Str(dict: seq<Node>, k: int): (s: seq<byte>)
    requires Trie(dict) && ROOT <= k < |dict|
    ensures |s| <= k + 1 && (s == [] <==> k == ROOT)
    decreases k
  {
    if k == ROOT then [] else
      assert NodeOk(dict, k);
      Str(dict, dict[k].parent) + [dict[k].val]
  }

  function First(dict: seq<Node>, k: nat): byte
    requires Trie(dict) && k < |dict|
  {
    Str(dict, k)[0]
  }

  lemma TrieGrows(dict: seq<Node>, n: Node)
    requires Trie(dict) && |dict| < LIMIT && ROOT <= n.parent < |dict|
    ensures Trie(dict + [n])
  {
    forall i | 0 <= i < |dict + [n]| ensures NodeOk(dict + [n], i) {
      if i < |dict| {
        assert NodeOk(dict, i);
      }
    }
  }

  /** Later entries do not change earlier strings. */
  lemma {:induction false} StrStays(a: seq<Node>, b: seq<Node>, k: int)
    requires Trie(a) && Trie(b) && ROOT <= k < |a| && a <= b
    ensures Str(a, k) == Str(b, k)
    decreases k
  {
    if k != ROOT {
      assert NodeOk(a, k) && a[k] == b[k];
      StrStays(a, b, a[k].parent);
    }
  }

  lemma {:induction false} FirstOfParent(dict: seq<Node>, k: nat)
    requires Trie(dict) && k < |dict|
    ensures dict[k].parent == ROOT ==> First(dict, k) == dict[k].val
    ensures dict[k].parent != ROOT ==> 0 <= dict[k].parent < k && First(dict, k) == First(dict, dict[k].parent)
  {
    assert NodeOk(dict, k);
  }

  /** No two entries have the same parent and byte. */
  ghost predicate Distinct(dict: seq<Node>) {
    forall i, j :: 0 <= i < j < |dict| ==> dict[i] != dict[j]
  }

  /** Then no two entries stand for the same string. */
  lemma {:induction false} StringsDiffer(dict: seq<Node>, i: int, j: int)
    requires Trie(dict) && Distinct(dict) && ROOT <= i < |dict| && ROOT <= j < |dict| && Str(dict, i) == Str(dict, j)
    ensures i == j
    decreases i
  {
    if i != ROOT && j != ROOT {
      assert NodeOk(dict, i) && NodeOk(dict, j);
      var a, b := Str(dict, i), Str(dict, j);
      assert a[..|a| - 1] == Str(dict, dict[i].parent) && b[..|b| - 1] == Str(dict, dict[j].parent);
      assert a[|a| - 1] == dict[i].val && b[|b| - 1] == dict[j].val;
      StringsDiffer(dict, dict[i].parent, dict[j].parent);
    }
  }

  // ---- Codes

  predicate Codes(dict: seq<Node>, cs: seq<nat>) {
    forall j :: 0 <= j < |cs| ==> cs[j] < |dict|
  }

  /** What codes stand for. */
  function Spelled(dict: seq<Node>, cs: seq<nat>): seq<byte>
    requires Trie(dict) && Codes(dict, cs)
  {
    if cs == [] then [] else Spelled(dict, cs[..|cs| - 1]) + Str(dict, cs[|cs| - 1])
  }

  /** Two bytes a code, high byte first. */
  function CodeBytes(cs: seq<nat>): (b: seq<byte>)
    requires forall j :: 0 <= j < |cs| ==> cs[j] < LIMIT
    ensures |b| == 2 * |cs|
  {
    if cs == [] then [] else CodeBytes(cs[..|cs| - 1]) + [cs[|cs| - 1] / 256, cs[|cs| - 1] % 256]
  }

  /** Code j is known when it is written, and the entry made with it is its string and the
      first byte of the next one, until the dictionary is full. */
  ghost predicate Link(dict: seq<Node>, cs: seq<nat>, j: nat)
    requires Trie(dict) && j < |cs|
  {
    && cs[j] < |dict| && cs[j] < 256 + j
    && (j + 1 < |cs| && 256 + j < LIMIT ==>
          256 + j < |dict| && cs[j + 1] < |dict| && dict[256 + j] == Node(cs[j], First(dict, cs[j + 1])))
  }

  ghost predicate Lockstep(dict: seq<Node>, cs: seq<nat>) {
    Trie(dict) && forall j :: 0 <= j < |cs| ==> Link(dict, cs, j)
  }

  lemma LockstepCodes(dict: seq<Node>, cs: seq<nat>)
    requires Lockstep(dict, cs)
    ensures Codes(dict, cs)
  {
    forall j | 0 <= j < |cs| ensures cs[j] < |dict| {
      assert Link(dict, cs, j);
    }
  }

  /** The first k codes are in lockstep with the same dictionary. */
  lemma LockstepPrefix(dict: seq<Node>, cs: seq<nat>, k: nat)
    requires Lockstep(dict, cs) && k <= |cs|
    ensures Lockstep(dict, cs[..k])
  {
    forall j | 0 <= j < k ensures Link(dict, cs[..k], j) {
      assert Link(dict, cs, j);
    }
  }

  lemma {:induction false} SpelledStays(a: seq<Node>, b: seq<Node>, cs: seq<nat>)
    requires Trie(a) && Trie(b) && a <= b && Codes(a, cs) && Codes(b, cs)
    ensures Spelled(a, cs) == Spelled(b, cs)
  {
    if cs != [] {
      SpelledStays(a, b, cs[..|cs| - 1]);
      StrStays(a, b, cs[|cs| - 1]);
    }
  }

  lemma SpelledOne(dict: seq<Node>, cs: seq<nat>, c: nat)
    requires Trie(dict) && Codes(dict, cs) && c < |dict|
    ensures Codes(dict, cs + [c]) && Spelled(dict, cs + [c]) == Spelled(dict, cs) + Str(dict, c)
  {
    assert (cs + [c])[..|cs|] == cs;
  }

  lemma BytesOne(cs: seq<nat>, c: nat)
    requires (forall j :: 0 <= j < |cs| ==> cs[j] < LIMIT) && c < LIMIT
    ensures CodeBytes(cs + [c]) == CodeBytes(cs) + [c / 256, c % 256]
  {
    assert (cs + [c])[..|cs|] == cs;
  }

  // ---- The dictionary

  /** The subnodes are exactly the entries: no string is entered twice. */
  ghost predicate Linked(dict: seq<Node>, sub: map<Node, nat>) {
    && (forall n :: n in sub ==> sub[n] < |dict| && dict[sub[n]] == n)
    && (forall i :: 0 <= i < |dict| ==> dict[i] in sub && sub[dict[i]] == i)
  }

  lemma LinkedIsDistinct(dict: seq<Node>, sub: map<Node, nat>)
    requires Linked(dict, sub)
    ensures Distinct(dict)
  {
  }

  lemma LinkedMore(dict: seq<Node>, sub: map<Node, nat>, n: Node)
    requires Linked(dict, sub) && n !in sub
    ensures Linked(dict + [n], sub[n := |dict|])
  {
  }

  // ---- The longest string there is

  /** How many entries there are when code j is written. */
  function EntriesAt(j: nat): (n: nat)
    ensures 256 <= n <= 65536
  {
    if 256 + j < 65536 then 256 + j else 65536
  }

  /** Of all strings entered when code j is written, that of c is the longest with which the input goes on at pos. */
  ghost predicate LongestAt(dict: seq<Node>, j: nat, c: nat, input: seq<byte>, pos: nat) {
    && Trie(dict) && c < EntriesAt(j) <= |dict| && pos <= |input| && Str(dict, c) <= input[pos..]
    && forall k: nat :: k < EntriesAt(j) && Str(dict, k) <= input[pos..] ==> |Str(dict, k)| <= |Str(dict, c)|
  }

  ghost predicate Greedy(dict: seq<Node>, cs: seq<nat>, input: seq<byte>) {
    && Trie(dict) && Codes(dict, cs)
    && forall j :: 0 <= j < |cs| ==> LongestAt(dict, j, cs[j], input, |Spelled(dict, cs[..j])|)
  }

  /** A string that goes on as no entry does is the longest. */
  lemma {:induction false} NoLonger(dict: seq<Node>, node: nat, c: byte, rest: seq<byte>, k: int)
    requires Trie(dict) && Distinct(dict) && node < |dict| && ROOT <= k < |dict| && Node(node, c) !in dict
    requires Str(dict, node) + [c] <= rest && Str(dict, k) <= rest
    ensures |Str(dict, k)| <= |Str(dict, node)|
    decreases k
  {
    hide Distinct;
    if k != ROOT && |Str(dict, k)| > |Str(dict, node)| {
      assert NodeOk(dict, k);
      var q, a, n := dict[k].parent, Str(dict, k), |Str(dict, node)|;
      assert Str(dict, q) == a[..|a| - 1];
      NoLonger(dict, node, c, rest, q);
      assert |a| == n + 1 && Str(dict, q) == rest[..n] == Str(dict, node) && dict[k].val == a[n] == rest[n] == c;
      assert dict[k] in dict && dict[k] == Node(q, c);
      StringsDiffer(dict, q, node);
    }
  }

  /** Later entries do not matter to the code j. */
  lemma LongestStays(dict: seq<Node>, dict': seq<Node>, j: nat, c: nat, input: seq<byte>, pos: nat)
    requires LongestAt(dict, j, c, input, pos) && Trie(dict') && dict <= dict'
    ensures LongestAt(dict', j, c, input, pos)
  {
    hide Str, Trie;
    StrStays(dict, dict', c);
    forall k: nat | k < EntriesAt(j) && Str(dict', k) <= input[pos..]
      ensures |Str(dict', k)| <= |Str(dict', c)|
    {
      StrStays(dict, dict', k);
    }
  }

  class LzwBase {
    /** Entry k is node k; nodes point to their parents by number. */
    var dict: seq<Node>
    /** The subnodes of all nodes: from a parent and a byte to a node. */
    var sub: map<Node, nat>
    var node: int

    predicate Valid()
      reads this
    {
      Trie(dict) && ROOT <= node < |dict|
    }

    /** lzwbase_init(1). */
    constructor ()
      ensures Valid() && Linked(dict, sub) && |dict| == 256 && node == ROOT
    {
      dict, sub, node := [], map[], ROOT;
      new;
      for c := 0 to 256
        invariant |dict| == c && Linked(dict, sub) && node == ROOT
        invariant forall i :: 0 <= i < c ==> dict[i] == Node(ROOT, i)
      {
        var n := Node(ROOT, c);
        LinkedMore(dict, sub, n);
        dict, sub := dict + [n], sub[n := c];
      }
    }

    lemma TrieOf()
      requires Valid()
      ensures Trie(dict) && ROOT <= node < |dict| && 256 <= |dict| <= LIMIT
    {
    }

    lemma ValidIs()
      requires Trie(dict) && ROOT <= node < |dict|
      ensures Valid()
    {
    }

    /** A new entry, unless the dictionary is full. */
    method Add(parent: int, val: byte)
      requires Valid() && ROOT <= parent < |dict|
      modifies `dict, `sub
      ensures Valid() && dict == if old(|dict|) < LIMIT then old(dict) + [Node(parent, val)] else old(dict)
      ensures Linked(old(dict), old(sub)) && Node(parent, val) !in old(sub) ==> Linked(dict, sub)
    {
      if |dict| < LIMIT {
        var n := Node(parent, val);
        TrieGrows(dict, n);
        if n !in sub && Linked(dict, sub) {
          LinkedMore(dict, sub, n);
        }
        dict, sub := dict + [n], sub[n := |dict|];
      }
    }
  }

  // ---- The encoder

  /** After some input: the codes written, and the string the current node stands for. */
  ghost predicate Coding(dict: seq<Node>, cs: seq<nat>, node: int, input: seq<byte>, ip: nat) {
    && Lockstep(dict, cs) && Codes(dict, cs) && ROOT <= node < |dict| && ip <= |input|
    && |dict| == (if 256 + |cs| < LIMIT then 256 + |cs| else LIMIT)
    && (node == ROOT <==> ip == 0) && (node == ROOT ==> cs == [])
    && Spelled(dict, cs) + Str(dict, node) == input[..ip]
    && (cs != [] && 255 + |cs| < LIMIT ==> dict[255 + |cs|] == Node(cs[|cs| - 1], First(dict, node)))
  }

  lemma CodingStart(dict: seq<Node>, input: seq<byte>)
    requires Trie(dict) && |dict| == 256
    ensures Coding(dict, [], ROOT, input, 0)
  {
  }

  /** A known string: one step down the trie. */
  lemma Descend(dict: seq<Node>, cs: seq<nat>, node: int, input: seq<byte>, ip: nat, next: nat)
    requires Coding(dict, cs, node, input, ip) && ip < |input| && next < |dict| && dict[next] == Node(node, input[ip])
    ensures Coding(dict, cs, next, input, ip + 1)
  {
    hide Spelled, Lockstep;
    LockstepTrie(dict, cs);
    FirstOfParent(dict, next);
    assert input[..ip + 1] == input[..ip] + [input[ip]];
    assert Spelled(dict, cs) + Str(dict, next) == Spelled(dict, cs) + Str(dict, node) + [input[ip]];
  }

  lemma LockstepTrie(dict: seq<Node>, cs: seq<nat>)
    requires Lockstep(dict, cs)
    ensures Trie(dict)
  {
  }

  /** A new string: its code, its entry, and back to the byte alone. */
  lemma Emit(dict: seq<Node>, cs: seq<nat>, node: int, input: seq<byte>, ip: nat, dict': seq<Node>)
    requires Coding(dict, cs, node, input, ip) && 0 < ip < |input| && Trie(dict')
    requires dict' == if |dict| < LIMIT then dict + [Node(node, input[ip])] else dict
    ensures node >= 0 && Coding(dict', cs + [node], input[ip], input, ip + 1)
  {
    hide Spelled, Str;
    var c := input[ip];
    assert NodeOk(dict', c);
    ByteString(dict', c);
    EmitLockstep(dict, cs, node, dict');
    SpelledStays(dict, dict', cs);
    StrStays(dict, dict', node);
    SpelledOne(dict', cs, node);
    assert input[..ip + 1] == input[..ip] + [c];
  }

  lemma ByteString(dict: seq<Node>, c: byte)
    requires Trie(dict)
    ensures Str(dict, c) == [c] && First(dict, c) == c
  {
    assert NodeOk(dict, c);
  }

  lemma EmitLockstep(dict: seq<Node>, cs: seq<nat>, node: nat, dict': seq<Node>)
    requires Lockstep(dict, cs) && Codes(dict, cs) && node < |dict| && Trie(dict') && dict <= dict'
    requires |dict| == (if 256 + |cs| < LIMIT then 256 + |cs| else LIMIT)
    requires cs != [] && 255 + |cs| < LIMIT ==> dict[255 + |cs|] == Node(cs[|cs| - 1], First(dict, node))
    ensures Lockstep(dict', cs + [node]) && Codes(dict', cs + [node])
  {
    hide Str;
    var cs' := cs + [node];
    forall j | 0 <= j < |cs'| ensures Link(dict', cs', j) && cs'[j] < |dict'| {
      if j < |cs| {
        assert Link(dict, cs, j);
        if j + 1 < |cs| {
          StrStays(dict, dict', cs[j + 1]);
        } else {
          StrStays(dict, dict', node);
        }
      }
    }
  }

  /** What is written when a string cannot be continued is the longest there is. */
  lemma EmitGreedy(dict: seq<Node>, cs: seq<nat>, node: nat, input: seq<byte>, ip: nat, dict': seq<Node>)
    requires Coding(dict, cs, node, input, ip) && ip < |input| && Distinct(dict) && Node(node, input[ip]) !in dict
    requires Greedy(dict, cs, input) && Trie(dict') && dict <= dict'
    ensures Greedy(dict', cs + [node], input)
  {
    hide Str, Spelled, Distinct, LongestAt, Lockstep;
    var cs', n := cs + [node], |cs|;
    CodingParts(dict, cs, node, input, ip);
    SpelledOne(dict, cs, node);
    SpelledStays(dict, dict', cs);
    assert cs'[..n] == cs;
    EmitLongest(dict, cs, node, input, ip);
    LongestStays(dict, dict', n, node, input, |Spelled(dict, cs)|);
    forall j | 0 <= j < |cs'| ensures cs'[j] < |dict'| && Codes(dict', cs'[..j]) && LongestAt(dict', j, cs'[j], input, |Spelled(dict', cs'[..j])|) {
      if j < n {
        assert cs'[..j] == cs[..j];
        SpelledStays(dict, dict', cs[..j]);
        LongestStays(dict, dict', j, cs[j], input, |Spelled(dict, cs[..j])|);
      }
    }
  }

  lemma EmitLongest(dict: seq<Node>, cs: seq<nat>, node: nat, input: seq<byte>, ip: nat)
    requires Coding(dict, cs, node, input, ip) && ip < |input| && Distinct(dict) && Node(node, input[ip]) !in dict
    ensures Trie(dict) && Codes(dict, cs) && LongestAt(dict, |cs|, node, input, |Spelled(dict, cs)|)
  {
    hide Str, Spelled, Distinct, Lockstep;
    CodingParts(dict, cs, node, input, ip);
    var pos, s := |Spelled(dict, cs)|, Str(dict, node);
    var rest := input[pos..];
    assert Spelled(dict, cs) + s == input[..ip];
    GoesOn(input, Spelled(dict, cs), s, ip);
    forall k: nat | k < EntriesAt(|cs|) && Str(dict, k) <= rest ensures |Str(dict, k)| <= |s| {
      NoLonger(dict, node, input[ip], rest, k);
    }
  }

  lemma GoesOn(input: seq<byte>, a: seq<byte>, b: seq<byte>, ip: nat)
    requires ip < |input| && a + b == input[..ip]
    ensures |a| <= |input| && b <= input[|a|..] && b + [input[ip]] <= input[|a|..]
  {
    assert forall i :: 0 <= i < |b| ==> (a + b)[|a| + i] == b[i] == input[..ip][|a| + i];
  }

  lemma GreedyStart(dict: seq<Node>, input: seq<byte>)
    requires Trie(dict)
    ensures Greedy(dict, [], input)
  {
  }

  lemma NotEntered(dict: seq<Node>, sub: map<Node, nat>, n: Node)
    requires Linked(dict, sub) && n !in sub
    ensures Distinct(dict) && n !in dict
  {
  }

  /** The number of a node; that of the root is 0. */
  function Num(node: int): nat
    requires ROOT <= node
  {
    if node == ROOT then 0 else node
  }

  /** The codes are in place, and nothing behind them has changed. */
  ghost predicate Sent(out: seq<byte>, op: nat, cs: seq<nat>, was: seq<byte>) {
    && op == 2 * |cs| <= |out| == |was| && (forall j :: 0 <= j < |cs| ==> cs[j] < LIMIT)
    && out[..op] == CodeBytes(cs) && out[op..] == was[op..]
  }

  lemma SentStart(out: seq<byte>)
    ensures Sent(out, 0, [], out)
  {
  }

  lemma SentParts(out: seq<byte>, op: nat, cs: seq<nat>, was: seq<byte>)
    requires Sent(out, op, cs, was)
    ensures op == 2 * |cs| <= |out| == |was| && out[..2 * |cs|] == CodeBytes(cs) && out[op..] == was[op..]
  {
  }

  method WriteCode(out: array<byte>, op: nat, code: nat, ghost cs: seq<nat>, ghost was: seq<byte>) returns (op': nat)
    requires Sent(out[..], op, cs, was) && op + 2 <= out.Length && code < LIMIT
    modifies out
    ensures op' == op + 2 && Sent(out[..], op', cs + [code], was)
  {
    ghost var before, mid := out[..op], out[..];
    out[op], out[op + 1] := code / 256, code % 256;
    op' := op + 2;
    BytesOne(cs, code);
    assert out[..op'] == before + [code / 256, code % 256];
    TailAfter(mid, was, op, op');
    assert out[op'..] == mid[op'..];
  }

  /** Half a code. */
  method WriteHalf(out: array<byte>, op: nat, code: nat, ghost cs: seq<nat>, ghost was: seq<byte>)
    requires Sent(out[..], op, cs, was) && op + 2 <= out.Length && code < LIMIT
    modifies out
    ensures out[..2 * |cs|] == CodeBytes(cs) && out[2 * |cs|] as nat == code / 256 && out[2 * |cs| + 1..] == was[2 * |cs| + 1..]
  {
    ghost var before, mid := out[..op], out[..];
    out[op] := code / 256;
    assert out[..op] == before;
    TailAfter(mid, was, op, op + 1);
    assert out[op + 1..] == mid[op + 1..];
  }

  lemma TailAfter(a: seq<byte>, b: seq<byte>, from: nat, at: nat)
    requires |a| == |b| && from <= at <= |a| && a[from..] == b[from..]
    ensures a[at..] == b[at..]
  {
    assert a[at..] == a[from..][at - from..] && b[at..] == b[from..][at - from..];
  }

  lemma CodingParts(dict: seq<Node>, cs: seq<nat>, node: int, input: seq<byte>, ip: nat)
    requires Coding(dict, cs, node, input, ip)
    ensures Trie(dict) && ROOT <= node < |dict| <= LIMIT && (node == ROOT <==> ip == 0)
    ensures forall j :: 0 <= j < |cs| ==> cs[j] < LIMIT
  {
  }

  /** lzwc_compress. Everything but the string of the last node is in the codes, each that of the longest string
      there is; of the last node's number only the high byte is written, though two bytes are counted. */
  method Compress(input: seq<byte>, out: array<byte>) returns (r: nat, ghost cs: seq<nat>, ghost dict: seq<Node>, ghost node: int)
    modifies out
    ensures r > 0 ==>
      && r == 2 * |cs| + 2 <= out.Length && Coding(dict, cs, node, input, |input|) && Distinct(dict) && Greedy(dict, cs, input)
      && out[..2 * |cs|] == CodeBytes(cs) && out[2 * |cs|] as nat == Num(node) / 256
      && out[r - 1..] == old(out[r - 1..])
    ensures r == 0 ==> out.Length < 2 * |input| + 2
  {
    hide *;
    var lzw := new LzwBase();
    var ip: nat, op: nat := 0, 0;
    ghost var before := out[..];
    cs := [];
    CodingStart(lzw.dict, input);
    GreedyStart(lzw.dict, input);
    SentStart(out[..]);
    while ip < |input|
      invariant ip <= |input| && |cs| <= ip && fresh(lzw) && lzw.Valid() && Linked(lzw.dict, lzw.sub)
      invariant Coding(lzw.dict, cs, lzw.node, input, ip) && Sent(out[..], op, cs, before) && Greedy(lzw.dict, cs, input)
    {
      var c := input[ip];
      CodingParts(lzw.dict, cs, lzw.node, input, ip);
      SentParts(out[..], op, cs, before);
      var next := Node(lzw.node, c);
      if next !in lzw.sub {
        RootIsFull(lzw.dict, lzw.sub, lzw.node, c);
        ghost var was := lzw.dict;
        NotEntered(was, lzw.sub, next);
        lzw.Add(lzw.node, c);
        if out.Length - op < 2 {
          return 0, cs, [], ROOT;
        }
        op := WriteCode(out, op, lzw.node, cs, before);
        Emit(was, cs, lzw.node, input, ip, lzw.dict);
        EmitGreedy(was, cs, lzw.node, input, ip, lzw.dict);
        cs := cs + [lzw.node];
        lzw.node := c;
      } else {
        LinkedAt(lzw.dict, lzw.sub, next);
        Descend(lzw.dict, cs, lzw.node, input, ip, lzw.sub[next]);
        lzw.node := lzw.sub[next];
      }
      ip := ip + 1;
      CodingParts(lzw.dict, cs, lzw.node, input, ip);
      lzw.ValidIs();
    }
    SentParts(out[..], op, cs, before);
    if out.Length - op < 2 {
      return 0, cs, [], ROOT;
    }
    CodingParts(lzw.dict, cs, lzw.node, input, ip);
    dict, node := lzw.dict, lzw.node;
    LinkedIsDistinct(dict, lzw.sub);
    NumFits(node);
    WriteHalf(out, op, Num(lzw.node), cs, before);
    r := op + 2;
  }

  lemma NumFits(node: int)
    requires ROOT <= node < LIMIT
    ensures 0 <= Num(node) < LIMIT
  {
  }

  lemma RootIsFull(dict: seq<Node>, sub: map<Node, nat>, node: int, c: byte)
    requires Trie(dict) && Linked(dict, sub) && Node(node, c) !in sub && ROOT <= node
    ensures node != ROOT && node >= 0
  {
    assert NodeOk(dict, c) && dict[c] in sub;
  }

  lemma LinkedAt(dict: seq<Node>, sub: map<Node, nat>, n: Node)
    requires Linked(dict, sub) && n in sub
    ensures sub[n] < |dict| && dict[sub[n]] == n
  {
  }

  // ---- The decoder

  /** What codes mean to the decoder: its dictionary after them, and the data. */
  datatype Reading = Reading(dict: seq<Node>, data: seq<byte>) | Refused

  function AllBytes(): (dict: seq<Node>)
    ensures Trie(dict)
  {
    seq(256, i requires 0 <= i < 256 => Node(ROOT, i))
  }

  /** With each code but the first an entry is made, as long as there is room. */
  function Learn(dict: seq<Node>, last: int, val: byte): (dict': seq<Node>)
    requires Trie(dict) && ROOT <= last < |dict|
    ensures Trie(dict') && dict <= dict'
  {
    if last == ROOT || |dict| >= LIMIT then dict else
      TrieGrows(dict, Node(last, val));
      dict + [Node(last, val)]
  }

  /** The next code d behind last: an entry there is, or the one made with it. */
  function Next(dict: seq<Node>, data: seq<byte>, last: int, d: nat): (r: Reading)
    requires Trie(dict) && ROOT <= last < |dict|
    ensures r.Reading? ==> Trie(r.dict) && dict <= r.dict && d < |r.dict| && data < r.data
  {
    if d < |dict| then Reading(Learn(dict, last, First(dict, d)), data + Str(dict, d))
    else if last == ROOT || |dict| >= LIMIT || d > |dict| then Refused
    else
      var dict' := Learn(dict, last, First(dict, last));
      Reading(dict', data + Str(dict', d))
  }

  function Read(cs: seq<nat>): (r: Reading)
    ensures r.Reading? ==> Trie(r.dict) && (cs != [] ==> cs[|cs| - 1] < |r.dict|)
    decreases |cs|
  {
    if cs == [] then Reading(AllBytes(), []) else
      var n := |cs| - 1;
      var r := Read(cs[..n]);
      if r.Refused? then Refused else Next(r.dict, r.data, if n == 0 then ROOT else cs[n - 1], cs[n])
  }

  /** The codes in a stream; an odd byte at the end is ignored. */
  function CodesOf(s: seq<byte>): (cs: seq<nat>)
    ensures |cs| == |s| / 2
  {
    seq(|s| / 2, j requires 0 <= j < |s| / 2 => s[2 * j] as nat * 256 + s[2 * j + 1] as nat)
  }

  /** What more codes do to a reading. */
  lemma {:induction false} ReadMore(cs: seq<nat>, j: nat)
    requires j <= |cs|
    ensures Read(cs[..j]).Refused? ==> Read(cs).Refused?
    ensures Read(cs[..j]).Reading? && Read(cs).Reading? ==> Read(cs[..j]).data <= Read(cs).data
    decreases |cs|
  {
    hide Next;
    if j < |cs| {
      var n := |cs| - 1;
      assert cs[..n][..j] == cs[..j];
      ReadMore(cs[..n], j);
    } else {
      assert cs[..j] == cs;
    }
  }

  /** One code more. */
  lemma ReadOne(cs: seq<nat>, j: nat)
    requires j < |cs| && Read(cs[..j]).Reading?
    ensures var last := if j == 0 then ROOT else cs[j - 1];
      var r := Read(cs[..j]);
      Trie(r.dict) && last < |r.dict| && Read(cs[..j + 1]) == Next(r.dict, r.data, last, cs[j])
  {
    hide Next;
    assert cs[..j + 1][..j] == cs[..j];
  }

  /** After j codes: the encoder's dictionary without its last entry. */
  ghost predicate Trails(known: seq<Node>, dict: seq<Node>, j: nat) {
    && Trie(dict) && Trie(known) && known <= dict
    && |known| == if j == 0 then 256 else if 255 + j < LIMIT then 255 + j else LIMIT
  }

  lemma TrailsStart(known: seq<Node>, dict: seq<Node>)
    requires Trie(dict) && Trie(known) && |known| == 256
    ensures Trails(known, dict, 0)
  {
    forall i | 0 <= i < 256 ensures known[i] == dict[i] {
      assert NodeOk(known, i) && NodeOk(dict, i);
    }
  }

  /** The code after j others: either it is known, or it is just the entry still missing,
      whose last byte is then its first. In both cases the next entry is the right one. */
  lemma NextCode(known: seq<Node>, dict: seq<Node>, cs: seq<nat>, j: nat)
    requires Trails(known, dict, j) && Lockstep(dict, cs) && j < |cs|
    ensures known <= dict && cs[j] < |dict| && cs[j] <= |known| && cs[j] < LIMIT
    ensures j == 0 ==> cs[j] < |known| && Trails(known, dict, 1)
    ensures j > 0 ==> cs[j - 1] < |known|
    ensures j > 0 && |known| == LIMIT ==> Trails(known, dict, j + 1)
    ensures j > 0 && |known| < LIMIT ==>
      && cs[j - 1] < |known| < |dict|
      && dict[..|known| + 1] == known + [Node(cs[j - 1], First(dict, cs[j]))] && Trails(dict[..|known| + 1], dict, j + 1)
      && (cs[j] == |known| ==> First(dict, cs[j]) == First(dict, cs[j - 1]))
  {
    hide First;
    assert Link(dict, cs, j);
    if j > 0 {
      assert Link(dict, cs, j - 1);
      if |known| < LIMIT {
        PrefixTrie(dict, |known| + 1);
        if cs[j] == |known| {
          FirstOfParent(dict, cs[j]);
        }
      }
    }
  }

  lemma PrefixTrie(dict: seq<Node>, n: nat)
    requires Trie(dict) && 256 <= n <= |dict|
    ensures Trie(dict[..n])
  {
    forall i | 0 <= i < n ensures NodeOk(dict[..n], i) {
      assert NodeOk(dict, i);
    }
  }

  /** The bytes of a string, last first. */
  ghost predicate Chained(dict: seq<Node>, chain: seq<nat>, i: nat, s: seq<byte>) {
    i <= |chain| && |s| == i && forall t :: 0 <= t < i ==> chain[t] < |dict| && dict[chain[t]].val == s[i - 1 - t]
  }

  /** Walking up from a node. */
  method Walk(dict: seq<Node>, k: nat, chain: array<nat>) returns (i: nat)
    requires Trie(dict) && k < |dict| && chain.Length == LIMIT
    modifies chain
    ensures i > 0 && chain[0] == k && Chained(dict, chain[..], i, Str(dict, k))
  {
    hide Trie;
    SizeOfTrie(dict);
    var node: int := k;
    i := 0;
    ghost var s := Str(dict, k);
    while node != ROOT
      invariant ROOT <= node < |dict| && i + |Str(dict, node)| == |s| && Str(dict, node) <= s
      invariant i == 0 ==> node == k
      invariant i > 0 ==> chain[0] == k
      invariant forall t :: 0 <= t < i ==> chain[t] < |dict| && dict[chain[t]].val == s[|s| - 1 - t]
      decreases node
    {
      NodeAt(dict, node);
      chain[i] := node;
      i := i + 1;
      node := dict[node].parent;
    }
  }

  lemma SizeOfTrie(dict: seq<Node>)
    requires Trie(dict)
    ensures |dict| <= LIMIT
  {
  }

  lemma NodeAt(dict: seq<Node>, k: nat)
    requires Trie(dict) && k < |dict|
    ensures ROOT <= dict[k].parent < k && Str(dict, k) == Str(dict, dict[k].parent) + [dict[k].val]
  {
    assert NodeOk(dict, k);
  }

  /** Writing a chain out, from its end. */
  method WriteChain(dict: seq<Node>, chain: array<nat>, n: nat, ghost s: seq<byte>, out: array<byte>, op: nat) returns (op': nat)
    requires Chained(dict, chain[..], n, s) && op + n <= out.Length
    modifies out
    ensures op' == op + n && out[..op'] == old(out[..op]) + s
  {
    var i := n;
    op' := op;
    ghost var before, links := out[..op], chain[..];
    assert s[..0] == [];
    while i > 0
      invariant 0 <= i <= n && op' == op + (n - i) && out[..op'] == before + s[..n - i] && chain[..] == links
    {
      i := i - 1;
      assert links[i] == chain[i] && dict[links[i]].val == s[n - 1 - i];
      out[op'] := dict[chain[i]].val;
      op' := op' + 1;
      assert s[..n - i] == s[..n - i - 1] + [s[n - i - 1]];
    }
    assert s[..n] == s;
  }

  lemma {:induction false} CodeAt(cs: seq<nat>, j: nat)
    requires (forall i :: 0 <= i < |cs| ==> cs[i] < LIMIT) && j < |cs|
    ensures CodeBytes(cs)[2 * j] as nat * 256 + CodeBytes(cs)[2 * j + 1] as nat == cs[j]
  {
    var n := |cs| - 1;
    if j < n {
      CodeAt(cs[..n], j);
    }
  }

  lemma CodesPrefix(dict: seq<Node>, cs: seq<nat>, j: nat)
    requires Codes(dict, cs) && j <= |cs|
    ensures Codes(dict, cs[..j])
  {
  }

  lemma SpelledUpTo(dict: seq<Node>, cs: seq<nat>, j: nat)
    requires Lockstep(dict, cs) && j < |cs|
    ensures Trie(dict) && cs[j] < |dict| && Codes(dict, cs[..j]) && Codes(dict, cs[..j + 1])
    ensures Spelled(dict, cs[..j + 1]) == Spelled(dict, cs[..j]) + Str(dict, cs[j])
  {
    hide Spelled, Str, Lockstep;
    LockstepTrie(dict, cs);
    LockstepCodes(dict, cs);
    CodesPrefix(dict, cs, j);
    CodesPrefix(dict, cs, j + 1);
    assert cs[..j + 1] == cs[..j] + [cs[j]];
    SpelledOne(dict, cs[..j], cs[j]);
  }

  lemma {:induction false} SpelledGrows(dict: seq<Node>, cs: seq<nat>, j: nat)
    requires Lockstep(dict, cs) && j <= |cs|
    ensures Trie(dict) && Codes(dict, cs[..j]) && Codes(dict, cs) && Spelled(dict, cs[..j]) <= Spelled(dict, cs)
    decreases |cs| - j
  {
    hide Spelled, Str, Lockstep;
    LockstepTrie(dict, cs);
    LockstepCodes(dict, cs);
    CodesPrefix(dict, cs, j);
    if j < |cs| {
      SpelledGrows(dict, cs, j + 1);
      SpelledUpTo(dict, cs, j);
    } else {
      assert cs[..j] == cs;
    }
  }

  /** Codes made in lockstep with a dictionary mean what they spell, and the decoder's dictionary
      trails behind the encoder's. */
  lemma {:induction false} ReadLockstep(dict: seq<Node>, cs: seq<nat>)
    requires Lockstep(dict, cs)
    ensures var r := Read(cs); Codes(dict, cs) && r.Reading? && Trails(r.dict, dict, |cs|) && r.data == Spelled(dict, cs)
    decreases |cs|
  {
    hide Str, Lockstep, Next, First;
    LockstepTrie(dict, cs);
    LockstepCodes(dict, cs);
    if cs == [] {
      TrailsStart(AllBytes(), dict);
    } else {
      var n := |cs| - 1;
      LockstepPrefix(dict, cs, n);
      ReadLockstep(dict, cs[..n]);
      assert cs[..n + 1] == cs;
      ReadOne(cs, n);
      NextInStep(Read(cs[..n]).dict, Read(cs[..n]).data, dict, cs, n);
    }
  }

  lemma NextInStep(known: seq<Node>, data: seq<byte>, dict: seq<Node>, cs: seq<nat>, j: nat)
    requires Trails(known, dict, j) && Lockstep(dict, cs) && j < |cs|
    ensures var last := if j == 0 then ROOT else cs[j - 1];
      && last < |known| && Trie(dict) && cs[j] < |dict|
      && var r := Next(known, data, last, cs[j]);
      r.Reading? && Trails(r.dict, dict, j + 1) && r.data == data + Str(dict, cs[j])
  {
    hide Str, Lockstep, First;
    LockstepTrie(dict, cs);
    NextCode(known, dict, cs, j);
    var last := if j == 0 then ROOT else cs[j - 1];
    if cs[j] < |known| {
      FirstStays(known, dict, cs[j]);
    } else {
      FirstStays(known, dict, last);
      StrStays(dict[..|known| + 1], dict, cs[j]);
    }
  }

  lemma FirstStays(known: seq<Node>, dict: seq<Node>, k: nat)
    requires Trie(known) && Trie(dict) && known <= dict && k < |known|
    ensures Str(known, k) == Str(dict, k) && First(known, k) == First(dict, k)
  {
    StrStays(known, dict, k);
  }

  /** The chain of the next code's bytes, and the entry made with it; p is the first byte of the
      string before, and of this one afterwards. */
  method FindChain(lzw: LzwBase, d: nat, last: int, p: byte, chain: array<nat>, ghost data: seq<byte>)
    returns (found: bool, i: nat, p': byte)
    requires lzw.Valid() && Trie(lzw.dict) && ROOT <= last < |lzw.dict| && d < LIMIT && chain.Length == LIMIT
    requires (last != ROOT ==> p == First(lzw.dict, last)) && (last == ROOT ==> d != |lzw.dict|)
    modifies lzw, chain
    ensures lzw.Valid() && Trie(lzw.dict) && found == Next(old(lzw.dict), data, last, d).Reading?
    ensures found ==>
      && d < |lzw.dict| && Next(old(lzw.dict), data, last, d) == Reading(lzw.dict, data + Str(lzw.dict, d))
      && |Str(lzw.dict, d)| == i > 0 && chain[0] == d && p' == First(lzw.dict, d)
      && Chained(lzw.dict, chain[..], i, Str(lzw.dict, d))
  {
    hide *;
    ghost var known := lzw.dict;
    Limit();
    NextIs(known, data, last, d);
    lzw.TrieOf();
    found, i, p' := true, 0, p;
    if d == |lzw.dict| {
      lzw.Add(last, p);
      lzw.TrieOf();
      lzw.node := d;
      i := Walk(lzw.dict, d, chain);
      ChainEnd(lzw.dict, d, chain[..], i);
      p' := lzw.dict[chain[i - 1]].val;
    } else {
      if d >= |lzw.dict| {
        return false, 0, p;
      }
      lzw.node := d;
      i := Walk(lzw.dict, d, chain);
      ChainEnd(lzw.dict, d, chain[..], i);
      p' := lzw.dict[chain[i - 1]].val;
      lzw.ValidIs();
      if last != ROOT {
        lzw.Add(last, p');
      }
      lzw.TrieOf();
      StillChained(known, lzw.dict, chain[..], i, Str(known, d));
      FirstStays(known, lzw.dict, d);
    }
    lzw.node := ROOT;
    lzw.ValidIs();
  }

  /** lzwc_decompress, on any stream that does not begin with code 256. */
  method Decompress(s: seq<byte>, out: array<byte>) returns (r: nat)
    requires |s| >= 2 ==> s[0] != 1 || s[1] != 0
    modifies out
    ensures var all := Read(CodesOf(s));
      && r == (if all.Reading? && |all.data| <= out.Length then |all.data| else 0)
      && (r > 0 ==> out[..r] == all.data)
  {
    hide *;
    Limit();
    ghost var cs := CodesOf(s);
    var lzw := new LzwBase();
    var chain := new nat[65536];
    var ip: nat, op: nat, last: int, p: byte := 0, 0, ROOT, 0;
    ghost var j: nat := 0;
    lzw.TrieOf();
    ReadNothing(lzw.dict, cs[..0]);
    while ip + 1 < |s|
      invariant ip == 2 * j && j <= |cs| == |s| / 2 && fresh(lzw) && fresh(chain) && lzw.Valid() && op <= out.Length
      invariant Read(cs[..j]) == Reading(lzw.dict, out[..op])
      invariant last == (if j == 0 then ROOT else cs[j - 1]) && ROOT <= last < |lzw.dict|
      invariant j > 0 ==> Trie(lzw.dict) && p == First(lzw.dict, last)
      decreases |s| - ip
    {
      lzw.TrieOf();
      ReadOne(cs, j);
      ReadMore(cs, j + 1);
      CodeOf(s, j);
      var d := s[ip + 1] as nat + s[ip] as nat * 256;
      ip := ip + 2;
      var found, i;
      found, i, p := FindChain(lzw, d, last, p, chain, out[..op]);
      if !found {
        return 0;
      }
      last := chain[0];
      if out.Length - op < i {
        return 0;
      }
      op := WriteChain(lzw.dict, chain, i, Str(lzw.dict, d), out, op);
      j := j + 1;
    }
    assert cs[..j] == cs;
    r := op;
  }

  lemma ReadNothing(dict: seq<Node>, cs: seq<nat>)
    requires Trie(dict) && |dict| == 256 && cs == []
    ensures Read(cs) == Reading(dict, [])
  {
    forall i | 0 <= i < 256 ensures dict[i] == AllBytes()[i] {
      assert NodeOk(dict, i);
    }
    assert dict == AllBytes();
  }

  /** The first code is not 256, and every code has 16 bits. */
  lemma CodeOf(s: seq<byte>, j: nat)
    requires j < |s| / 2 && (|s| >= 2 ==> s[0] != 1 || s[1] != 0)
    ensures CodesOf(s)[j] == s[2 * j + 1] as nat + s[2 * j] as nat * 256 < LIMIT && (j == 0 ==> CodesOf(s)[j] != 256)
  {
  }

  /** The two branches. */
  lemma NextIs(dict: seq<Node>, data: seq<byte>, last: int, d: nat)
    requires Trie(dict) && ROOT <= last < |dict| && d < LIMIT
    ensures |dict| <= LIMIT
    ensures d > |dict| || (d == |dict| && last == ROOT) ==> Next(dict, data, last, d).Refused?
    ensures d == |dict| && last != ROOT ==>
      && |dict| < LIMIT && Trie(dict + [Node(last, First(dict, last))])
      && Next(dict, data, last, d) == Reading(dict + [Node(last, First(dict, last))], data + Str(dict + [Node(last, First(dict, last))], d))
    ensures d < |dict| ==>
      && Trie(Learn(dict, last, First(dict, d)))
      && Learn(dict, last, First(dict, d)) == (if last == ROOT || |dict| >= LIMIT then dict else dict + [Node(last, First(dict, d))])
      && Next(dict, data, last, d) == Reading(Learn(dict, last, First(dict, d)), data + Str(dict, d))
  {
    hide Str, First;
    if d == |dict| && last != ROOT {
      TrieGrows(dict, Node(last, First(dict, last)));
    }
  }

  lemma Limit()
    ensures LIMIT == 65536 && ROOT == -1
  {
  }

  /** The first byte is found at the end of the chain. */
  lemma ChainEnd(dict: seq<Node>, d: nat, chain: seq<nat>, i: nat)
    requires Trie(dict) && d < |dict| && i > 0 && Chained(dict, chain, i, Str(dict, d))
    ensures |Str(dict, d)| == i <= |chain| && chain[i - 1] < |dict| && dict[chain[i - 1]].val == First(dict, d)
  {
  }

  lemma StillChained(known: seq<Node>, dict: seq<Node>, chain: seq<nat>, i: nat, s: seq<byte>)
    requires Chained(known, chain, i, s) && known <= dict
    ensures Chained(dict, chain, i, s)
  {
  }

  /** The codes written are read back. */
  lemma CodesBack(s: seq<byte>, cs: seq<nat>)
    requires (forall j :: 0 <= j < |cs| ==> cs[j] < LIMIT) && |s| / 2 == |cs| && s[..2 * |cs|] == CodeBytes(cs)
    ensures CodesOf(s) == cs
  {
    hide CodeBytes;
    forall j | 0 <= j < |cs| ensures CodesOf(s)[j] == cs[j] {
      CodeAt(cs, j);
      assert s[2 * j] == s[..2 * |cs|][2 * j] && s[2 * j + 1] == s[..2 * |cs|][2 * j + 1];
    }
  }

  /** A code for a single byte, such as the encoder begins with. */
  lemma BeginsWithByte(s: seq<byte>)
    requires |s| >= 2 && CodesOf(s)[0] < 256
    ensures s[0] == 0
  {
  }

  lemma FirstCode(dict: seq<Node>, cs: seq<nat>)
    requires Lockstep(dict, cs) && cs != []
    ensures cs[0] < 256
  {
    assert Link(dict, cs, 0);
  }

  /** The first k codes, unpacked, are the input they cover. */
  method PrefixBack(input: seq<byte>, packed: array<byte>, plain: array<byte>, k: nat) returns (r: nat, ghost cs: seq<nat>, ghost dict: seq<Node>)
    requires 2 * |input| + 2 <= packed.Length && |input| <= plain.Length && packed != plain && 2 * k + 2 <= packed.Length
    modifies packed, plain
    ensures Lockstep(dict, cs) && Codes(dict, cs) && Spelled(dict, cs) <= input
    ensures k <= |cs| ==> Codes(dict, cs[..k]) && r == |Spelled(dict, cs[..k])| <= |input| && plain[..r] == input[..r] == Spelled(dict, cs[..k])
  {
    hide *;
    ghost var node;
    r, cs, dict, node := Compress(input, packed);
    CodesCover(dict, cs, node, input);
    if k <= |cs| {
      SpelledGrows(dict, cs, k);
      LockstepPrefix(dict, cs, k);
      ReadLockstep(dict, cs[..k]);
      BytesPrefix(cs, k);
      assert packed[..2 * |cs|][..2 * k] == packed[..2 * k];
      assert packed[..2 * k][..2 * k] == packed[..2 * k];
      CodesBack(packed[..2 * k], cs[..k]);
      if k > 0 {
        FirstCode(dict, cs[..k]);
        BeginsWithByte(packed[..2 * k]);
      }
    }
    if k * 2 + 2 <= r {
      r := Decompress(packed[..2 * k], plain);
    }
  }

  lemma CodesCover(dict: seq<Node>, cs: seq<nat>, node: int, input: seq<byte>)
    requires Coding(dict, cs, node, input, |input|)
    ensures Lockstep(dict, cs) && Codes(dict, cs) && Spelled(dict, cs) <= input && forall j :: 0 <= j < |cs| ==> cs[j] < LIMIT
  {
    assert input[..|input|] == input;
  }

  lemma {:induction false} BytesPrefix(cs: seq<nat>, k: nat)
    requires (forall j :: 0 <= j < |cs| ==> cs[j] < LIMIT) && k <= |cs|
    ensures CodeBytes(cs)[..2 * k] == CodeBytes(cs[..k])
    decreases |cs|
  {
    if k < |cs| {
      var n := |cs| - 1;
      BytesPrefix(cs[..n], k);
      assert cs[..n][..k] == cs[..k];
      assert CodeBytes(cs)[..2 * k] == CodeBytes(cs[..n])[..2 * k];
    } else {
      assert cs[..k] == cs;
    }
  }

  // ---- The flush: the low byte of the last node's number is counted and not written

  /** With the last node's whole number, the codes stand for all of the input; without, they
      always lack its end. */
  lemma TheFlushIsMissed(dict: seq<Node>, cs: seq<nat>, node: int, input: seq<byte>)
    requires Coding(dict, cs, node, input, |input|) && input != []
    ensures Lockstep(dict, cs) && Codes(dict, cs) && Spelled(dict, cs) < input
    ensures node >= 0 && Lockstep(dict, cs + [node]) && Codes(dict, cs + [node]) && Spelled(dict, cs + [node]) == input
  {
    hide Spelled, Str;
    assert input[..|input|] == input;
    EmitLockstep(dict, cs, node, dict);
    SpelledOne(dict, cs, node);
    assert Str(dict, node) != [];
  }

  /** The codes are read as this data. */
  predicate ReadAs(cs: seq<nat>, data: seq<byte>) {
    Read(cs).Reading? && Read(cs).data == data
  }

  /** The codes alone are not read as the input, and with a number behind them only if it is the
      last node's. */
  lemma LastCode(dict: seq<Node>, cs: seq<nat>, node: nat, input: seq<byte>, d: nat)
    requires Coding(dict, cs, node, input, |input|) && Distinct(dict) && input != []
    ensures !ReadAs(cs, input)
    ensures ReadAs(cs + [d], input) <==> d == node
  {
    hide Str, Lockstep, Next, First, Spelled, Coding, Distinct;
    TheFlushIsMissed(dict, cs, node, input);
    LockstepTrie(dict, cs);
    CodingParts(dict, cs, node, input, |input|);
    ReadLockstep(dict, cs);
    if d == node {
      ReadLockstep(dict, cs + [node]);
    } else {
      var last := if cs == [] then ROOT else cs[|cs| - 1];
      assert (cs + [d])[..|cs|] == cs && (cs + [d])[..|cs| + 1] == cs + [d];
      ReadOne(cs + [d], |cs|);
      SpelledOne(dict, cs, node);
      if Next(Read(cs).dict, Read(cs).data, last, d).Reading? {
        OtherString(Read(cs).dict, Read(cs).data, dict, cs, node, input, last, d);
      }
    }
  }

  /** What the encoder has entered last. */
  lemma LastEntry(dict: seq<Node>, cs: seq<nat>, node: nat, input: seq<byte>)
    requires Coding(dict, cs, node, input, |input|) && cs != [] && 255 + |cs| < LIMIT
    ensures Trie(dict) && node < |dict| && |dict| == 256 + |cs| && dict[255 + |cs|] == Node(cs[|cs| - 1], First(dict, node))
  {
    hide Str, Spelled, First;
  }

  lemma FirstOfEntry(known: seq<Node>, last: nat, val: byte)
    requires Trie(known) && last < |known| < LIMIT
    ensures |Learn(known, last, val)| == |known| + 1
    ensures First(Learn(known, last, val), |known|) == First(known, last)
  {
    hide Str;
    var more := Learn(known, last, val);
    NodeAt(more, |known|);
    StrStays(known, more, last);
  }

  /** Were the entry that the decoder makes the last string, the encoder would have made it too. */
  lemma MadeEntry(known: seq<Node>, dict: seq<Node>, cs: seq<nat>, node: nat, input: seq<byte>, last: nat)
    requires Coding(dict, cs, node, input, |input|) && Trails(known, dict, |cs|) && cs != [] && last == cs[|cs| - 1] < |known| < LIMIT
    requires var more := Learn(known, last, First(known, last));
      |known| < |more| && Trie(dict) && Str(more, |known|) == Str(dict, node)
    ensures |known| < |dict| && Str(dict, |known|) == Str(dict, node)
  {
    hide Coding, Str, Trie;
    var n := |known|;
    var more := Learn(known, last, First(known, last));
    LastEntry(dict, cs, node, input);
    FirstOfEntry(known, last, First(known, last));
    assert more <= dict;
    StrStays(more, dict, n);
  }

  lemma OtherString(known: seq<Node>, data: seq<byte>, dict: seq<Node>, cs: seq<nat>, node: nat, input: seq<byte>, last: int, d: nat)
    requires Coding(dict, cs, node, input, |input|) && Distinct(dict) && Trails(known, dict, |cs|)
    requires last == (if cs == [] then ROOT else cs[|cs| - 1]) && last < |known| && d != node
    requires Next(known, data, last, d).Reading?
    ensures Next(known, data, last, d).data != data + Str(dict, node)
  {
    hide Str, Lockstep, Spelled, Distinct;
    var s := Next(known, data, last, d).data[|data|..];
    if s == Str(dict, node) {
      if d < |known| {
        assert s == Str(known, d);
        StrStays(known, dict, d);
        StringsDiffer(dict, d, node);
      } else {
        MadeEntry(known, dict, cs, node, input, last);
        StringsDiffer(dict, d, node);
      }
    }
  }

  lemma LastNumber(node: nat, x: byte)
    requires node < LIMIT
    ensures node / 256 * 256 + x as nat < LIMIT
    ensures node / 256 * 256 + x as nat == node <==> x as nat == node % 256
    ensures (node / 256 * 256 + x as nat) / 256 == node / 256 && (node / 256 * 256 + x as nat) % 256 == x as nat
  {
  }

  lemma HalfOf(s: seq<byte>, cs: seq<nat>)
    requires |s| == 2 * |cs|
    ensures |s| / 2 == |cs|
  {
  }

  /** The codes of all that is counted. */
  lemma CodesCounted(s: seq<byte>, cs: seq<nat>, d: nat, high: byte, x: byte)
    requires (forall j :: 0 <= j < |cs| ==> cs[j] < LIMIT) && d < LIMIT && |s| == 2 * |cs| + 2
    requires s[..2 * |cs|] == CodeBytes(cs) && s[2 * |cs|] == high && s[2 * |cs| + 1] == x
    requires d / 256 == high as nat && d % 256 == x as nat
    ensures CodesOf(s) == cs + [d]
  {
    hide *;
    var more := cs + [d];
    BytesOne(cs, d);
    TwoMore(s, CodeBytes(cs), high, x);
    HalfOf(s, more);
    assert s[..|s|] == s;
    CodesBack(s, more);
  }

  lemma TwoMore(s: seq<byte>, b: seq<byte>, high: byte, x: byte)
    requires |s| == |b| + 2 && s[..|b|] == b && s[|b|] == high && s[|b| + 1] == x
    ensures s == b + [high as nat, x as nat]
  {
    assert s == s[..|b|] + [high, x];
  }

  /** The stream begins with a byte's code. */
  lemma CountedStart(dict: seq<Node>, cs: seq<nat>, node: int, input: seq<byte>, s: seq<byte>)
    requires Coding(dict, cs, node, input, |input|) && |s| == 2 * |cs| + 2
    requires (forall j :: 0 <= j < |cs| ==> cs[j] < LIMIT) && s[..2 * |cs|] == CodeBytes(cs) && s[2 * |cs|] as nat == Num(node) / 256
    ensures s[0] == 0
  {
    hide CodeBytes, Spelled, Str, Lockstep;
    if cs != [] {
      FirstCode(dict, cs);
      CodeAt(cs, 0);
      assert s[0] == s[..2 * |cs|][0];
    }
  }

  lemma ReadByte(cs: seq<nat>, x: byte)
    requires cs == [] + [x as nat]
    ensures ReadAs(cs, [x])
  {
    hide Str;
    assert cs[..0] == [] && cs[..1] == cs;
    ReadOne(cs, 0);
    ByteString(AllBytes(), x);
    assert [] + [x] == [x];
  }

  /** What was packed comes back exactly if the byte that lies behind the last one written happens
      to be the one missing. Empty input comes back as that byte. */
  method ThereAndBack(input: seq<byte>, packed: array<byte>, plain: array<byte>) returns (r: nat, ghost cs: seq<nat>, ghost dict: seq<Node>, ghost node: int)
    requires 2 * |input| + 2 <= packed.Length && |input| <= plain.Length && packed != plain
    modifies packed, plain
    ensures Coding(dict, cs, node, input, |input|) && 2 * |cs| + 1 < packed.Length
    ensures input != [] ==> (r == |input| && plain[..r] == input <==> old(packed[..])[2 * |cs| + 1] as int == node % 256)
    ensures input == [] && plain.Length > 0 ==> r == 1 && plain[0] == old(packed[..])[1] && cs == []
  {
    hide *;
    ghost var was := packed[..];
    r, cs, dict, node := Compress(input, packed);
    CodesCover(dict, cs, node, input);
    CodingParts(dict, cs, node, input, |input|);
    ghost var s, x := packed[..r], was[r - 1];
    assert s[r - 1] == packed[r - 1..][0] == was[r - 1..][0] == x;
    assert s[..2 * |cs|] == packed[..2 * |cs|] && s[2 * |cs|] == packed[2 * |cs|];
    NumIs(dict, cs, node, input);
    LastNumber(Num(node), x);
    CodesCounted(s, cs, Num(node) / 256 * 256 + x as nat, s[2 * |cs|], x);
    CountedStart(dict, cs, node, input, s);
    if input != [] {
      LastCode(dict, cs, node, input, node / 256 * 256 + x as nat);
    } else {
      ReadByte(CodesOf(s), x);
    }
    r := Decompress(packed[..r], plain);
    ReadAsIs(CodesOf(s), input);
    ReadAsIs(CodesOf(s), [x]);
  }

  lemma NumIs(dict: seq<Node>, cs: seq<nat>, node: int, input: seq<byte>)
    requires Coding(dict, cs, node, input, |input|)
    ensures 0 <= Num(node) < LIMIT && (input != [] ==> node >= 0 && Num(node) == node)
    ensures input == [] ==> cs == [] && Num(node) / 256 * 256 == 0
  {
  }

  lemma ReadAsIs(cs: seq<nat>, data: seq<byte>)
    ensures ReadAs(cs, data) <==> Read(cs).Reading? && Read(cs).data == data
  {
  }
}
