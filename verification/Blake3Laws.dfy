/** What the tree hash is in plain numbers, and what its flags are for. */
module Blake3Laws {
  import opened Blake3Spec

  /** One use of the compression function. */
  datatype Call = Call(cv: Cv, block: Block, len: nat, flags: bv8)
  {
    function Result(h: Scheme): Cv { h.compress(cv, block, len, flags) }
  }

  function Zeros(n: nat): seq<byte> {
    seq(n, _ => 0)
  }

  /** The chain over the first `k` blocks of a chunk: the first is marked 1. */
  function ChainCall(h: Scheme, s: seq<byte>, k: nat): Call
    requires 0 < 64 * k <= |s|
    decreases k
  {
    Call(if k == 1 then h.key else ChainCall(h, s, k - 1).Result(h), s[64 * (k - 1)..64 * k], 64,
         h.flags | if k == 1 then 1 else 0)
  }

  /** The call that makes the value of a message part: over a chunk its last
      block, marked 2, over more a pair of values, marked 4; `final` is 8 for
      the whole message and 0 below. */
  function NodeCall(h: Scheme, s: seq<byte>, final: bv8): Call
    decreases |s|
  {
    if |s| <= 64 then
      Call(h.key, s + Zeros(64 - |s|), |s|, h.flags | 1 | 2 | final)
    else if |s| <= 1024 then
      var k := (|s| - 1) / 64;
      Call(ChainCall(h, s, k).Result(h), s[64 * k..] + Zeros(64 - (|s| - 64 * k)), |s| - 64 * k, h.flags | 2 | final)
    else
      var l := LeftLen(|s|);
      Call(h.key, NodeCall(h, s[..l], 0).Result(h) + NodeCall(h, s[l..], 0).Result(h), 64, h.flags | 4 | final)
  }

  lemma {:induction false} ChainIs(h: Scheme, s: seq<byte>, k: nat)
    requires 0 < 64 * k <= |s|
    ensures ChainAfter(h, s, k) == ChainCall(h, s, k).Result(h)
    decreases k
  {
    if k == 1 {
      FirstBlock(h, s);
    } else {
      hide Pad, LeadingBlocks;
      ChainIs(h, s, k - 1);
    }
    NoMark(h.flags);
  }

  lemma FirstBlock(h: Scheme, s: seq<byte>)
    requires 64 <= |s|
    ensures ChainAfter(h, s, 1) == h.compress(h.key, s[0..64], 64, h.flags | 1)
  {
    assert ChainAfter(h, s, 0) == h.key;
  }

  /** The tree hash and the chaining values of its parts, by those calls. */
  lemma {:induction false} NodeIs(h: Scheme, s: seq<byte>)
    ensures TreeCv(h, s) == NodeCall(h, s, 0).Result(h)
    ensures TreeHash(h, s) == NodeCall(h, s, 8).Result(h)
    decreases |s|
  {
    if |s| <= 64 {
      OneBlockIs(h, s);
    } else if |s| <= 1024 {
      ChunkIs(h, s);
    } else {
      var l := LeftLen(|s|);
      hide LeftLen;
      NodeIs(h, s[..l]);
      NodeIs(h, s[l..]);
      NoMark(h.flags | 4);
    }
  }

  lemma OneBlockIs(h: Scheme, s: seq<byte>)
    requires |s| <= 64
    ensures TreeCv(h, s) == NodeCall(h, s, 0).Result(h)
    ensures TreeHash(h, s) == NodeCall(h, s, 8).Result(h)
  {
    assert LeadingBlocks(|s|) == 0 && s[0..] == s;
    hide LeadingBlocks;
    assert Pad(s) == s + Zeros(64 - |s|);
    hide Pad;
    NoMark(h.flags | 1 | 2);
  }

  lemma ChunkNode(h: Scheme, s: seq<byte>)
    requires 64 < |s| <= 1024
    ensures var k := (|s| - 1) / 64;
            && 0 < 64 * k < |s| <= 64 * k + 64
            && TreeOutput(h, s) == Output(ChainAfter(h, s, k), s[64 * k..] + Zeros(64 - (|s| - 64 * k)), |s| - 64 * k,
                                          h.flags | 2)
  {
    var k := (|s| - 1) / 64;
    assert LeadingBlocks(|s|) == k > 0;
    hide LeadingBlocks, ChainAfter;
    assert Pad(s[64 * k..]) == s[64 * k..] + Zeros(64 - (|s| - 64 * k));
    hide Pad;
    NoMark(h.flags);
  }

  lemma ChunkIs(h: Scheme, s: seq<byte>)
    requires 64 < |s| <= 1024
    ensures TreeCv(h, s) == NodeCall(h, s, 0).Result(h)
    ensures TreeHash(h, s) == NodeCall(h, s, 8).Result(h)
  {
    hide TreeOutput, ChainAfter, ChainCall;
    ChunkNode(h, s);
    ChainIs(h, s, (|s| - 1) / 64);
    NoMark(h.flags | 2);
  }

  lemma NoMark(flags: bv8)
    ensures flags | 0 == flags
  {
  }

  /** A message of at most one block is one compression under all three marks. */
  lemma OneBlockHash(h: Scheme, s: seq<byte>)
    requires |s| <= 64
    ensures TreeHash(h, s) == h.compress(h.key, s + Zeros(64 - |s|), |s|, h.flags | 1 | 2 | 8)
  {
    OneBlockIs(h, s);
  }

  /** A message of one chunk ends in one compression of its last block. */
  lemma OneChunkHash(h: Scheme, s: seq<byte>)
    requires 64 < |s| <= 1024
    ensures var k := (|s| - 1) / 64;
            TreeHash(h, s)
            == h.compress(ChainCall(h, s, k).Result(h), s[64 * k..] + Zeros(64 - (|s| - 64 * k)), |s| - 64 * k,
                          h.flags | 2 | 8)
  {
    hide ChainCall;
    ChunkIs(h, s);
  }

  /** Anything longer ends in one compression of the chaining values of its two parts. */
  lemma ParentHash(h: Scheme, s: seq<byte>)
    requires |s| > 1024
    ensures var l := LeftLen(|s|);
            && TreeHash(h, s) == h.compress(h.key, TreeCv(h, s[..l]) + TreeCv(h, s[l..]), 64, h.flags | 4 | 8)
            && TreeCv(h, s) == h.compress(h.key, TreeCv(h, s[..l]) + TreeCv(h, s[l..]), 64, h.flags | 4)
  {
    hide LeftLen;
    var l := LeftLen(|s|);
    NodeIs(h, s);
    NodeIs(h, s[..l]);
    NodeIs(h, s[l..]);
    NoMark(h.flags | 4);
  }

  /** The calls for the leading blocks of a chunk. */
  ghost function ChainCalls(h: Scheme, s: seq<byte>, k: nat): set<Call>
    requires 64 * k <= |s|
  {
    if k == 0 then {} else ChainCalls(h, s, k - 1) + {ChainCall(h, s, k)}
  }

  /** All calls made for a message before its last one. */
  ghost function Below(h: Scheme, s: seq<byte>): set<Call>
    decreases |s|
  {
    if |s| <= 1024 then ChainCalls(h, s, if s == [] then 0 else (|s| - 1) / 64)
    else
      var l := LeftLen(|s|);
      Below(h, s[..l]) + Below(h, s[l..]) + {NodeCall(h, s[..l], 0), NodeCall(h, s[l..], 0)}
  }

  /** All calls made for the digest of a message. */
  ghost function Calls(h: Scheme, s: seq<byte>): set<Call> {
    Below(h, s) + {NodeCall(h, s, 8)}
  }

  /** The compression function tells these calls apart. */
  ghost predicate TellsApart(h: Scheme, calls: set<Call>) {
    forall c, d :: c in calls && d in calls && c.Result(h) == d.Result(h) ==> c == d
  }

  /** The mode flags leave the four marks alone. */
  predicate Unmarked(flags: bv8) {
    flags & 15 == 0
  }

  lemma StartDiffers(flags: bv8)
    requires Unmarked(flags)
    ensures flags | 1 != flags | 0
  {
  }

  lemma {:induction false} SameChain(h: Scheme, a: seq<byte>, b: seq<byte>, i: nat, j: nat)
    requires Unmarked(h.flags) && 0 < 64 * i <= |a| && 0 < 64 * j <= |b|
    requires TellsApart(h, ChainCalls(h, a, i) + ChainCalls(h, b, j))
    requires ChainCall(h, a, i).Result(h) == ChainCall(h, b, j).Result(h)
    ensures i == j && a[..64 * i] == b[..64 * j]
    decreases i
  {
    hide TellsApart, Unmarked;
    var c, d, all := ChainCall(h, a, i), ChainCall(h, b, j), ChainCalls(h, a, i) + ChainCalls(h, b, j);
    assert c in all && d in all;
    SameCall(h, all, c, d);
    StartDiffers(h.flags);
    PrefixGrows(a, i);
    PrefixGrows(b, j);
    if i > 1 {
      FewerCalls(h, ChainCalls(h, a, i - 1) + ChainCalls(h, b, j - 1), all);
      hide ChainCalls;
      SameChain(h, a, b, i - 1, j - 1);
    }
  }

  lemma SameCall(h: Scheme, calls: set<Call>, c: Call, d: Call)
    requires TellsApart(h, calls) && c in calls && d in calls && c.Result(h) == d.Result(h)
    ensures c == d
  {
  }

  lemma FewerCalls(h: Scheme, fewer: set<Call>, more: set<Call>)
    requires fewer <= more && TellsApart(h, more)
    ensures TellsApart(h, fewer)
  {
  }

  lemma PrefixGrows(s: seq<byte>, k: nat)
    requires 0 < 64 * k <= |s|
    ensures s[..64 * k] == s[..64 * (k - 1)] + s[64 * (k - 1)..64 * k]
  {
  }

  /** How the last call for `n` bytes is marked. */
  function Mark(flags: bv8, n: nat, final: bv8): bv8 {
    if n <= 64 then flags | 1 | 2 | final else if n <= 1024 then flags | 2 | final else flags | 4 | final
  }

  lemma MarkTellsShape(flags: bv8, n: nat, m: nat, final: bv8)
    requires Unmarked(flags) && (final == 0 || final == 8) && Mark(flags, n, final) == Mark(flags, m, final)
    ensures (n <= 64 <==> m <= 64) && (n <= 1024 <==> m <= 1024)
  {
  }

  lemma NodeMark(h: Scheme, s: seq<byte>, final: bv8)
    ensures NodeCall(h, s, final).flags == Mark(h.flags, |s|, final)
  {
    hide ChainCall, LeftLen;
  }

  /** The bytes of a last block and of what comes before it. */
  function Tail(s: seq<byte>): (t: seq<byte>)
    ensures |t| <= 64
  {
    if s == [] then [] else s[64 * ((|s| - 1) / 64)..]
  }

  function Lead(s: seq<byte>): seq<byte> {
    if s == [] then [] else s[..64 * ((|s| - 1) / 64)]
  }

  lemma LeadAndTail(s: seq<byte>)
    ensures s == Lead(s) + Tail(s)
    ensures |s| <= 64 ==> Tail(s) == s
  {
  }

  lemma LastCall(h: Scheme, s: seq<byte>, final: bv8)
    requires |s| <= 1024
    ensures var c := NodeCall(h, s, final);
            c.block == Tail(s) + Zeros(64 - |Tail(s)|) && c.len == |Tail(s)|
    ensures |s| > 64 ==>
              var k := (|s| - 1) / 64;
              && 0 < 64 * k <= |s| && Lead(s) == s[..64 * k]
              && NodeCall(h, s, final).cv == ChainCall(h, s, k).Result(h)
  {
    hide ChainCall;
    LeadAndTail(s);
  }

  lemma SameBlock(a: seq<byte>, b: seq<byte>)
    requires |a| == |b| <= 64 && a + Zeros(64 - |a|) == b + Zeros(64 - |b|)
    ensures a == b
  {
    assert a == (a + Zeros(64 - |a|))[..|a|] && b == (b + Zeros(64 - |b|))[..|b|];
  }

  /** The same last call for two chunks. */
  lemma SameChunk(h: Scheme, a: seq<byte>, b: seq<byte>, final: bv8)
    requires Unmarked(h.flags) && |a| <= 1024 && |b| <= 1024 && (|a| <= 64 <==> |b| <= 64)
    requires TellsApart(h, Below(h, a) + Below(h, b)) && NodeCall(h, a, final) == NodeCall(h, b, final)
    ensures a == b
  {
    hide ChainCall, ChainCalls, NodeCall, TellsApart, Unmarked, Tail, Lead;
    LastCall(h, a, final);
    LastCall(h, b, final);
    SameBlock(Tail(a), Tail(b));
    LeadAndTail(a);
    LeadAndTail(b);
    if |a| > 64 { SameChain(h, a, b, (|a| - 1) / 64, (|b| - 1) / 64); }
  }

  lemma PairBlock(h: Scheme, s: seq<byte>, final: bv8)
    requires |s| > 1024
    ensures var l := LeftLen(|s|);
            NodeCall(h, s, final).block == NodeCall(h, s[..l], 0).Result(h) + NodeCall(h, s[l..], 0).Result(h)
  {
    hide LeftLen;
  }

  lemma HalvesOfBlock(x: Cv, y: Cv, v: Cv, w: Cv)
    requires x + y == v + w
    ensures x == v && y == w
  {
    var xy: seq<byte>, vw: seq<byte> := x + y, v + w;
    assert xy[..32] == x && xy[32..] == y && vw[..32] == v && vw[32..] == w;
  }

  /** Equal values under the same final mark come from equal messages. */
  lemma {:induction false} SameNode(h: Scheme, a: seq<byte>, b: seq<byte>, final: bv8)
    requires Unmarked(h.flags) && (final == 0 || final == 8)
    requires TellsApart(h, Below(h, a) + Below(h, b) + {NodeCall(h, a, final), NodeCall(h, b, final)})
    requires NodeCall(h, a, final).Result(h) == NodeCall(h, b, final).Result(h)
    ensures a == b
    decreases |a|
  {
    hide ChainCall, ChainCalls, Unmarked, NodeCall, Below, TellsApart, LeftLen, Mark;
    var c, d := NodeCall(h, a, final), NodeCall(h, b, final);
    var all := Below(h, a) + Below(h, b) + {c, d};
    SameCall(h, all, c, d);
    NodeMark(h, a, final);
    NodeMark(h, b, final);
    MarkTellsShape(h.flags, |a|, |b|, final);
    if |a| <= 1024 {
      FewerCalls(h, Below(h, a) + Below(h, b), all);
      SameChunk(h, a, b, final);
    } else {
      var l, m := LeftLen(|a|), LeftLen(|b|);
      var al, ar, bl, br := a[..l], a[l..], b[..m], b[m..];
      PairBlock(h, a, final);
      PairBlock(h, b, final);
      HalvesOfBlock(NodeCall(h, al, 0).Result(h), NodeCall(h, ar, 0).Result(h),
                    NodeCall(h, bl, 0).Result(h), NodeCall(h, br, 0).Result(h));
      BelowParts(h, a);
      BelowParts(h, b);
      FewerCalls(h, Below(h, al) + Below(h, bl) + {NodeCall(h, al, 0), NodeCall(h, bl, 0)}, all);
      FewerCalls(h, Below(h, ar) + Below(h, br) + {NodeCall(h, ar, 0), NodeCall(h, br, 0)}, all);
      SameNode(h, al, bl, 0);
      SameNode(h, ar, br, 0);
      assert a == al + ar && b == bl + br;
    }
  }

  lemma BelowParts(h: Scheme, s: seq<byte>)
    requires |s| > 1024
    ensures var l := LeftLen(|s|);
            Below(h, s) == Below(h, s[..l]) + Below(h, s[l..]) + {NodeCall(h, s[..l], 0), NodeCall(h, s[l..], 0)}
  {
    hide NodeCall, LeftLen;
  }

  lemma {:induction false} ChainUnrooted(h: Scheme, s: seq<byte>, k: nat)
    requires 64 * k <= |s| && Unmarked(h.flags)
    ensures forall c :: c in ChainCalls(h, s, k) ==> c.flags & 8 == 0
  {
    hide ChainCall;
    if k > 0 {
      ChainUnrooted(h, s, k - 1);
      ChainMark(h, s, k);
      MarksRooted(h.flags);
    }
  }

  lemma ChainMark(h: Scheme, s: seq<byte>, k: nat)
    requires 0 < 64 * k <= |s|
    ensures ChainCall(h, s, k).flags == h.flags | if k == 1 then 1 else 0
  {
  }

  lemma MarksRooted(flags: bv8)
    requires Unmarked(flags)
    ensures (flags | 1) & 8 == 0 && (flags | 0) & 8 == 0
    ensures (flags | 1 | 2 | 0) & 8 == 0 && (flags | 2 | 0) & 8 == 0 && (flags | 4 | 0) & 8 == 0
    ensures (flags | 1 | 2 | 8) & 8 == 8 && (flags | 2 | 8) & 8 == 8 && (flags | 4 | 8) & 8 == 8
  {
  }

  lemma NodeRooted(h: Scheme, s: seq<byte>)
    requires Unmarked(h.flags)
    ensures NodeCall(h, s, 0).flags & 8 == 0 && NodeCall(h, s, 8).flags & 8 == 8
  {
    hide NodeCall;
    MarksRooted(h.flags);
    NodeMark(h, s, 0);
    NodeMark(h, s, 8);
  }

  lemma {:induction false} BelowUnrooted(h: Scheme, s: seq<byte>)
    requires Unmarked(h.flags)
    ensures forall c :: c in Below(h, s) ==> c.flags & 8 == 0
    decreases |s|
  {
    hide NodeCall, ChainCalls, Unmarked;
    if |s| <= 1024 {
      ChainUnrooted(h, s, if s == [] then 0 else (|s| - 1) / 64);
    } else {
      var l := LeftLen(|s|);
      hide LeftLen;
      BelowUnrooted(h, s[..l]);
      BelowUnrooted(h, s[l..]);
      NodeRooted(h, s[..l]);
      NodeRooted(h, s[l..]);
    }
  }

  /** As far as the compression function tells the calls for two messages apart,
      the digests are equal only for equal messages. */
  lemma EqualDigests(h: Scheme, a: seq<byte>, b: seq<byte>)
    requires Unmarked(h.flags) && TellsApart(h, Calls(h, a) + Calls(h, b))
    ensures TreeHash(h, a) == TreeHash(h, b) <==> a == b
  {
    hide NodeCall, Below, TellsApart;
    NodeIs(h, a);
    NodeIs(h, b);
    assert Calls(h, a) + Calls(h, b) == Below(h, a) + Below(h, b) + {NodeCall(h, a, 8), NodeCall(h, b, 8)};
    if TreeHash(h, a) == TreeHash(h, b) { SameNode(h, a, b, 8); }
  }

  /** And then the digest of one is no value that occurs below the root of the other. */
  lemma DigestIsNoChainingValue(h: Scheme, a: seq<byte>, b: seq<byte>)
    requires Unmarked(h.flags) && TellsApart(h, Calls(h, a) + Calls(h, b))
    ensures forall c :: c in Below(h, b) ==> TreeHash(h, a) != c.Result(h)
    ensures |b| > 1024 ==>
              TreeHash(h, a) != TreeCv(h, b[..LeftLen(|b|)]) && TreeHash(h, a) != TreeCv(h, b[LeftLen(|b|)..])
  {
    hide NodeCall, Below, LeftLen;
    NodeIs(h, a);
    BelowUnrooted(h, b);
    NodeRooted(h, a);
    forall c | c in Below(h, b)
      ensures TreeHash(h, a) != c.Result(h)
    {
      assert c in Calls(h, a) + Calls(h, b) && NodeCall(h, a, 8) in Calls(h, a) + Calls(h, b);
    }
    if |b| > 1024 {
      BelowParts(h, b);
      NodeIs(h, b[..LeftLen(|b|)]);
      NodeIs(h, b[LeftLen(|b|)..]);
    }
  }

  /** Nor is it the value the other would have as a part of something longer. */
  lemma DigestIsNoPart(h: Scheme, a: seq<byte>, b: seq<byte>)
    requires Unmarked(h.flags) && TellsApart(h, {NodeCall(h, a, 8), NodeCall(h, b, 0)})
    ensures TreeHash(h, a) != TreeCv(h, b)
  {
    hide NodeCall;
    NodeIs(h, a);
    NodeIs(h, b);
    NodeRooted(h, a);
    NodeRooted(h, b);
  }
}
