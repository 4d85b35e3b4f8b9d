/** The stack of chaining values as a value: what its entries stand for and
    what pushing, merging and folding do to them. An entry stands for a
    complete subtree of `sizes[i]` chunks, a power of two; the subtrees lie
    one after the other in `data`. Section 5.1.2 of the BLAKE3 paper. */
module Blake3Stack {
  import opened Bits
  import opened Blake3Spec

  function Sum(sizes: seq<nat>): nat {
    if sizes == [] then 0 else sizes[0] + Sum(sizes[1..])
  }

  function Init<T>(s: seq<T>): seq<T>
    requires s != []
  {
    s[..|s| - 1]
  }

  function Last<T>(s: seq<T>): T
    requires s != []
  {
    s[|s| - 1]
  }

  /** A fully merged stack: the binary digits of the chunk count, largest first. */
  predicate Strict(sizes: seq<nat>) {
    && (forall i :: 0 <= i < |sizes| ==> IsPow2(sizes[i]))
    && (forall i :: 0 < i < |sizes| ==> sizes[i] < sizes[i - 1])
  }

  /** A lazily merged stack: only the top two entries may still be equal. */
  predicate Lazy(sizes: seq<nat>) {
    sizes != [] ==>
      && Strict(Init(sizes))
      && IsPow2(Last(sizes))
      && (|sizes| >= 2 ==> Last(sizes) <= Last(Init(sizes)))
  }

  lemma {:induction false} SumInit(sizes: seq<nat>)
    requires sizes != []
    ensures Sum(sizes) == Sum(Init(sizes)) + Last(sizes)
  {
    if |sizes| > 1 {
      SumInit(sizes[1..]);
      assert Init(sizes)[1..] == Init(sizes[1..]);
    }
  }

  /** The chaining values a stack of these subtree sizes holds. */
  function StackCvs(h: Scheme, sizes: seq<nat>, data: seq<byte>): (cvs: seq<Cv>)
    requires |data| == CHUNK_LEN * Sum(sizes)
    ensures |cvs| == |sizes|
  {
    if sizes == [] then []
    else
      SumInit(sizes);
      var cut := |data| - CHUNK_LEN * Last(sizes);
      StackCvs(h, Init(sizes), data[..cut]) + [TreeCv(h, data[cut..])]
  }

  lemma {:induction false} StrictSum(sizes: seq<nat>)
    requires sizes != [] && Strict(sizes)
    ensures sizes[0] <= Sum(sizes) < 2 * sizes[0]
  {
    if |sizes| > 1 {
      Pow2Gap(sizes[1], sizes[0]);
      StrictSum(sizes[1..]);
    } else {
      assert sizes[1..] == [];
    }
  }

  lemma {:induction false} StrictPopCount(sizes: seq<nat>)
    requires Strict(sizes)
    ensures PopCount(Sum(sizes)) == |sizes|
  {
    if sizes != [] {
      StrictPopCount(sizes[1..]);
      if |sizes| > 1 {
        StrictSum(sizes[1..]);
        Pow2Gap(sizes[1], sizes[0]);
      }
      PopCountTopBit(sizes[0], Sum(sizes[1..]));
    }
  }

  /** Replacing the two equal top entries by their parent. */
  function MergeTop(sizes: seq<nat>): seq<nat>
    requires |sizes| >= 2
  {
    Init(Init(sizes)) + [2 * Last(sizes)]
  }

  lemma MergeTopIsLazy(sizes: seq<nat>)
    requires Lazy(sizes) && !Strict(sizes)
    ensures |sizes| >= 2 && Last(sizes) == Last(Init(sizes))
    ensures Lazy(MergeTop(sizes)) && Sum(MergeTop(sizes)) == Sum(sizes)
  {
    hide Lazy, Strict, Sum, Init, Last, MergeTop;
    TopIsPair(sizes);
    MergeTopShape(sizes);
    MergeTopSum(sizes);
  }

  lemma TopIsPair(sizes: seq<nat>)
    requires Lazy(sizes) && !Strict(sizes)
    ensures |sizes| >= 2 && Last(sizes) == Last(Init(sizes)) && Strict(Init(sizes)) && IsPow2(Last(sizes))
  {
    assert sizes == Init(sizes) + [Last(sizes)];
  }

  lemma MergeTopShape(sizes: seq<nat>)
    requires |sizes| >= 2 && Last(sizes) == Last(Init(sizes)) && Strict(Init(sizes)) && IsPow2(Last(sizes))
    ensures Lazy(MergeTop(sizes))
  {
    hide Init, Last, Strict, Lazy, Sum, IsPow2;
    InitAndLast(sizes);
    InitAndLast(Init(sizes));
    StrictInit(Init(sizes));
    DoublePow2(Last(sizes));
    LazySnoc(Init(Init(sizes)), 2 * Last(sizes));
  }

  lemma DoublePow2(w: nat)
    requires IsPow2(w)
    ensures IsPow2(2 * w) && w > 0
  {
  }

  lemma MergeTopSum(sizes: seq<nat>)
    requires |sizes| >= 2 && Last(sizes) == Last(Init(sizes))
    ensures Sum(MergeTop(sizes)) == Sum(sizes)
  {
    hide Sum;
    SumInit(sizes);
    SumInit(Init(sizes));
    SumInit(MergeTop(sizes));
    assert Init(MergeTop(sizes)) == Init(Init(sizes));
  }

  /** The number of set bits of the chunk count is the length of the merged
      stack, so a longer stack has something to merge. */
  lemma {:induction false} LazyPopCount(sizes: seq<nat>)
    requires Lazy(sizes)
    ensures PopCount(Sum(sizes)) <= |sizes|
    ensures PopCount(Sum(sizes)) == |sizes| <==> Strict(sizes)
    decreases |sizes|
  {
    if Strict(sizes) {
      StrictPopCount(sizes);
    } else {
      MergeTopIsLazy(sizes);
      LazyPopCount(MergeTop(sizes));
    }
  }

  lemma StackSnoc(h: Scheme, sizes: seq<nat>, data: seq<byte>, w: nat, piece: seq<byte>)
    requires |data| == CHUNK_LEN * Sum(sizes) && |piece| == CHUNK_LEN * w
    ensures Sum(sizes + [w]) == Sum(sizes) + w
    ensures StackCvs(h, sizes + [w], data + piece) == StackCvs(h, sizes, data) + [TreeCv(h, piece)]
  {
    hide TreeCv;
    SumInit(sizes + [w]);
    assert Init(sizes + [w]) == sizes;
    assert (data + piece)[..|data|] == data && (data + piece)[|data|..] == piece;
  }

  /** Merging the top two entries computes the value of the joined subtree. */
  lemma MergeTopCvs(h: Scheme, sizes: seq<nat>, data: seq<byte>)
    requires Lazy(sizes) && !Strict(sizes) && |data| == CHUNK_LEN * Sum(sizes)
    ensures |sizes| >= 2 && Sum(MergeTop(sizes)) == Sum(sizes)
    ensures var cvs := StackCvs(h, sizes, data); var n := |sizes|;
            StackCvs(h, MergeTop(sizes), data) == cvs[..n - 2] + [ParentCv(h, cvs[n - 2], cvs[n - 1])]
  {
    hide TreeCv, StackCvs, Lazy, Strict;
    MergeTopIsLazy(sizes);
    var w, rest := Last(sizes), Init(Init(sizes));
    SumInit(sizes);
    SumInit(Init(sizes));
    var cut := CHUNK_LEN * Sum(rest);
    var mid := cut + CHUNK_LEN * w;
    var a, b := data[cut..mid], data[mid..];
    assert data == data[..cut] + a + b == data[..cut] + (a + b);
    assert sizes == rest + [w] + [w];
    StackSnoc(h, rest, data[..cut], w, a);
    StackSnoc(h, rest + [w], data[..cut] + a, w, b);
    StackSnoc(h, rest, data[..cut], 2 * w, a + b);
    JoinCv(h, a, b, w) by { assert IsPow2(w) by { LazyLast(sizes); } }
  }

  lemma LazyLast(sizes: seq<nat>)
    requires Lazy(sizes) && sizes != []
    ensures IsPow2(Last(sizes))
  {
  }

  lemma JoinCv(h: Scheme, a: seq<byte>, b: seq<byte>, w: nat)
    requires IsPow2(w) && |a| == |b| == CHUNK_LEN * w
    ensures TreeCv(h, a + b) == ParentCv(h, TreeCv(h, a), TreeCv(h, b))
  {
    JoinSubtrees(h, a, b, w);
  }

  /** Pushing a complete subtree no larger than the top entry of a merged stack. */
  lemma PushSizes(sizes: seq<nat>, w: nat)
    requires Strict(sizes) && IsPow2(w) && (sizes != [] ==> w <= Last(sizes))
    ensures Lazy(sizes + [w])
    ensures Strict(sizes + [w]) <==> sizes == [] || w < Last(sizes)
  {
    hide Strict, Lazy, IsPow2;
    LazySnoc(sizes, w);
    StrictSnoc(sizes, w);
  }

  lemma LazySnoc(sizes: seq<nat>, w: nat)
    requires Strict(sizes) && IsPow2(w)
    ensures Lazy(sizes + [w]) <==> sizes == [] || w <= Last(sizes)
  {
    hide Strict, IsPow2, Init, Last;
    SnocParts(sizes, w);
    assert |sizes + [w]| == |sizes| + 1;
  }

  lemma StrictSnoc(sizes: seq<nat>, w: nat)
    requires Strict(sizes) && IsPow2(w)
    ensures Strict(sizes + [w]) <==> sizes == [] || w < Last(sizes)
  {
    hide IsPow2;
    var more := sizes + [w];
    assert forall i :: 0 <= i < |sizes| ==> more[i] == sizes[i];
    assert more[|sizes|] == w;
    if sizes != [] { assert more[|sizes| - 1] == Last(sizes); }
  }

  /** The same from the count: the next `w` chunks go on top when `w` divides it. */
  predicate Divides(d: nat, n: nat) {
    d > 0 && n % d == 0
  }

  lemma PushAligned(sizes: seq<nat>, w: nat)
    requires Strict(sizes) && IsPow2(w) && Divides(w, Sum(sizes))
    ensures Lazy(sizes + [w])
  {
    if sizes != [] { AlignedTop(sizes, w); }
    PushSizes(sizes, w);
  }

  /** The first half of an aligned subtree leaves the stack fully merged, the second does not. */
  lemma PushHalf(sizes: seq<nat>, half: nat)
    requires sizes != [] && Strict(Init(sizes)) && Last(sizes) == half && IsPow2(half)
    requires Divides(2 * half, Sum(Init(sizes)))
    ensures Strict(sizes) && !Strict(sizes + [half])
  {
    var below := Init(sizes);
    assert IsPow2(2 * half);
    assert sizes == below + [half];
    if below != [] { AlignedTop(below, 2 * half); }
    PushSizes(below, half);
    PushSizes(sizes, half);
  }

  lemma ModAdd(a: nat, b: nat, q: nat)
    requires q > 0 && a % q == 0 && b % q == 0
    ensures (a + b) % q == 0
  {
    assert a == q * (a / q) && b == q * (b / q);
    assert a + b == q * (a / q + b / q);
    RemainderIs(a + b, q, a / q + b / q, 0);
  }

  lemma {:induction false} AllMultiples(sizes: seq<nat>, q: nat)
    requires q > 0 && forall i :: 0 <= i < |sizes| ==> sizes[i] % q == 0
    ensures Sum(sizes) % q == 0
  {
    if sizes != [] {
      AllMultiples(sizes[1..], q);
      ModAdd(sizes[0], Sum(sizes[1..]), q);
    }
  }

  /** If a power of two divides the count, no entry of the merged stack is smaller. */
  lemma AlignedTop(sizes: seq<nat>, p: nat)
    requires Strict(sizes) && sizes != [] && IsPow2(p) && Sum(sizes) % p == 0
    ensures p <= Last(sizes)
  {
    hide Strict, Sum, IsPow2, Init, Last;
    var w := Last(sizes);
    TopPow2(sizes);
    if w < p {
      Pow2Gap(w, p);
      SumInit(sizes);
      LowerMultiples(sizes);
      DividesDown(2 * w, p, Sum(sizes));
      OddMultiple(Sum(Init(sizes)), w);
    }
  }

  lemma TopPow2(sizes: seq<nat>)
    requires Strict(sizes) && sizes != []
    ensures IsPow2(Last(sizes)) && IsPow2(2 * Last(sizes)) && Last(sizes) > 0
  {
  }

  lemma OddMultiple(s: nat, w: nat)
    requires w > 0 && s % (2 * w) == 0
    ensures (s + w) % (2 * w) != 0
  {
    var q := 2 * w;
    assert s == q * (s / q);
    RemainderIs(s + w, q, s / q, w);
  }

  lemma LowerMultiples(sizes: seq<nat>)
    requires Strict(sizes) && sizes != []
    ensures Sum(Init(sizes)) % (2 * Last(sizes)) == 0
  {
    var w := Last(sizes);
    TopPow2(sizes);
    hide Sum, IsPow2;
    forall i | 0 <= i < |sizes| - 1
      ensures Init(sizes)[i] % (2 * w) == 0
    {
      StrictOrder(sizes, i, |sizes| - 1);
      Pow2Gap(w, sizes[i]);
      Pow2Divides(2 * w, sizes[i]);
    }
    AllMultiples(Init(sizes), 2 * w);
  }

  lemma {:induction false} StrictOrder(sizes: seq<nat>, i: nat, j: nat)
    requires Strict(sizes) && i < j < |sizes|
    ensures sizes[j] < sizes[i]
    decreases j
  {
    if i + 1 < j { StrictOrder(sizes, i, j - 1); }
  }

  /** One step of the roll-up: the top entry and everything to its right are
      the two children of the next node up. */
  lemma FoldTop(h: Scheme, sizes: seq<nat>, data: seq<byte>, tail: seq<byte>)
    requires Strict(sizes) && sizes != [] && |data| == CHUNK_LEN * Sum(sizes)
    requires 1 <= |tail| <= CHUNK_LEN * Last(sizes)
    ensures Sum(sizes) == Sum(Init(sizes)) + Last(sizes) && Strict(Init(sizes))
    ensures var cut := |data| - CHUNK_LEN * Last(sizes);
            var cvs := StackCvs(h, sizes, data);
            && Init(cvs) == StackCvs(h, Init(sizes), data[..cut])
            && TreeOutput(h, data[cut..] + tail) == ParentOutput(h, Last(cvs), TreeCv(h, tail))
            && (|sizes| >= 2 ==> |data[cut..] + tail| <= CHUNK_LEN * Last(Init(sizes)))
  {
    hide TreeCv, TreeOutput, StackCvs, Strict, Sum, Init, Last;
    SumInit(sizes);
    StrictInit(sizes);
    var w, below := Last(sizes), Init(sizes);
    var cut := |data| - CHUNK_LEN * w;
    var base, piece := data[..cut], data[cut..];
    InitAndLast(sizes);
    assert data == base + piece;
    StackSnoc(h, below, base, w, piece);
    InitAndLast(StackCvs(h, sizes, data));
    SnocParts(StackCvs(h, below, base), TreeCv(h, piece));
    JoinSubtrees(h, piece, tail, w);
  }

  lemma InitAndLast<T>(s: seq<T>)
    requires s != []
    ensures s == Init(s) + [Last(s)] && |Init(s)| == |s| - 1
  {
  }

  lemma SnocParts<T>(s: seq<T>, x: T)
    ensures Init(s + [x]) == s && Last(s + [x]) == x
  {
  }

  lemma StrictInit(sizes: seq<nat>)
    requires Strict(sizes) && sizes != []
    ensures Strict(Init(sizes)) && IsPow2(Last(sizes))
    ensures |sizes| >= 2 ==> 2 * Last(sizes) <= Last(Init(sizes))
  {
    if |sizes| >= 2 { Pow2Gap(Last(sizes), Last(Init(sizes))); }
  }

  /** Where the roll-up starts when the partial chunk is empty: the unmerged pair on top. */
  lemma FoldPair(h: Scheme, sizes: seq<nat>, data: seq<byte>)
    requires Lazy(sizes) && !Strict(sizes) && |data| == CHUNK_LEN * Sum(sizes)
    ensures |sizes| >= 2
    ensures var n, below := |sizes|, Init(Init(sizes));
            var cut := CHUNK_LEN * Sum(below);
            var cvs := StackCvs(h, sizes, data);
            && Strict(below) && cut < |data|
            && cvs[..n - 2] == StackCvs(h, below, data[..cut])
            && TreeOutput(h, data[cut..]) == ParentOutput(h, cvs[n - 2], cvs[n - 1])
            && (below != [] ==> |data| - cut <= CHUNK_LEN * Last(below))
  {
    hide TreeCv, TreeOutput, StackCvs, Lazy, Strict, Sum;
    PairSizes(sizes);
    var w, below := Last(sizes), Init(Init(sizes));
    var cut := CHUNK_LEN * Sum(below);
    var mid := cut + CHUNK_LEN * w;
    var a, b := data[cut..mid], data[mid..];
    assert data == data[..cut] + a + b && data[cut..] == a + b;
    StackSnoc(h, below, data[..cut], w, a);
    StackSnoc(h, below + [w], data[..cut] + a, w, b);
    JoinSubtrees(h, a, b, w);
  }

  lemma PairSizes(sizes: seq<nat>)
    requires Lazy(sizes) && !Strict(sizes)
    ensures |sizes| >= 2
    ensures var below, w := Init(Init(sizes)), Last(sizes);
            && sizes == below + [w] + [w] && IsPow2(w) && w > 0
            && Strict(below) && (below != [] ==> 2 * w <= Last(below))
            && Sum(sizes) == Sum(below) + 2 * w
  {
    hide Lazy, Strict, Sum, IsPow2, Init, Last, MergeTop;
    MergeTopIsLazy(sizes);
    SumInit(sizes);
    InitAndLast(sizes);
    SumInit(Init(sizes));
    InitAndLast(Init(sizes));
    PairShape(sizes);
  }

  lemma PairShape(sizes: seq<nat>)
    requires Lazy(sizes) && |sizes| >= 2 && Last(sizes) == Last(Init(sizes))
    ensures var below, w := Init(Init(sizes)), Last(sizes);
            IsPow2(w) && w > 0 && Strict(below) && (below != [] ==> 2 * w <= Last(below))
  {
    hide Init, Last, Strict, Lazy, IsPow2;
    LazyTop(sizes);
    InitAndLast(sizes);
    InitAndLast(Init(sizes));
    StrictInit(Init(sizes));
    DoublePow2(Last(sizes));
  }

  lemma LazyTop(sizes: seq<nat>)
    requires Lazy(sizes) && sizes != []
    ensures Strict(Init(sizes)) && IsPow2(Last(sizes))
  {
  }
}
