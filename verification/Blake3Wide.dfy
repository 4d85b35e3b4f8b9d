/** Lists of sibling chaining values and the tree they stand for, without any arrays. */
module Blake3Layers {
  import opened Bits
  import opened Blake3Spec

  /** Where the left subtree over `n` leaves ends: the largest power of two below `n`. */
  function SplitPoint(n: nat): (p: nat)
    requires n >= 2
    ensures IsPow2(p) && 1 <= p < n <= 2 * p
  {
    RoundDownToPowerOf2(n - 1)
  }

  lemma SplitPointIs(n: nat, p: nat)
    requires IsPow2(p) && p < n <= 2 * p
    ensures SplitPoint(n) == p
  {
    RoundDownIs(n - 1, p);
  }

  /** The left-complete tree over a list of chaining values. */
  function TreeOver(h: Scheme, cvs: seq<Cv>): Cv
    requires cvs != []
  {
    if |cvs| == 1 then cvs[0]
    else
      var p := SplitPoint(|cvs|);
      ParentCv(h, TreeOver(h, cvs[..p]), TreeOver(h, cvs[p..]))
  }

  /** The two children of the top node of that tree. */
  function TopPair(h: Scheme, cvs: seq<Cv>): (Cv, Cv)
    requires |cvs| >= 2
  {
    var p := SplitPoint(|cvs|);
    (TreeOver(h, cvs[..p]), TreeOver(h, cvs[p..]))
  }

  /** One layer of parents; an odd value at the end moves up unchanged. */
  function Condense(h: Scheme, cvs: seq<Cv>): (r: seq<Cv>)
    ensures |r| == (|cvs| + 1) / 2
  {
    if |cvs| < 2 then cvs else [ParentCv(h, cvs[0], cvs[1])] + Condense(h, cvs[2..])
  }

  lemma {:induction false} CondenseAppend(h: Scheme, a: seq<Cv>, b: seq<Cv>)
    requires |a| % 2 == 0
    ensures Condense(h, a + b) == Condense(h, a) + Condense(h, b)
  {
    if a == [] {
      assert a + b == b;
    } else {
      assert (a + b)[2..] == a[2..] + b;
      CondenseAppend(h, a[2..], b);
    }
  }

  lemma {:induction false} Pow2Even(p: nat)
    requires IsPow2(p) && p > 1
    ensures p % 2 == 0 && IsPow2(p / 2)
  {
  }

  /** A layer of parents has the same tree above it, and while more than two
      values remain the same two subtrees below the top. */
  lemma {:induction false} CondenseKeepsTree(h: Scheme, cvs: seq<Cv>)
    requires cvs != []
    ensures TreeOver(h, Condense(h, cvs)) == TreeOver(h, cvs)
    ensures |cvs| > 2 ==> TopPair(h, Condense(h, cvs)) == TopPair(h, cvs)
    decreases |cvs|
  {
    if |cvs| == 2 {
      SplitPointIs(2, 1);
      assert Condense(h, cvs) == [ParentCv(h, cvs[0], cvs[1])];
    } else if |cvs| > 2 {
      var p := SplitPoint(|cvs|);
      var left, right := cvs[..p], cvs[p..];
      Pow2Even(p);
      assert cvs == left + right;
      CondenseAppend(h, left, right);
      CondenseKeepsTree(h, left);
      CondenseKeepsTree(h, right);
      var up := Condense(h, left) + Condense(h, right);
      SplitPointIs(|up|, p / 2);
      assert up[..p / 2] == Condense(h, left) && up[p / 2..] == Condense(h, right);
    }
  }

  /** The chaining values of the chunks of `s`. */
  function Leaves(h: Scheme, s: seq<byte>): (cvs: seq<Cv>)
    requires s != []
    ensures |cvs| == (|s| - 1) / CHUNK_LEN + 1
  {
    if |s| <= CHUNK_LEN then [TreeCv(h, s)]
    else [TreeCv(h, s[..CHUNK_LEN])] + Leaves(h, s[CHUNK_LEN..])
  }

  lemma {:induction false} LeavesAppend(h: Scheme, a: seq<byte>, b: seq<byte>, chunks: nat)
    requires |a| == chunks * CHUNK_LEN && chunks > 0 && b != []
    ensures Leaves(h, a + b) == Leaves(h, a) + Leaves(h, b)
    decreases chunks
  {
    assert (a + b)[..CHUNK_LEN] == a[..CHUNK_LEN];
    assert (a + b)[CHUNK_LEN..] == a[CHUNK_LEN..] + b;
    if chunks == 1 {
      assert a[..CHUNK_LEN] == a && a[CHUNK_LEN..] + b == b;
    } else {
      LeavesAppend(h, a[CHUNK_LEN..], b, chunks - 1);
    }
  }

  /** Reading a list of chaining values as the tree of `s`: one value is the
      value of `s`; more stand for the two subtrees below its root. */
  ghost predicate StandFor(h: Scheme, cvs: seq<Cv>, s: seq<byte>) {
    && cvs != []
    && TreeOver(h, cvs) == TreeCv(h, s)
    && (|cvs| >= 2 ==>
          && |s| > CHUNK_LEN
          && TopPair(h, cvs) == (TreeCv(h, s[..LeftLen(|s|)]), TreeCv(h, s[LeftLen(|s|)..])))
  }

  /** Lists for the two halves of `s`, the left one a full power of two long, concatenate. */
  lemma HalvesStandFor(h: Scheme, left: seq<Cv>, right: seq<Cv>, s: seq<byte>)
    requires |s| > CHUNK_LEN && IsPow2(|left|) && 1 <= |right| <= |left|
    requires StandFor(h, left, s[..LeftLen(|s|)]) && StandFor(h, right, s[LeftLen(|s|)..])
    ensures StandFor(h, left + right, s)
  {
    var cvs := left + right;
    SplitPointIs(|cvs|, |left|);
    assert cvs[..|left|] == left && cvs[|left|..] == right;
  }

  lemma LeavesSplit(h: Scheme, s: seq<byte>)
    requires |s| > CHUNK_LEN
    ensures Leaves(h, s) == Leaves(h, s[..LeftLen(|s|)]) + Leaves(h, s[LeftLen(|s|)..])
  {
    hide LeftLen, Leaves, IsPow2;
    var l := LeftLen(|s|);
    LeavesAppend(h, s[..l], s[l..], l / CHUNK_LEN);
    assert s == s[..l] + s[l..];
  }

  lemma OneLeafStandsFor(h: Scheme, s: seq<byte>)
    requires 0 < |s| <= CHUNK_LEN
    ensures StandFor(h, Leaves(h, s), s)
  {
  }

  lemma {:induction false} LeavesStandFor(h: Scheme, s: seq<byte>)
    requires s != []
    ensures StandFor(h, Leaves(h, s), s)
    decreases |s|
  {
    hide StandFor, Leaves, LeftLen, IsPow2, SplitPoint;
    if |s| <= CHUNK_LEN {
      OneLeafStandsFor(h, s);
    } else {
      var l := LeftLen(|s|);
      LeavesStandFor(h, s[..l]);
      LeavesStandFor(h, s[l..]);
      LeavesSplit(h, s);
      HalvesStandFor(h, Leaves(h, s[..l]), Leaves(h, s[l..]), s);
    }
  }

  lemma CondenseStandFor(h: Scheme, cvs: seq<Cv>, s: seq<byte>)
    requires StandFor(h, cvs, s) && |cvs| > 2
    ensures StandFor(h, Condense(h, cvs), s)
  {
    CondenseKeepsTree(h, cvs);
  }
}

/** The wide recursive subtree compressor: several chaining values at a time,
    in fixed buffers sized by the widest degree the build supports. */
module Blake3Wide {
  import opened Bits
  import opened Blake3Spec
  import opened Blake3Chunk
  import opened Blake3Layers

  /** `degree` is the detected vector width, `max` the widest one compiled in. */
  datatype Simd = Simd(degree: nat, max: nat)
  {
    predicate Valid() { IsPow2(degree) && IsPow2(max) && degree <= max }

    function MaxOr2(): nat { if max > 2 then max else 2 }

    /** Number of chaining values a large subtree comes back as. */
    function Width(): nat { if degree > 2 then degree else 2 }
  }

  /** Nothing of `a` changed outside the `n` slots from `at`. */
  twostate predicate OnlyChanged(a: array<Cv>, at: nat, n: nat)
    reads a
  {
    forall i :: 0 <= i < a.Length && !(at <= i < at + n) ==> a[i] == old(a[i])
  }

  method HashMany(h: Scheme, inputs: seq<seq<byte>>, blocks: nat, flags: bv8, flagsStart: bv8, flagsEnd: bv8,
                  out: array<Cv>, at: nat)
    requires blocks > 0 && forall i :: 0 <= i < |inputs| ==> |inputs[i]| == BLOCK_LEN * blocks
    requires at + |inputs| <= out.Length
    modifies out
    ensures OnlyChanged(out, at, |inputs|)
    ensures forall i :: 0 <= i < |inputs| ==> out[at + i] == BulkCv(h, inputs[i], blocks, flags, flagsStart, flagsEnd)
  {
    for i := 0 to |inputs|
      invariant OnlyChanged(out, at, i)
      invariant forall j :: 0 <= j < i ==> out[at + j] == BulkCv(h, inputs[j], blocks, flags, flagsStart, flagsEnd)
    {
      out[at + i] := HashOne(h, inputs[i], blocks, flags, flagsStart, flagsEnd);
    }
  }

  /** The whole chunks at the front of the input, in order. */
  method WholeChunks(input: seq<byte>) returns (chunks: seq<seq<byte>>)
    ensures |chunks| * CHUNK_LEN <= |input| < (|chunks| + 1) * CHUNK_LEN
    ensures forall i :: 0 <= i < |chunks| ==> chunks[i] == input[i * CHUNK_LEN..(i + 1) * CHUNK_LEN]
  {
    chunks := [];
    var position := 0;
    while |input| - position >= CHUNK_LEN
      invariant position == |chunks| * CHUNK_LEN <= |input|
      invariant forall i :: 0 <= i < |chunks| ==> chunks[i] == input[i * CHUNK_LEN..(i + 1) * CHUNK_LEN]
    {
      chunks := chunks + [input[position..position + CHUNK_LEN]];
      position := position + CHUNK_LEN;
    }
  }

  method CompressChunksParallel(h: Scheme, simd: Simd, input: seq<byte>, out: array<Cv>, at: nat) returns (n: nat)
    requires simd.Valid() && 0 < |input| <= simd.degree * CHUNK_LEN
    requires at + (|input| - 1) / CHUNK_LEN + 1 <= out.Length
    modifies out
    ensures n == |Leaves(h, input)| <= simd.degree && OnlyChanged(out, at, n)
    ensures out[at..at + n] == Leaves(h, input)
  {
    hide Leaves, BulkCv, TreeCv, IsPow2;
    var chunks := WholeChunks(input);
    assert |chunks| <= simd.degree;
    HashMany(h, chunks, CHUNK_LEN / BLOCK_LEN, h.flags, CHUNK_START, CHUNK_END, out, at);
    n := |chunks|;
    WholeChunkLeaves(h, input, chunks);
    if |input| > n * CHUNK_LEN {
      var cv := PartialChunk(h, input[n * CHUNK_LEN..]);
      LeafAt(h, input, n);
      out[at + n] := cv;
      n := n + 1;
    }
  }

  method PartialChunk(h: Scheme, chunk: seq<byte>) returns (cv: Cv)
    requires |chunk| <= CHUNK_LEN
    ensures cv == TreeCv(h, chunk)
  {
    var state := new ChunkState(h);
    state.Update(chunk);
    assert state.content == chunk;
    var output := state.CurrentOutput();
    cv := output.ChainingValue(h);
  }

  lemma WholeChunkLeaves(h: Scheme, s: seq<byte>, chunks: seq<seq<byte>>)
    requires s != [] && |chunks| * CHUNK_LEN <= |s|
    requires forall i :: 0 <= i < |chunks| ==> chunks[i] == s[i * CHUNK_LEN..(i + 1) * CHUNK_LEN]
    ensures |chunks| <= |Leaves(h, s)|
    ensures forall i :: 0 <= i < |chunks|
              ==> BulkCv(h, chunks[i], CHUNK_LEN / BLOCK_LEN, h.flags, CHUNK_START, CHUNK_END) == Leaves(h, s)[i]
  {
    forall i | 0 <= i < |chunks|
      ensures BulkCv(h, chunks[i], CHUNK_LEN / BLOCK_LEN, h.flags, CHUNK_START, CHUNK_END) == Leaves(h, s)[i]
    {
      BulkChunk(h, chunks[i]);
      LeafAt(h, s, i);
    }
  }

  lemma {:induction false} LeafAt(h: Scheme, s: seq<byte>, i: nat)
    requires i * CHUNK_LEN < |s|
    ensures i < |Leaves(h, s)|
    ensures (i + 1) * CHUNK_LEN <= |s| ==> Leaves(h, s)[i] == TreeCv(h, s[i * CHUNK_LEN..(i + 1) * CHUNK_LEN])
    ensures |s| <= (i + 1) * CHUNK_LEN ==> Leaves(h, s)[i] == TreeCv(h, s[i * CHUNK_LEN..])
  {
    hide TreeCv;
    if i > 0 {
      var a := (i - 1) * CHUNK_LEN;
      LeafAt(h, s[CHUNK_LEN..], i - 1);
      DropAndSlice(s, CHUNK_LEN, a, a + CHUNK_LEN);
      LeavesTail(h, s);
    } else {
      LeavesHead(h, s);
    }
  }

  /** Slices of what is left after a prefix. */
  lemma DropAndSlice(s: seq<byte>, n: nat, a: nat, b: nat)
    requires n + a <= |s| && a <= b
    ensures s[n..][a..] == s[n + a..]
    ensures n + b <= |s| ==> s[n..][a..b] == s[n + a..n + b]
  {
  }

  lemma LeavesTail(h: Scheme, s: seq<byte>)
    requires |s| > CHUNK_LEN
    ensures Leaves(h, s)[1..] == Leaves(h, s[CHUNK_LEN..])
  {
    hide TreeCv;
  }

  lemma LeavesHead(h: Scheme, s: seq<byte>)
    requires s != []
    ensures |s| >= CHUNK_LEN ==> Leaves(h, s)[0] == TreeCv(h, s[..CHUNK_LEN])
    ensures |s| <= CHUNK_LEN ==> Leaves(h, s) == [TreeCv(h, s)]
  {
    hide TreeCv;
    if |s| == CHUNK_LEN { assert s[..CHUNK_LEN] == s; }
  }

  method CompressParentsParallel(h: Scheme, simd: Simd, children: array<Cv>, num: nat, out: array<Cv>, at: nat)
    returns (n: nat)
    requires simd.Valid() && children != out
    requires 2 <= num <= children.Length && num <= 2 * simd.MaxOr2()
    requires at + (num + 1) / 2 <= out.Length
    modifies out
    ensures n == (num + 1) / 2 && OnlyChanged(out, at, n)
    ensures out[at..at + n] == Condense(h, children[..num])
  {
    hide Condense, ParentCv, IsPow2;
    var parents: seq<seq<byte>> := [];
    while num - 2 * |parents| >= 2
      invariant 2 * |parents| <= num && |parents| <= simd.MaxOr2()
      invariant forall i :: 0 <= i < |parents| ==> parents[i] == ParentBlock(children[2 * i], children[2 * i + 1])
    {
      parents := parents + [ParentBlock(children[2 * |parents|], children[2 * |parents| + 1])];
    }
    HashMany(h, parents, 1, h.flags | PARENT, 0, 0, out, at);
    n := |parents|;
    forall i | 0 <= i < |parents|
      ensures out[at + i] == Condense(h, children[..num])[i]
    {
      BulkParent(h, children[2 * i], children[2 * i + 1]);
      CondenseAt(h, children[..num], i);
    }
    if num > 2 * |parents| {
      out[at + n] := children[2 * n];
      CondenseAt(h, children[..num], n);
      n := n + 1;
    }
  }

  lemma {:induction false} CondenseAt(h: Scheme, cvs: seq<Cv>, i: nat)
    requires 2 * i < |cvs|
    ensures Condense(h, cvs)[i] == if 2 * i + 1 < |cvs| then ParentCv(h, cvs[2 * i], cvs[2 * i + 1]) else cvs[2 * i]
  {
    if i > 0 { CondenseAt(h, cvs[2..], i - 1); }
  }

  /** A complete power-of-two subtree at least as wide as the buffers' stride. */
  predicate FullWidth(simd: Simd, n: nat) {
    n % CHUNK_LEN == 0 && IsPow2(n / CHUNK_LEN) && n / CHUNK_LEN >= simd.Width()
  }

  /** At least two chaining values and at most the width for anything over one
      chunk, exactly the width for a large complete subtree; and they stand for
      the tree of the input. `cvs` names the slots written. */
  method CompressSubtreeWide(h: Scheme, simd: Simd, input: seq<byte>, out: array<Cv>, at: nat)
    returns (n: nat, ghost cvs: seq<Cv>)
    requires simd.Valid() && input != []
    requires at + (if |input| > CHUNK_LEN then simd.Width() else 1) <= out.Length
    modifies out
    ensures 1 <= n <= simd.Width() && at + n <= out.Length && OnlyChanged(out, at, n)
    ensures |input| > CHUNK_LEN <==> n >= 2
    ensures FullWidth(simd, |input|) ==> n == simd.Width()
    ensures cvs == out[at..at + n] && StandFor(h, cvs, input)
    decreases |input|, 1
  {
    hide StandFor, Leaves, Condense, LeftLen, IsPow2, TreeCv, ParentCv, FullWidth;
    if |input| <= simd.degree * CHUNK_LEN {
      n := CompressChunksParallel(h, simd, input, out, at);
      LeavesStandFor(h, input);
      if FullWidth(simd, |input|) { BaseWidth(simd, |input|); }
      return n, Leaves(h, input);
    }
    WideSplit(simd, |input|);
    var leftLen := LeftLen(|input|);
    var cvArray := new Cv[2 * simd.MaxOr2()];
    var leftN, rightN, left, right := CompressHalves(h, simd, input[..leftLen], input[leftLen..], cvArray);
    HalvesStandFor(h, left, right, input);
    cvs := left + right;
    if leftN == 1 {
      assert cvs == cvArray[..2] == [cvArray[0], cvArray[1]];
      out[at], out[at + 1] := cvArray[0], cvArray[1];
      assert out[at..at + 2] == [out[at], out[at + 1]];
      return 2, cvs;
    }
    n := CompressParentsParallel(h, simd, cvArray, leftN + rightN, out, at);
    CondenseStandFor(h, cvs, input);
    cvs := Condense(h, cvs);
  }

  /** Both recursive calls: the left values exactly fill the slots before the right ones. */
  method CompressHalves(h: Scheme, simd: Simd, left: seq<byte>, right: seq<byte>, out: array<Cv>)
    returns (leftN: nat, rightN: nat, ghost leftCvs: seq<Cv>, ghost rightCvs: seq<Cv>)
    requires simd.Valid() && out.Length == 2 * simd.MaxOr2() && 1 <= |right| <= |left|
    requires (|left| == CHUNK_LEN && simd.degree == 1) || FullWidth(simd, |left|)
    modifies out
    ensures leftN == (if |left| == CHUNK_LEN && simd.degree == 1 then 1 else simd.Width())
    ensures 1 <= rightN <= leftN && (|right| == |left| ==> rightN == leftN)
    ensures leftN + rightN <= out.Length
    ensures |leftCvs| == leftN && |rightCvs| == rightN && out[..leftN + rightN] == leftCvs + rightCvs
    ensures StandFor(h, leftCvs, left) && StandFor(h, rightCvs, right)
    decreases |left| + |right|, 0
  {
    hide StandFor;
    var degree := simd.degree;
    if |left| > CHUNK_LEN && degree == 1 {
      degree := 2;
    }
    leftN, leftCvs := CompressSubtreeWide(h, simd, left, out, 0);
    assert leftN == degree;
    rightN, rightCvs := CompressSubtreeWide(h, simd, right, out, degree);
    assert out[..leftN] == leftCvs;
    assert out[..leftN + rightN] == out[..leftN] + out[leftN..leftN + rightN];
  }

  lemma BaseWidth(simd: Simd, n: nat)
    requires simd.Valid() && 0 < n <= simd.degree * CHUNK_LEN && FullWidth(simd, n)
    ensures (n - 1) / CHUNK_LEN + 1 == simd.Width()
  {
  }

  /** Past the base case the left half is a complete subtree that fills its
      share of the buffer: one value at degree 1 over one chunk, else the full width. */
  lemma WideSplit(simd: Simd, n: nat)
    requires simd.Valid() && n > simd.degree * CHUNK_LEN
    ensures n > CHUNK_LEN
    ensures LeftLen(n) >= simd.degree * CHUNK_LEN
    ensures LeftLen(n) == CHUNK_LEN ==> simd.degree == 1 && n <= 2 * CHUNK_LEN
    ensures LeftLen(n) > CHUNK_LEN ==> FullWidth(simd, LeftLen(n))
    ensures FullWidth(simd, n) ==> n == 2 * LeftLen(n)
    ensures simd.Width() <= simd.MaxOr2() && IsPow2(simd.Width())
    ensures simd.Width() % 2 == 0
  {
    var w := LeftLen(n) / CHUNK_LEN;
    if w < simd.degree { Pow2Gap(w, simd.degree); }
    if FullWidth(simd, n) { LeftLenIs(n, n / CHUNK_LEN / 2); }
  }

  /** The chaining values of the two subtrees below the root of the input's
      tree; the root itself is left to the caller, who may have to finalize it. */
  method CompressSubtreeToParentNode(h: Scheme, simd: Simd, input: seq<byte>) returns (left: Cv, right: Cv)
    requires simd.Valid() && |input| > CHUNK_LEN
    ensures left == TreeCv(h, input[..LeftLen(|input|)]) && right == TreeCv(h, input[LeftLen(|input|)..])
  {
    hide StandFor, LeftLen, IsPow2, TreeCv;
    var cvArray := new Cv[simd.MaxOr2()];
    WidthFits(simd);
    var num, cvs := CompressSubtreeWide(h, simd, input, cvArray, 0);
    var outArray := new Cv[simd.MaxOr2() / 2];
    num, cvs := CondenseToPair(h, simd, input, cvArray, outArray, num, cvs);
    PairStandsFor(h, cvs, input);
    left, right := cvArray[0], cvArray[1];
  }

  method CondenseToPair(h: Scheme, simd: Simd, ghost input: seq<byte>, cvArray: array<Cv>, outArray: array<Cv>,
                        n: nat, ghost before: seq<Cv>)
    returns (num: nat, ghost cvs: seq<Cv>)
    requires simd.Valid() && cvArray != outArray
    requires cvArray.Length == simd.MaxOr2() && outArray.Length == simd.MaxOr2() / 2
    requires 2 <= n <= simd.Width() && cvArray[..n] == before && StandFor(h, before, input)
    modifies cvArray, outArray
    ensures num == 2 <= cvArray.Length && cvArray[..2] == cvs && StandFor(h, cvs, input)
  {
    hide StandFor, Condense;
    num, cvs := n, before;
    WidthFits(simd);
    while num > 2
      invariant 2 <= num <= simd.Width() && cvArray[..num] == cvs && StandFor(h, cvs, input)
    {
      num := CompressParentsParallel(h, simd, cvArray, num, outArray, 0);
      CondenseStandFor(h, cvs, input);
      cvs := Condense(h, cvs);
      assert outArray[..num] == cvs;
      forall i | 0 <= i < num { cvArray[i] := outArray[i]; }
    }
  }

  lemma WidthFits(simd: Simd)
    requires simd.Valid()
    ensures simd.Width() <= simd.MaxOr2() && simd.Width() % 2 == 0 && simd.MaxOr2() % 2 == 0
  {
  }

  lemma PairStandsFor(h: Scheme, cvs: seq<Cv>, s: seq<byte>)
    requires StandFor(h, cvs, s) && |cvs| == 2
    ensures |s| > CHUNK_LEN && cvs == [TreeCv(h, s[..LeftLen(|s|)]), TreeCv(h, s[LeftLen(|s|)..])]
  {
    SplitPointIs(2, 1);
  }
}
