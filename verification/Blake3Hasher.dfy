/** The streaming hasher: a partial chunk, a lazily merged stack of chaining
    values, and the wide compressor for everything in between. */
module Blake3Hasher {
  import opened Bits
  import opened Blake3Spec
  import opened Blake3Chunk
  import opened Blake3Wide
  import opened Blake3Stack
  import opened Blake3Schedule

  const MAX_DEPTH: nat := 54
  const INPUT_LIMIT: nat := 0x1_0000_0000_0000_0000

  class Hasher {
    const scheme: Scheme
    const simd: Simd
    const rule: ResetRule
    const chunk: ChunkState
    const cvStack: array<Cv>
    var cvStackLen: nat

    /** The bytes behind the stack and how they divide into its entries. */
    ghost var data: seq<byte>
    ghost var sizes: seq<nat>

    ghost predicate StackOk()
      reads this, cvStack
    {
      && cvStack.Length == MAX_DEPTH + 1
      && cvStackLen == |sizes| <= cvStack.Length
      && Lazy(sizes)
      && |data| == CHUNK_LEN * Sum(sizes)
      && cvStack[..cvStackLen] == StackCvs(scheme, sizes, data)
    }

    /** Between subtrees: the chunk state is empty and counts the chunks on the stack. */
    ghost predicate Ready()
      reads this, chunk, chunk.buf, cvStack
    {
      && simd.Valid()
      && StackOk()
      && chunk.Valid() && chunk.scheme == scheme && chunk.content == []
      && chunk.chunkCounter == Sum(sizes)
    }

    /** After a reset that lost the count of a non-empty stack. */
    ghost predicate Lost()
      reads this, chunk, chunk.buf, cvStack
    {
      && simd.Valid()
      && StackOk()
      && chunk.Valid() && chunk.scheme == scheme && chunk.content == []
      && chunk.chunkCounter == 0 != Sum(sizes)
    }

    /** Between updates. With an empty chunk state the top two entries are an
        unmerged pair; with a non-empty one the stack is fully merged. */
    ghost predicate Valid()
      reads this, chunk, chunk.buf, cvStack
    {
      && simd.Valid()
      && StackOk()
      && chunk.Valid() && chunk.scheme == scheme
      && chunk.chunkCounter == Sum(sizes)
      && |Input()| < INPUT_LIMIT
      && (chunk.content != [] ==> Strict(sizes))
      && (chunk.content == [] && sizes != [] ==> !Strict(sizes))
    }

    /** Everything hashed so far. */
    ghost function Input(): seq<byte>
      reads this, chunk
    {
      data + chunk.content
    }

    ghost function Filled(): Fill
      reads this, chunk
    {
      Fill(chunk.chunkCounter, |chunk.content|)
    }

    constructor (scheme: Scheme, simd: Simd, rule: ResetRule)
      requires simd.Valid()
      ensures Valid() && Input() == [] && Filled() == Fill(0, 0)
      ensures this.scheme == scheme && this.simd == simd && this.rule == rule
      ensures fresh(chunk) && fresh(chunk.buf) && fresh(cvStack)
    {
      this.scheme := scheme;
      this.simd := simd;
      this.rule := rule;
      chunk := new ChunkState(scheme);
      cvStack := new Cv[MAX_DEPTH + 1];
      cvStackLen := 0;
      data, sizes := [], [];
    }

    /** Replaces the top two entries by their parent. */
    method MergeTopEntries()
      requires 2 <= cvStackLen <= cvStack.Length
      modifies this`cvStackLen, this`sizes, cvStack
      ensures cvStackLen == old(cvStackLen) - 1
      ensures old(StackOk() && !Strict(sizes)) ==>
                StackOk() && sizes == MergeTop(old(sizes)) && Sum(sizes) == old(Sum(sizes))
    {
      hide StackCvs, ParentCv, Lazy;
      ghost var before, n := cvStack[..cvStackLen], cvStackLen;
      var parent := ParentCv(scheme, cvStack[cvStackLen - 2], cvStack[cvStackLen - 1]);
      cvStack[cvStackLen - 2] := parent;
      cvStackLen := cvStackLen - 1;
      assert cvStack[..cvStackLen] == before[..n - 2] + [parent];
      if old(StackOk() && !Strict(sizes)) {
        MergeTopCvs(scheme, sizes, data);
        MergeTopIsLazy(sizes);
        sizes := MergeTop(sizes);
      }
    }

    /** Merges the top two entries until one entry per set bit of `total` is
        left. A total of 0 over a non-empty stack merges down to a single entry
        and then reaches below it: the source underflows the stack index there,
        the model reports `fault`. */
    method MergeCvStack(total: nat) returns (fault: bool)
      requires StackOk() && (total == Sum(sizes) || total == 0)
      modifies this`cvStackLen, this`sizes, cvStack
      ensures fault <==> total != old(Sum(sizes))
      ensures !fault ==> StackOk() && Strict(sizes) && Sum(sizes) == total
      ensures !fault && old(Strict(sizes)) ==> sizes == old(sizes)
      ensures !fault ==> cvStackLen == PopCount(total)
    {
      hide StackCvs, Lazy, Strict, Sum, PopCount, MergeTop;
      var postMergeLen := PopCount(total);
      ghost var exact := total == Sum(sizes);
      PopCountZero();
      SumPositive(sizes);
      LazyPopCount(sizes);
      while cvStackLen > postMergeLen
        invariant cvStackLen <= cvStack.Length
        invariant exact ==> StackOk() && Sum(sizes) == total && PopCount(total) <= cvStackLen
        invariant exact ==> (PopCount(total) == cvStackLen <==> Strict(sizes))
        invariant exact && old(Strict(sizes)) ==> sizes == old(sizes)
        invariant !exact ==> total == postMergeLen == 0 < cvStackLen
        decreases cvStackLen
      {
        if cvStackLen < 2 {
          if exact { MergeTopIsLazy(sizes); }
          return true;
        }
        MergeTopEntries();
        if exact { LazyPopCount(sizes); }
      }
      fault := false;
    }

    /** Merges, then puts the value of the next `w` chunks on top. */
    method PushCv(newCv: Cv, total: nat, ghost w: nat, ghost piece: seq<byte>) returns (fault: bool)
      requires StackOk() && (total == Sum(sizes) || total == 0)
      requires IsPow2(w) && |piece| == CHUNK_LEN * w && newCv == TreeCv(scheme, piece)
      requires total == Sum(sizes) ==> total < Pow2(MAX_DEPTH) && Divides(w, total)
      modifies this`cvStackLen, this`sizes, this`data, cvStack
      ensures fault <==> total != old(Sum(sizes))
      ensures !fault ==> StackOk() && Sum(sizes) == total + w && data == old(data) + piece
      ensures !fault ==> cvStackLen == PopCount(total) + 1 && sizes != [] && Last(sizes) == w && Strict(Init(sizes))
      ensures !fault && old(Strict(sizes)) ==> sizes == old(sizes) + [w]
    {
      hide StackCvs, TreeCv, Lazy, Strict, Sum, PopCount, Pow2, IsPow2, Divides, Init, Last;
      fault := MergeCvStack(total);
      if fault { return; }
      PopCountBound(total, MAX_DEPTH);
      PushAligned(sizes, w);
      StackSnoc(scheme, sizes, data, w, piece);
      ghost var below := cvStack[..cvStackLen];
      cvStack[cvStackLen] := newCv;
      cvStackLen := cvStackLen + 1;
      assert cvStack[..cvStackLen] == below + [newCv];
      data := data + piece;
      SnocParts(sizes, w);
      sizes := sizes + [w];
    }

    /** The two chaining values below the root of a subtree of `2 * half`
        chunks, pushed one after the other. */
    method PushPair(left: Cv, right: Cv, total: nat, half: nat, ghost a: seq<byte>, ghost b: seq<byte>)
      returns (fault: bool)
      requires StackOk() && (total == Sum(sizes) || total == 0)
      requires IsPow2(half) && half > 0 && |a| == |b| == CHUNK_LEN * half
      requires left == TreeCv(scheme, a) && right == TreeCv(scheme, b)
      requires total == Sum(sizes) ==> total + half < Pow2(MAX_DEPTH) && Divides(2 * half, total)
      modifies this`cvStackLen, this`sizes, this`data, cvStack
      ensures fault <==> total != old(Sum(sizes))
      ensures !fault ==> StackOk() && Sum(sizes) == total + 2 * half && data == old(data) + a + b
      ensures !fault ==> sizes != [] && !Strict(sizes)
    {
      hide StackOk, TreeCv, Strict, Sum, PopCount, Pow2, IsPow2, Divides;
      HalfDivides(half, total);
      fault := PushCv(left, total, half, a);
      if !fault {
        SumInit(sizes);
        PushHalf(sizes, half);
        fault := PushCv(right, total + half, half, b);
      }
    }

    /** Puts one whole subtree on the stack: a single chunk by its own value,
        anything larger as the unmerged pair below its root. */
    method AbsorbSubtree(piece: seq<byte>) returns (fault: bool)
      requires Ready() || Lost()
      requires |piece| >= CHUNK_LEN && |piece| % CHUNK_LEN == 0 && IsPow2(|piece| / CHUNK_LEN)
      requires Ready() ==> Divides(|piece| / CHUNK_LEN, Sum(sizes))
                           && Sum(sizes) + |piece| / CHUNK_LEN < Pow2(MAX_DEPTH)
      modifies this`cvStackLen, this`sizes, this`data, chunk`chunkCounter, cvStack
      ensures fault <==> old(Lost())
      ensures !fault ==> Ready() && data == old(data) + piece && sizes != []
      ensures !fault ==> chunk.chunkCounter == old(chunk.chunkCounter) + |piece| / CHUNK_LEN
      ensures !fault && |piece| > CHUNK_LEN ==> !Strict(sizes)
    {
      hide StackOk, TreeCv, Strict, Sum, PopCount, Pow2, IsPow2, Divides, LeadingBlocks, ChainAfter, Pad, LeftLen;
      var subtreeChunks := |piece| / CHUNK_LEN;
      if |piece| <= CHUNK_LEN {
        var cv := PartialChunk(scheme, piece);
        fault := PushCv(cv, chunk.chunkCounter, subtreeChunks, piece);
      } else {
        Halves(subtreeChunks);
        var cut := CHUNK_LEN * (subtreeChunks / 2);
        var left, right := CompressSubtreeToParentNode(scheme, simd, piece);
        fault := PushPair(left, right, chunk.chunkCounter, subtreeChunks / 2, piece[..cut], piece[cut..]);
        assert piece == piece[..cut] + piece[cut..];
      }
      if !fault {
        chunk.chunkCounter := chunk.chunkCounter + subtreeChunks;
      }
    }

    /** A full chunk with more to come is not the root: its value goes on the
        stack. The reset then keeps or loses the number of chunks on it. */
    method CompleteChunk()
      requires Valid() && |chunk.content| == CHUNK_LEN
      modifies this`cvStackLen, this`sizes, this`data, chunk, chunk.buf, cvStack
      ensures data == old(Input()) && chunk.content == []
      ensures if rule.Intended? then Ready() && chunk.chunkCounter == old(chunk.chunkCounter) + 1 else Lost()
    {
      hide StackCvs, Lazy, Strict, Sum, PopCount, Pow2, IsPow2, Divides;
      SumPositive(sizes);
      CountFits(chunk.chunkCounter);
      SmallTree(scheme, chunk.content);
      var chunkCv := chunk.CurrentOutput().ChainingValue(scheme);
      var fault := PushCv(chunkCv, chunk.chunkCounter, 1, chunk.content);
      chunk.Reset(chunk.chunkCounter + 1, rule);
    }

    /** Whole subtrees, each the largest that fits, while more than one chunk is left. */
    method AbsorbSubtrees(input: seq<byte>) returns (rest: seq<byte>, fault: bool)
      requires Ready() || Lost()
      requires |data| + |input| < INPUT_LIMIT
      modifies this`cvStackLen, this`sizes, this`data, chunk`chunkCounter, cvStack
      ensures fault <==> old(Lost()) && |input| > CHUNK_LEN
      ensures !fault ==> |rest| <= CHUNK_LEN
      ensures !fault && old(Lost()) ==> Lost() && rest == input
      ensures old(Ready()) ==> Ready() && data + rest == old(data) + input
      ensures old(Ready()) && input != [] && rest == [] ==> sizes != [] && !Strict(sizes)
      ensures old(Ready()) ==> Fill(chunk.chunkCounter, |rest|) == TakeSubtrees(old(chunk.chunkCounter), |input|)
    {
      hide StackCvs, Lazy, Strict, Sum, PopCount, Pow2, IsPow2, Divides, SubtreeLen, TakeSubtrees;
      hide LeadingBlocks, ChainAfter, Pad;
      ghost var lost, whole, goal := Lost(), data + input, TakeSubtrees(chunk.chunkCounter, |input|);
      rest := input;
      while |rest| > CHUNK_LEN
        invariant lost ==> Lost() && rest == input
        invariant !lost ==> Ready() && data + rest == whole && |whole| < INPUT_LIMIT
        invariant !lost ==> TakeSubtrees(chunk.chunkCounter, |rest|) == goal
        invariant !lost && input != [] && rest == [] ==> sizes != [] && !Strict(sizes)
      {
        var subtreeLen := FitSubtree(|rest|, CHUNK_LEN * chunk.chunkCounter);
        if !lost { TakeOne(chunk.chunkCounter, |rest|); }
        ghost var before := data;
        fault := AbsorbSubtree(rest[..subtreeLen]);
        if fault { return; }
        assert before + rest == before + rest[..subtreeLen] + rest[subtreeLen..];
        rest := rest[subtreeLen..];
      }
      TakeNone(chunk.chunkCounter, |rest|);
      fault := false;
    }

    /** The part of an update that starts on an empty chunk state. */
    method HashFromBoundary(input: seq<byte>) returns (fault: bool)
      requires Ready() || Lost()
      requires input != [] && |data| + |input| < INPUT_LIMIT
      modifies this`cvStackLen, this`sizes, this`data, chunk, chunk.buf, cvStack
      ensures fault <==> old(Lost())
      ensures !fault ==> Valid() && Input() == old(data) + input
      ensures !fault ==> Filled() == TakeSubtrees(old(chunk.chunkCounter), |input|)
    {
      hide StackOk, Strict, Sum, PopCount, Pow2, IsPow2, Divides, TakeSubtrees, LeadingBlocks, ChainAfter, Pad;
      var rest;
      rest, fault := AbsorbSubtrees(input);
      if !fault && rest != [] {
        chunk.Update(rest);
        fault := MergeCvStack(chunk.chunkCounter);
      }
    }

    /** The partial chunk takes what fits of the input. If more is left, the
        chunk is complete and goes on the stack. */
    method FillPartialChunk(input: seq<byte>) returns (rest: seq<byte>)
      requires Valid() && |Input()| + |input| < INPUT_LIMIT && input != [] && chunk.content != []
      modifies this`cvStackLen, this`sizes, this`data, chunk, chunk.buf, cvStack
      ensures |rest| == if old(|chunk.content|) + |input| <= CHUNK_LEN then 0
                        else |input| - (CHUNK_LEN - old(|chunk.content|))
      ensures rest == [] ==>
                Valid() && Input() == old(Input()) + input && Filled() == AfterUpdate(old(Filled()), |input|)
      ensures rest != [] ==>
                && data + rest == old(Input()) + input
                && if rule.Intended? then Ready() && chunk.chunkCounter == old(chunk.chunkCounter) + 1 else Lost()
    {
      hide StackOk, Strict, Sum, TakeSubtrees, LeadingBlocks, ChainAfter, Pad, IsPow2;
      ghost var whole := Input() + input;
      var take := CHUNK_LEN - chunk.Len();
      if take > |input| {
        take := |input|;
      }
      chunk.Update(input[..take]);
      rest := input[take..];
      assert whole == Input() + rest;
      if rest != [] {
        CompleteChunk();
      }
    }

    /** Appends `input`. With the reset as written, an update that completes a
        partial chunk and has more to hash runs the merge loop off the stack;
        no other update does. */
    method Update(input: seq<byte>) returns (fault: bool)
      requires Valid() && |Input()| + |input| < INPUT_LIMIT
      modifies this`cvStackLen, this`sizes, this`data, chunk, chunk.buf, cvStack
      ensures fault <==> Overruns(rule, old(|chunk.content|), |input|)
      ensures !fault ==> Valid() && Input() == old(Input()) + input
      ensures !fault ==> Filled() == AfterUpdate(old(Filled()), |input|)
    {
      hide StackOk, Strict, Sum, TakeSubtrees, SubtreeLen, LeadingBlocks, ChainAfter, Pad, IsPow2;
      if input == [] {
        assert Input() + input == Input();
        return false;
      }
      var rest := input;
      if chunk.Len() > 0 {
        rest := FillPartialChunk(input);
        if rest == [] {
          return false;
        }
      } else {
        assert Input() == data;
      }
      fault := HashFromBoundary(rest);
    }

    /** The digest of everything hashed so far; the state does not change. */
    method Finalize() returns (digest: Cv)
      requires Valid()
      ensures digest == TreeHash(scheme, Input())
    {
      hide StackCvs, TreeOutput, Lazy, Strict, Sum, LeadingBlocks, ChainAfter, Pad, IsPow2;
      SumPositive(sizes);
      SmallTree(scheme, chunk.content);
      if cvStackLen == 0 {
        assert Input() == chunk.content;
        return chunk.CurrentOutput().RootBytes(scheme);
      }
      var output, remaining;
      ghost var s, d, tail;
      if chunk.Len() > 0 {
        remaining, output := cvStackLen, chunk.CurrentOutput();
        s, d, tail := sizes, data, chunk.content;
        StrictLast(s);
      } else {
        FoldPair(scheme, sizes, data);
        remaining := cvStackLen - 2;
        output := ParentOutput(scheme, cvStack[remaining], cvStack[remaining + 1]);
        s := Init(Init(sizes));
        d, tail := data[..CHUNK_LEN * Sum(s)], data[CHUNK_LEN * Sum(s)..];
      }
      while remaining > 0
        invariant remaining == |s| <= cvStackLen && Strict(s) && |d| == CHUNK_LEN * Sum(s)
        invariant d + tail == Input() && cvStack[..remaining] == StackCvs(scheme, s, d)
        invariant output == TreeOutput(scheme, tail)
        invariant tail != [] && (s != [] ==> |tail| <= CHUNK_LEN * Last(s))
      {
        FoldTop(scheme, s, d, tail);
        remaining := remaining - 1;
        output := ParentOutput(scheme, cvStack[remaining], output.ChainingValue(scheme));
        ghost var cut := |d| - CHUNK_LEN * Last(s);
        assert d == d[..cut] + d[cut..];
        s, d, tail := Init(s), d[..cut], d[cut..] + tail;
      }
      SumEmpty();
      assert d + tail == tail;
      digest := output.RootBytes(scheme);
    }
  }

  lemma Halves(w: nat)
    requires IsPow2(w) && w > 1
    ensures w == 2 * (w / 2) && IsPow2(w / 2) && LeftLen(CHUNK_LEN * w) == CHUNK_LEN * (w / 2)
  {
    LeftLenIs(CHUNK_LEN * w, w / 2);
  }

  lemma HalfDivides(half: nat, total: nat)
    requires half > 0 && Divides(2 * half, total)
    ensures Divides(half, total) && Divides(half, total + half)
  {
    var k := total / (2 * half);
    assert total == (2 * half) * k == half * (2 * k);
    RemainderIs(total, half, 2 * k, 0);
    assert total + half == half * (2 * k + 1);
    RemainderIs(total + half, half, 2 * k + 1, 0);
  }

  /** A chunk count below the input limit fits the stack. */
  lemma CountFits(count: nat)
    ensures CHUNK_LEN * count < INPUT_LIMIT <==> count < Pow2(MAX_DEPTH)
    ensures Divides(1, count) && IsPow2(1)
  {
    hide Pow2;
    Pow2Literals();
  }

  lemma TakeNone(count: nat, n: nat)
    requires n <= CHUNK_LEN
    ensures TakeSubtrees(count, n) == Fill(count, n)
  {
  }

  lemma SumEmpty()
    ensures Sum([]) == 0
  {
  }

  lemma SmallTree(h: Scheme, s: seq<byte>)
    requires |s| <= CHUNK_LEN
    ensures TreeOutput(h, s) == ChunkOutput(h, s)
  {
  }

  lemma StrictLast(sizes: seq<nat>)
    requires Strict(sizes) && sizes != []
    ensures Last(sizes) >= 1
  {
  }

  lemma TakeOne(count: nat, n: nat)
    requires n > CHUNK_LEN && CHUNK_LEN * count + n < INPUT_LIMIT
    ensures var len := SubtreeLen(n, CHUNK_LEN * count);
            && TakeSubtrees(count, n) == TakeSubtrees(count + len / CHUNK_LEN, n - len)
            && Divides(len / CHUNK_LEN, count)
            && count + len / CHUNK_LEN < Pow2(MAX_DEPTH)
  {
    hide SubtreeLen, Pow2;
    var len := SubtreeLen(n, CHUNK_LEN * count);
    CountFits(count + len / CHUNK_LEN);
    DivideBoth(count, len / CHUNK_LEN);
  }

  lemma DivideBoth(x: nat, y: nat)
    requires y > 0 && (CHUNK_LEN * x) % (CHUNK_LEN * y) == 0
    ensures Divides(y, x)
  {
    var k := (CHUNK_LEN * x) / (CHUNK_LEN * y);
    assert CHUNK_LEN * x == (CHUNK_LEN * y) * k == CHUNK_LEN * (y * k);
    RemainderIs(x, y, k, 0);
  }

  lemma PopCountZero()
    ensures PopCount(0) == 0
  {
  }

  lemma SumPositive(sizes: seq<nat>)
    requires Lazy(sizes)
    ensures Sum(sizes) == 0 <==> sizes == []
  {
    if sizes != [] { SumInit(sizes); }
  }
}
