/** One chunk at a time: the incremental chunk state and the bulk path that
    hashes whole blocks without buffering. */
module Blake3Chunk {
  import opened Blake3Spec

  /** Whether chunk_state_reset stores the counter it is given. As written it
      stores 0; the caller passes the number of the next chunk. */
  datatype ResetRule = AsWritten | Intended

  class ChunkState {
    const scheme: Scheme
    var cv: Cv
    var chunkCounter: nat
    const buf: array<byte>
    var bufLen: nat
    var blocksCompressed: nat

    /** The bytes of the chunk so far. */
    ghost var content: seq<byte>

    ghost predicate Valid()
      reads this, buf
    {
      && buf.Length == BLOCK_LEN
      && |content| <= CHUNK_LEN
      && blocksCompressed == LeadingBlocks(|content|)
      && bufLen == |content| - BLOCK_LEN * blocksCompressed
      && cv == ChainAfter(scheme, content, blocksCompressed)
      && buf[..] == Pad(content[BLOCK_LEN * blocksCompressed..])
    }

    constructor (scheme: Scheme)
      ensures Valid() && fresh(buf)
      ensures this.scheme == scheme && content == [] && chunkCounter == 0
    {
      this.scheme := scheme;
      cv := scheme.key;
      chunkCounter := 0;
      buf := new byte[BLOCK_LEN](_ => 0);
      bufLen := 0;
      blocksCompressed := 0;
      content := [];
    }

    method Reset(counter: nat, rule: ResetRule)
      requires buf.Length == BLOCK_LEN
      modifies this, buf
      ensures Valid()
      ensures content == [] && chunkCounter == (if rule.Intended? then counter else 0)
    {
      cv := scheme.key;
      chunkCounter := if rule.Intended? then counter else 0;
      blocksCompressed := 0;
      ClearBuf();
      bufLen := 0;
      content := [];
    }

    method ClearBuf()
      requires buf.Length == BLOCK_LEN
      modifies buf
      ensures buf[..] == Pad([])
    {
      forall i | 0 <= i < buf.Length { buf[i] := 0; }
    }

    function Len(): (n: nat)
      requires Valid()
      reads this, buf
      ensures n == |content|
    {
      BLOCK_LEN * blocksCompressed + bufLen
    }

    /** Appends what fits to the buffer and returns how much that was. */
    method FillBuf(input: seq<byte>) returns (take: nat)
      requires buf.Length == BLOCK_LEN && bufLen <= BLOCK_LEN
      requires buf[..] == Pad(buf[..bufLen])
      modifies this`bufLen, buf
      ensures take == if |input| <= BLOCK_LEN - old(bufLen) then |input| else BLOCK_LEN - old(bufLen)
      ensures bufLen == old(bufLen) + take
      ensures buf[..] == Pad(old(buf[..bufLen]) + input[..take])
      ensures buf[..bufLen] == old(buf[..bufLen]) + input[..take]
    {
      take := BLOCK_LEN - bufLen;
      if take > |input| {
        take := |input|;
      }
      ghost var before := buf[..bufLen];
      forall i | 0 <= i < take { buf[bufLen + i] := input[i]; }
      bufLen := bufLen + take;
    }

    /** Compresses one 64-byte block that is not the last of its chunk. */
    method CompressBlock(block: Block, ghost chunk: seq<byte>)
      requires BLOCK_LEN * (blocksCompressed + 1) <= |chunk|
      requires block == chunk[BLOCK_LEN * blocksCompressed..BLOCK_LEN * (blocksCompressed + 1)]
      requires cv == ChainAfter(scheme, chunk, blocksCompressed)
      modifies this`cv, this`blocksCompressed
      ensures blocksCompressed == old(blocksCompressed) + 1
      ensures cv == ChainAfter(scheme, chunk, blocksCompressed)
    {
      cv := scheme.compress(cv, block, BLOCK_LEN, scheme.flags | StartFlag(blocksCompressed));
      blocksCompressed := blocksCompressed + 1;
    }

    /** Compresses all but the last block of what is left, straight from the input. */
    method CompressBlocks(input: seq<byte>, ghost chunk: seq<byte>) returns (rest: seq<byte>)
      requires BLOCK_LEN * blocksCompressed <= |chunk|
      requires cv == ChainAfter(scheme, chunk, blocksCompressed)
      requires input != [] ==> input == chunk[BLOCK_LEN * blocksCompressed..]
      modifies this`cv, this`blocksCompressed
      ensures BLOCK_LEN * blocksCompressed <= |chunk|
      ensures cv == ChainAfter(scheme, chunk, blocksCompressed)
      ensures input == [] ==> rest == [] && blocksCompressed == old(blocksCompressed)
      ensures input != [] ==> 0 < |rest| <= BLOCK_LEN && rest == chunk[BLOCK_LEN * blocksCompressed..]
    {
      rest := input;
      while |rest| > BLOCK_LEN
        invariant BLOCK_LEN * blocksCompressed <= |chunk|
        invariant cv == ChainAfter(scheme, chunk, blocksCompressed)
        invariant input == [] ==> rest == [] && blocksCompressed == old(blocksCompressed)
        invariant input != [] ==> rest != [] && rest == chunk[BLOCK_LEN * blocksCompressed..]
      {
        CompressBlock(rest[..BLOCK_LEN], chunk);
        rest := rest[BLOCK_LEN..];
      }
    }

    /** Feeding a chunk in any pieces leaves the state that belongs to the
        concatenated bytes, with the unused tail of the buffer zero. */
    method Update(input: seq<byte>)
      requires Valid() && |content| + |input| <= CHUNK_LEN
      modifies this, buf
      ensures Valid() && chunkCounter == old(chunkCounter)
      ensures content == old(content) + input
    {
      hide ChainAfter, LeadingBlocks, Pad;
      ghost var whole := content + input;
      ChainPrefix(scheme, content, whole, blocksCompressed);
      PadHolds(content[BLOCK_LEN * blocksCompressed..]);
      DropConcat(content, input, BLOCK_LEN * blocksCompressed);
      var rest := input;
      if bufLen > 0 {
        rest := FlushBuffer(input, whole);
      }
      content := whole;
      KeepLastBlock(rest, whole);
      LeadingBlocksIs(|whole|, blocksCompressed, bufLen);
    }

    /** Compresses all but the last block of the rest and buffers that one. */
    method KeepLastBlock(rest: seq<byte>, ghost whole: seq<byte>)
      requires buf.Length == BLOCK_LEN && bufLen <= BLOCK_LEN && buf[..] == Pad(buf[..bufLen])
      requires BLOCK_LEN * blocksCompressed <= |whole| && cv == ChainAfter(scheme, whole, blocksCompressed)
      requires whole[BLOCK_LEN * blocksCompressed..] == buf[..bufLen] + rest
      requires rest != [] ==> bufLen == 0
      modifies this`cv, this`blocksCompressed, this`bufLen, buf
      ensures BLOCK_LEN * blocksCompressed <= |whole| && cv == ChainAfter(scheme, whole, blocksCompressed)
      ensures bufLen == |whole| - BLOCK_LEN * blocksCompressed <= BLOCK_LEN
      ensures buf[..] == Pad(whole[BLOCK_LEN * blocksCompressed..])
      ensures if rest == [] then bufLen == old(bufLen) && blocksCompressed == old(blocksCompressed) else bufLen > 0
    {
      hide ChainAfter, Pad;
      ghost var held := buf[..bufLen];
      assert rest == [] ==> held + rest == held;
      assert held == [] ==> held + rest == rest;
      var tail := CompressBlocks(rest, whole);
      var took := FillBuf(tail);
      assert tail[..took] == tail;
      assert held == [] ==> held + tail == tail;
    }

    /** Tops up a buffer that holds something. If there is more input the buffer
        is a full block that is not the last one: it is compressed and emptied. */
    method FlushBuffer(input: seq<byte>, ghost whole: seq<byte>) returns (rest: seq<byte>)
      requires buf.Length == BLOCK_LEN && 0 < bufLen <= BLOCK_LEN && buf[..] == Pad(buf[..bufLen])
      requires BLOCK_LEN * blocksCompressed <= |whole| && cv == ChainAfter(scheme, whole, blocksCompressed)
      requires whole[BLOCK_LEN * blocksCompressed..] == buf[..bufLen] + input
      modifies this`cv, this`blocksCompressed, this`bufLen, buf
      ensures BLOCK_LEN * blocksCompressed <= |whole| && cv == ChainAfter(scheme, whole, blocksCompressed)
      ensures bufLen <= BLOCK_LEN && buf[..] == Pad(buf[..bufLen])
      ensures whole[BLOCK_LEN * blocksCompressed..] == buf[..bufLen] + rest
      ensures if rest == [] then blocksCompressed == old(blocksCompressed) && bufLen > 0 else bufLen == 0
    {
      hide ChainAfter, Pad;
      ghost var held := buf[..bufLen];
      var take := FillBuf(input);
      rest := input[take..];
      assert held + input == buf[..bufLen] + rest by { assert input == input[..take] + rest; }
      if |rest| > 0 {
        BlockAhead(whole, BLOCK_LEN * blocksCompressed, buf[..], rest);
        CompressBlock(buf[..], whole);
        bufLen := 0;
        ClearBuf();
        PadHolds([]);
        assert [] + rest == rest;
      }
    }

    /** The node of the chunk as it stands. */
    function CurrentOutput(): (o: Output)
      requires Valid()
      reads this, buf
      ensures o == ChunkOutput(scheme, content)
    {
      Output(cv, buf[..], bufLen, scheme.flags | StartFlag(blocksCompressed) | CHUNK_END)
    }
  }

  /** What is left of a sequence, cut after its next block. */
  lemma BlockAhead(whole: seq<byte>, at: nat, block: Block, rest: seq<byte>)
    requires at <= |whole| && whole[at..] == block + rest
    ensures at + BLOCK_LEN <= |whole|
    ensures whole[at..at + BLOCK_LEN] == block && whole[at + BLOCK_LEN..] == rest
  {
    assert whole[at..at + BLOCK_LEN] == whole[at..][..BLOCK_LEN];
    assert whole[at + BLOCK_LEN..] == whole[at..][BLOCK_LEN..];
  }

  lemma DropConcat(a: seq<byte>, b: seq<byte>, at: nat)
    requires at <= |a|
    ensures (a + b)[at..] == a[at..] + b
  {
  }

  lemma LeadingBlocksIs(n: nat, blocks: nat, left: nat)
    requires n == BLOCK_LEN * blocks + left && left <= BLOCK_LEN && (left == 0 ==> n == 0)
    ensures LeadingBlocks(n) == blocks
  {
  }

  lemma PadHolds(s: seq<byte>)
    requires |s| <= BLOCK_LEN
    ensures Pad(s)[..|s|] == s
  {
  }

  function BulkFlags(flags: bv8, flagsStart: bv8, blocksBefore: nat): bv8 {
    if blocksBefore == 0 then flags | flagsStart else flags
  }

  function BulkChain(h: Scheme, input: seq<byte>, flags: bv8, flagsStart: bv8, k: nat): Cv
    requires BLOCK_LEN * k <= |input|
  {
    if k == 0 then h.key
    else h.compress(BulkChain(h, input, flags, flagsStart, k - 1), input[BLOCK_LEN * (k - 1)..BLOCK_LEN * k],
                    BLOCK_LEN, BulkFlags(flags, flagsStart, k - 1))
  }

  /** Chaining value of a whole number of blocks, start flag on the first, end flag on the last. */
  function BulkCv(h: Scheme, input: seq<byte>, blocks: nat, flags: bv8, flagsStart: bv8, flagsEnd: bv8): Cv
    requires |input| == BLOCK_LEN * blocks && blocks > 0
  {
    h.compress(BulkChain(h, input, flags, flagsStart, blocks - 1), input[BLOCK_LEN * (blocks - 1)..], BLOCK_LEN,
               BulkFlags(flags, flagsStart, blocks - 1) | flagsEnd)
  }

  /** The bulk path: a whole number of blocks straight from the input, with no
      buffering and its own handling of the start and end flags. */
  method HashOne(h: Scheme, input: seq<byte>, blocks: nat, flags: bv8, flagsStart: bv8, flagsEnd: bv8)
    returns (cv: Cv)
    requires |input| == BLOCK_LEN * blocks && blocks > 0
    ensures cv == BulkCv(h, input, blocks, flags, flagsStart, flagsEnd)
  {
    cv := h.key;
    var blockFlags := flags | flagsStart;
    var done := 0;
    while done < blocks
      invariant done <= blocks
      invariant blockFlags == BulkFlags(flags, flagsStart, done)
      invariant done < blocks ==> cv == BulkChain(h, input, flags, flagsStart, done)
      invariant done == blocks ==> cv == BulkCv(h, input, blocks, flags, flagsStart, flagsEnd)
    {
      if done == blocks - 1 {
        blockFlags := blockFlags | flagsEnd;
      }
      var block := input[BLOCK_LEN * done..BLOCK_LEN * (done + 1)];
      assert done == blocks - 1 ==> block == input[BLOCK_LEN * done..];
      cv := h.compress(cv, block, BLOCK_LEN, blockFlags);
      done := done + 1;
      blockFlags := flags;
    }
  }

  /** Over a full chunk the bulk path and the streaming path agree. */
  lemma BulkChunk(h: Scheme, chunk: seq<byte>)
    requires |chunk| == CHUNK_LEN
    ensures BulkCv(h, chunk, CHUNK_LEN / BLOCK_LEN, h.flags, CHUNK_START, CHUNK_END) == TreeCv(h, chunk)
  {
    BulkChainIsChain(h, chunk, 15);
    NoFlag(h.flags);
    assert Pad(chunk[960..]) == chunk[960..];
  }

  lemma {:induction false} BulkChainIsChain(h: Scheme, chunk: seq<byte>, k: nat)
    requires BLOCK_LEN * k <= |chunk|
    ensures BulkChain(h, chunk, h.flags, CHUNK_START, k) == ChainAfter(h, chunk, k)
  {
    if k > 0 {
      BulkChainIsChain(h, chunk, k - 1);
      NoFlag(h.flags);
    }
  }

  /** Over one block holding two chaining values the bulk path compresses their parent. */
  lemma BulkParent(h: Scheme, left: Cv, right: Cv)
    ensures BulkCv(h, ParentBlock(left, right), 1, h.flags | PARENT, 0, 0) == ParentCv(h, left, right)
  {
    NoFlag(h.flags | PARENT);
    assert ParentBlock(left, right)[0..] == ParentBlock(left, right);
  }

  lemma NoFlag(flags: bv8)
    ensures flags | 0 == flags
  {
  }
}
