/** The tree hash that the streaming hasher has to compute: a message is cut
    into chunks of 1024 bytes, a chunk into blocks of 64, and the chunks become
    the leaves of a left-complete binary tree (sections 2.1, 2.4 and 2.5 of the
    BLAKE3 paper). The repository's variant feeds counter 0 to every
    compression, so `compress` has no counter argument; apart from that the
    compression function is an arbitrary parameter. */
module Blake3Spec {
  import opened Bits

  newtype byte = x: int | 0 <= x < 256

  const BLOCK_LEN: nat := 64
  const CHUNK_LEN: nat := 1024
  const OUT_LEN: nat := 32

  const CHUNK_START: bv8 := 1
  const CHUNK_END: bv8 := 2
  const PARENT: bv8 := 4
  const ROOT: bv8 := 8

  type Cv = s: seq<byte> | |s| == OUT_LEN witness seq(OUT_LEN, _ => 0)
  type Block = s: seq<byte> | |s| == BLOCK_LEN witness seq(BLOCK_LEN, _ => 0)

  /** What one hasher is set up with: its key words, its mode flags and the compression function. */
  datatype Scheme = Scheme(key: Cv, flags: bv8, compress: (Cv, Block, nat, bv8) -> Cv)

  /** A node that has not been compressed yet: it may still turn out to be the root. */
  datatype Output = Output(inputCv: Cv, block: Block, blockLen: nat, flags: bv8)
  {
    function ChainingValue(h: Scheme): Cv {
      h.compress(inputCv, block, blockLen, flags)
    }

    /** The first 32 bytes of root output. */
    function RootBytes(h: Scheme): Cv {
      h.compress(inputCv, block, blockLen, flags | ROOT)
    }
  }

  function Pad(s: seq<byte>): Block
    requires |s| <= BLOCK_LEN
  {
    s + seq(BLOCK_LEN - |s|, _ => 0)
  }

  /** Number of blocks of an `n`-byte chunk that are not its last one. */
  function LeadingBlocks(n: nat): (k: nat)
    ensures n == 0 ==> k == 0
    ensures n > 0 ==> BLOCK_LEN * k < n <= BLOCK_LEN * k + BLOCK_LEN
  {
    if n == 0 then 0 else (n - 1) / BLOCK_LEN
  }

  function StartFlag(blocksBefore: nat): bv8 {
    if blocksBefore == 0 then CHUNK_START else 0
  }

  /** Chaining value after the first `k` blocks of a chunk, none of which is its last. */
  function ChainAfter(h: Scheme, chunk: seq<byte>, k: nat): Cv
    requires BLOCK_LEN * k <= |chunk|
  {
    if k == 0 then h.key
    else h.compress(ChainAfter(h, chunk, k - 1), chunk[BLOCK_LEN * (k - 1)..BLOCK_LEN * k], BLOCK_LEN,
                    h.flags | StartFlag(k - 1))
  }

  function ChunkOutput(h: Scheme, chunk: seq<byte>): Output
    requires |chunk| <= CHUNK_LEN
  {
    var k := LeadingBlocks(|chunk|);
    Output(ChainAfter(h, chunk, k), Pad(chunk[BLOCK_LEN * k..]), |chunk| - BLOCK_LEN * k,
           h.flags | StartFlag(k) | CHUNK_END)
  }

  function ParentBlock(left: Cv, right: Cv): Block {
    left + right
  }

  function ParentOutput(h: Scheme, left: Cv, right: Cv): Output {
    Output(h.key, ParentBlock(left, right), BLOCK_LEN, h.flags | PARENT)
  }

  function ParentCv(h: Scheme, left: Cv, right: Cv): Cv {
    ParentOutput(h, left, right).ChainingValue(h)
  }

  /** Bytes of the left subtree: the largest power-of-two number of chunks
      that leaves at least one byte for the right. */
  function LeftLen(n: nat): (l: nat)
    requires n > CHUNK_LEN
    ensures l % CHUNK_LEN == 0 && IsPow2(l / CHUNK_LEN)
    ensures CHUNK_LEN <= l < n <= 2 * l
  {
    var chunks := RoundDownToPowerOf2((n - 1) / CHUNK_LEN);
    LeftLenBounds(n, chunks);
    chunks * CHUNK_LEN
  }

  lemma LeftLenBounds(n: nat, chunks: nat)
    requires n > CHUNK_LEN && 1 <= chunks <= (n - 1) / CHUNK_LEN < 2 * chunks
    ensures chunks * CHUNK_LEN % CHUNK_LEN == 0 && chunks * CHUNK_LEN / CHUNK_LEN == chunks
    ensures CHUNK_LEN <= chunks * CHUNK_LEN < n <= 2 * (chunks * CHUNK_LEN)
  {
  }

  function TreeOutput(h: Scheme, s: seq<byte>): Output
    decreases |s|
  {
    if |s| <= CHUNK_LEN then ChunkOutput(h, s)
    else
      var l := LeftLen(|s|);
      ParentOutput(h, TreeOutput(h, s[..l]).ChainingValue(h), TreeOutput(h, s[l..]).ChainingValue(h))
  }

  function TreeCv(h: Scheme, s: seq<byte>): Cv {
    TreeOutput(h, s).ChainingValue(h)
  }

  /** The digest of a whole message. */
  function TreeHash(h: Scheme, s: seq<byte>): Cv {
    TreeOutput(h, s).RootBytes(h)
  }

  /** A chunk's chain depends only on the bytes it has consumed. */
  lemma {:induction false} ChainPrefix(h: Scheme, a: seq<byte>, b: seq<byte>, k: nat)
    requires BLOCK_LEN * k <= |a| && a <= b
    ensures ChainAfter(h, a, k) == ChainAfter(h, b, k)
  {
    if k > 0 {
      ChainPrefix(h, a, b, k - 1);
      assert a[BLOCK_LEN * (k - 1)..BLOCK_LEN * k] == b[BLOCK_LEN * (k - 1)..BLOCK_LEN * k];
    }
  }

  lemma LeftLenIs(n: nat, w: nat)
    requires IsPow2(w) && w * CHUNK_LEN < n <= 2 * w * CHUNK_LEN
    ensures LeftLen(n) == w * CHUNK_LEN
  {
    RoundDownIs((n - 1) / CHUNK_LEN, w);
  }

  /** A complete subtree followed by at most as much again is one parent node. */
  lemma JoinSubtrees(h: Scheme, a: seq<byte>, b: seq<byte>, w: nat)
    requires IsPow2(w) && |a| == w * CHUNK_LEN && 1 <= |b| <= |a|
    ensures TreeOutput(h, a + b) == ParentOutput(h, TreeCv(h, a), TreeCv(h, b))
  {
    LeftLenIs(|a + b|, w);
    assert (a + b)[..|a|] == a && (a + b)[|a|..] == b;
  }
}
