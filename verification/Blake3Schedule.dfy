/** How an update cuts its input: the subtree lengths it takes and what it
    leaves in the partial chunk. All of it depends on lengths only. */
module Blake3Schedule {
  import opened Bits
  import opened Blake3Spec
  import opened Blake3Chunk

  /** Halves `p` until it divides `total`. */
  function Shrink(p: nat, total: nat): (r: nat)
    requires IsPow2(p)
    ensures IsPow2(r) && r <= p && total % r == 0
  {
    if total % p == 0 then p
    else
      assert p > 1;
      Shrink(p / 2, total)
  }

  /** The next subtree taken from `n` bytes of input after `total` bytes. */
  function SubtreeLen(n: nat, total: nat): (r: nat)
    requires n > CHUNK_LEN && total % CHUNK_LEN == 0
    ensures IsPow2(r) && r <= n && total % r == 0
    ensures r >= CHUNK_LEN && r % CHUNK_LEN == 0 && IsPow2(r / CHUNK_LEN)
  {
    assert IsPow2(CHUNK_LEN);
    RoundDownReaches(n, CHUNK_LEN);
    ShrinkIsLargest(RoundDownToPowerOf2(n), total, CHUNK_LEN);
    var r := Shrink(RoundDownToPowerOf2(n), total);
    ChunksOf(r);
    r
  }

  lemma RoundDownReaches(n: nat, q: nat)
    requires IsPow2(q) && q <= n
    ensures q <= RoundDownToPowerOf2(n)
  {
    var r := RoundDownToPowerOf2(n);
    if r < q { Pow2Gap(r, q); }
  }

  lemma ChunksOf(p: nat)
    requires IsPow2(p) && p >= CHUNK_LEN
    ensures p % CHUNK_LEN == 0 && IsPow2(p / CHUNK_LEN)
  {
    hide Pow2, IsPow2;
    Pow2Literals();
    var q := HalveTimes(p, 10);
    assert p == CHUNK_LEN * q;
  }

  lemma MulAssoc(x: nat, y: nat)
    ensures 2 * (x * y) == (2 * x) * y
  {
  }

  lemma {:induction false} HalveTimes(p: nat, k: nat) returns (q: nat)
    requires IsPow2(p) && p >= Pow2(k)
    ensures p == Pow2(k) * q && IsPow2(q)
  {
    if k == 0 {
      q := p;
    } else {
      q := HalveTimes(p / 2, k - 1);
      MulAssoc(Pow2(k - 1), q);
    }
  }

  lemma {:induction false} ShrinkIsLargest(p: nat, total: nat, q: nat)
    requires IsPow2(p) && IsPow2(q) && q <= p && total % q == 0
    ensures q <= Shrink(p, total)
  {
    if total % p != 0 {
      Pow2Gap(q, p);
      ShrinkIsLargest(p / 2, total, q);
    }
  }

  /** The shrink loop ends at the largest power of two that fits the input and
      divides what has been hashed so far. */
  lemma SubtreeLenIsLargest(n: nat, total: nat, q: nat)
    requires n > CHUNK_LEN && total % CHUNK_LEN == 0
    requires IsPow2(q) && q <= n && total % q == 0
    ensures q <= SubtreeLen(n, total)
  {
    RoundDownReaches(n, q);
    ShrinkIsLargest(RoundDownToPowerOf2(n), total, q);
  }

  /** The loop of the source, with its bit mask in place of a remainder. */
  method FitSubtree(n: nat, total: nat) returns (len: nat)
    requires n > CHUNK_LEN && total % CHUNK_LEN == 0
    ensures len == SubtreeLen(n, total)
  {
    hide BitAnd, Shrink, RoundDownToPowerOf2;
    len := RoundDownToPowerOf2(n);
    assert Shrink(len, total) == SubtreeLen(n, total);
    while BitAnd(len - 1, total) != 0
      invariant IsPow2(len)
      invariant Shrink(len, total) == SubtreeLen(n, total)
      decreases len
    {
      ShrinkStep(len, total);
      len := len / 2;
    }
    ShrinkStep(len, total);
  }

  lemma ShrinkStep(p: nat, total: nat)
    requires IsPow2(p)
    ensures BitAnd(p - 1, total) == 0 ==> Shrink(p, total) == p
    ensures BitAnd(p - 1, total) != 0 ==> p > 1 && IsPow2(p / 2) && Shrink(p, total) == Shrink(p / 2, total)
  {
    hide BitAnd;
    MaskIsRemainder(p, total);
  }

  /** Chunks on the stack and bytes in the partial chunk. */
  datatype Fill = Fill(count: nat, partial: nat)
  {
    function Total(): nat { CHUNK_LEN * count + partial }
  }

  /** Subtrees while more than one chunk is left, the remainder to the partial chunk. */
  function TakeSubtrees(count: nat, n: nat): (f: Fill)
    ensures f.Total() == CHUNK_LEN * count + n && f.partial <= CHUNK_LEN
    decreases n
  {
    if n <= CHUNK_LEN then Fill(count, n)
    else
      var len := SubtreeLen(n, CHUNK_LEN * count);
      TakeSubtrees(count + len / CHUNK_LEN, n - len)
  }

  /** Whole chunks, at least two, that bring the count to an even number. */
  predicate EndsOnPair(count: nat, n: nat) {
    n % CHUNK_LEN == 0 && n >= 2 * CHUNK_LEN && (count + n / CHUNK_LEN) % 2 == 0
  }

  /** What an update from an empty chunk state leaves in the partial chunk,
      without the subtrees: nothing if it ends on a pair of chunks, otherwise the
      last chunk, be it full or not. */
  lemma {:induction false} PartialIsRemainder(count: nat, n: nat)
    requires n > 0
    ensures TakeSubtrees(count, n).partial
            == if EndsOnPair(count, n) then 0 else if n % CHUNK_LEN == 0 then CHUNK_LEN else n % CHUNK_LEN
    decreases n
  {
    hide SubtreeLen, IsPow2, EndsOnPair;
    if n > CHUNK_LEN {
      var len := SubtreeLen(n, CHUNK_LEN * count);
      LenParity(count, n, len);
      if n > len {
        PartialIsRemainder(count + len / CHUNK_LEN, n - len);
        SameRemainder(n, len);
      }
    } else {
      NoPair(count, n);
    }
  }

  lemma NoPair(count: nat, n: nat)
    requires n <= CHUNK_LEN
    ensures !EndsOnPair(count, n)
  {
  }

  lemma SameRemainder(n: nat, len: nat)
    requires len % CHUNK_LEN == 0 && len <= n
    ensures n % CHUNK_LEN == (n - len) % CHUNK_LEN
  {
  }

  lemma LenParity(count: nat, n: nat, len: nat)
    requires n > CHUNK_LEN && len == SubtreeLen(n, CHUNK_LEN * count)
    ensures len == n ==> EndsOnPair(count, n)
    ensures len < n ==> (EndsOnPair(count, n) <==> EndsOnPair(count + len / CHUNK_LEN, n - len))
  {
    hide SubtreeLen, IsPow2, EndsOnPair;
    if len > CHUNK_LEN {
      var pairs := LongSubtree(count, n);
      EvenPair(count, n, pairs);
    } else {
      ShortSubtree(count, n);
      OnePair(count, n);
    }
  }

  /** More than one chunk: whole pairs, from an even count on. */
  lemma LongSubtree(count: nat, n: nat) returns (pairs: nat)
    requires n > CHUNK_LEN && SubtreeLen(n, CHUNK_LEN * count) > CHUNK_LEN
    ensures count % 2 == 0 && pairs > 0 && SubtreeLen(n, CHUNK_LEN * count) == 2 * CHUNK_LEN * pairs
  {
    hide SubtreeLen, IsPow2;
    TwoChunks();
    var len := SubtreeLen(n, CHUNK_LEN * count);
    pairs := len / CHUNK_LEN / 2;
    Pow2Gap(CHUNK_LEN, len);
    Pow2Divides(2 * CHUNK_LEN, len);
    DividesDown(2 * CHUNK_LEN, len, CHUNK_LEN * count);
  }

  lemma ShortSubtree(count: nat, n: nat)
    requires n > CHUNK_LEN && SubtreeLen(n, CHUNK_LEN * count) <= CHUNK_LEN
    ensures count % 2 == 1 || n < 2 * CHUNK_LEN
  {
    hide SubtreeLen, IsPow2;
    TwoChunks();
    if count % 2 == 0 && n >= 2 * CHUNK_LEN { SubtreeLenIsLargest(n, CHUNK_LEN * count, 2 * CHUNK_LEN); }
  }

  lemma EvenPair(count: nat, n: nat, pairs: nat)
    requires count % 2 == 0 && pairs > 0 && 2 * CHUNK_LEN * pairs <= n
    ensures var len := 2 * CHUNK_LEN * pairs;
            && (len == n ==> EndsOnPair(count, n))
            && (len < n ==> (EndsOnPair(count, n) <==> EndsOnPair(count + 2 * pairs, n - len)))
  {
    var len := 2 * CHUNK_LEN * pairs;
    assert n / CHUNK_LEN == (n - len) / CHUNK_LEN + 2 * pairs;
  }

  lemma OnePair(count: nat, n: nat)
    requires n > CHUNK_LEN && (count % 2 == 1 || n < 2 * CHUNK_LEN)
    ensures EndsOnPair(count, n) <==> EndsOnPair(count + 1, n - CHUNK_LEN)
  {
  }

  lemma TwoChunks()
    ensures IsPow2(CHUNK_LEN) && IsPow2(2 * CHUNK_LEN)
  {
  }

  function AfterUpdate(f: Fill, n: nat): (g: Fill)
    requires f.partial <= CHUNK_LEN
    ensures g.Total() == f.Total() + n && g.partial <= CHUNK_LEN
  {
    if n == 0 then f
    else if f.partial == 0 then TakeSubtrees(f.count, n)
    else if f.partial + n <= CHUNK_LEN then Fill(f.count, f.partial + n)
    else TakeSubtrees(f.count + 1, n - (CHUNK_LEN - f.partial))
  }

  /** An update that completes a partial chunk and has more to hash. With the
      reset as written, these and only these run the merge loop off the stack. */
  predicate Overruns(rule: ResetRule, partial: nat, n: nat) {
    rule.AsWritten? && partial > 0 && partial + n > CHUNK_LEN
  }
}
