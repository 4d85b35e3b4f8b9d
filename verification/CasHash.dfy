/** Digests of strings and files under BLAKE3ZCC, on top of the streaming hasher. */
module CasHash {
  import opened Bits
  import opened Blake3Spec
  import opened Blake3Laws
  import opened Blake3Chunk
  import opened Blake3Wide
  import opened Blake3Schedule
  import opened Blake3Hasher

  const HASH_BUFFER_SIZE: nat := 65536

  /** The part of a digest that equality, ordering and map lookup go by. */
  datatype DigestKey = DigestKey(hashOther: string, sizeBytes: nat)

  /** The message of the protocol. `hashBlake3zcc` takes no part in comparisons. */
  datatype Digest = Digest(hashOther: string, sizeBytes: nat, hashBlake3zcc: seq<byte>)
  {
    function Key(): DigestKey { DigestKey(hashOther, sizeBytes) }

    /** `==` between digests. */
    predicate Same(other: Digest) { Key() == other.Key() }
  }

  /** What a call that can fail comes back with. `Fault` is the hasher running
      off its stack, undefined behaviour in the source. */
  datatype HashResult<+T> = Ok(value: T) | Thrown | Fault

  function DigestOf(h: Scheme, data: seq<byte>): Digest {
    Digest("", |data|, TreeHash(h, data))
  }

  /** Two BLAKE3ZCC digests compare equal exactly when their blobs have the
      same size, whatever the bytes. */
  lemma Blake3DigestsCompareBySize(h: Scheme, a: seq<byte>, b: seq<byte>)
    ensures DigestOf(h, a).Same(DigestOf(h, b)) <==> |a| == |b|
  {
  }

  /** With all of its fields a digest stands for one content, as far as the
      compression function tells the calls for the two apart. */
  lemma WholeDigestsTellApart(h: Scheme, a: seq<byte>, b: seq<byte>)
    requires Unmarked(h.flags) && TellsApart(h, Calls(h, a) + Calls(h, b))
    ensures DigestOf(h, a) == DigestOf(h, b) <==> a == b
  {
    hide Calls, TellsApart;
    EqualDigests(h, a, b);
  }

  function Concat(pieces: seq<seq<byte>>): seq<byte> {
    if pieces == [] then [] else Concat(pieces[..|pieces| - 1]) + pieces[|pieces| - 1]
  }

  lemma ConcatSnoc(pieces: seq<seq<byte>>, data: seq<byte>)
    ensures Concat(pieces + [data]) == Concat(pieces) + data
  {
    assert (pieces + [data])[..|pieces|] == pieces;
  }

  /** How full the hasher is after these updates; no value if one of them overruns. */
  function FillAfter(rule: ResetRule, pieces: seq<seq<byte>>): (f: HashResult<Fill>)
    ensures f.Ok? || f.Fault?
    ensures f.Ok? ==> f.value.Total() == |Concat(pieces)| && f.value.partial <= CHUNK_LEN
  {
    if pieces == [] then Ok(Fill(0, 0))
    else
      var before := FillAfter(rule, pieces[..|pieces| - 1]);
      var piece := pieces[|pieces| - 1];
      if before.Fault? || Overruns(rule, before.value.partial, |piece|) then Fault
      else Ok(AfterUpdate(before.value, |piece|))
  }

  class DigestContext {
    const hasher: Hasher
    var dataSize: nat
    var finalized: bool

    ghost var pieces: seq<seq<byte>>

    ghost function Repr(): set<object>
      reads this
    {
      {this, hasher, hasher.chunk, hasher.chunk.buf, hasher.cvStack}
    }

    ghost predicate Valid()
      reads Repr()
    {
      && hasher.Valid()
      && hasher.Input() == Concat(pieces)
      && FillAfter(hasher.rule, pieces) == Ok(hasher.Filled())
      && dataSize == |Concat(pieces)|
    }

    constructor (scheme: Scheme, simd: Simd, rule: ResetRule)
      requires simd.Valid()
      ensures Valid() && pieces == [] && !finalized && fresh(Repr())
      ensures hasher.scheme == scheme && hasher.rule == rule
    {
      hasher := new Hasher(scheme, simd, rule);
      dataSize := 0;
      finalized := false;
      pieces := [];
    }

    method Update(data: seq<byte>) returns (r: HashResult<()>)
      requires Valid() && |Concat(pieces)| + |data| < INPUT_LIMIT
      modifies Repr()
      ensures r.Thrown? <==> old(finalized)
      ensures r.Thrown? ==> Valid() && pieces == old(pieces)
      ensures r.Fault? <==> !old(finalized) && FillAfter(hasher.rule, old(pieces) + [data]).Fault?
      ensures r.Ok? ==> Valid() && pieces == old(pieces) + [data] && !finalized
    {
      if finalized {
        return Thrown;
      }
      hide Hasher.Valid, AfterUpdate, Concat, FillAfter, Overruns, TreeHash;
      ghost var more := pieces + [data];
      assert more[..|more| - 1] == pieces;
      NextFill(hasher.rule, more);
      ConcatSnoc(pieces, data);
      var fault := hasher.Update(data);
      if fault {
        return Fault;
      }
      dataSize := dataSize + |data|;
      pieces := more;
      return Ok(());
    }

    method FinalizeDigest() returns (r: HashResult<Digest>)
      requires Valid()
      modifies this`finalized
      ensures finalized && Valid()
      ensures r == if old(finalized) then Thrown else Ok(DigestOf(hasher.scheme, Concat(pieces)))
    {
      hide Hasher.Valid, Concat, FillAfter;
      if finalized {
        return Thrown;
      }
      var hash := hasher.Finalize();
      finalized := true;
      return Ok(Digest("", dataSize, hash));
    }
  }

  /** One update of a fresh context: correct under either reset rule. */
  method HashString(h: Scheme, simd: Simd, rule: ResetRule, data: seq<byte>) returns (r: HashResult<Digest>)
    requires simd.Valid() && |data| < INPUT_LIMIT
    ensures r == Ok(DigestOf(h, data))
    ensures r.value.hashOther == "" && r.value.sizeBytes == |data|
            && r.value.hashBlake3zcc == NodeCall(h, data, 8).Result(h)
  {
    NodeIs(h, data);
    hide NodeCall;
    hide Concat, FillAfter, AfterUpdate, TreeHash;
    var context := new DigestContext(h, simd, rule);
    OnePiece(rule, data);
    var u := context.Update(data);
    r := context.FinalizeDigest();
  }

  lemma OnePiece(rule: ResetRule, data: seq<byte>)
    ensures [] + [data] == [data] && Concat([]) == [] && Concat([data]) == data && FillAfter(rule, [data]).Ok?
  {
    assert [data][..0] == [];
  }

  datatype ReadEnd = Eof | ReadError

  /** Hashing a file that `read` returns in these pieces. The result is the
      digest of the whole contents whenever no update overruns, and an overrun
      is the only way to a fault. */
  method HashFile(h: Scheme, simd: Simd, rule: ResetRule, buffers: seq<seq<byte>>, end: ReadEnd)
    returns (r: HashResult<Digest>)
    requires simd.Valid() && |Concat(buffers)| < INPUT_LIMIT
    requires forall i :: 0 <= i < |buffers| ==> 0 < |buffers[i]| <= HASH_BUFFER_SIZE
    ensures r.Fault? <==> FillAfter(rule, buffers).Fault?
    ensures r.Thrown? <==> FillAfter(rule, buffers).Ok? && end.ReadError?
    ensures r.Ok? ==> r.value == DigestOf(h, Concat(buffers))
    ensures r.Ok? ==>
              r.value.hashOther == "" && r.value.sizeBytes == |Concat(buffers)|
              && r.value.hashBlake3zcc == NodeCall(h, Concat(buffers), 8).Result(h)
  {
    NodeIs(h, Concat(buffers));
    hide NodeCall;
    hide Concat, FillAfter, TreeHash, Hasher.Valid;
    NothingRead(rule);
    var context := new DigestContext(h, simd, rule);
    var total := 0;
    var i := 0;
    while i < |buffers|
      invariant 0 <= i <= |buffers|
      invariant context.Valid() && context.pieces == buffers[..i] && !context.finalized
      invariant context.hasher.scheme == h && context.hasher.rule == rule
      invariant fresh(context.Repr())
      invariant total == |Concat(buffers[..i])|
    {
      assert buffers[..i] + [buffers[i]] == buffers[..i + 1];
      ConcatNext(buffers, i);
      var u := context.Update(buffers[i]);
      if u.Fault? {
        FaultPersists(rule, buffers, i + 1);
        return Fault;
      }
      total := total + |buffers[i]|;
      i := i + 1;
    }
    assert buffers[..i] == buffers;
    if end.ReadError? {
      return Thrown;
    }
    r := context.FinalizeDigest();
  }

  lemma NothingRead(rule: ResetRule)
    ensures Concat([]) == [] && FillAfter(rule, []) == Ok(Fill(0, 0))
  {
  }

  lemma ConcatNext(pieces: seq<seq<byte>>, i: nat)
    requires i < |pieces|
    ensures |Concat(pieces[..i + 1])| == |Concat(pieces[..i])| + |pieces[i]| <= |Concat(pieces)|
  {
    assert pieces[..i + 1][..i] == pieces[..i];
    ConcatPrefix(pieces, i + 1);
  }

  lemma {:induction false} ConcatPrefix(pieces: seq<seq<byte>>, k: nat)
    requires k <= |pieces|
    ensures |Concat(pieces[..k])| <= |Concat(pieces)|
    decreases |pieces|
  {
    if k < |pieces| {
      ConcatPrefix(pieces[..|pieces| - 1], k);
      assert pieces[..|pieces| - 1][..k] == pieces[..k];
    } else {
      assert pieces[..k] == pieces;
    }
  }

  lemma {:induction false} FaultPersists(rule: ResetRule, pieces: seq<seq<byte>>, k: nat)
    requires k <= |pieces| && FillAfter(rule, pieces[..k]).Fault?
    ensures FillAfter(rule, pieces).Fault?
    decreases |pieces|
  {
    if k < |pieces| {
      assert pieces[..|pieces| - 1][..k] == pieces[..k];
      FaultPersists(rule, pieces[..|pieces| - 1], k);
    } else {
      assert pieces[..k] == pieces;
    }
  }

  /** With the counter kept, every way of splitting the input works. */
  lemma {:induction false} IntendedNeverFaults(pieces: seq<seq<byte>>)
    ensures FillAfter(Intended, pieces).Ok?
  {
    if pieces != [] { IntendedNeverFaults(pieces[..|pieces| - 1]); }
  }

  /** Update `k` starts in the middle of a chunk and does not fit in the rest of it. */
  predicate Crosses(pieces: seq<seq<byte>>, k: nat)
    requires k < |pieces|
  {
    var before := FillAfter(AsWritten, pieces[..k]);
    before.Ok? && before.value.partial > 0 && before.value.partial + |pieces[k]| > CHUNK_LEN
  }

  /** As written, a run faults exactly when some update crosses the end of a started chunk. */
  lemma {:induction false} AsWrittenFaults(pieces: seq<seq<byte>>)
    ensures FillAfter(AsWritten, pieces).Fault? <==> exists k :: 0 <= k < |pieces| && Crosses(pieces, k)
  {
    if pieces != [] {
      hide Crosses, FillAfter;
      AsWrittenFaults(pieces[..|pieces| - 1]);
      LastCrosses(pieces);
      SomeCrosses(pieces);
    }
  }

  lemma SomeCrosses(pieces: seq<seq<byte>>)
    requires pieces != []
    ensures var n := |pieces| - 1;
            (exists k :: 0 <= k < |pieces| && Crosses(pieces, k))
            <==> Crosses(pieces, n) || exists k :: 0 <= k < n && Crosses(pieces[..n], k)
  {
    hide FillAfter;
    var n := |pieces| - 1;
    var init := pieces[..n];
    forall k | 0 <= k < n
      ensures Crosses(init, k) == Crosses(pieces, k)
    {
      assert init[..k] == pieces[..k];
    }
    hide Crosses;
    if k :| 0 <= k < n && Crosses(init, k) { assert Crosses(pieces, k); }
  }

  lemma LastCrosses(pieces: seq<seq<byte>>)
    requires pieces != []
    ensures var n := |pieces| - 1;
            FillAfter(AsWritten, pieces).Fault? <==> FillAfter(AsWritten, pieces[..n]).Fault? || Crosses(pieces, n)
  {
  }

  function Total(lengths: seq<nat>): nat {
    if lengths == [] then 0 else Total(lengths[..|lengths| - 1]) + lengths[|lengths| - 1]
  }

  function Lengths(pieces: seq<seq<byte>>): seq<nat> {
    seq(|pieces|, i requires 0 <= i < |pieces| => |pieces[i]|)
  }

  /** Bytes left in the partial chunk, by lengths alone. */
  function Leftover(lengths: seq<nat>): nat {
    if lengths == [] then 0
    else
      var init, n := lengths[..|lengths| - 1], lengths[|lengths| - 1];
      var p := Leftover(init);
      if n == 0 then p
      else if p > 0 then p + n
      else if n % CHUNK_LEN != 0 then n % CHUNK_LEN
      else if n >= 2 * CHUNK_LEN && (Total(init) + n) / CHUNK_LEN % 2 == 0 then 0
      else CHUNK_LEN
  }

  /** A length that starts inside a chunk and does not fit in it. */
  predicate LengthCrosses(lengths: seq<nat>, k: nat)
    requires k < |lengths|
  {
    var p := Leftover(lengths[..k]);
    p > 0 && p + lengths[k] > CHUNK_LEN
  }

  /** The same by arithmetic on the lengths of the pieces: as written, a run
      faults exactly when some length crosses the end of a started chunk. */
  lemma {:induction false} AsWrittenFaultsByLength(pieces: seq<seq<byte>>)
    ensures var lengths := Lengths(pieces);
            && (FillAfter(AsWritten, pieces).Fault? <==> exists k :: 0 <= k < |lengths| && LengthCrosses(lengths, k))
            && (FillAfter(AsWritten, pieces).Ok? ==> FillAfter(AsWritten, pieces).value.partial == Leftover(lengths))
            && Total(lengths) == |Concat(pieces)|
    decreases |pieces|
  {
    if pieces != [] {
      hide AfterUpdate, Overruns, LengthCrosses, Leftover, Total, Lengths, Concat, FillAfter;
      var n := |pieces| - 1;
      var lengths, before := Lengths(pieces), FillAfter(AsWritten, pieces[..n]);
      LastOfLengths(pieces);
      AsWrittenFaultsByLength(pieces[..n]);
      SomeLengthCrosses(lengths);
      NextFill(AsWritten, pieces);
      if before.Ok? { LastLength(before.value, lengths); }
    }
  }

  lemma NextFill(rule: ResetRule, pieces: seq<seq<byte>>)
    requires pieces != []
    ensures var n := |pieces| - 1;
            var before := FillAfter(rule, pieces[..n]);
            FillAfter(rule, pieces)
            == if before.Fault? || Overruns(rule, before.value.partial, |pieces[n]|) then Fault
               else Ok(AfterUpdate(before.value, |pieces[n]|))
  {
    hide AfterUpdate, Overruns;
  }

  lemma LastOfLengths(pieces: seq<seq<byte>>)
    requires pieces != []
    ensures var n, lengths := |pieces| - 1, Lengths(pieces);
            && |lengths| == n + 1 && lengths[..n] == Lengths(pieces[..n]) && lengths[n] == |pieces[n]|
            && Total(lengths) == Total(lengths[..n]) + lengths[n]
            && |Concat(pieces)| == |Concat(pieces[..n])| + |pieces[n]|
  {
  }

  lemma SomeLengthCrosses(lengths: seq<nat>)
    requires lengths != []
    ensures var n := |lengths| - 1;
            (exists k :: 0 <= k < |lengths| && LengthCrosses(lengths, k))
            <==> LengthCrosses(lengths, n) || exists k :: 0 <= k < n && LengthCrosses(lengths[..n], k)
  {
    hide Leftover;
    var n := |lengths| - 1;
    var init := lengths[..n];
    forall k | 0 <= k < n
      ensures LengthCrosses(init, k) == LengthCrosses(lengths, k)
    {
      assert init[..k] == lengths[..k];
    }
    hide LengthCrosses;
    if k :| 0 <= k < n && LengthCrosses(init, k) { assert LengthCrosses(lengths, k); }
  }

  lemma LastLength(f: Fill, lengths: seq<nat>)
    requires lengths != [] && f.partial <= CHUNK_LEN
    requires f.partial == Leftover(lengths[..|lengths| - 1]) && f.Total() == Total(lengths[..|lengths| - 1])
    ensures var n := |lengths| - 1;
            && (Overruns(AsWritten, f.partial, lengths[n]) <==> LengthCrosses(lengths, n))
            && (!LengthCrosses(lengths, n) ==> AfterUpdate(f, lengths[n]).partial == Leftover(lengths))
  {
    hide TakeSubtrees, Total;
    var n := lengths[|lengths| - 1];
    if n > 0 && f.partial == 0 { PartialByTotal(f.count, n); }
  }

  lemma PartialByTotal(count: nat, n: nat)
    requires n > 0
    ensures TakeSubtrees(count, n).partial
            == if n % CHUNK_LEN != 0 then n % CHUNK_LEN
               else if n >= 2 * CHUNK_LEN && (CHUNK_LEN * count + n) / CHUNK_LEN % 2 == 0 then 0 else CHUNK_LEN
  {
    hide TakeSubtrees;
    PartialIsRemainder(count, n);
  }

  /** The smallest failing run: one byte, then a chunk. */
  lemma AsWrittenFaultsOnSplitInput(a: byte, chunk: seq<byte>)
    requires |chunk| == CHUNK_LEN
    ensures FillAfter(AsWritten, [[a], chunk]).Fault?
  {
    var one := [[a]];
    assert one[..0] == [] && [[a], chunk][..1] == one;
    assert FillAfter(AsWritten, one) == Ok(Fill(0, 1));
  }

  /** What `read` delivers when it fills its buffer until the end of the file. */
  predicate FullReads(buffers: seq<seq<byte>>) {
    && (forall i :: 0 <= i < |buffers| ==> 0 < |buffers[i]| <= HASH_BUFFER_SIZE)
    && (forall i :: 0 <= i < |buffers| - 1 ==> |buffers[i]| == HASH_BUFFER_SIZE)
  }

  lemma BufferIsPow2()
    ensures IsPow2(HASH_BUFFER_SIZE)
  {
    hide Pow2, IsPow2;
    Pow2Zero();
    Pow2Plus4(0);
    Pow2Plus4(4);
    Pow2Plus4(8);
    Pow2Plus4(12);
  }

  /** A full buffer on a 64-chunk boundary is one subtree and ends on the next boundary. */
  lemma FullBufferStep(k: nat)
    ensures AfterUpdate(Fill(64 * k, 0), HASH_BUFFER_SIZE) == Fill(64 * (k + 1), 0)
  {
    var n := HASH_BUFFER_SIZE;
    hide IsPow2, Shrink, RoundDownToPowerOf2, SubtreeLen;
    BufferIsPow2();
    SubtreeLenIsLargest(n, CHUNK_LEN * (64 * k), n);
    assert SubtreeLen(n, CHUNK_LEN * (64 * k)) == n;
    assert TakeSubtrees(64 * k, n) == TakeSubtrees(64 * k + 64, 0);
  }

  lemma {:induction false} FullBuffers(rule: ResetRule, buffers: seq<seq<byte>>)
    requires forall i :: 0 <= i < |buffers| ==> |buffers[i]| == HASH_BUFFER_SIZE
    ensures FillAfter(rule, buffers) == Ok(Fill(64 * |buffers|, 0))
  {
    if buffers != [] {
      FullBuffers(rule, buffers[..|buffers| - 1]);
      FullBufferStep(|buffers| - 1);
    }
  }

  /** Full buffers keep every update on an empty chunk state, so even the hasher
      as written hashes a file of any length. */
  lemma FullReadsNeverFault(rule: ResetRule, buffers: seq<seq<byte>>)
    requires FullReads(buffers)
    ensures FillAfter(rule, buffers).Ok?
  {
    if buffers != [] { FullBuffers(rule, buffers[..|buffers| - 1]); }
  }

  /** Hashing a file and hashing its contents as one string agree. */
  method HashFileAndString(h: Scheme, simd: Simd, buffers: seq<seq<byte>>)
    returns (file: HashResult<Digest>, whole: HashResult<Digest>)
    requires simd.Valid() && FullReads(buffers) && |Concat(buffers)| < INPUT_LIMIT
    ensures file == whole == Ok(DigestOf(h, Concat(buffers)))
  {
    FullReadsNeverFault(AsWritten, buffers);
    file := HashFile(h, simd, AsWritten, buffers, Eof);
    whole := HashString(h, simd, AsWritten, Concat(buffers));
  }
}
