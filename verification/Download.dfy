/** Downloading one blob into a file, resuming after failures at the byte
    reached so far. What the server delivers is a parameter. */
module Download {
  import opened Blake3Spec
  import opened Blake3Chunk
  import opened Blake3Wide
  import opened Blake3Hasher
  import opened CasHash

  const OK: nat := 0
  const UNAVAILABLE: nat := 14

  /** One ByteStream read: the pieces that arrived, and how the call ended. */
  datatype Reply = Reply(pieces: seq<seq<byte>>, code: nat)

  /** What the server does on the n-th attempt when asked to read from an offset. */
  type Server = (nat, nat) -> Reply

  /** The only status the client's retrier tries again on. */
  predicate Retryable(code: nat) {
    code == UNAVAILABLE
  }

  /** Pieces received in the first `k` attempts, each asking for the bytes after those received before. */
  ghost function Received(server: Server, k: nat): seq<seq<byte>> {
    if k == 0 then []
    else
      var before := Received(server, k - 1);
      before + server(k - 1, |Concat(before)|).pieces
  }

  ghost function CodeOf(server: Server, k: nat): nat {
    server(k, |Concat(Received(server, k))|).code
  }

  /** How a download ends. */
  datatype Ending =
    | Complete
    | GrpcError(code: nat)
    | Mismatch
    | WriteFailed
    | HasherFault

  /** What one attempt comes to: a status to decide on, or an exception. */
  datatype Step = Status(code: nat) | Ended(ending: Ending)

  /** What a file holds after `data` is written from offset `at` on. */
  function Overwrite(before: seq<byte>, at: nat, data: seq<byte>): (after: seq<byte>)
    requires at <= |before|
    ensures |after| == if at + |data| < |before| then |before| else at + |data|
    ensures forall i :: 0 <= i < |after| ==>
              after[i] == if at <= i < at + |data| then data[i - at] else before[i]
  {
    before[..at] + data + (if at + |data| < |before| then before[at + |data|..] else [])
  }

  lemma OverwriteOn(before: seq<byte>, at: nat, a: seq<byte>, b: seq<byte>)
    requires at <= |before|
    ensures at + |a| <= |Overwrite(before, at, a)|
    ensures Overwrite(Overwrite(before, at, a), at + |a|, b) == Overwrite(before, at, a + b)
  {
    var mid := Overwrite(before, at, a);
    assert mid[..at + |a|] == before[..at] + a;
    assert before[..at] + a + b == before[..at] + (a + b);
    if at + |a| + |b| < |before| { assert mid[at + |a| + |b|..] == before[at + |a| + |b|..]; }
  }

  class FileDownload {
    const digest: Digest
    const capacity: nat
    const context: DigestContext
    var file: seq<byte>
    var offset: nat
    var bytesDownloaded: nat

    /** The file and the descriptor's offset at the start, and what was written since. */
    ghost const before: seq<byte>
    ghost const start: nat
    ghost var written: seq<byte>

    ghost predicate Valid()
      reads this, context.Repr()
    {
      && this !in context.Repr() && context.Valid()
      && start <= |before| && offset == start + |written| <= capacity < INPUT_LIMIT
      && file == Overwrite(before, start, written)
    }

    /** Bytes written, bytes hashed and bytes counted are the same. */
    ghost predicate Synced()
      reads this, context.Repr()
    {
      && Valid()
      && !context.finalized
      && written == Concat(context.pieces)
      && bytesDownloaded == |Concat(context.pieces)|
    }

    constructor (scheme: Scheme, simd: Simd, rule: ResetRule, digest: Digest, file: seq<byte>, start: nat,
                 capacity: nat)
      requires simd.Valid() && start <= |file| <= capacity < INPUT_LIMIT
      ensures Synced() && context.pieces == [] && fresh(context.Repr())
      ensures this.digest == digest && this.capacity == capacity && before == file && this.start == start
      ensures context.hasher.scheme == scheme && context.hasher.rule == rule
    {
      this.digest, this.capacity, this.file, this.before := digest, capacity, file, file;
      this.start, offset, written := start, start, [];
      bytesDownloaded := 0;
      context := new DigestContext(scheme, simd, rule);
      new;
      hide Hasher.Valid, DigestContext.Valid;
      assert Overwrite(before, start, []) == before;
    }

    /** Writes what there is room for, from the descriptor's offset on. */
    method Write(data: seq<byte>) returns (n: nat)
      requires Valid()
      modifies this`file, this`offset, this`written
      ensures n == (if |data| <= capacity - old(offset) then |data| else capacity - old(offset))
      ensures Valid() && written == old(written) + data[..n]
    {
      n := if |data| <= capacity - offset then |data| else capacity - offset;
      OverwriteOn(before, start, written, data[..n]);
      file := Overwrite(file, offset, data[..n]);
      offset := offset + n;
      written := written + data[..n];
    }

    /** One piece: written, then hashed, then counted. */
    method Take(data: seq<byte>) returns (r: Step)
      requires Synced()
      modifies this, context.Repr()
      ensures r == Status(OK) ==> Synced() && context.pieces == old(context.pieces) + [data]
      ensures r == Status(OK) || r == Ended(WriteFailed) || r == Ended(HasherFault)
      ensures r == Ended(WriteFailed) <==> old(offset) + |data| > capacity
      ensures r == Ended(HasherFault) <==>
                old(offset) + |data| <= capacity && FillAfter(context.hasher.rule, old(context.pieces) + [data]).Fault?
      ensures old(written) <= written <= old(written) + data && file == Overwrite(before, start, written)
    {
      hide FillAfter, Overwrite, Hasher.Valid, Concat;
      var n := Write(data);
      if n != |data| {
        return Ended(WriteFailed);
      }
      assert data[..n] == data;
      ConcatSnoc(context.pieces, data);
      var u := context.Update(data);
      if u.Fault? {
        return Ended(HasherFault);
      }
      bytesDownloaded := bytesDownloaded + |data|;
      r := Status(OK);
    }

    /** The file has the size and the hashed bytes have the digest that was asked for. */
    ghost predicate Matches()
      reads this, context.Repr()
    {
      |file| == digest.sizeBytes && DigestOf(context.hasher.scheme, Concat(context.pieces)).Same(digest)
    }

    /** The pieces of one reply, until they end or one of them cannot be taken. */
    method TakeAll(pieces: seq<seq<byte>>) returns (r: Step)
      requires Synced()
      modifies this, context.Repr()
      ensures r == Status(OK) ==> Synced() && context.pieces == old(context.pieces) + pieces
      ensures r == Status(OK) || r == Ended(WriteFailed) || r == Ended(HasherFault)
      ensures r == Ended(WriteFailed) ==> old(offset) + |Concat(pieces)| > capacity
      ensures r == Ended(HasherFault) ==> FillAfter(context.hasher.rule, old(context.pieces) + pieces).Fault?
      ensures written <= old(written) + Concat(pieces) && file == Overwrite(before, start, written)
    {
      hide Concat, FillAfter, Overwrite, Hasher.Valid, DigestContext.Valid;
      ghost var all := context.pieces + pieces;
      assert context.pieces + pieces[..0] == context.pieces;
      for i := 0 to |pieces|
        invariant Synced() && context.pieces == old(context.pieces) + pieces[..i]
      {
        assert all[..|old(context.pieces)| + i + 1] == context.pieces + [pieces[i]];
        PiecesSoFar(old(context.pieces), pieces, i);
        r := Take(pieces[i]);
        if r.Ended? {
          if r.ending.HasherFault? { FaultPersists(context.hasher.rule, all, |old(context.pieces)| + i + 1); }
          return;
        }
      }
      assert pieces[..|pieces|] == pieces;
      ConcatTogether(old(context.pieces), pieces);
      r := Status(OK);
    }

    /** The checks at the end of a call that went well. */
    method CheckWhole() returns (r: Step)
      requires Synced()
      modifies context`finalized
      ensures Valid() && r == if Matches() then Status(OK) else Ended(Mismatch)
    {
      hide Concat, FillAfter;
      if |file| != digest.sizeBytes {
        return Ended(Mismatch);
      }
      var d := context.FinalizeDigest();
      r := if d.value.Same(digest) then Status(OK) else Ended(Mismatch);
    }

    /** One attempt: takes what the server sends; if the call ended well, checks the whole. */
    method ReadOnce(reply: Reply) returns (r: Step)
      requires Synced()
      modifies this, context.Repr()
      ensures r.Status? || r == Ended(Mismatch) ==>
                && Valid() && context.pieces == old(context.pieces) + reply.pieces
                && written == Concat(context.pieces)
      ensures r.Status? ==> r.code == reply.code && if reply.code == OK then Matches() else Synced()
      ensures r == Ended(Mismatch) ==> reply.code == OK && !Matches()
      ensures r == Ended(WriteFailed) ==> old(offset) + |Concat(reply.pieces)| > capacity
      ensures r == Ended(HasherFault) ==> FillAfter(context.hasher.rule, old(context.pieces) + reply.pieces).Fault?
      ensures r.Status? || r.ending in {Mismatch, WriteFailed, HasherFault}
      ensures written <= old(written) + Concat(reply.pieces) && file == Overwrite(before, start, written)
    {
      hide Concat, FillAfter, Matches, Overwrite;
      r := TakeAll(reply.pieces);
      if r.Ended? {
        return;
      }
      if reply.code != OK {
        return Status(reply.code);
      }
      r := CheckWhole();
    }

    lemma WhereItStands()
      ensures Valid() ==> offset == start + |written| <= capacity
    {
    }

    lemma StandsClean(server: Server, k: nat)
      requires Valid() && context.pieces == Received(server, k) && written == Concat(context.pieces)
      ensures Clean(server, context.hasher.rule, start, capacity, k)
    {
      hide Concat, FillAfter, Received;
    }

    lemma NotFaulty()
      ensures Valid() ==> FillAfter(context.hasher.rule, context.pieces).Ok?
    {
    }

    /** Attempts until one is answered for good, at most one more than the limit of
        retries: on after status 14 and after nothing else. */
    method Fetch(server: Server, retryLimit: nat) returns (r: Ending, calls: nat)
      requires Synced() && context.pieces == []
      modifies this, context.Repr()
      ensures ExactlyCalls(server, context.hasher.rule, start, capacity, retryLimit, calls)
      ensures r.GrpcError? ==>
                r.code == CodeOf(server, calls - 1) && r.code != 0 && Synced()
      ensures r.Complete? || r.Mismatch? ==> CodeOf(server, calls - 1) == 0
      ensures r.Complete? || r.Mismatch? || r.GrpcError? ==>
                && Valid() && context.pieces == Received(server, calls) && written == Concat(context.pieces)
                && FillAfter(context.hasher.rule, context.pieces).Ok?
      ensures r.Complete? ==> Matches()
      ensures r.Mismatch? ==> !Matches()
      ensures r.WriteFailed? ==> start + |Concat(Received(server, calls))| > capacity
      ensures r.HasherFault? ==> FillAfter(context.hasher.rule, Received(server, calls)).Fault?
      ensures written <= Concat(Received(server, calls)) && file == Overwrite(before, start, written)
    {
      hide Concat, FillAfter, Valid, Matches, Overwrite, Received, CodeOf, Clean, ExactlyCalls,
           OnlyUnavailable;
      ghost var rule := context.hasher.rule;
      WhereItStands();
      NothingReceived(server);
      NoneYet(server, rule, start, capacity);
      var attempts := 0;
      while true
        invariant attempts <= retryLimit
        invariant Synced() && context.pieces == Received(server, attempts)
        invariant offset == start + |Concat(context.pieces)|
        invariant OnlyUnavailable(server, rule, start, capacity, attempts)
        decreases retryLimit - attempts
      {
        ConcatTogether(context.pieces, server(attempts, bytesDownloaded).pieces);
        ReceivedNext(server, attempts);
        WhereItStands();
        var step := ReadOnce(server(attempts, bytesDownloaded));
        NotFaulty();
        WhereItStands();
        calls := attempts + 1;
        if step.Ended? {
          Unclean(server, rule, start, capacity, calls);
          CallsEnd(server, rule, start, capacity, retryLimit, calls);
          return step.ending, calls;
        }
        StandsClean(server, calls);
        if step.code == OK {
          CallsEnd(server, rule, start, capacity, retryLimit, calls);
          return Complete, calls;
        }
        if !Retryable(step.code) || attempts >= retryLimit {
          CallsEnd(server, rule, start, capacity, retryLimit, calls);
          return GrpcError(step.code), calls;
        }
        OnceMore(server, rule, start, capacity, attempts);
        attempts := attempts + 1;
      }
    }
  }

  lemma Unclean(server: Server, rule: ResetRule, start: nat, capacity: nat, k: nat)
    ensures start + |Concat(Received(server, k))| > capacity || FillAfter(rule, Received(server, k)).Fault? ==>
              !Clean(server, rule, start, capacity, k)
  {
  }

  lemma NothingReceived(server: Server)
    ensures Received(server, 0) == [] && Concat([]) == []
  {
  }

  lemma ReceivedNext(server: Server, k: nat)
    ensures var reply := server(k, |Concat(Received(server, k))|);
            Received(server, k + 1) == Received(server, k) + reply.pieces && CodeOf(server, k) == reply.code
  {
  }

  lemma {:induction false} ConcatTogether(a: seq<seq<byte>>, b: seq<seq<byte>>)
    ensures Concat(a + b) == Concat(a) + Concat(b)
    decreases |b|
  {
    if b == [] {
      assert a + b == a;
    } else {
      var n := |b| - 1;
      assert (a + b)[..|a + b| - 1] == a + b[..n];
      ConcatTogether(a, b[..n]);
    }
  }

  lemma PiecesSoFar(before: seq<seq<byte>>, pieces: seq<seq<byte>>, i: nat)
    requires i < |pieces|
    ensures Concat(before + pieces[..i]) + pieces[i] <= Concat(before) + Concat(pieces)
  {
    hide Concat;
    ConcatTogether(before, pieces[..i]);
    ConcatTogether(pieces[..i + 1], pieces[i + 1..]);
    assert pieces == pieces[..i + 1] + pieces[i + 1..];
    assert pieces[..i + 1] == pieces[..i] + [pieces[i]];
    ConcatSnoc(pieces[..i], pieces[i]);
    Regroup(Concat(before), Concat(pieces[..i]), pieces[i], Concat(pieces[i + 1..]));
  }

  lemma Regroup(a: seq<byte>, b: seq<byte>, c: seq<byte>, d: seq<byte>)
    ensures (a + b) + c <= a + (b + c + d)
  {
    assert a + (b + c + d) == ((a + b) + c) + d;
  }

  /** The server sends, from any offset, bytes of the blob from there on; how many
      and in which pieces is up to it, and so is how the call ends. */
  ghost predicate HonoursOffsets(server: Server, blob: seq<byte>) {
    forall n: nat, offset: nat :: offset <= |blob| ==> Concat(server(n, offset).pieces) <= blob[offset..]
  }

  /** What was received stays a prefix of the blob over any run of failures. */
  lemma {:induction false} ReceivedIsPrefix(server: Server, blob: seq<byte>, k: nat)
    requires HonoursOffsets(server, blob)
    ensures Concat(Received(server, k)) <= blob
    decreases k
  {
    hide Concat;
    if k == 0 {
      NothingRead(Intended);
    } else {
      ReceivedIsPrefix(server, blob, k - 1);
      var before := Received(server, k - 1);
      var n := |Concat(before)|;
      ConcatTogether(before, server(k - 1, n).pieces);
      assert Concat(server(k - 1, n).pieces) <= blob[n..];
      assert blob == blob[..n] + blob[n..];
    }
  }

  /** Size check and digest check together hold exactly when the download began
      at offset 0, left nothing behind it, and has the length the digest names,
      and the digest carries no other hash. The bytes themselves play no part. */
  lemma ChecksCompareSizes(h: Scheme, digest: Digest, before: seq<byte>, start: nat, data: seq<byte>)
    requires start <= |before|
    ensures var file := Overwrite(before, start, data);
            && (|file| == digest.sizeBytes && DigestOf(h, data).Same(digest)
                <==> start == 0 && |before| <= |data| == digest.sizeBytes && digest.hashOther == "")
            && (start == 0 && |before| <= |data| ==> file == data)
  {
  }

  /** The first `k` replies fit the file and do not fault the hasher. */
  ghost predicate Clean(server: Server, rule: ResetRule, start: nat, capacity: nat, k: nat) {
    start + |Concat(Received(server, k))| <= capacity && FillAfter(rule, Received(server, k)).Ok?
  }

  /** The number of calls, exactly: on after every clean reply with status 14
      while retries are left, and not on after anything else. */
  ghost predicate ExactlyCalls(server: Server, rule: ResetRule, start: nat, capacity: nat, retryLimit: nat, calls: nat)
  {
    && 1 <= calls <= retryLimit + 1
    && (forall j :: 0 <= j < calls - 1 ==> CodeOf(server, j) == 14 && Clean(server, rule, start, capacity, j + 1))
    && (calls <= retryLimit ==> CodeOf(server, calls - 1) != 14 || !Clean(server, rule, start, capacity, calls))
  }

  /** The first `n` attempts were clean and ended with status 14. */
  ghost predicate OnlyUnavailable(server: Server, rule: ResetRule, start: nat, capacity: nat, n: nat) {
    forall j :: 0 <= j < n ==> CodeOf(server, j) == 14 && Clean(server, rule, start, capacity, j + 1)
  }

  lemma NoneYet(server: Server, rule: ResetRule, start: nat, capacity: nat)
    ensures OnlyUnavailable(server, rule, start, capacity, 0)
  {
  }

  lemma OnceMore(server: Server, rule: ResetRule, start: nat, capacity: nat, n: nat)
    requires OnlyUnavailable(server, rule, start, capacity, n)
    requires CodeOf(server, n) == 14 && Clean(server, rule, start, capacity, n + 1)
    ensures OnlyUnavailable(server, rule, start, capacity, n + 1)
  {
    hide CodeOf, Clean;
  }

  lemma CallsEnd(server: Server, rule: ResetRule, start: nat, capacity: nat, retryLimit: nat, calls: nat)
    requires 1 <= calls <= retryLimit + 1 && OnlyUnavailable(server, rule, start, capacity, calls - 1)
    requires calls <= retryLimit ==>
               CodeOf(server, calls - 1) != 14 || !Clean(server, rule, start, capacity, calls)
    ensures ExactlyCalls(server, rule, start, capacity, retryLimit, calls)
  {
    hide CodeOf, Clean;
  }

  /** What that means for a given number of interruptions. */
  lemma CallsAfter(server: Server, rule: ResetRule, start: nat, capacity: nat, retryLimit: nat, calls: nat, k: nat)
    requires ExactlyCalls(server, rule, start, capacity, retryLimit, calls) && k <= retryLimit
    requires (forall j :: 0 <= j < k ==> CodeOf(server, j) == 14) && Clean(server, rule, start, capacity, k)
    ensures calls >= k + 1
    ensures CodeOf(server, k) != 14 ==> calls == k + 1
  {
    hide CodeOf, Clean;
    if calls <= k { CleanBefore(server, rule, start, capacity, calls, k); }
  }

  /** Fewer replies of a clean run are a clean run. */
  lemma {:induction false} CleanBefore(server: Server, rule: ResetRule, start: nat, capacity: nat, i: nat, k: nat)
    requires i <= k && Clean(server, rule, start, capacity, k)
    ensures Clean(server, rule, start, capacity, i)
    decreases k
  {
    hide Concat, FillAfter, Received, CodeOf;
    if i < k {
      ReceivedNext(server, k - 1);
      var before := Received(server, k - 1);
      var pieces := server(k - 1, |Concat(before)|).pieces;
      ConcatTogether(before, pieces);
      assert (before + pieces)[..|before|] == before;
      if FillAfter(rule, before).Fault? { FaultPersists(rule, before + pieces, |before|); }
      CleanBefore(server, rule, start, capacity, i, k - 1);
    }
  }

  /** Downloading through a descriptor at any offset of a file with any contents.
      Unless the file runs full, a normal return is the same as: the last call
      ended well, the hasher survived the pieces, and the sizes are right. */
  method DownloadOntoData(h: Scheme, simd: Simd, rule: ResetRule, server: Server, retryLimit: nat, digest: Digest,
                          capacity: nat, existing: seq<byte>, start: nat)
    returns (r: Ending, file: seq<byte>, calls: nat, ghost written: seq<byte>)
    requires simd.Valid() && start <= |existing| <= capacity < INPUT_LIMIT
    ensures ExactlyCalls(server, rule, start, capacity, retryLimit, calls)
    ensures r.GrpcError? ==> r.code == CodeOf(server, calls - 1) != 0
    ensures file == Overwrite(existing, start, written) && written <= Concat(Received(server, calls))
    ensures r.WriteFailed? ==> start + |Concat(Received(server, calls))| > capacity
    ensures var pieces := Received(server, calls); var n := |Concat(pieces)|;
            !r.WriteFailed? ==>
              && (r.HasherFault? <==> FillAfter(rule, pieces).Fault?)
              && (r.Complete? <==>
                    && CodeOf(server, calls - 1) == OK && FillAfter(rule, pieces).Ok?
                    && start == 0 && |existing| <= n == digest.sizeBytes && digest.hashOther == "")
    ensures r.Complete? ==> file == written == Concat(Received(server, calls))
    ensures existing != [] && start == |existing| ==> !r.Complete?
  {
    hide Concat, FillAfter, Received, Overwrite, FileDownload.Valid, DigestContext.Valid;
    var download := new FileDownload(h, simd, rule, digest, existing, start, capacity);
    r, calls := download.Fetch(server, retryLimit);
    file, written := download.file, download.written;
    ChecksCompareSizes(h, digest, existing, start, written);
  }

  /** Downloading into an empty file. Whatever the failures on the way: from a
      server that honours offsets the file never holds anything but a prefix of
      the blob. A normal return means that the last call ended well and that the
      size is right, which is all the digest check looks at; from such a server
      it means the blob, if the digest names its size. */
  method DownloadBlob(h: Scheme, simd: Simd, rule: ResetRule, server: Server, retryLimit: nat, digest: Digest,
                      capacity: nat, ghost blob: seq<byte>)
    returns (r: Ending, file: seq<byte>, calls: nat)
    requires simd.Valid() && capacity < INPUT_LIMIT
    ensures ExactlyCalls(server, rule, 0, capacity, retryLimit, calls)
    ensures r.GrpcError? ==> r.code == CodeOf(server, calls - 1) != 0
    ensures r.WriteFailed? ==> |Concat(Received(server, calls))| > capacity
    ensures var pieces := Received(server, calls);
            !r.WriteFailed? ==>
              && (r.HasherFault? <==> FillAfter(rule, pieces).Fault?)
              && (r.Complete? <==>
                    && CodeOf(server, calls - 1) == OK && FillAfter(rule, pieces).Ok?
                    && |Concat(pieces)| == digest.sizeBytes && digest.hashOther == "")
    ensures r.Complete? ==> |file| == digest.sizeBytes && DigestOf(h, file).Same(digest)
    ensures r.Complete? ==> file == Concat(Received(server, calls))
    ensures HonoursOffsets(server, blob) ==> file <= blob
    ensures HonoursOffsets(server, blob) && r.Complete? && digest.sizeBytes == |blob| ==> file == blob
    ensures forall k: nat ::
              && k <= retryLimit && Interrupted(server, blob, k) && |blob| <= capacity
              && digest.sizeBytes == |blob| && digest.hashOther == "" && FillAfter(rule, Received(server, k + 1)).Ok?
              ==> r.Complete? && file == blob && calls == k + 1
  {
    hide Concat, FillAfter, HonoursOffsets, Received, Overwrite;
    ghost var written;
    r, file, calls, written := DownloadOntoData(h, simd, rule, server, retryLimit, digest, capacity, [], 0);
    OntoNothing(written);
    if HonoursOffsets(server, blob) { ReceivedIsPrefix(server, blob, calls); }
    forall k: nat | k <= retryLimit && Interrupted(server, blob, k) && |blob| <= capacity
               && FillAfter(rule, Received(server, k + 1)).Ok?
      ensures calls == k + 1 && CodeOf(server, k) == 0 && Concat(Received(server, k + 1)) == blob
    {
      InterruptedRun(server, blob, k);
      assert Clean(server, rule, 0, capacity, k + 1);
      CleanBefore(server, rule, 0, capacity, k, k + 1);
      CallsAfter(server, rule, 0, capacity, retryLimit, calls, k);
    }
  }

  /** A server that honours offsets, breaks off `k` times and then sends the rest. */
  ghost predicate Interrupted(server: Server, blob: seq<byte>, k: nat) {
    && HonoursOffsets(server, blob)
    && (forall j: nat, offset: nat :: j < k && offset <= |blob| ==> server(j, offset).code == 14)
    && (forall offset: nat :: offset <= |blob| ==>
          server(k, offset).code == 0 && Concat(server(k, offset).pieces) == blob[offset..])
  }

  lemma InterruptedRun(server: Server, blob: seq<byte>, k: nat)
    requires Interrupted(server, blob, k)
    ensures forall j :: 0 <= j < k ==> CodeOf(server, j) == 14
    ensures CodeOf(server, k) == 0 && Concat(Received(server, k + 1)) == blob
  {
    hide Concat, Received;
    forall j | 0 <= j <= k
      ensures CodeOf(server, j) == if j < k then 14 else 0
    {
      ReceivedIsPrefix(server, blob, j);
    }
    ReceivedIsPrefix(server, blob, k);
    ReceivedNext(server, k);
    var n := |Concat(Received(server, k))|;
    ConcatTogether(Received(server, k), server(k, n).pieces);
    assert blob == blob[..n] + blob[n..];
  }

  lemma OntoNothing(data: seq<byte>)
    ensures Overwrite([], 0, data) == data
  {
  }

  /** With the digest of one blob any other bytes of its length are accepted. */
  method OtherBytesAccepted(h: Scheme, simd: Simd, rule: ResetRule, blob: seq<byte>, other: seq<byte>)
    returns (r: Ending, file: seq<byte>)
    requires simd.Valid() && |other| == |blob| < INPUT_LIMIT
    ensures r.Complete? && file == other
  {
    var server: Server := (n, offset) => Reply([other], OK);
    var calls;
    OnePiece(rule, other);
    SentAtOnce(server, other);
    hide Concat, FillAfter, Received;
    r, file, calls := DownloadBlob(h, simd, rule, server, 3, DigestOf(h, blob), |blob|, other);
  }

  lemma OnePiece(rule: ResetRule, data: seq<byte>)
    ensures Concat([data]) == data && FillAfter(rule, [data]).Ok?
  {
    assert [data][..0] == [];
  }

  lemma SentAtOnce(server: Server, data: seq<byte>)
    requires server(0, 0) == Reply([data], OK)
    ensures Received(server, 1) == [data] && CodeOf(server, 0) == OK
  {
    assert Received(server, 0) == [] && Concat([]) == [];
    assert [] + [data] == [data];
  }
}
