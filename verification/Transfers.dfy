/** Downloading many blobs: small ones by batch request, the others one by one
    as byte streams. What the servers answer is a parameter. */
module Transfers {
  import opened Blake3Spec
  import opened CasHash
  import opened NestedTree
  import opened Batches

  const OK: nat := 0
  const INTERNAL: nat := 13

  type Hash = seq<byte> -> DigestKey

  datatype Response = Response(digest: DigestKey, code: nat, data: seq<byte>)

  /** A batch call: an exception, or a list of responses. */
  datatype BatchReply = Threw | Replied(responses: seq<Response>)

  /** A byte stream: the bytes and the final status. */
  datatype StreamReply = Stream(data: seq<byte>, code: nat)

  /** One line of the result. */
  datatype Outcome = Outcome(digest: DigestKey, code: nat)

  /** A blob handed to the caller under its hash. */
  datatype Written = Written(name: string, data: seq<byte>)

  function Sizes(digests: seq<DigestKey>): seq<nat> {
    seq(|digests|, i requires 0 <= i < |digests| => digests[i].sizeBytes)
  }

  /** A response that claims success is checked against its digest. */
  function Checked(hash: Hash, r: Response): nat {
    if r.code == OK && hash(r.data) != r.digest then INTERNAL else r.code
  }

  /** A stream is accepted when its status is fine and the bytes are the blob's. */
  function Fetched(hash: Hash, digest: DigestKey, s: StreamReply): nat {
    if s.code != OK then s.code
    else if |s.data| != digest.sizeBytes || hash(s.data) != digest then INTERNAL
    else OK
  }

  function BatchOutcomes(hash: Hash, asked: seq<DigestKey>, reply: BatchReply): seq<Outcome> {
    match reply
    case Threw => seq(|asked|, i requires 0 <= i < |asked| => Outcome(asked[i], INTERNAL))
    case Replied(rs) => seq(|rs|, i requires 0 <= i < |rs| => Outcome(rs[i].digest, Checked(hash, rs[i])))
  }

  function BatchWrites(hash: Hash, rs: seq<Response>): seq<Written> {
    if rs == [] then []
    else
      var last := rs[|rs| - 1];
      BatchWrites(hash, rs[..|rs| - 1])
      + if Checked(hash, last) == OK then [Written(last.digest.hashOther, last.data)] else []
  }

  /** Results of the first `k` batches. */
  function BatchedOutcomes(hash: Hash, order: seq<DigestKey>, batches: seq<Range>, replies: nat -> BatchReply, k: nat)
    : seq<Outcome>
    requires k <= |batches| && Contiguous(batches, |order|)
  {
    if k == 0 then []
    else
      BatchedOutcomes(hash, order, batches, replies, k - 1)
      + BatchOutcomes(hash, order[batches[k - 1].first..batches[k - 1].end], replies(k - 1))
  }

  function BatchedWrites(hash: Hash, replies: nat -> BatchReply, k: nat): seq<Written> {
    if k == 0 then []
    else
      BatchedWrites(hash, replies, k - 1)
      + if replies(k - 1).Replied? then BatchWrites(hash, replies(k - 1).responses) else []
  }

  function StreamedOutcomes(hash: Hash, order: seq<DigestKey>, lo: nat, hi: nat,
                            streams: nat -> StreamReply): seq<Outcome>
    requires lo <= hi <= |order|
  {
    if lo == hi then []
    else
      StreamedOutcomes(hash, order, lo, hi - 1, streams)
      + [Outcome(order[hi - 1], Fetched(hash, order[hi - 1], streams(hi - 1)))]
  }

  /** The whole result: batches first, then the streams of what is left. */
  function AllOutcomes(hash: Hash, order: seq<DigestKey>, batches: seq<Range>,
                       replies: nat -> BatchReply, streams: nat -> StreamReply): seq<Outcome>
    requires Contiguous(batches, |order|) && End(batches) <= |order|
  {
    BatchedOutcomes(hash, order, batches, replies, |batches|)
    + StreamedOutcomes(hash, order, End(batches), |order|, streams)
  }

  function StreamedWrites(hash: Hash, order: seq<DigestKey>, lo: nat, hi: nat,
                          streams: nat -> StreamReply): seq<Written>
    requires lo <= hi <= |order|
  {
    if lo == hi then []
    else
      StreamedWrites(hash, order, lo, hi - 1, streams)
      + if Fetched(hash, order[hi - 1], streams(hi - 1)) == OK
        then [Written(order[hi - 1].hashOther, streams(hi - 1).data)] else []
  }

  /** Everything that is handed out when nothing is thrown. */
  function AllWrites(hash: Hash, order: seq<DigestKey>, batches: seq<Range>,
                     replies: nat -> BatchReply, streams: nat -> StreamReply): seq<Written>
    requires Contiguous(batches, |order|) && End(batches) <= |order|
  {
    BatchedWrites(hash, replies, |batches|) + StreamedWrites(hash, order, End(batches), |order|, streams)
  }

  /** One response for every digest asked for. */
  ghost predicate Honest(asked: seq<DigestKey>, reply: BatchReply) {
    reply.Replied? ==> multiset(Answered(reply.responses)) == multiset(asked)
  }

  function Answered(rs: seq<Response>): seq<DigestKey> {
    seq(|rs|, i requires 0 <= i < |rs| => rs[i].digest)
  }

  function Reported(os: seq<Outcome>): seq<DigestKey> {
    seq(|os|, i requires 0 <= i < |os| => os[i].digest)
  }

  /** The order and the cuts of a transfer. */
  ghost predicate Planned(digests: seq<DigestKey>, limit: nat, order: seq<DigestKey>, batches: seq<Range>)
    requires limit < INT64_LIMIT
  {
    var sizes := Sizes(order);
    && multiset(order) == multiset(digests)
    && Ascending(sizes)
    && Contiguous(batches, |order|) && End(batches) <= |order|
    && (limit >= CONTAINER_SIZE ==> Fits(sizes, Room(limit), batches) && Stops(sizes, Room(limit), batches))
    && (limit < CONTAINER_SIZE ==> End(batches) == |order|)
  }

  /** Some call failed as a whole: an exception from a batch, or a stream that is not accepted. */
  ghost predicate CallFailed(hash: Hash, order: seq<DigestKey>, batches: seq<Range>,
                             replies: nat -> BatchReply, streams: nat -> StreamReply)
    requires Contiguous(batches, |order|)
  {
    || (exists k :: 0 <= k < |batches| && replies(k).Threw?)
    || (exists d :: End(batches) <= d < |order| && Fetched(hash, order[d], streams(d)) != OK)
  }

  lemma EndInRange(batches: seq<Range>, n: nat)
    requires Contiguous(batches, n)
    ensures End(batches) <= n
  {
  }

  lemma RangeInOrder(batches: seq<Range>, n: nat, k: nat)
    requires Contiguous(batches, n) && k < |batches|
    ensures batches[k].first < batches[k].end <= n
    ensures batches[k].first == Start(batches, k)
  {
    assert batches[k].first == Start(batches, k);
  }

  /** The loop over the batches. */
  method DownloadBatches(hash: Hash, order: seq<DigestKey>, batches: seq<Range>, replies: nat -> BatchReply,
                         throwOnError: bool)
    returns (results: Option<seq<Outcome>>, written: seq<Written>)
    requires Contiguous(batches, |order|)
    ensures results.None? <==> throwOnError && exists k :: 0 <= k < |batches| && replies(k).Threw?
    ensures results.Some? ==>
              && results.value == BatchedOutcomes(hash, order, batches, replies, |batches|)
              && written == BatchedWrites(hash, replies, |batches|)
  {
    hide Contiguous, BatchOutcomes, BatchWrites;
    var found := [];
    written := [];
    for k := 0 to |batches|
      invariant found == BatchedOutcomes(hash, order, batches, replies, k)
      invariant written == BatchedWrites(hash, replies, k)
      invariant throwOnError ==> forall j :: 0 <= j < k ==> !replies(j).Threw?
    {
      RangeInOrder(batches, |order|, k);
      var asked := order[batches[k].first..batches[k].end];
      var reply := replies(k);
      match reply {
        case Threw =>
          if throwOnError {
            return None, written;
          }
        case Replied(rs) =>
          var blobs := AcceptedBlobs(hash, rs);
          written := written + blobs;
      }
      found := found + BatchOutcomes(hash, asked, reply);
    }
    results := Some(found);
  }

  method AcceptedBlobs(hash: Hash, rs: seq<Response>) returns (blobs: seq<Written>)
    ensures blobs == BatchWrites(hash, rs)
    ensures forall w :: w in blobs <==> exists i :: 0 <= i < |rs| && AcceptedAs(hash, rs[i], w)
  {
    blobs := [];
    for i := 0 to |rs|
      invariant blobs == BatchWrites(hash, rs[..i])
    {
      assert rs[..i + 1][..i] == rs[..i];
      if rs[i].code == OK && hash(rs[i].data) == rs[i].digest {
        blobs := blobs + [Written(rs[i].digest.hashOther, rs[i].data)];
      }
    }
    assert rs[..|rs|] == rs;
    BatchWritesExactly(hash, rs);
  }

  /** A response whose claim of success holds, and the blob it is handed out as. */
  predicate AcceptedAs(hash: Hash, r: Response, w: Written) {
    r.code == OK && hash(r.data) == r.digest && w == Written(r.digest.hashOther, r.data)
  }

  /** What is handed out from a reply: every accepted response, and nothing else. */
  lemma BatchWritesExactly(hash: Hash, rs: seq<Response>)
    ensures forall w :: w in BatchWrites(hash, rs) <==> exists i :: 0 <= i < |rs| && AcceptedAs(hash, rs[i], w)
  {
    forall w
      ensures w in BatchWrites(hash, rs) <==> exists i :: 0 <= i < |rs| && AcceptedAs(hash, rs[i], w)
    {
      HandedOutOnce(hash, rs, w);
    }
  }

  lemma {:induction false} HandedOutOnce(hash: Hash, rs: seq<Response>, w: Written)
    ensures w in BatchWrites(hash, rs) <==> exists i :: 0 <= i < |rs| && AcceptedAs(hash, rs[i], w)
    decreases |rs|
  {
    hide AcceptedAs;
    if rs != [] {
      var n := |rs| - 1;
      HandedOutOnce(hash, rs[..n], w);
      LastWritten(hash, rs, w);
      hide BatchWrites;
      assert forall i :: 0 <= i < n ==> rs[..n][i] == rs[i];
    }
  }

  lemma LastWritten(hash: Hash, rs: seq<Response>, w: Written)
    requires rs != []
    ensures var n := |rs| - 1;
            w in BatchWrites(hash, rs) <==> w in BatchWrites(hash, rs[..n]) || AcceptedAs(hash, rs[n], w)
  {
  }

  /** The loop over the blobs that fit no batch. */
  method DownloadStreams(hash: Hash, order: seq<DigestKey>, lo: nat, streams: nat -> StreamReply, throwOnError: bool)
    returns (results: Option<seq<Outcome>>, written: seq<Written>)
    requires lo <= |order|
    ensures results.None?
            <==> throwOnError && exists d :: lo <= d < |order| && Fetched(hash, order[d], streams(d)) != OK
    ensures results.Some? ==>
              && results.value == StreamedOutcomes(hash, order, lo, |order|, streams)
              && written == StreamedWrites(hash, order, lo, |order|, streams)
  {
    var found := [];
    written := [];
    for d := lo to |order|
      invariant found == StreamedOutcomes(hash, order, lo, d, streams)
      invariant written == StreamedWrites(hash, order, lo, d, streams)
      invariant throwOnError ==> forall j :: lo <= j < d ==> Fetched(hash, order[j], streams(j)) == OK
    {
      var code := Fetched(hash, order[d], streams(d));
      if code == OK {
        written := written + [Written(order[d].hashOther, streams(d).data)];
      } else if throwOnError {
        return None, written;
      }
      found := found + [Outcome(order[d], code)];
    }
    results := Some(found);
  }

  /** Where a blob of this size goes. */
  method FindPlace(order: seq<DigestKey>, size: nat) returns (at: nat)
    ensures at <= |order| && (at < |order| ==> size < order[at].sizeBytes)
    ensures forall j :: 0 <= j < at ==> order[j].sizeBytes <= size
  {
    at := 0;
    while at < |order| && order[at].sizeBytes <= size
      invariant 0 <= at <= |order|
      invariant forall j :: 0 <= j < at ==> order[j].sizeBytes <= size
    {
      at := at + 1;
    }
  }

  /** Sorting by size; nothing is promised about digests of the same size. */
  method SortBySize(digests: seq<DigestKey>) returns (order: seq<DigestKey>)
    ensures multiset(order) == multiset(digests) && Ascending(Sizes(order))
  {
    hide Ascending;
    order := [];
    NothingSorted();
    for i := 0 to |digests|
      invariant multiset(order) == multiset(digests[..i]) && Ascending(Sizes(order))
    {
      var at := FindPlace(order, digests[i].sizeBytes);
      Inserted(order, at, digests[i]);
      assert digests[..i + 1] == digests[..i] + [digests[i]];
      order := order[..at] + [digests[i]] + order[at..];
    }
    assert digests[..|digests|] == digests;
  }

  lemma NothingSorted()
    ensures Ascending(Sizes([]))
  {
  }

  lemma Inserted(order: seq<DigestKey>, at: nat, x: DigestKey)
    requires Ascending(Sizes(order)) && at <= |order|
    requires forall j :: 0 <= j < at ==> order[j].sizeBytes <= x.sizeBytes
    requires at < |order| ==> x.sizeBytes < order[at].sizeBytes
    ensures Ascending(Sizes(order[..at] + [x] + order[at..]))
    ensures multiset(order[..at] + [x] + order[at..]) == multiset(order) + multiset{x}
  {
    hide Ascending;
    InsertedSizes(order, at, x);
    InsertedAscending(Sizes(order), at, x.sizeBytes);
  }

  lemma InsertedSizes(order: seq<DigestKey>, at: nat, x: DigestKey)
    requires at <= |order|
    ensures var sizes := Sizes(order);
            Sizes(order[..at] + [x] + order[at..]) == sizes[..at] + [x.sizeBytes] + sizes[at..]
    ensures multiset(order[..at] + [x] + order[at..]) == multiset(order) + multiset{x}
  {
    assert order == order[..at] + order[at..];
  }

  lemma InsertedAscending(sizes: seq<nat>, at: nat, x: nat)
    requires Ascending(sizes) && at <= |sizes|
    requires forall j :: 0 <= j < at ==> sizes[j] <= x
    requires at < |sizes| ==> x < sizes[at]
    ensures Ascending(sizes[..at] + [x] + sizes[at..])
  {
    assert forall k :: at <= k < |sizes| ==> sizes[at] <= sizes[k];
  }

  /** The whole transfer; also returns the order and the cuts it went by. */
  method DownloadBlobs(digests: seq<DigestKey>, limit: nat, hash: Hash, replies: nat -> BatchReply,
                       streams: nat -> StreamReply, throwOnError: bool)
    returns (results: Option<seq<Outcome>>, written: seq<Written>, order: seq<DigestKey>, batches: seq<Range>)
    requires limit < INT64_LIMIT && forall i :: 0 <= i < |digests| ==> digests[i].sizeBytes < INT64_LIMIT
    ensures Planned(digests, limit, order, batches)
    ensures results.None? <==> throwOnError && CallFailed(hash, order, batches, replies, streams)
    ensures results.Some? ==>
              && results.value == AllOutcomes(hash, order, batches, replies, streams)
              && written == AllWrites(hash, order, batches, replies, streams)
              && (forall o :: o in results.value <==> Result(hash, order, batches, replies, streams, o))
              && (forall w :: w in written <==> HandedOut(hash, order, batches, replies, streams, w))
  {
    hide Ascending, Contiguous, Fits, Full, Stops, Fetched;
    order := SortBySize(digests);
    SizesBounded(digests, order);
    batches := MakeBatches(Sizes(order), limit);
    EndInRange(batches, |order|);
    var more, blobs;
    results, written := DownloadBatches(hash, order, batches, replies, throwOnError);
    if results.None? {
      return;
    }
    var first := if batches == [] then 0 else batches[|batches| - 1].end;
    more, blobs := DownloadStreams(hash, order, first, streams, throwOnError);
    if more.None? {
      return None, written, order, batches;
    }
    results, written := Some(results.value + more.value), written + blobs;
    hide AllOutcomes, AllWrites, Result, HandedOut;
    ResultsSpelledOut(hash, order, batches, replies, streams);
  }

  /** A line of the result with its code, by where it comes from: a blob of a
      batch that threw, a response, or a stream. */
  ghost predicate Result(hash: Hash, order: seq<DigestKey>, batches: seq<Range>, replies: nat -> BatchReply,
                         streams: nat -> StreamReply, o: Outcome)
    requires Contiguous(batches, |order|)
  {
    || (exists k, x: nat :: 0 <= k < |batches| && Holds(batches[k], x) && x < |order|
                            && replies(k).Threw? && o == Outcome(order[x], 13))
    || (exists k, i :: 0 <= k < |batches| && replies(k).Replied? && 0 <= i < |replies(k).responses|
                       && FromResponse(hash, replies(k).responses[i], o))
    || (exists d :: End(batches) <= d < |order| && FromStream(hash, order[d], streams(d), o))
  }

  ghost predicate FromResponse(hash: Hash, r: Response, o: Outcome) {
    && o.digest == r.digest
    && (if r.code != 0 then o.code == r.code else if hash(r.data) == r.digest then o.code == 0 else o.code == 13)
  }

  ghost predicate FromStream(hash: Hash, digest: DigestKey, s: StreamReply, o: Outcome) {
    && o.digest == digest
    && (if s.code != 0 then o.code == s.code
        else if |s.data| == digest.sizeBytes && hash(s.data) == digest then o.code == 0 else o.code == 13)
  }

  /** A blob handed out: its status is fine and its bytes hash to the digest, and for
      a stream they have its size. */
  ghost predicate HandedOut(hash: Hash, order: seq<DigestKey>, batches: seq<Range>, replies: nat -> BatchReply,
                            streams: nat -> StreamReply, w: Written)
    requires Contiguous(batches, |order|)
  {
    || (exists k, i :: 0 <= k < |batches| && replies(k).Replied? && 0 <= i < |replies(k).responses|
                       && HandedFrom(hash, replies(k).responses[i], w))
    || (exists d :: End(batches) <= d < |order| && w == Written(order[d].hashOther, streams(d).data)
                    && FromStream(hash, order[d], streams(d), Outcome(order[d], 0)))
  }

  ghost predicate HandedFrom(hash: Hash, r: Response, w: Written) {
    r.code == 0 && hash(r.data) == r.digest && w.name == r.digest.hashOther && w.data == r.data
  }

  /** The result and the blobs handed out are these and nothing else. */
  lemma ResultsSpelledOut(hash: Hash, order: seq<DigestKey>, batches: seq<Range>, replies: nat -> BatchReply,
                          streams: nat -> StreamReply)
    requires Contiguous(batches, |order|) && End(batches) <= |order|
    ensures forall o :: o in AllOutcomes(hash, order, batches, replies, streams)
                        <==> Result(hash, order, batches, replies, streams, o)
    ensures forall w :: w in AllWrites(hash, order, batches, replies, streams)
                        <==> HandedOut(hash, order, batches, replies, streams, w)
  {
    hide Contiguous, FromResponse, FromStream, HandedFrom, BatchedOutcomes, StreamedOutcomes, BatchedWrites,
         StreamedWrites;
    forall o
      ensures o in AllOutcomes(hash, order, batches, replies, streams)
              <==> Result(hash, order, batches, replies, streams, o)
    {
      InBatched(hash, order, batches, replies, |batches|, o);
      InStreamed(hash, order, End(batches), |order|, streams, o);
    }
    forall w
      ensures w in AllWrites(hash, order, batches, replies, streams)
              <==> HandedOut(hash, order, batches, replies, streams, w)
    {
      InBatchedWrites(hash, replies, |batches|, w);
      InStreamedWrites(hash, order, End(batches), |order|, streams, w);
    }
  }

  lemma {:induction false} InBatched(hash: Hash, order: seq<DigestKey>, batches: seq<Range>,
                                     replies: nat -> BatchReply, n: nat, o: Outcome)
    requires Contiguous(batches, |order|) && n <= |batches|
    ensures o in BatchedOutcomes(hash, order, batches, replies, n) <==>
              || (exists k, x: nat :: 0 <= k < n && Holds(batches[k], x) && x < |order|
                                      && replies(k).Threw? && o == Outcome(order[x], 13))
              || (exists k, i :: 0 <= k < n && replies(k).Replied? && 0 <= i < |replies(k).responses|
                                 && FromResponse(hash, replies(k).responses[i], o))
    decreases n
  {
    hide Contiguous, BatchOutcomes, FromResponse;
    if n > 0 {
      InBatched(hash, order, batches, replies, n - 1, o);
      RangeInOrder(batches, |order|, n - 1);
      InOneReply(hash, order, batches[n - 1], replies(n - 1), o);
    }
  }

  lemma InOneReply(hash: Hash, order: seq<DigestKey>, r: Range, reply: BatchReply, o: Outcome)
    requires r.first <= r.end <= |order|
    ensures o in BatchOutcomes(hash, order[r.first..r.end], reply) <==>
              || (exists x: nat :: Holds(r, x) && x < |order| && reply.Threw? && o == Outcome(order[x], 13))
              || (exists i :: reply.Replied? && 0 <= i < |reply.responses| && FromResponse(hash, reply.responses[i], o))
  {
    var asked := order[r.first..r.end];
    var os := BatchOutcomes(hash, asked, reply);
    if o in os {
      var i :| 0 <= i < |os| && os[i] == o;
      if reply.Threw? {
        assert Holds(r, r.first + i) && order[r.first + i] == asked[i];
      } else {
        assert FromResponse(hash, reply.responses[i], o);
      }
    }
    if x: nat :| Holds(r, x) && x < |order| && reply.Threw? && o == Outcome(order[x], 13) {
      assert os[x - r.first] == o;
    }
    if i :| reply.Replied? && 0 <= i < |reply.responses| && FromResponse(hash, reply.responses[i], o) {
      assert os[i] == o;
    }
  }

  lemma {:induction false} InStreamed(hash: Hash, order: seq<DigestKey>, lo: nat, hi: nat,
                                      streams: nat -> StreamReply, o: Outcome)
    requires lo <= hi <= |order|
    ensures o in StreamedOutcomes(hash, order, lo, hi, streams) <==>
              exists d :: lo <= d < hi && FromStream(hash, order[d], streams(d), o)
    decreases hi
  {
    if lo < hi {
      InStreamed(hash, order, lo, hi - 1, streams, o);
      OneFetched(hash, order[hi - 1], streams(hi - 1), o);
    }
  }

  lemma OneFetched(hash: Hash, digest: DigestKey, s: StreamReply, o: Outcome)
    ensures o == Outcome(digest, Fetched(hash, digest, s)) <==> FromStream(hash, digest, s, o)
    ensures Fetched(hash, digest, s) == OK <==> FromStream(hash, digest, s, Outcome(digest, 0))
  {
  }

  lemma {:induction false} InBatchedWrites(hash: Hash, replies: nat -> BatchReply, n: nat, w: Written)
    ensures w in BatchedWrites(hash, replies, n) <==>
              exists k, i :: 0 <= k < n && replies(k).Replied? && 0 <= i < |replies(k).responses|
                             && HandedFrom(hash, replies(k).responses[i], w)
    decreases n
  {
    hide BatchWrites;
    if n > 0 {
      InBatchedWrites(hash, replies, n - 1, w);
      if replies(n - 1).Replied? { InReplyWrites(hash, replies(n - 1).responses, w); }
    }
  }

  lemma InReplyWrites(hash: Hash, rs: seq<Response>, w: Written)
    ensures w in BatchWrites(hash, rs) <==> exists i :: 0 <= i < |rs| && HandedFrom(hash, rs[i], w)
  {
    hide BatchWrites;
    BatchWritesExactly(hash, rs);
    assert forall i :: 0 <= i < |rs| ==> (AcceptedAs(hash, rs[i], w) <==> HandedFrom(hash, rs[i], w));
  }

  lemma {:induction false} InStreamedWrites(hash: Hash, order: seq<DigestKey>, lo: nat, hi: nat,
                                            streams: nat -> StreamReply, w: Written)
    requires lo <= hi <= |order|
    ensures w in StreamedWrites(hash, order, lo, hi, streams) <==>
              exists d :: lo <= d < hi && w == Written(order[d].hashOther, streams(d).data)
                          && FromStream(hash, order[d], streams(d), Outcome(order[d], 0))
    decreases hi
  {
    hide FromStream, Fetched;
    if lo < hi {
      InStreamedWrites(hash, order, lo, hi - 1, streams, w);
      OneFetched(hash, order[hi - 1], streams(hi - 1), Outcome(order[hi - 1], 0));
    }
  }

  lemma SizesBounded(a: seq<DigestKey>, b: seq<DigestKey>)
    requires multiset(a) == multiset(b) && forall i :: 0 <= i < |a| ==> a[i].sizeBytes < INT64_LIMIT
    ensures forall i :: 0 <= i < |b| ==> Sizes(b)[i] < INT64_LIMIT
  {
    forall i | 0 <= i < |b|
      ensures b[i].sizeBytes < INT64_LIMIT
    {
      assert b[i] in multiset(b);
      assert b[i] in multiset(a);
      assert b[i] in a;
    }
  }

  lemma {:induction false} BatchesReported(hash: Hash, order: seq<DigestKey>, batches: seq<Range>,
                                           replies: nat -> BatchReply, k: nat)
    requires Contiguous(batches, |order|) && k <= |batches|
    requires forall i :: 0 <= i < |batches| ==> Honest(order[batches[i].first..batches[i].end], replies(i))
    ensures Start(batches, k) <= |order|
    ensures multiset(Reported(BatchedOutcomes(hash, order, batches, replies, k)))
            == multiset(order[..Start(batches, k)])
    decreases k
  {
    hide Contiguous, BatchOutcomes, Honest;
    if k > 0 {
      hide Reported;
      BatchesReported(hash, order, batches, replies, k - 1);
      RangeInOrder(batches, |order|, k - 1);
      var r := batches[k - 1];
      var asked := order[r.first..r.end];
      OneBatchReported(hash, asked, replies(k - 1));
      ReportedConcat(BatchedOutcomes(hash, order, batches, replies, k - 1), BatchOutcomes(hash, asked, replies(k - 1)));
      RangeMultiset(order, r.first, r.end);
    }
  }

  lemma RangeMultiset(s: seq<DigestKey>, from: nat, end: nat)
    requires from <= end <= |s|
    ensures multiset(s[..end]) == multiset(s[..from]) + multiset(s[from..end])
  {
    assert s[..end] == s[..from] + s[from..end];
  }

  lemma OneBatchReported(hash: Hash, asked: seq<DigestKey>, reply: BatchReply)
    requires Honest(asked, reply)
    ensures multiset(Reported(BatchOutcomes(hash, asked, reply))) == multiset(asked)
  {
    match reply
    case Threw => assert Reported(BatchOutcomes(hash, asked, reply)) == asked;
    case Replied(rs) => assert Reported(BatchOutcomes(hash, asked, reply)) == Answered(rs);
  }

  lemma ReportedConcat(a: seq<Outcome>, b: seq<Outcome>)
    ensures multiset(Reported(a + b)) == multiset(Reported(a)) + multiset(Reported(b))
  {
    assert Reported(a + b) == Reported(a) + Reported(b);
  }

  lemma {:induction false} StreamsReported(hash: Hash, order: seq<DigestKey>, lo: nat, hi: nat,
                                           streams: nat -> StreamReply)
    requires lo <= hi <= |order|
    ensures Reported(StreamedOutcomes(hash, order, lo, hi, streams)) == order[lo..hi]
    decreases hi
  {
    if lo < hi {
      StreamsReported(hash, order, lo, hi - 1, streams);
      var before := StreamedOutcomes(hash, order, lo, hi - 1, streams);
      var last := Outcome(order[hi - 1], Fetched(hash, order[hi - 1], streams(hi - 1)));
      assert Reported(before + [last]) == Reported(before) + [last.digest];
    }
  }

  /** Every requested digest is reported once for each time it was requested,
      whether its batch, its stream or nothing failed. */
  lemma EachReportedOnce(digests: seq<DigestKey>, limit: nat, hash: Hash, order: seq<DigestKey>, batches: seq<Range>,
                         replies: nat -> BatchReply, streams: nat -> StreamReply)
    requires limit < INT64_LIMIT && Planned(digests, limit, order, batches)
    requires forall i :: 0 <= i < |batches| ==>
               && batches[i].first <= batches[i].end <= |order|
               && Honest(order[batches[i].first..batches[i].end], replies(i))
    ensures multiset(Reported(AllOutcomes(hash, order, batches, replies, streams))) == multiset(digests)
  {
    hide Contiguous, Ascending, Fits, Stops, Honest, BatchedOutcomes, StreamedOutcomes, Reported, Room, Sizes;
    var n := End(batches);
    BatchesReported(hash, order, batches, replies, |batches|);
    StreamsReported(hash, order, n, |order|, streams);
    ReportedConcat(BatchedOutcomes(hash, order, batches, replies, |batches|),
                   StreamedOutcomes(hash, order, n, |order|, streams));
    SplitMultiset(order, n);
  }

  lemma SplitMultiset(s: seq<DigestKey>, n: nat)
    requires n <= |s|
    ensures multiset(s) == multiset(s[..n]) + multiset(s[n..|s|])
  {
    assert s == s[..n] + s[n..|s|];
  }

  /** A batch carries exactly the blobs that fit a request on their own. */
  lemma SmallOnesBatched(digests: seq<DigestKey>, limit: nat, order: seq<DigestKey>, batches: seq<Range>, d: nat)
    requires 256 <= limit < INT64_LIMIT && Planned(digests, limit, order, batches) && d < |order|
    ensures d < End(batches) <==> order[d].sizeBytes + 512 <= limit
  {
    hide Ascending, Contiguous, Fits, Stops;
    BatchedExactlyIfFits(Sizes(order), Room(limit), batches, d);
    NoWrap(limit, 0, 0);
  }

  ghost predicate Verified(hash: Hash, ws: seq<Written>) {
    forall w :: w in ws ==> hash(w.data).hashOther == w.name
  }

  lemma {:induction false} BatchWritesVerified(hash: Hash, rs: seq<Response>)
    ensures Verified(hash, BatchWrites(hash, rs))
  {
    if rs != [] { BatchWritesVerified(hash, rs[..|rs| - 1]); }
  }

  lemma {:induction false} AllWritesVerified(hash: Hash, order: seq<DigestKey>, lo: nat, hi: nat,
                                             replies: nat -> BatchReply, streams: nat -> StreamReply, k: nat)
    requires lo <= hi <= |order|
    ensures Verified(hash, BatchedWrites(hash, replies, k) + StreamedWrites(hash, order, lo, hi, streams))
    decreases k + hi
  {
    hide BatchWrites;
    if lo < hi {
      AllWritesVerified(hash, order, lo, hi - 1, replies, streams, k);
    } else if k > 0 {
      AllWritesVerified(hash, order, lo, hi, replies, streams, k - 1);
      if replies(k - 1).Replied? { BatchWritesVerified(hash, replies(k - 1).responses); }
    }
  }

  predicate AllOk(os: seq<Outcome>) {
    forall i :: 0 <= i < |os| ==> os[i].code == OK
  }

  lemma {:induction false} BatchesAllOk(hash: Hash, order: seq<DigestKey>, batches: seq<Range>,
                                        replies: nat -> BatchReply, k: nat)
    requires Contiguous(batches, |order|) && k <= |batches| && forall j :: 0 <= j < k ==> replies(j).Replied?
    ensures AllOk(BatchedOutcomes(hash, order, batches, replies, k))
            <==> forall j, i :: 0 <= j < k && 0 <= i < |replies(j).responses| ==>
                   Checked(hash, replies(j).responses[i]) == OK
    decreases k
  {
    hide Contiguous, Checked;
    if k > 0 {
      BatchesAllOk(hash, order, batches, replies, k - 1);
      RangeInOrder(batches, |order|, k - 1);
      var asked := order[batches[k - 1].first..batches[k - 1].end];
      AllOkConcat(BatchedOutcomes(hash, order, batches, replies, k - 1), BatchOutcomes(hash, asked, replies(k - 1)));
      OneBatchOk(hash, asked, replies(k - 1));
    }
  }

  lemma OneBatchOk(hash: Hash, asked: seq<DigestKey>, reply: BatchReply)
    requires reply.Replied?
    ensures AllOk(BatchOutcomes(hash, asked, reply))
            <==> forall i :: 0 <= i < |reply.responses| ==> Checked(hash, reply.responses[i]) == OK
  {
    hide Checked;
    var os := BatchOutcomes(hash, asked, reply);
    assert forall i :: 0 <= i < |os| ==> os[i].code == Checked(hash, reply.responses[i]);
  }

  lemma AllOkConcat(a: seq<Outcome>, b: seq<Outcome>)
    ensures AllOk(a + b) <==> AllOk(a) && AllOk(b)
  {
    assert forall i :: 0 <= i < |a| ==> (a + b)[i] == a[i];
    assert forall i :: 0 <= i < |b| ==> (a + b)[|a| + i] == b[i];
  }

  lemma {:induction false} StreamsAllOk(hash: Hash, order: seq<DigestKey>, lo: nat, hi: nat,
                                        streams: nat -> StreamReply)
    requires lo <= hi <= |order|
    requires forall d :: lo <= d < hi ==> Fetched(hash, order[d], streams(d)) == OK
    ensures AllOk(StreamedOutcomes(hash, order, lo, hi, streams))
    decreases hi
  {
    if lo < hi { StreamsAllOk(hash, order, lo, hi - 1, streams); }
  }

  /** When no call failed as a whole, the result lists only successes exactly
      when the responses inside the batches all claim one that holds. */
  lemma OutcomesAreResponses(hash: Hash, order: seq<DigestKey>, batches: seq<Range>,
                             replies: nat -> BatchReply, streams: nat -> StreamReply)
    requires Contiguous(batches, |order|) && !CallFailed(hash, order, batches, replies, streams)
    ensures End(batches) <= |order|
    ensures AllOk(AllOutcomes(hash, order, batches, replies, streams)) <==> ResponsesFine(hash, batches, replies)
  {
    hide Contiguous, Checked, Fetched, AllOk, BatchedOutcomes, StreamedOutcomes;
    EndInRange(batches, |order|);
    BatchesAllOk(hash, order, batches, replies, |batches|);
    StreamsAllOk(hash, order, End(batches), |order|, streams);
    AllOkConcat(BatchedOutcomes(hash, order, batches, replies, |batches|),
                StreamedOutcomes(hash, order, End(batches), |order|, streams));
  }

  ghost predicate ResponsesFine(hash: Hash, batches: seq<Range>, replies: nat -> BatchReply)
    requires forall j :: 0 <= j < |batches| ==> replies(j).Replied?
  {
    forall j, i :: 0 <= j < |batches| && 0 <= i < |replies(j).responses| ==>
      Checked(hash, replies(j).responses[i]) == OK
  }

  /** Bytes with this digest were handed out under its hash. */
  ghost predicate Arrived(hash: Hash, d: DigestKey, ws: seq<Written>) {
    exists w :: w in ws && w.name == d.hashOther && hash(w.data) == d
  }

  ghost predicate AllArrived(hash: Hash, digests: seq<DigestKey>, ws: seq<Written>) {
    forall d :: d in digests ==> Arrived(hash, d, ws)
  }

  /** Some response in the reply to batch `k` delivers the blob. */
  ghost predicate Delivers(hash: Hash, reply: BatchReply, d: DigestKey) {
    && reply.Replied?
    && exists i ::
         0 <= i < |reply.responses| && reply.responses[i].digest == d && Checked(hash, reply.responses[i]) == OK
  }

  ghost predicate DeliveredByBatch(hash: Hash, n: nat, replies: nat -> BatchReply, d: DigestKey) {
    exists k :: 0 <= k < n && Delivers(hash, replies(k), d)
  }

  lemma {:induction false} ArrivedByBatch(hash: Hash, replies: nat -> BatchReply, k: nat, d: DigestKey)
    ensures Arrived(hash, d, BatchedWrites(hash, replies, k)) <==> DeliveredByBatch(hash, k, replies, d)
    decreases k
  {
    hide Delivers;
    if k > 0 {
      ArrivedByBatch(hash, replies, k - 1, d);
      var last := if replies(k - 1).Replied? then BatchWrites(hash, replies(k - 1).responses) else [];
      ArrivedConcat(hash, d, BatchedWrites(hash, replies, k - 1), last);
      ArrivedFromReply(hash, replies(k - 1), d);
      assert BatchedWrites(hash, replies, k) == BatchedWrites(hash, replies, k - 1) + last;
    }
  }

  lemma ArrivedConcat(hash: Hash, d: DigestKey, a: seq<Written>, b: seq<Written>)
    ensures Arrived(hash, d, a + b) <==> Arrived(hash, d, a) || Arrived(hash, d, b)
  {
  }

  lemma ArrivedFromReply(hash: Hash, reply: BatchReply, d: DigestKey)
    ensures Arrived(hash, d, if reply.Replied? then BatchWrites(hash, reply.responses) else [])
            <==> Delivers(hash, reply, d)
  {
    hide BatchWrites;
    if reply.Replied? {
      var rs := reply.responses;
      var ws := BatchWrites(hash, rs);
      BatchWritesExactly(hash, rs);
      if Delivers(hash, reply, d) {
        var i :| 0 <= i < |rs| && rs[i].digest == d && Checked(hash, rs[i]) == OK;
        assert AcceptedAs(hash, rs[i], Written(d.hashOther, rs[i].data));
      }
      if Arrived(hash, d, ws) {
        var w :| w in ws && w.name == d.hashOther && hash(w.data) == d;
        var i :| 0 <= i < |rs| && AcceptedAs(hash, rs[i], w);
        assert rs[i].digest == d && Checked(hash, rs[i]) == OK;
      }
    }
  }

  lemma {:induction false} ArrivedByStream(hash: Hash, order: seq<DigestKey>, lo: nat, hi: nat,
                                           streams: nat -> StreamReply, d: DigestKey)
    requires lo <= hi <= |order|
    ensures Arrived(hash, d, StreamedWrites(hash, order, lo, hi, streams))
            <==> exists x :: lo <= x < hi && order[x] == d && Fetched(hash, order[x], streams(x)) == OK
    decreases hi
  {
    if lo < hi {
      ArrivedByStream(hash, order, lo, hi - 1, streams, d);
      var x := hi - 1;
      var fine := Fetched(hash, order[x], streams(x)) == OK;
      var last := if fine then [Written(order[x].hashOther, streams(x).data)] else [];
      ArrivedConcat(hash, d, StreamedWrites(hash, order, lo, x, streams), last);
      assert fine && order[x] == d ==> last[0] in last;
      assert StreamedWrites(hash, order, lo, hi, streams) == StreamedWrites(hash, order, lo, x, streams) + last;
    }
  }

  /** No digest is both batched and streamed: what goes into a batch is decided by the size. */
  lemma BatchedNotStreamed(digests: seq<DigestKey>, limit: nat, order: seq<DigestKey>, batches: seq<Range>, x: nat,
                           y: nat)
    requires limit < INT64_LIMIT && Planned(digests, limit, order, batches)
    requires x < End(batches) <= y < |order|
    ensures order[x] != order[y]
  {
    if limit >= CONTAINER_SIZE {
      SmallOnesBatched(digests, limit, order, batches, x);
      SmallOnesBatched(digests, limit, order, batches, y);
    }
  }

  /** Asking for exceptions does not make a return mean success. When no call
      failed as a whole, everything that was asked for arrived exactly when each
      digest that went into a batch has an accepted response; a missing response
      and a failed one both leave its blob out, and nothing looks for either. */
  lemma NormalReturnIsNotSuccess(digests: seq<DigestKey>, limit: nat, hash: Hash, order: seq<DigestKey>,
                                 batches: seq<Range>, replies: nat -> BatchReply, streams: nat -> StreamReply)
    requires limit < INT64_LIMIT && Planned(digests, limit, order, batches)
    requires !CallFailed(hash, order, batches, replies, streams)
    ensures AllArrived(hash, digests, AllWrites(hash, order, batches, replies, streams))
            <==> forall x :: 0 <= x < End(batches) ==> DeliveredByBatch(hash, |batches|, replies, order[x])
  {
    hide Planned, Contiguous, DeliveredByBatch, BatchedWrites, StreamedWrites, Arrived;
    PlanCovers(digests, limit, order, batches);
    var n, ws := End(batches), AllWrites(hash, order, batches, replies, streams);
    forall x | 0 <= x < |order|
      ensures Arrived(hash, order[x], ws) <==> x >= n || DeliveredByBatch(hash, |batches|, replies, order[x])
    {
      var d := order[x];
      ArrivedConcat(hash, d, BatchedWrites(hash, replies, |batches|), StreamedWrites(hash, order, n, |order|, streams));
      ArrivedByBatch(hash, replies, |batches|, d);
      ArrivedByStream(hash, order, n, |order|, streams, d);
      if x < n {
        forall y | n <= y < |order|
          ensures order[y] != d
        {
          BatchedNotStreamed(digests, limit, order, batches, x, y);
        }
      }
    }
  }

  lemma PlanCovers(digests: seq<DigestKey>, limit: nat, order: seq<DigestKey>, batches: seq<Range>)
    requires limit < INT64_LIMIT && Planned(digests, limit, order, batches)
    ensures Contiguous(batches, |order|) && End(batches) <= |order|
    ensures forall d :: d in digests <==> d in order
  {
    hide Ascending, Contiguous, Fits, Stops;
    forall d
      ensures d in digests <==> d in order
    {
      assert d in digests <==> d in multiset(digests);
      assert d in order <==> d in multiset(order);
    }
  }

  predicate Distinct(s: seq<DigestKey>) {
    forall i, j :: 0 <= i < j < |s| ==> s[i] != s[j]
  }

  lemma {:induction false} DistinctCount(s: seq<DigestKey>)
    ensures Distinct(s) <==> forall x :: multiset(s)[x] <= 1
    decreases |s|
  {
    if s != [] {
      var n := |s| - 1;
      var init, last := s[..n], s[n];
      assert s == init + [last];
      DistinctCount(init);
      assert multiset(s) == multiset(init) + multiset{last};
      assert last in init <==> last in multiset(init);
      if Distinct(s) {
        assert last !in init;
        assert Distinct(init);
      } else if forall x :: multiset(s)[x] <= 1 {
        assert forall x :: multiset(init)[x] <= multiset(s)[x];
        assert multiset(s)[last] == multiset(init)[last] + 1;
        assert last !in init;
        assert Distinct(init);
        assert Distinct(s) by {
          forall i, j | 0 <= i < j < |s|
            ensures s[i] != s[j]
          {
            assert s[i] == init[i];
            if j < n { assert s[j] == init[j]; }
          }
        }
      }
    }
  }

  lemma SameCounts(a: seq<DigestKey>, b: seq<DigestKey>)
    requires multiset(a) == multiset(b)
    ensures Distinct(a) <==> Distinct(b)
    ensures forall x :: x in a <==> x in b
  {
    DistinctCount(a);
    DistinctCount(b);
    forall x
      ensures x in a <==> x in b
    {
      assert x in a <==> x in multiset(a);
      assert x in b <==> x in multiset(b);
    }
  }

  ghost predicate AllHonest(order: seq<DigestKey>, batches: seq<Range>, replies: nat -> BatchReply)
    requires Contiguous(batches, |order|)
  {
    forall i :: 0 <= i < |batches| ==> HonestBatch(order, batches, replies, i)
  }

  ghost predicate HonestBatch(order: seq<DigestKey>, batches: seq<Range>, replies: nat -> BatchReply, i: nat)
    requires Contiguous(batches, |order|) && i < |batches|
  {
    Honest(order[batches[i].first..batches[i].end], replies(i))
  }

  /** From servers that answer each digest asked for once, fine responses mean
      that everything arrived. For requests without repetition the converse
      holds as well: then looking at the responses would be enough. */
  lemma HonestReturn(digests: seq<DigestKey>, limit: nat, hash: Hash, order: seq<DigestKey>,
                     batches: seq<Range>, replies: nat -> BatchReply, streams: nat -> StreamReply)
    requires limit < INT64_LIMIT && Planned(digests, limit, order, batches)
    requires !CallFailed(hash, order, batches, replies, streams) && AllHonest(order, batches, replies)
    ensures var arrived := AllArrived(hash, digests, AllWrites(hash, order, batches, replies, streams));
            && (ResponsesFine(hash, batches, replies) ==> arrived)
            && (Distinct(digests) ==> (ResponsesFine(hash, batches, replies) <==> arrived))
  {
    hide Planned, Contiguous, Honest, DeliveredByBatch, Delivers, AllWrites, Arrived, Checked, Distinct;
    PlanCovers(digests, limit, order, batches);
    NormalReturnIsNotSuccess(digests, limit, hash, order, batches, replies, streams);
    var n := End(batches);
    if ResponsesFine(hash, batches, replies) {
      forall x | 0 <= x < n
        ensures DeliveredByBatch(hash, |batches|, replies, order[x])
      {
        FineDelivers(hash, order, batches, replies, x);
      }
    }
    if Distinct(digests) && forall x :: 0 <= x < n ==> DeliveredByBatch(hash, |batches|, replies, order[x]) {
      PlanDistinct(digests, limit, order, batches);
      forall k, i | 0 <= k < |batches| && 0 <= i < |replies(k).responses|
        ensures Checked(hash, replies(k).responses[i]) == OK
      {
        DeliveredIsFine(hash, order, batches, replies, k, i);
      }
    }
  }

  lemma PlanDistinct(digests: seq<DigestKey>, limit: nat, order: seq<DigestKey>, batches: seq<Range>)
    requires limit < INT64_LIMIT && Planned(digests, limit, order, batches) && Distinct(digests)
    ensures Distinct(order)
  {
    hide Ascending, Contiguous, Fits, Stops;
    SameCounts(digests, order);
  }

  lemma FineDelivers(hash: Hash, order: seq<DigestKey>, batches: seq<Range>, replies: nat -> BatchReply, x: nat)
    requires Contiguous(batches, |order|) && AllHonest(order, batches, replies) && x < End(batches) <= |order|
    requires forall k :: 0 <= k < |batches| ==> replies(k).Replied?
    requires ResponsesFine(hash, batches, replies)
    ensures DeliveredByBatch(hash, |batches|, replies, order[x])
  {
    hide Contiguous, Checked;
    EachIndexOnce(batches, |order|, x);
    var k :| 0 <= k < |batches| && Holds(batches[k], x);
    RangeInOrder(batches, |order|, k);
    assert HonestBatch(order, batches, replies, k);
    var asked, rs := order[batches[k].first..batches[k].end], replies(k).responses;
    assert asked[x - batches[k].first] == order[x];
    SameCounts(Answered(rs), asked);
    assert order[x] in asked && order[x] in Answered(rs);
    var i :| 0 <= i < |rs| && Answered(rs)[i] == order[x];
    assert rs[i].digest == order[x] && Checked(hash, rs[i]) == OK;
    assert Delivers(hash, replies(k), order[x]);
  }

  lemma AnswerAsked(asked: seq<DigestKey>, reply: BatchReply, i: nat)
    requires reply.Replied? && Honest(asked, reply) && i < |reply.responses|
    ensures reply.responses[i].digest in asked
  {
    var rs := reply.responses;
    SameCounts(Answered(rs), asked);
    assert Answered(rs)[i] in Answered(rs);
  }

  /** Where a response's digest stands among the requests. */
  lemma AskedAt(order: seq<DigestKey>, batches: seq<Range>, replies: nat -> BatchReply, k: nat, i: nat) returns (x: nat)
    requires Contiguous(batches, |order|) && AllHonest(order, batches, replies) && k < |batches|
    requires replies(k).Replied? && i < |replies(k).responses|
    ensures x < End(batches) <= |order| && Holds(batches[k], x) && order[x] == replies(k).responses[i].digest
  {
    hide Contiguous;
    EndInRange(batches, |order|);
    RangeInOrder(batches, |order|, k);
    EndsGrow(batches, |order|, k, |batches| - 1);
    assert HonestBatch(order, batches, replies, k);
    var r, rs := batches[k], replies(k).responses;
    var asked := order[r.first..r.end];
    AnswerAsked(asked, replies(k), i);
    var y :| 0 <= y < |asked| && asked[y] == rs[i].digest;
    x := r.first + y;
    assert order[x] == asked[y];
  }

  lemma DeliveredIsFine(hash: Hash, order: seq<DigestKey>, batches: seq<Range>, replies: nat -> BatchReply, k: nat,
                        i: nat)
    requires Contiguous(batches, |order|) && AllHonest(order, batches, replies) && Distinct(order)
    requires forall j :: 0 <= j < |batches| ==> replies(j).Replied?
    requires End(batches) <= |order|
    requires forall x :: 0 <= x < End(batches) ==> DeliveredByBatch(hash, |batches|, replies, order[x])
    requires k < |batches| && i < |replies(k).responses|
    ensures Checked(hash, replies(k).responses[i]) == OK
  {
    hide Contiguous, Checked, Honest;
    var x := AskedAt(order, batches, replies, k, i);
    var d := order[x];
    var k2 :| 0 <= k2 < |batches| && Delivers(hash, replies(k2), d);
    var i2 :| 0 <= i2 < |replies(k2).responses|
              && replies(k2).responses[i2].digest == d && Checked(hash, replies(k2).responses[i2]) == OK;
    var x2 := AskedAt(order, batches, replies, k2, i2);
    assert x2 == x;
    EachIndexOnce(batches, |order|, x);
    assert k2 == k;
    AnsweredOnce(order, batches, replies, k, i, i2);
  }

  lemma AnsweredOnce(order: seq<DigestKey>, batches: seq<Range>, replies: nat -> BatchReply, k: nat, i: nat, j: nat)
    requires Contiguous(batches, |order|) && AllHonest(order, batches, replies) && Distinct(order) && k < |batches|
    requires replies(k).Replied? && i < |replies(k).responses| && j < |replies(k).responses|
    requires replies(k).responses[i].digest == replies(k).responses[j].digest
    ensures i == j
  {
    hide Contiguous;
    RangeInOrder(batches, |order|, k);
    assert HonestBatch(order, batches, replies, k);
    var rs, asked := replies(k).responses, order[batches[k].first..batches[k].end];
    assert Distinct(asked);
    SameCounts(Answered(rs), asked);
    assert Answered(rs)[i] == Answered(rs)[j];
  }

  /** With a digest asked for twice a failed response can hide behind a fine one. */
  lemma RepetitionHidesFailure(hash: Hash, d: DigestKey, data: seq<byte>)
    requires hash(data) == d
    ensures var order, batches := [d, d], [Range(0, 2)];
            var replies: nat -> BatchReply := _ => Replied([Response(d, 5, []), Response(d, OK, data)]);
            && Contiguous(batches, |order|) && AllHonest(order, batches, replies)
            && AllArrived(hash, order, BatchedWrites(hash, replies, 1)) && !ResponsesFine(hash, batches, replies)
  {
    var order, batches := [d, d], [Range(0, 2)];
    var bad, good := Response(d, 5, []), Response(d, OK, data);
    var replies: nat -> BatchReply := _ => Replied([bad, good]);
    assert batches[0].first == Start(batches, 0);
    assert Answered([bad, good]) == [d, d] == order[0..2];
    assert replies(0).responses[0] == bad && replies(0).responses[1] == good;
    assert Delivers(hash, replies(0), d);
    ArrivedByBatch(hash, replies, 1, d);
    assert Checked(hash, replies(0).responses[0]) != OK;
  }

  /** A run that returns normally without the one blob that was asked for. */
  method MissingBlobNotThrown(hash: Hash, d: DigestKey) returns (results: Option<seq<Outcome>>, written: seq<Written>)
    requires d.sizeBytes <= 1000
    ensures results == Some([Outcome(d, 5)]) && written == []
  {
    var missing := Response(d, 5, []);
    var replies: nat -> BatchReply := _ => Replied([missing]);
    var order, batches;
    results, written, order, batches := DownloadBlobs([d], 1000000, hash, replies, _ => Stream([], INTERNAL), true);
    OnlyOne(order, d);
    SmallOnesBatched([d], 1000000, order, batches, 0);
    OneBatch(batches, 1);
    BatchOfOne(hash, order, batches, replies, missing);
    assert [Outcome(d, 5)] + [] == [Outcome(d, 5)];
  }

  lemma OnlyOne(order: seq<DigestKey>, d: DigestKey)
    requires multiset(order) == multiset([d])
    ensures order == [d]
  {
    assert |multiset(order)| == 1;
    assert order[0] in multiset(order);
  }

  lemma OneBatch(batches: seq<Range>, n: nat)
    requires Contiguous(batches, n) && n == 1 && End(batches) == 1
    ensures batches == [Range(0, 1)]
  {
    assert batches[0].first == Start(batches, 0);
    EndsGrow(batches, n, 0, |batches| - 1);
  }

  lemma BatchOfOne(hash: Hash, order: seq<DigestKey>, batches: seq<Range>, replies: nat -> BatchReply, r: Response)
    requires |order| == 1 && batches == [Range(0, 1)] && Contiguous(batches, |order|)
    requires replies(0) == Replied([r]) && Checked(hash, r) != OK
    ensures BatchedOutcomes(hash, order, batches, replies, 1) == [Outcome(r.digest, Checked(hash, r))]
    ensures BatchedWrites(hash, replies, 1) == []
  {
    hide Checked, Contiguous;
    assert BatchedOutcomes(hash, order, batches, replies, 0) == [] && BatchedWrites(hash, replies, 0) == [];
    assert [r][..0] == [];
    assert BatchWrites(hash, [r]) == BatchWrites(hash, []) + [];
  }

  /** The same from a reply that is simply empty. */
  method EmptyReplyNotThrown(hash: Hash, d: DigestKey) returns (results: Option<seq<Outcome>>, written: seq<Written>)
    requires d.sizeBytes <= 1000
    ensures results == Some([]) && written == []
    ensures !AllArrived(hash, [d], written)
  {
    var replies: nat -> BatchReply := _ => Replied([]);
    var order, batches;
    results, written, order, batches := DownloadBlobs([d], 1000000, hash, replies, _ => Stream([], INTERNAL), true);
    OnlyOne(order, d);
    SmallOnesBatched([d], 1000000, order, batches, 0);
    OneBatch(batches, 1);
    NothingDelivered(hash, order, batches, replies);
    assert d in [d];
  }

  lemma NothingDelivered(hash: Hash, order: seq<DigestKey>, batches: seq<Range>, replies: nat -> BatchReply)
    requires |order| == 1 && batches == [Range(0, 1)] && Contiguous(batches, |order|) && replies(0) == Replied([])
    ensures BatchedOutcomes(hash, order, batches, replies, 1) == [] && BatchedWrites(hash, replies, 1) == []
  {
    hide Contiguous;
    assert BatchedOutcomes(hash, order, batches, replies, 0) == [] && BatchedWrites(hash, replies, 0) == [];
  }
}
