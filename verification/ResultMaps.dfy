/** The download that collects its blobs in a map under their hashes. */
module ResultMaps {
  import opened Blake3Spec
  import opened CasHash
  import opened Batches
  import opened Transfers

  /** A status code, and the bytes if it is OK. */
  datatype Blob = Blob(code: nat, data: seq<byte>)

  type BlobMap = map<string, Blob>

  /** Each blob under its name unless the name is taken. */
  function WriteAll(ws: seq<Written>): BlobMap {
    if ws == [] then map[]
    else
      var m, w := WriteAll(ws[..|ws| - 1]), ws[|ws| - 1];
      if w.name in m then m else m[w.name := Blob(OK, w.data)]
  }

  /** Then each failure, likewise. */
  function FailAll(m: BlobMap, os: seq<Outcome>): BlobMap {
    if os == [] then m
    else
      var before, o := FailAll(m, os[..|os| - 1]), os[|os| - 1];
      if o.code == OK || o.digest.hashOther in before then before
      else before[o.digest.hashOther := Blob(o.code, [])]
  }

  /** Downloads without throwing and collects the outcome of every request. */
  method DownloadToMap(digests: seq<DigestKey>, limit: nat, hash: Hash, replies: nat -> BatchReply,
                       streams: nat -> StreamReply)
    returns (m: BlobMap, order: seq<DigestKey>, batches: seq<Range>)
    requires limit < INT64_LIMIT && forall i :: 0 <= i < |digests| ==> digests[i].sizeBytes < INT64_LIMIT
    ensures Planned(digests, limit, order, batches)
    ensures m == FailAll(WriteAll(AllWrites(hash, order, batches, replies, streams)),
                         AllOutcomes(hash, order, batches, replies, streams))
  {
    hide Planned, AllWrites, AllOutcomes, CallFailed;
    var results, written;
    results, written, order, batches := DownloadBlobs(digests, limit, hash, replies, streams, false);
    m := map[];
    for i := 0 to |written|
      invariant m == WriteAll(written[..i])
    {
      assert written[..i + 1][..i] == written[..i];
      if written[i].name !in m {
        m := m[written[i].name := Blob(OK, written[i].data)];
      }
    }
    assert written[..|written|] == written;
    var os := results.value;
    for i := 0 to |os|
      invariant m == FailAll(WriteAll(written), os[..i])
    {
      assert os[..i + 1][..i] == os[..i];
      if os[i].code != OK && os[i].digest.hashOther !in m {
        m := m[os[i].digest.hashOther := Blob(os[i].code, [])];
      }
    }
    assert os[..|os|] == os;
  }

  function EntryOf(m: BlobMap, x: string): Written
    requires x in m
  {
    Written(x, m[x].data)
  }

  lemma {:induction false} WriteAllIs(ws: seq<Written>)
    ensures var m := WriteAll(ws);
            && (forall w :: w in ws ==> w.name in m)
            && (forall x :: x in m ==> m[x].code == OK && EntryOf(m, x) in ws)
  {
    if ws != [] { WriteAllIs(ws[..|ws| - 1]); }
  }

  /** Of several blobs under one name the first stays. */
  lemma {:induction false} FirstStays(ws: seq<Written>, i: nat)
    requires i < |ws| && forall j :: 0 <= j < i ==> ws[j].name != ws[i].name
    ensures ws[i].name in WriteAll(ws) && WriteAll(ws)[ws[i].name] == Blob(0, ws[i].data)
    decreases |ws|
  {
    var n := |ws| - 1;
    if i < n {
      FirstStays(ws[..n], i);
    } else {
      NotWritten(ws[..n], ws[i].name);
    }
  }

  lemma {:induction false} NotWritten(ws: seq<Written>, x: string)
    requires forall j :: 0 <= j < |ws| ==> ws[j].name != x
    ensures x !in WriteAll(ws)
  {
    if ws != [] { NotWritten(ws[..|ws| - 1], x); }
  }

  /** Of several failures under a name without a blob likewise. */
  lemma {:induction false} FirstFailureStays(m: BlobMap, os: seq<Outcome>, i: nat)
    requires i < |os| && os[i].code != 0 && os[i].digest.hashOther !in m
    requires forall j :: 0 <= j < i && os[j].code != 0 ==> os[j].digest.hashOther != os[i].digest.hashOther
    ensures var x := os[i].digest.hashOther; x in FailAll(m, os) && FailAll(m, os)[x] == Blob(os[i].code, [])
    decreases |os|
  {
    var n := |os| - 1;
    if i < n {
      FirstFailureStays(m, os[..n], i);
    } else {
      NotFailed(m, os[..n], os[i].digest.hashOther);
    }
  }

  lemma {:induction false} NotFailed(m: BlobMap, os: seq<Outcome>, x: string)
    requires x !in m && forall j :: 0 <= j < |os| && os[j].code != 0 ==> os[j].digest.hashOther != x
    ensures x !in FailAll(m, os)
  {
    if os != [] { NotFailed(m, os[..|os| - 1], x); }
  }

  /** The names of the outcomes that report success, in order. */
  function SuccessNames(os: seq<Outcome>): seq<string> {
    if os == [] then []
    else
      var n := |os| - 1;
      SuccessNames(os[..n]) + if os[n].code == 0 then [os[n].digest.hashOther] else []
  }

  function NamesOf(ws: seq<Written>): seq<string> {
    seq(|ws|, i requires 0 <= i < |ws| => ws[i].name)
  }

  lemma {:induction false} SuccessNamesConcat(a: seq<Outcome>, b: seq<Outcome>)
    ensures SuccessNames(a + b) == SuccessNames(a) + SuccessNames(b)
    decreases |b|
  {
    if b == [] {
      assert a + b == a;
    } else {
      var n := |b| - 1;
      assert (a + b)[..|a + b| - 1] == a + b[..n];
      SuccessNamesConcat(a, b[..n]);
    }
  }

  lemma NamesConcat(a: seq<Written>, b: seq<Written>)
    ensures NamesOf(a + b) == NamesOf(a) + NamesOf(b)
  {
  }

  lemma {:induction false} ReplyInOrder(hash: Hash, rs: seq<Response>)
    ensures NamesOf(BatchWrites(hash, rs)) == SuccessNames(BatchOutcomes(hash, [], Replied(rs)))
    decreases |rs|
  {
    if rs != [] {
      var n := |rs| - 1;
      ReplyInOrder(hash, rs[..n]);
      var os := BatchOutcomes(hash, [], Replied(rs));
      assert os[..n] == BatchOutcomes(hash, [], Replied(rs[..n]));
    }
  }

  lemma {:induction false} NoSuccess(os: seq<Outcome>)
    requires forall i :: 0 <= i < |os| ==> os[i].code != 0
    ensures SuccessNames(os) == []
  {
    if os != [] { NoSuccess(os[..|os| - 1]); }
  }

  lemma OneReplyInOrder(hash: Hash, asked: seq<DigestKey>, reply: BatchReply)
    ensures NamesOf(if reply.Replied? then BatchWrites(hash, reply.responses) else [])
         == SuccessNames(BatchOutcomes(hash, asked, reply))
  {
    hide BatchWrites, SuccessNames;
    if reply.Replied? { ReplyInOrder(hash, reply.responses); } else { NoSuccess(BatchOutcomes(hash, asked, reply)); }
  }

  lemma {:induction false} BatchesInOrder(hash: Hash, order: seq<DigestKey>, batches: seq<Range>,
                                          replies: nat -> BatchReply, k: nat)
    requires Contiguous(batches, |order|) && k <= |batches|
    ensures NamesOf(BatchedWrites(hash, replies, k)) == SuccessNames(BatchedOutcomes(hash, order, batches, replies, k))
    decreases k
  {
    hide Contiguous, BatchWrites, BatchOutcomes, SuccessNames;
    if k == 0 {
      NoSuccess([]);
    } else {
      hide NamesOf;
      BatchesInOrder(hash, order, batches, replies, k - 1);
      RangeInOrder(batches, |order|, k - 1);
      var asked, reply := order[batches[k - 1].first..batches[k - 1].end], replies(k - 1);
      SuccessNamesConcat(BatchedOutcomes(hash, order, batches, replies, k - 1), BatchOutcomes(hash, asked, reply));
      var ws := if reply.Replied? then BatchWrites(hash, reply.responses) else [];
      OneReplyInOrder(hash, asked, reply);
      NamesConcat(BatchedWrites(hash, replies, k - 1), ws);
    }
  }

  lemma {:induction false} StreamsInOrder(hash: Hash, order: seq<DigestKey>, lo: nat, hi: nat,
                                          streams: nat -> StreamReply)
    requires lo <= hi <= |order|
    ensures NamesOf(StreamedWrites(hash, order, lo, hi, streams))
         == SuccessNames(StreamedOutcomes(hash, order, lo, hi, streams))
    decreases hi
  {
    hide Fetched;
    if lo < hi { StreamsInOrder(hash, order, lo, hi - 1, streams); }
  }

  /** One blob is handed out for each reported success, in that order. */
  lemma OneBlobEach(hash: Hash, order: seq<DigestKey>, batches: seq<Range>, replies: nat -> BatchReply,
                    streams: nat -> StreamReply)
    requires Contiguous(batches, |order|) && End(batches) <= |order|
    ensures NamesOf(AllWrites(hash, order, batches, replies, streams))
         == SuccessNames(AllOutcomes(hash, order, batches, replies, streams))
  {
    hide SuccessNames, NamesOf, Contiguous, BatchedWrites, StreamedWrites, BatchedOutcomes, StreamedOutcomes;
    NamesConcat(BatchedWrites(hash, replies, |batches|), StreamedWrites(hash, order, End(batches), |order|, streams));
    BatchesInOrder(hash, order, batches, replies, |batches|);
    StreamsInOrder(hash, order, End(batches), |order|, streams);
    SuccessNamesConcat(BatchedOutcomes(hash, order, batches, replies, |batches|),
                       StreamedOutcomes(hash, order, End(batches), |order|, streams));
  }

  lemma {:induction false} FailAllIs(m: BlobMap, os: seq<Outcome>)
    ensures var r := FailAll(m, os);
            && (forall o :: o in os && o.code != OK ==> o.digest.hashOther in r)
            && (forall x :: x in m ==> x in r && r[x] == m[x])
            && (forall x :: x in r && x !in m ==>
                  r[x].code != OK && r[x].data == []
                  && exists o :: o in os && o.code == r[x].code && o.digest.hashOther == x)
  {
    if os != [] { FailAllIs(m, os[..|os| - 1]); }
  }

  /** The blob of an outcome that reports success. */
  predicate Of(hash: Hash, w: Written, o: Outcome) {
    o.code == OK && w.name == o.digest.hashOther && hash(w.data) == o.digest
  }

  /** Successes and blobs correspond. */
  ghost predicate Matched(hash: Hash, ws: seq<Written>, os: seq<Outcome>) {
    && (forall o :: o in os && o.code == OK ==> exists w :: w in ws && Of(hash, w, o))
    && (forall w :: w in ws ==> exists o :: o in os && Of(hash, w, o))
  }

  lemma MatchedConcat(hash: Hash, ws: seq<Written>, os: seq<Outcome>, ws': seq<Written>, os': seq<Outcome>)
    requires Matched(hash, ws, os) && Matched(hash, ws', os')
    ensures Matched(hash, ws + ws', os + os')
  {
    forall o | o in os + os' && o.code == OK
      ensures exists w :: w in ws + ws' && Of(hash, w, o)
    {
      var w :| (w in ws || w in ws') && Of(hash, w, o);
      assert w in ws + ws';
    }
    forall w | w in ws + ws'
      ensures exists o :: o in os + os' && Of(hash, w, o)
    {
      var o :| (o in os || o in os') && Of(hash, w, o);
      assert o in os + os';
    }
  }

  lemma ReplyMatched(hash: Hash, asked: seq<DigestKey>, reply: BatchReply)
    ensures Matched(hash, if reply.Replied? then BatchWrites(hash, reply.responses) else [],
                    BatchOutcomes(hash, asked, reply))
  {
    hide BatchWrites;
    if reply.Replied? {
      var rs, os := reply.responses, BatchOutcomes(hash, asked, reply);
      var ws := BatchWrites(hash, rs);
      BatchWritesExactly(hash, rs);
      forall o | o in os && o.code == OK
        ensures exists w :: w in ws && Of(hash, w, o)
      {
        var i :| 0 <= i < |os| && os[i] == o;
        var w := Written(rs[i].digest.hashOther, rs[i].data);
        assert AcceptedAs(hash, rs[i], w) && Of(hash, w, o);
      }
      forall w | w in ws
        ensures exists o :: o in os && Of(hash, w, o)
      {
        var i :| 0 <= i < |rs| && AcceptedAs(hash, rs[i], w);
        assert os[i] in os && Of(hash, w, os[i]);
      }
    }
  }

  lemma {:induction false} BatchesMatched(hash: Hash, order: seq<DigestKey>, batches: seq<Range>,
                                          replies: nat -> BatchReply, k: nat)
    requires Contiguous(batches, |order|) && k <= |batches|
    ensures Matched(hash, BatchedWrites(hash, replies, k), BatchedOutcomes(hash, order, batches, replies, k))
    decreases k
  {
    hide Contiguous, BatchWrites, BatchOutcomes;
    if k > 0 {
      hide Matched;
      BatchesMatched(hash, order, batches, replies, k - 1);
      RangeInOrder(batches, |order|, k - 1);
      var asked := order[batches[k - 1].first..batches[k - 1].end];
      ReplyMatched(hash, asked, replies(k - 1));
      MatchedConcat(hash, BatchedWrites(hash, replies, k - 1), BatchedOutcomes(hash, order, batches, replies, k - 1),
                    if replies(k - 1).Replied? then BatchWrites(hash, replies(k - 1).responses) else [],
                    BatchOutcomes(hash, asked, replies(k - 1)));
    }
  }

  lemma {:induction false} StreamsMatched(hash: Hash, order: seq<DigestKey>, lo: nat, hi: nat,
                                          streams: nat -> StreamReply)
    requires lo <= hi <= |order|
    ensures Matched(hash, StreamedWrites(hash, order, lo, hi, streams),
                    StreamedOutcomes(hash, order, lo, hi, streams))
    decreases hi
  {
    if lo < hi {
      StreamsMatched(hash, order, lo, hi - 1, streams);
      var d := order[hi - 1];
      OneStream(hash, d, streams(hi - 1));
      hide Matched, Fetched;
      MatchedConcat(hash, StreamedWrites(hash, order, lo, hi - 1, streams),
                    StreamedOutcomes(hash, order, lo, hi - 1, streams),
                    if Fetched(hash, d, streams(hi - 1)) == OK
                    then [Written(d.hashOther, streams(hi - 1).data)] else [],
                    [Outcome(d, Fetched(hash, d, streams(hi - 1)))]);
    }
  }

  lemma OneStream(hash: Hash, d: DigestKey, s: StreamReply)
    ensures Matched(hash, if Fetched(hash, d, s) == OK then [Written(d.hashOther, s.data)] else [],
                    [Outcome(d, Fetched(hash, d, s))])
  {
    if Fetched(hash, d, s) == OK {
      var w, o := Written(d.hashOther, s.data), Outcome(d, OK);
      assert w in [w] && o in [o] && Of(hash, w, o);
    }
  }

  lemma AllMatched(hash: Hash, order: seq<DigestKey>, batches: seq<Range>, replies: nat -> BatchReply,
                   streams: nat -> StreamReply)
    requires Contiguous(batches, |order|) && End(batches) <= |order|
    ensures Matched(hash, AllWrites(hash, order, batches, replies, streams),
                    AllOutcomes(hash, order, batches, replies, streams))
  {
    hide Matched, Contiguous;
    BatchesMatched(hash, order, batches, replies, |batches|);
    StreamsMatched(hash, order, End(batches), |order|, streams);
    MatchedConcat(hash, BatchedWrites(hash, replies, |batches|),
                  BatchedOutcomes(hash, order, batches, replies, |batches|),
                  StreamedWrites(hash, order, End(batches), |order|, streams),
                  StreamedOutcomes(hash, order, End(batches), |order|, streams));
  }

  /** No two different digests are collected under one name. */
  ghost predicate NamesDistinct(digests: seq<DigestKey>) {
    forall d, e :: d in digests && e in digests && d.hashOther == e.hashOther ==> d == e
  }

  /** The map holds a blob with this digest. */
  ghost predicate HoldsBlob(hash: Hash, m: BlobMap, d: DigestKey) {
    d.hashOther in m && m[d.hashOther].code == OK && hash(m[d.hashOther].data) == d
  }

  /** The names in the map are those of what was reported, and what it holds is
      what arrived, as far as names tell the reported digests apart. */
  lemma CollectedIs(hash: Hash, ws: seq<Written>, os: seq<Outcome>)
    requires Matched(hash, ws, os)
    ensures var m := FailAll(WriteAll(ws), os);
            && (forall x :: x in m <==> exists o :: o in os && o.digest.hashOther == x)
            && (forall d :: HoldsBlob(hash, m, d) ==> Arrived(hash, d, ws))
            && (forall x :: x in m && m[x].code != 0 ==>
                  && m[x].data == [] && (forall w :: w in ws ==> w.name != x)
                  && exists o :: o in os && o.code == m[x].code && o.digest.hashOther == x)
            && (NamesDistinct(Reported(os)) ==>
                  forall o :: o in os ==> (HoldsBlob(hash, m, o.digest) <==> Arrived(hash, o.digest, ws)))
  {
    hide WriteAll, FailAll, Reported;
    var written := WriteAll(ws);
    var m := FailAll(written, os);
    WriteAllIs(ws);
    FailAllIs(written, os);
    ReportedIs(os);
    forall o | o in os
      ensures o.digest.hashOther in m
    {
      if o.code == OK {
        var w :| w in ws && Of(hash, w, o);
        assert w.name in written;
      }
    }
    forall d | HoldsBlob(hash, m, d)
      ensures Arrived(hash, d, ws)
    {
      HeldWasWritten(hash, ws, os, d);
    }
    forall o | NamesDistinct(Reported(os)) && o in os && Arrived(hash, o.digest, ws)
      ensures HoldsBlob(hash, m, o.digest)
    {
      var x := o.digest.hashOther;
      var w :| w in ws && w.name == x;
      assert EntryOf(written, x) in ws;
      var o' :| o' in os && Of(hash, EntryOf(written, x), o');
      assert o'.digest in Reported(os) && o.digest in Reported(os);
    }
  }

  lemma HeldWasWritten(hash: Hash, ws: seq<Written>, os: seq<Outcome>, d: DigestKey)
    requires HoldsBlob(hash, FailAll(WriteAll(ws), os), d)
    ensures Arrived(hash, d, ws)
  {
    hide WriteAll, FailAll;
    var written := WriteAll(ws);
    var m := FailAll(written, os);
    WriteAllIs(ws);
    FailAllIs(written, os);
    var x := d.hashOther;
    assert m[x].code == OK && x in written;
    assert EntryOf(written, x) in ws;
  }

  lemma ReportedIs(os: seq<Outcome>)
    ensures forall o :: o in os ==> o.digest in Reported(os)
    ensures forall d :: d in Reported(os) ==> exists o :: o in os && o.digest == d
  {
    forall o | o in os
      ensures o.digest in Reported(os)
    {
      var i :| 0 <= i < |os| && os[i] == o;
      assert Reported(os)[i] == o.digest;
    }
    forall d | d in Reported(os)
      ensures exists o :: o in os && o.digest == d
    {
      var i :| 0 <= i < |os| && Reported(os)[i] == d;
      assert os[i] in os;
    }
  }

  /** From servers that answer each digest asked for once: the map has an entry
      for the name of every request and no others. Where names tell the requests
      apart it holds exactly the blobs that arrived. */
  lemma MapPerName(digests: seq<DigestKey>, limit: nat, hash: Hash, order: seq<DigestKey>, batches: seq<Range>,
                   replies: nat -> BatchReply, streams: nat -> StreamReply)
    requires limit < INT64_LIMIT && Planned(digests, limit, order, batches) && AllHonest(order, batches, replies)
    ensures var ws := AllWrites(hash, order, batches, replies, streams);
            var m := FailAll(WriteAll(ws), AllOutcomes(hash, order, batches, replies, streams));
            && (forall x :: x in m <==> exists d :: d in digests && d.hashOther == x)
            && (NamesDistinct(digests) ==>
                  forall d :: d in digests ==> (HoldsBlob(hash, m, d) <==> Arrived(hash, d, ws)))
  {
    hide Contiguous, Ascending, Fits, Stops, Honest, AllWrites, AllOutcomes, WriteAll, FailAll, Matched, Reported,
         HoldsBlob, Arrived;
    EachBatchHonest(order, batches, replies);
    EachReportedOnce(digests, limit, hash, order, batches, replies, streams);
    AllMatched(hash, order, batches, replies, streams);
    var ws, os := AllWrites(hash, order, batches, replies, streams),
                  AllOutcomes(hash, order, batches, replies, streams);
    CollectedIs(hash, ws, os);
    ReportedIs(os);
    SameCounts(Reported(os), digests);
  }

  lemma EachBatchHonest(order: seq<DigestKey>, batches: seq<Range>, replies: nat -> BatchReply)
    requires Contiguous(batches, |order|) && AllHonest(order, batches, replies)
    ensures forall i :: 0 <= i < |batches| ==>
              && batches[i].first <= batches[i].end <= |order|
              && Honest(order[batches[i].first..batches[i].end], replies(i))
  {
    hide Honest;
    forall i | 0 <= i < |batches|
      ensures batches[i].first <= batches[i].end <= |order|
      ensures Honest(order[batches[i].first..batches[i].end], replies(i))
    {
      RangeInOrder(batches, |order|, i);
      assert HonestBatch(order, batches, replies, i);
    }
  }

  /** When everything arrived, the map holds all of it exactly if no two
      different digests share a name. */
  lemma HoldsAllExactly(digests: seq<DigestKey>, limit: nat, hash: Hash, order: seq<DigestKey>, batches: seq<Range>,
                        replies: nat -> BatchReply, streams: nat -> StreamReply)
    requires limit < INT64_LIMIT && Planned(digests, limit, order, batches) && AllHonest(order, batches, replies)
    requires AllArrived(hash, digests, AllWrites(hash, order, batches, replies, streams))
    ensures var m := FailAll(WriteAll(AllWrites(hash, order, batches, replies, streams)),
                             AllOutcomes(hash, order, batches, replies, streams));
            (forall d :: d in digests ==> HoldsBlob(hash, m, d)) <==> NamesDistinct(digests)
  {
    hide Planned, Contiguous, AllHonest, AllWrites, AllOutcomes, WriteAll, FailAll, Arrived;
    MapPerName(digests, limit, hash, order, batches, replies, streams);
  }

  /** BLAKE3ZCC digests have no name: whatever was asked for, one entry is left,
      and it holds everything only if everything was the same digest. */
  lemma NamelessShareOneEntry(digests: seq<DigestKey>, limit: nat, hash: Hash, order: seq<DigestKey>,
                              batches: seq<Range>, replies: nat -> BatchReply, streams: nat -> StreamReply)
    requires limit < INT64_LIMIT && Planned(digests, limit, order, batches) && AllHonest(order, batches, replies)
    requires digests != [] && forall d :: d in digests ==> d.hashOther == ""
    ensures var m := FailAll(WriteAll(AllWrites(hash, order, batches, replies, streams)),
                             AllOutcomes(hash, order, batches, replies, streams));
            m.Keys == {""}
    ensures NamesDistinct(digests) <==> forall d :: d in digests ==> d == digests[0]
  {
    hide Planned, Contiguous, AllHonest, AllWrites, AllOutcomes, WriteAll, FailAll, HoldsBlob, Arrived;
    MapPerName(digests, limit, hash, order, batches, replies, streams);
    assert digests[0] in digests;
  }
}
