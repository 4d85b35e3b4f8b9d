/** Uploading many blobs: the same plan as for downloads, and a result that
    lists the failures only. */
module Uploads {
  import opened CasHash
  import opened NestedTree
  import opened Batches
  import opened Transfers

  /** A batch call: an exception, or an answer for blobs of the batch. */
  datatype UploadReply = UploadThrew | Answers(outcomes: seq<Outcome>)

  function Failures(os: seq<Outcome>): (failed: seq<Outcome>)
    ensures forall o :: o in failed <==> o in os && o.code != OK
  {
    if os == [] then []
    else
      var last := os[|os| - 1];
      assert os == os[..|os| - 1] + [last];
      Failures(os[..|os| - 1]) + if last.code != OK then [last] else []
  }

  lemma OneMore(os: seq<Outcome>, last: Outcome, o: Outcome)
    ensures multiset(os + [last])[o] == multiset(os)[o] + if last == o then 1 else 0
  {
  }

  /** A failure is listed as often as it occurs. */
  lemma {:induction false} FailuresCount(os: seq<Outcome>, o: Outcome)
    ensures multiset(Failures(os))[o] == if o.code != 0 then multiset(os)[o] else 0
    decreases |os|
  {
    if os != [] {
      var n := |os| - 1;
      FailuresCount(os[..n], o);
      assert os == os[..n] + [os[n]];
      FailuresNext(os[..n], os[n]);
      hide Failures;
      OneMore(os[..n], os[n], o);
      OneMore(Failures(os[..n]), os[n], o);
    } else {
      NothingFailed();
    }
  }

  lemma {:induction false} FailuresConcat(a: seq<Outcome>, b: seq<Outcome>)
    ensures Failures(a + b) == Failures(a) + Failures(b)
    decreases |b|
  {
    if b == [] {
      assert a + b == a;
    } else {
      var n := |b| - 1;
      assert (a + b)[..|a + b| - 1] == a + b[..n];
      FailuresConcat(a, b[..n]);
    }
  }

  function UploadOutcomes(asked: seq<DigestKey>, reply: UploadReply): seq<Outcome> {
    match reply
    case UploadThrew => seq(|asked|, i requires 0 <= i < |asked| => Outcome(asked[i], INTERNAL))
    case Answers(os) => os
  }

  /** What became of the first `k` batches. */
  function BatchUploads(order: seq<DigestKey>, batches: seq<Range>, replies: nat -> UploadReply, k: nat): seq<Outcome>
    requires k <= |batches| && Contiguous(batches, |order|)
  {
    if k == 0 then []
    else
      BatchUploads(order, batches, replies, k - 1)
      + UploadOutcomes(order[batches[k - 1].first..batches[k - 1].end], replies(k - 1))
  }

  function StreamUploads(order: seq<DigestKey>, lo: nat, hi: nat, codes: nat -> nat): (os: seq<Outcome>)
    requires lo <= hi <= |order|
    ensures |os| == hi - lo && forall i :: 0 <= i < |os| ==> os[i] == Outcome(order[lo + i], codes(lo + i))
  {
    seq(hi - lo, i requires 0 <= i < hi - lo => Outcome(order[lo + i], codes(lo + i)))
  }

  /** What became of every request, batches first. */
  function AllUploads(order: seq<DigestKey>, batches: seq<Range>, replies: nat -> UploadReply,
                      codes: nat -> nat): seq<Outcome>
    requires Contiguous(batches, |order|) && End(batches) <= |order|
  {
    BatchUploads(order, batches, replies, |batches|) + StreamUploads(order, End(batches), |order|, codes)
  }

  ghost predicate UploadCallFailed(order: seq<DigestKey>, batches: seq<Range>, replies: nat -> UploadReply,
                                   codes: nat -> nat)
    requires Contiguous(batches, |order|)
  {
    || (exists k :: 0 <= k < |batches| && replies(k).UploadThrew?)
    || (exists d :: End(batches) <= d < |order| && codes(d) != OK)
  }

  method UploadBatches(order: seq<DigestKey>, batches: seq<Range>, replies: nat -> UploadReply, throwOnError: bool)
    returns (failed: Option<seq<Outcome>>)
    requires Contiguous(batches, |order|)
    ensures failed.None? <==> throwOnError && exists k :: 0 <= k < |batches| && replies(k).UploadThrew?
    ensures failed.Some? ==> failed.value == Failures(BatchUploads(order, batches, replies, |batches|))
  {
    hide Contiguous, Failures, UploadOutcomes;
    NothingFailed();
    var found := [];
    for k := 0 to |batches|
      invariant found == Failures(BatchUploads(order, batches, replies, k))
      invariant throwOnError ==> forall j :: 0 <= j < k ==> !replies(j).UploadThrew?
    {
      RangeInOrder(batches, |order|, k);
      var asked := order[batches[k].first..batches[k].end];
      FailuresConcat(BatchUploads(order, batches, replies, k), UploadOutcomes(asked, replies(k)));
      if replies(k).UploadThrew? && throwOnError {
        return None;
      }
      var more := BatchFailures(asked, replies(k));
      found := found + more;
    }
    failed := Some(found);
  }

  /** A batch that threw fails whole; otherwise the answers that are not fine. */
  method BatchFailures(asked: seq<DigestKey>, reply: UploadReply) returns (failed: seq<Outcome>)
    ensures failed == Failures(UploadOutcomes(asked, reply))
  {
    hide Failures, UploadOutcomes;
    NothingFailed();
    failed := [];
    match reply {
      case UploadThrew =>
        for i := 0 to |asked|
          invariant |failed| == i && forall j :: 0 <= j < i ==> failed[j] == Outcome(asked[j], INTERNAL)
        {
          failed := failed + [Outcome(asked[i], INTERNAL)];
        }
        AllThrew(asked, failed);
      case Answers(os) =>
        for i := 0 to |os|
          invariant failed == Failures(os[..i])
        {
          FailuresNext(os[..i], os[i]);
          assert os[..i + 1] == os[..i] + [os[i]];
          if os[i].code != OK {
            failed := failed + [os[i]];
          }
        }
        assert os[..|os|] == os == UploadOutcomes(asked, reply) by { AnswersAre(asked, os); }
    }
  }

  lemma AnswersAre(asked: seq<DigestKey>, os: seq<Outcome>)
    ensures UploadOutcomes(asked, Answers(os)) == os
  {
  }

  lemma AllThrew(asked: seq<DigestKey>, failed: seq<Outcome>)
    requires |failed| == |asked| && forall j :: 0 <= j < |asked| ==> failed[j] == Outcome(asked[j], INTERNAL)
    ensures failed == Failures(UploadOutcomes(asked, UploadThrew))
  {
    hide Failures;
    assert failed == UploadOutcomes(asked, UploadThrew);
    AllFailed(failed);
  }

  lemma {:induction false} AllFailed(os: seq<Outcome>)
    requires forall i :: 0 <= i < |os| ==> os[i].code != OK
    ensures Failures(os) == os
  {
    hide Failures;
    if os == [] {
      NothingFailed();
    } else {
      var n := |os| - 1;
      AllFailed(os[..n]);
      FailuresNext(os[..n], os[n]);
      assert os == os[..n] + [os[n]];
    }
  }

  method UploadStreams(order: seq<DigestKey>, lo: nat, codes: nat -> nat, throwOnError: bool)
    returns (failed: Option<seq<Outcome>>)
    requires lo <= |order|
    ensures failed.None? <==> throwOnError && exists d :: lo <= d < |order| && codes(d) != OK
    ensures failed.Some? ==> failed.value == Failures(StreamUploads(order, lo, |order|, codes))
  {
    hide Failures;
    var found := [];
    NothingFailed();
    for d := lo to |order|
      invariant found == Failures(StreamUploads(order, lo, d, codes))
      invariant throwOnError ==> forall j :: lo <= j < d ==> codes(j) == OK
    {
      var last := Outcome(order[d], codes(d));
      FailuresNext(StreamUploads(order, lo, d, codes), last);
      assert StreamUploads(order, lo, d + 1, codes) == StreamUploads(order, lo, d, codes) + [last];
      if codes(d) != OK {
        if throwOnError {
          return None;
        }
        found := found + [last];
      }
    }
    failed := Some(found);
  }

  lemma NothingFailed()
    ensures Failures([]) == []
  {
  }

  lemma FailuresNext(os: seq<Outcome>, last: Outcome)
    ensures Failures(os + [last]) == Failures(os) + if last.code != OK then [last] else []
  {
    assert (os + [last])[..|os|] == os;
  }

  /** The result lists what failed, in order; also returns the order and the cuts it went by. */
  method UploadBlobs(requests: seq<DigestKey>, limit: nat, replies: nat -> UploadReply, codes: nat -> nat,
                     throwOnError: bool)
    returns (failed: Option<seq<Outcome>>, order: seq<DigestKey>, batches: seq<Range>)
    requires limit < INT64_LIMIT && forall i :: 0 <= i < |requests| ==> requests[i].sizeBytes < INT64_LIMIT
    ensures Planned(requests, limit, order, batches)
    ensures failed.None? <==> throwOnError && UploadCallFailed(order, batches, replies, codes)
    ensures failed.Some? ==> failed.value == Failures(AllUploads(order, batches, replies, codes))
    ensures failed.Some? ==>
              && (forall o :: o in failed.value <==> UploadFailure(order, batches, replies, codes, o))
              && (failed.value == [] ==> !UploadCallFailed(order, batches, replies, codes))
  {
    hide Ascending, Contiguous, Fits, Full, Stops, Failures, BatchUploads, StreamUploads;
    order := SortBySize(requests);
    SizesBounded(requests, order);
    batches := MakeBatches(Sizes(order), limit);
    EndInRange(batches, |order|);
    failed := UploadBatches(order, batches, replies, throwOnError);
    if failed.None? {
      return;
    }
    var lo := if batches == [] then 0 else batches[|batches| - 1].end;
    var more := UploadStreams(order, lo, codes, throwOnError);
    if more.None? {
      return None, order, batches;
    }
    FailuresConcat(BatchUploads(order, batches, replies, |batches|), StreamUploads(order, lo, |order|, codes));
    failed := Some(failed.value + more.value);
    hide AllUploads, UploadFailure, UploadCallFailed;
    FailuresSpelledOut(order, batches, replies, codes);
  }

  /** A failure with its code, by where it comes from: a blob of a batch that
      threw, an answer, or a single upload. */
  ghost predicate UploadFailure(order: seq<DigestKey>, batches: seq<Range>, replies: nat -> UploadReply,
                                codes: nat -> nat, o: Outcome)
    requires Contiguous(batches, |order|)
  {
    || (exists k, x: nat :: 0 <= k < |batches| && Holds(batches[k], x) && x < |order|
                       && replies(k).UploadThrew? && o == Outcome(order[x], 13))
    || (exists k, i :: 0 <= k < |batches| && replies(k).Answers? && 0 <= i < |replies(k).outcomes|
                       && o == replies(k).outcomes[i] && o.code != 0)
    || (exists d :: End(batches) <= d < |order| && o == Outcome(order[d], codes(d)) && codes(d) != 0)
  }

  /** The list holds these failures and nothing else; if it is empty no call failed. */
  lemma FailuresSpelledOut(order: seq<DigestKey>, batches: seq<Range>, replies: nat -> UploadReply, codes: nat -> nat)
    requires Contiguous(batches, |order|) && End(batches) <= |order|
    ensures forall o :: o in Failures(AllUploads(order, batches, replies, codes)) <==>
                          UploadFailure(order, batches, replies, codes, o)
    ensures Failures(AllUploads(order, batches, replies, codes)) == [] ==>
              !UploadCallFailed(order, batches, replies, codes)
  {
    hide Contiguous, Failures, UploadOutcomes;
    var batched, streamed := BatchUploads(order, batches, replies, |batches|),
                             StreamUploads(order, End(batches), |order|, codes);
    forall o
      ensures o in Failures(batched + streamed) <==> UploadFailure(order, batches, replies, codes, o)
    {
      InBatches(order, batches, replies, |batches|, o);
      InStreams(order, End(batches), codes, o);
    }
    if UploadCallFailed(order, batches, replies, codes) {
      var o := SomeFailure(order, batches, replies, codes);
      assert o in Failures(batched + streamed);
    }
  }

  lemma SomeFailure(order: seq<DigestKey>, batches: seq<Range>, replies: nat -> UploadReply, codes: nat -> nat)
    returns (o: Outcome)
    requires Contiguous(batches, |order|) && End(batches) <= |order|
    requires UploadCallFailed(order, batches, replies, codes)
    ensures UploadFailure(order, batches, replies, codes, o)
  {
    hide Contiguous;
    if k :| 0 <= k < |batches| && replies(k).UploadThrew? {
      RangeInOrder(batches, |order|, k);
      var x := batches[k].first;
      assert Holds(batches[k], x);
      o := Outcome(order[x], 13);
    } else {
      var d :| End(batches) <= d < |order| && codes(d) != OK;
      o := Outcome(order[d], codes(d));
    }
  }

  lemma {:induction false} InBatches(order: seq<DigestKey>, batches: seq<Range>, replies: nat -> UploadReply, n: nat,
                                     o: Outcome)
    requires Contiguous(batches, |order|) && n <= |batches|
    ensures o in BatchUploads(order, batches, replies, n) && o.code != OK <==>
              || (exists k, x: nat :: 0 <= k < n && Holds(batches[k], x) && x < |order|
                                 && replies(k).UploadThrew? && o == Outcome(order[x], 13))
              || (exists k, i :: 0 <= k < n && replies(k).Answers? && 0 <= i < |replies(k).outcomes|
                                 && o == replies(k).outcomes[i] && o.code != 0)
    decreases n
  {
    hide Contiguous, UploadOutcomes;
    if n > 0 {
      InBatches(order, batches, replies, n - 1, o);
      RangeInOrder(batches, |order|, n - 1);
      InOneBatch(order, batches[n - 1], replies(n - 1), o);
    }
  }

  lemma InOneBatch(order: seq<DigestKey>, r: Range, reply: UploadReply, o: Outcome)
    requires r.first <= r.end <= |order|
    ensures o in UploadOutcomes(order[r.first..r.end], reply) && o.code != OK <==>
              || (exists x: nat :: Holds(r, x) && x < |order| && reply.UploadThrew? && o == Outcome(order[x], 13))
              || (exists i :: reply.Answers? && 0 <= i < |reply.outcomes| && o == reply.outcomes[i] && o.code != 0)
  {
    var asked := order[r.first..r.end];
    var os := UploadOutcomes(asked, reply);
    if reply.UploadThrew? {
      if o in os {
        var i :| 0 <= i < |os| && os[i] == o;
        assert Holds(r, r.first + i) && order[r.first + i] == asked[i];
      }
      if x: nat :| Holds(r, x) && x < |order| && o == Outcome(order[x], 13) {
        assert os[x - r.first] == o;
      }
    }
  }

  lemma InStreams(order: seq<DigestKey>, lo: nat, codes: nat -> nat, o: Outcome)
    requires lo <= |order|
    ensures o in StreamUploads(order, lo, |order|, codes) && o.code != OK <==>
              exists d :: lo <= d < |order| && o == Outcome(order[d], codes(d)) && codes(d) != 0
  {
    var os := StreamUploads(order, lo, |order|, codes);
    if o in os {
      var i :| 0 <= i < |os| && os[i] == o;
      assert o == Outcome(order[lo + i], codes(lo + i));
    }
    if d :| lo <= d < |order| && o == Outcome(order[d], codes(d)) && codes(d) != 0 {
      assert os[d - lo] == o;
    }
  }

  /** One answer for every blob of the batch. */
  ghost predicate Answered(asked: seq<DigestKey>, reply: UploadReply) {
    reply.Answers? ==> multiset(Reported(reply.outcomes)) == multiset(asked)
  }

  lemma {:induction false} BatchUploadsReported(order: seq<DigestKey>, batches: seq<Range>,
                                                replies: nat -> UploadReply, k: nat)
    requires Contiguous(batches, |order|) && k <= |batches|
    requires forall i :: 0 <= i < |batches| ==> Answered(order[batches[i].first..batches[i].end], replies(i))
    ensures Start(batches, k) <= |order|
    ensures multiset(Reported(BatchUploads(order, batches, replies, k))) == multiset(order[..Start(batches, k)])
    decreases k
  {
    hide Contiguous, UploadOutcomes, Answered;
    if k > 0 {
      BatchUploadsReported(order, batches, replies, k - 1);
      RangeInOrder(batches, |order|, k - 1);
      var r := batches[k - 1];
      var asked := order[r.first..r.end];
      OneBatchAnswered(asked, replies(k - 1));
      ReportedConcat(BatchUploads(order, batches, replies, k - 1), UploadOutcomes(asked, replies(k - 1)));
      assert order[..r.end] == order[..r.first] + asked;
    }
  }

  lemma OneBatchAnswered(asked: seq<DigestKey>, reply: UploadReply)
    requires Answered(asked, reply)
    ensures multiset(Reported(UploadOutcomes(asked, reply))) == multiset(asked)
  {
    if reply.UploadThrew? { assert Reported(UploadOutcomes(asked, reply)) == asked; }
  }

  ghost predicate AllAnswered(order: seq<DigestKey>, batches: seq<Range>, replies: nat -> UploadReply)
    requires Contiguous(batches, |order|)
  {
    forall i :: 0 <= i < |batches| ==> BatchAnswered(order, batches, replies, i)
  }

  ghost predicate BatchAnswered(order: seq<DigestKey>, batches: seq<Range>, replies: nat -> UploadReply, i: nat)
    requires Contiguous(batches, |order|) && i < |batches|
  {
    Answered(order[batches[i].first..batches[i].end], replies(i))
  }

  /** The result names exactly those whose fate was a failure. Every request has
      one fate exactly if the answers to the batches name each batched request
      once, as they do when each batch is answered in full. */
  lemma FailuresAreReported(requests: seq<DigestKey>, limit: nat, order: seq<DigestKey>, batches: seq<Range>,
                            replies: nat -> UploadReply, codes: nat -> nat)
    requires limit < INT64_LIMIT && Planned(requests, limit, order, batches)
    ensures var all, batched := AllUploads(order, batches, replies, codes),
                                BatchUploads(order, batches, replies, |batches|);
            && (forall o :: o in Failures(all) <==> o in all && o.code != OK)
            && (multiset(Reported(all)) == multiset(requests)
                <==> multiset(Reported(batched)) == multiset(order[..End(batches)]))
            && (AllAnswered(order, batches, replies) ==> multiset(Reported(all)) == multiset(requests))
  {
    hide Contiguous, Ascending, Fits, Stops, AllAnswered, BatchUploads, Reported, Room, Sizes, Failures;
    var n := End(batches);
    if AllAnswered(order, batches, replies) {
      EachAnswered(order, batches, replies);
      BatchUploadsReported(order, batches, replies, |batches|);
    }
    StreamUploadsReported(order, n, codes);
    var batched := BatchUploads(order, batches, replies, |batches|);
    ReportedConcat(batched, StreamUploads(order, n, |order|, codes));
    SplitMultiset(order, n);
    SameRest(multiset(Reported(batched)), multiset(order[..n]), multiset(order[n..|order|]));
  }

  lemma SameRest(a: multiset<DigestKey>, b: multiset<DigestKey>, rest: multiset<DigestKey>)
    ensures a + rest == b + rest <==> a == b
  {
    if a + rest == b + rest {
      forall x
        ensures a[x] == b[x]
      {
        assert (a + rest)[x] == (b + rest)[x];
      }
    }
  }

  lemma EachAnswered(order: seq<DigestKey>, batches: seq<Range>, replies: nat -> UploadReply)
    requires Contiguous(batches, |order|) && AllAnswered(order, batches, replies)
    ensures forall i :: 0 <= i < |batches| ==>
              && batches[i].first <= batches[i].end <= |order|
              && Answered(order[batches[i].first..batches[i].end], replies(i))
  {
    hide Answered;
    forall i | 0 <= i < |batches|
      ensures batches[i].first <= batches[i].end <= |order|
      ensures Answered(order[batches[i].first..batches[i].end], replies(i))
    {
      RangeInOrder(batches, |order|, i);
      assert BatchAnswered(order, batches, replies, i);
    }
  }

  /** An answer that leaves out the blob: nothing is thrown and no failure is reported. */
  method UnansweredNotReported(d: DigestKey) returns (failed: Option<seq<Outcome>>)
    requires d.sizeBytes <= 1000
    ensures failed == Some([])
  {
    var replies: nat -> UploadReply := _ => Answers([]);
    var codes: nat -> nat := _ => INTERNAL;
    var order, batches;
    failed, order, batches := UploadBlobs([d], 1000000, replies, codes, true);
    OnlyOne(order, d);
    SmallOnesBatched([d], 1000000, order, batches, 0);
    OneBatch(batches, 1);
    NothingAnswered(order, batches, replies, codes);
  }

  lemma NothingAnswered(order: seq<DigestKey>, batches: seq<Range>, replies: nat -> UploadReply, codes: nat -> nat)
    requires |order| == 1 && batches == [Range(0, 1)] && Contiguous(batches, |order|) && replies(0) == Answers([])
    ensures !UploadCallFailed(order, batches, replies, codes)
    ensures AllUploads(order, batches, replies, codes) == [] && Failures([]) == []
  {
    hide Contiguous;
    assert BatchUploads(order, batches, replies, 0) == [];
    assert BatchUploads(order, batches, replies, 1) == [] + [];
  }

  lemma StreamUploadsReported(order: seq<DigestKey>, lo: nat, codes: nat -> nat)
    requires lo <= |order|
    ensures Reported(StreamUploads(order, lo, |order|, codes)) == order[lo..|order|]
  {
  }
}
