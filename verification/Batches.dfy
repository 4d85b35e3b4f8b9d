/** Grouping blobs into batch requests. */
module Batches {

  const CONTAINER_SIZE: nat := 256
  const PER_BLOB_SIZE: nat := 256
  const SIZE_T: nat := 0x1_0000_0000_0000_0000
  const INT64_LIMIT: nat := 0x8000_0000_0000_0000

  /** The indices from `first` up to `end`. */
  datatype Range = Range(first: nat, end: nat)

  function Weight(size: nat): nat { size + PER_BLOB_SIZE }

  /** What the blobs `first..end` add to a request. */
  function Bytes(sizes: seq<nat>, first: nat, end: nat): nat
    requires first <= end <= |sizes|
    decreases end
  {
    if first == end then 0 else Bytes(sizes, first, end - 1) + Weight(sizes[end - 1])
  }

  predicate Ascending(sizes: seq<nat>) {
    forall i, j :: 0 <= i < j < |sizes| ==> sizes[i] <= sizes[j]
  }

  /** Where the i-th range begins if there are no gaps. */
  function Start(batches: seq<Range>, i: nat): nat
    requires i <= |batches|
  {
    if i == 0 then 0 else batches[i - 1].end
  }

  function End(batches: seq<Range>): nat {
    Start(batches, |batches|)
  }

  /** Non-empty ranges, one after the other from index 0. */
  predicate Contiguous(batches: seq<Range>, n: nat) {
    && (forall i {:trigger Start(batches, i)} :: 0 <= i < |batches| ==> batches[i].first == Start(batches, i))
    && (forall i :: 0 <= i < |batches| ==> batches[i].first < batches[i].end <= n)
  }

  /** Each range fits into this much room. */
  predicate Fits(sizes: seq<nat>, room: nat, batches: seq<Range>)
    requires Contiguous(batches, |sizes|)
  {
    forall i :: 0 <= i < |batches| ==> Bytes(sizes, batches[i].first, batches[i].end) <= room
  }

  /** No range could take the next blob as well. */
  predicate Full(sizes: seq<nat>, room: nat, batches: seq<Range>)
    requires Contiguous(batches, |sizes|)
  {
    forall i :: 0 <= i < |batches| && batches[i].end < |sizes| ==>
      Bytes(sizes, batches[i].first, batches[i].end + 1) > room
  }

  /** Ranges end where the blobs do, or at one that is too big on its own. */
  predicate Stops(sizes: seq<nat>, room: nat, batches: seq<Range>) {
    End(batches) == |sizes| || (End(batches) < |sizes| && Weight(sizes[End(batches)]) > room)
  }

  /** Requests made of these ranges stay within the limit, the container included. */
  predicate WithinLimit(sizes: seq<nat>, limit: nat, batches: seq<Range>)
    requires Contiguous(batches, |sizes|)
  {
    forall i :: 0 <= i < |batches| ==>
      CONTAINER_SIZE + Bytes(sizes, batches[i].first, batches[i].end) <= limit
  }

  /** The room in a request, in the unsigned arithmetic of the source: below
      256 bytes the subtraction wraps around. */
  function Room(limit: nat): nat
    requires limit < SIZE_T
  {
    (limit - CONTAINER_SIZE) % SIZE_T
  }

  /** Bytes in the batch with one more blob, wrapping around. */
  function Added(bytes: nat, size: nat): nat {
    (bytes + size + PER_BLOB_SIZE) % SIZE_T
  }

  lemma NoWrap(limit: nat, bytes: nat, size: nat)
    requires limit < INT64_LIMIT && size < INT64_LIMIT
    ensures limit >= CONTAINER_SIZE ==> Room(limit) == limit - CONTAINER_SIZE
    ensures limit >= CONTAINER_SIZE && bytes <= Room(limit) ==> Added(bytes, size) == bytes + Weight(size)
    ensures limit < CONTAINER_SIZE ==> Added(0, size) <= Room(limit)
  {
  }

  /** Adds blobs from `first` on until the room is used up or none is left. */
  method FillBatch(sizes: seq<nat>, limit: nat, first: nat) returns (end: nat)
    requires limit < INT64_LIMIT && forall i :: 0 <= i < |sizes| ==> sizes[i] < INT64_LIMIT
    requires first < |sizes| && Added(0, sizes[first]) <= Room(limit)
    ensures first < end <= |sizes|
    ensures limit >= CONTAINER_SIZE ==>
              && Bytes(sizes, first, end) <= Room(limit)
              && (end < |sizes| ==> Bytes(sizes, first, end + 1) > Room(limit))
  {
    hide Added, Room;
    var room, bytesInBatch := Room(limit), 0;
    end := first;
    while end < |sizes| && Added(bytesInBatch, sizes[end]) <= room
      invariant first <= end <= |sizes|
      invariant end == first ==> bytesInBatch == 0
      invariant bytesInBatch <= room
      invariant limit >= CONTAINER_SIZE ==> bytesInBatch == Bytes(sizes, first, end)
    {
      NoWrap(limit, bytesInBatch, sizes[end]);
      bytesInBatch := Added(bytesInBatch, sizes[end]);
      end := end + 1;
    }
    if end < |sizes| { NoWrap(limit, bytesInBatch, sizes[end]); }
  }

  /** Greedy batches; all the requests stay within the limit exactly when the
      limit leaves room for the container, or there is nothing to request. */
  method MakeBatches(sizes: seq<nat>, limit: nat) returns (batches: seq<Range>)
    requires limit < INT64_LIMIT && forall i :: 0 <= i < |sizes| ==> sizes[i] < INT64_LIMIT
    ensures Contiguous(batches, |sizes|)
    ensures limit >= CONTAINER_SIZE ==>
              && Fits(sizes, Room(limit), batches)
              && Full(sizes, Room(limit), batches)
              && Stops(sizes, Room(limit), batches)
    ensures limit < CONTAINER_SIZE ==> End(batches) == |sizes|
    ensures WithinLimit(sizes, limit, batches) <==> limit >= CONTAINER_SIZE || sizes == []
    ensures limit >= 256 ==> GreedyInNumbers(sizes, limit, batches)
  {
    hide GreedyInNumbers;
    hide Added, Room, Bytes, Contiguous, Fits, Full, Stops, WithinLimit;
    batches := [];
    NoBatches(sizes, Room(limit));
    var batchStart, batchEnd := 0, 0;
    while batchEnd < |sizes|
      invariant batchStart == batchEnd == End(batches) <= |sizes|
      invariant Contiguous(batches, |sizes|)
      invariant limit >= CONTAINER_SIZE ==> Fits(sizes, Room(limit), batches) && Full(sizes, Room(limit), batches)
      invariant batches == [] ==> batchEnd == 0
    {
      NoWrap(limit, 0, sizes[batchEnd]);
      if Added(0, sizes[batchEnd]) > Room(limit) {
        break;
      }
      batchEnd := FillBatch(sizes, limit, batchStart);
      AppendRange(sizes, Room(limit), batches, Range(batchStart, batchEnd));
      batches := batches + [Range(batchStart, batchEnd)];
      batchStart := batchEnd;
    }
    if limit >= CONTAINER_SIZE { StopsAt(sizes, Room(limit), batches); }
    LimitIsRoom(sizes, limit, batches);
    if limit >= 256 { InNumbers(sizes, limit, batches); }
  }

  function Sum(sizes: seq<nat>): nat {
    if sizes == [] then 0 else sizes[0] + Sum(sizes[1..])
  }

  /** What the blobs `first..end` take up in a request: 256 for the request, and
      for each blob its size and 256 more. */
  function RequestSize(sizes: seq<nat>, first: nat, end: nat): nat
    requires first <= end <= |sizes|
  {
    256 + Sum(sizes[first..end]) + 256 * (end - first)
  }

  /** Every range is within the limit and would not be with one more blob; the ranges
      stop at the end or at a blob that is over the limit on its own. */
  ghost predicate GreedyInNumbers(sizes: seq<nat>, limit: nat, batches: seq<Range>)
    requires Contiguous(batches, |sizes|)
  {
    && (forall i :: 0 <= i < |batches| ==> RequestSize(sizes, batches[i].first, batches[i].end) <= limit)
    && (forall i :: 0 <= i < |batches| && batches[i].end < |sizes| ==>
          RequestSize(sizes, batches[i].first, batches[i].end + 1) > limit)
    && (End(batches) < |sizes| ==> 512 + sizes[End(batches)] > limit)
  }

  lemma InNumbers(sizes: seq<nat>, limit: nat, batches: seq<Range>)
    requires 256 <= limit < INT64_LIMIT && Contiguous(batches, |sizes|)
    requires Fits(sizes, Room(limit), batches) && Full(sizes, Room(limit), batches)
    requires Stops(sizes, Room(limit), batches)
    ensures GreedyInNumbers(sizes, limit, batches)
  {
    hide RequestSize, Bytes, Start;
    forall i | 0 <= i < |batches|
      ensures RequestSize(sizes, batches[i].first, batches[i].end) <= limit
      ensures batches[i].end < |sizes| ==> RequestSize(sizes, batches[i].first, batches[i].end + 1) > limit
    {
      BytesInNumbers(sizes, batches[i].first, batches[i].end);
      if batches[i].end < |sizes| { BytesInNumbers(sizes, batches[i].first, batches[i].end + 1); }
    }
  }

  lemma {:induction false} BytesInNumbers(sizes: seq<nat>, first: nat, end: nat)
    requires first <= end <= |sizes|
    ensures 256 + Bytes(sizes, first, end) == RequestSize(sizes, first, end)
    decreases end
  {
    if first < end {
      BytesInNumbers(sizes, first, end - 1);
      assert sizes[first..end] == sizes[first..end - 1] + [sizes[end - 1]];
      SumSnoc(sizes[first..end - 1], sizes[end - 1]);
    }
  }

  lemma {:induction false} SumSnoc(sizes: seq<nat>, x: nat)
    ensures Sum(sizes + [x]) == Sum(sizes) + x
  {
    if sizes == [] {
      assert [x][1..] == [];
    } else {
      assert (sizes + [x])[1..] == sizes[1..] + [x];
      SumSnoc(sizes[1..], x);
    }
  }

  lemma NoBatches(sizes: seq<nat>, room: nat)
    ensures Contiguous([], |sizes|) && Fits(sizes, room, []) && Full(sizes, room, [])
  {
  }

  lemma StopsAt(sizes: seq<nat>, room: nat, batches: seq<Range>)
    requires End(batches) <= |sizes| && (End(batches) < |sizes| ==> Weight(sizes[End(batches)]) > room)
    ensures Stops(sizes, room, batches)
  {
  }

  lemma AppendContiguous(batches: seq<Range>, n: nat, r: Range)
    requires Contiguous(batches, n) && r.first == End(batches) && r.first < r.end <= n
    ensures Contiguous(batches + [r], n) && End(batches + [r]) == r.end
  {
    var more := batches + [r];
    forall i | 0 <= i < |more|
      ensures more[i].first == Start(more, i)
    {
      if i < |batches| { assert batches[i].first == Start(batches, i); }
    }
  }

  lemma AppendRange(sizes: seq<nat>, room: nat, batches: seq<Range>, r: Range)
    requires Contiguous(batches, |sizes|) && r.first == End(batches) && r.first < r.end <= |sizes|
    ensures Contiguous(batches + [r], |sizes|) && End(batches + [r]) == r.end
    ensures Fits(sizes, room, batches) && Bytes(sizes, r.first, r.end) <= room ==> Fits(sizes, room, batches + [r])
    ensures Full(sizes, room, batches) && (r.end < |sizes| ==> Bytes(sizes, r.first, r.end + 1) > room) ==>
              Full(sizes, room, batches + [r])
  {
    AppendContiguous(batches, |sizes|, r);
    hide Contiguous, Start;
    var more := batches + [r];
    assert forall i :: 0 <= i < |batches| ==> more[i] == batches[i];
  }

  lemma LimitIsRoom(sizes: seq<nat>, limit: nat, batches: seq<Range>)
    requires limit < INT64_LIMIT && Contiguous(batches, |sizes|)
    requires limit >= CONTAINER_SIZE ==> Fits(sizes, Room(limit), batches)
    requires limit < CONTAINER_SIZE && sizes != [] ==> batches != []
    ensures WithinLimit(sizes, limit, batches) <==> limit >= CONTAINER_SIZE || sizes == []
  {
    assert batches != [] ==> batches[0].end <= |sizes|;
  }

  lemma {:induction false} BytesGrow(sizes: seq<nat>, a: nat, b: nat, c: nat, d: nat)
    requires a <= b <= c <= d <= |sizes|
    ensures Bytes(sizes, b, c) <= Bytes(sizes, a, d)
    decreases d
  {
    if c < d {
      BytesGrow(sizes, a, b, c, d - 1);
    } else if b < c {
      BytesGrow(sizes, a, b, c - 1, d - 1);
    }
  }

  lemma {:induction false} EndsGrow(batches: seq<Range>, n: nat, j: nat, k: nat)
    requires Contiguous(batches, n) && j <= k < |batches|
    ensures batches[j].end <= batches[k].end && batches[j].first <= batches[k].first
    ensures j < k ==> batches[j].end <= batches[k].first
    decreases k
  {
    assert batches[k].first == Start(batches, k);
    if j < k { EndsGrow(batches, n, j, k - 1); }
  }

  predicate Holds(r: Range, x: nat) {
    r.first <= x < r.end
  }

  /** Every index before the end lies in exactly one range, none after it in any. */
  lemma EachIndexOnce(batches: seq<Range>, n: nat, x: nat)
    requires Contiguous(batches, n)
    ensures x < End(batches) <==> exists i :: 0 <= i < |batches| && Holds(batches[i], x)
    ensures forall i, j :: 0 <= i < j < |batches| ==> !(Holds(batches[i], x) && Holds(batches[j], x))
  {
    if x < End(batches) { RangeOf(batches, n, |batches| - 1, x); }
    forall i, j | 0 <= i <= j < |batches|
      ensures batches[i].end <= End(batches)
      ensures i < j ==> !(Holds(batches[i], x) && Holds(batches[j], x))
    {
      EndsGrow(batches, n, i, j);
      EndsGrow(batches, n, i, |batches| - 1);
    }
  }

  lemma {:induction false} RangeOf(batches: seq<Range>, n: nat, k: nat, x: nat)
    requires Contiguous(batches, n) && k < |batches| && x < batches[k].end
    ensures exists i :: 0 <= i <= k && Holds(batches[i], x)
    decreases k
  {
    assert batches[k].first == Start(batches, k);
    if x < batches[k].first { RangeOf(batches, n, k - 1, x); } else { assert Holds(batches[k], x); }
  }

  /** The requests of the first `k` batches, in order. */
  function Batched<T>(order: seq<T>, batches: seq<Range>, k: nat): seq<T>
    requires k <= |batches| && forall i :: 0 <= i < |batches| ==> batches[i].first <= batches[i].end <= |order|
  {
    if k == 0 then [] else Batched(order, batches, k - 1) + order[batches[k - 1].first..batches[k - 1].end]
  }

  lemma {:induction false} BatchedPrefix<T>(order: seq<T>, batches: seq<Range>, k: nat)
    requires Contiguous(batches, |order|) && k <= |batches|
    ensures Start(batches, k) <= |order| && Batched(order, batches, k) == order[..Start(batches, k)]
    decreases k
  {
    if k > 0 {
      BatchedPrefix(order, batches, k - 1);
      assert batches[k - 1].first == Start(batches, k - 1);
    }
  }

  /** Batches first, then whatever is left one by one: every request once, in order. */
  lemma EachRequestOnce<T>(order: seq<T>, batches: seq<Range>)
    requires Contiguous(batches, |order|)
    ensures End(batches) <= |order| && Batched(order, batches, |batches|) + order[End(batches)..] == order
  {
    hide Batched, Contiguous;
    BatchedPrefix(order, batches, |batches|);
    Rejoin(order, End(batches));
  }

  lemma Rejoin<T>(s: seq<T>, n: nat)
    requires n <= |s|
    ensures s[..n] + s[n..] == s
  {
  }

  /** With ascending sizes the batches hold exactly the blobs that fit a request alone. */
  lemma BatchedExactlyIfFits(sizes: seq<nat>, room: nat, batches: seq<Range>, x: nat)
    requires Ascending(sizes) && Contiguous(batches, |sizes|)
    requires Fits(sizes, room, batches) && Stops(sizes, room, batches)
    requires x < |sizes|
    ensures x < End(batches) <==> Weight(sizes[x]) <= room
  {
    if x < End(batches) {
      EachIndexOnce(batches, |sizes|, x);
      var i :| 0 <= i < |batches| && Holds(batches[i], x);
      BytesGrow(sizes, batches[i].first, x, x + 1, batches[i].end);
      assert Bytes(sizes, x, x + 1) == Bytes(sizes, x, x) + Weight(sizes[x]);
    }
  }

  /** Greedy stays ahead: its k-th range reaches at least as far as any other k-th range. */
  lemma {:induction false} GreedyStaysAhead(sizes: seq<nat>, room: nat, greedy: seq<Range>, other: seq<Range>, k: nat)
    requires Contiguous(greedy, |sizes|) && Fits(sizes, room, greedy) && Full(sizes, room, greedy)
    requires Contiguous(other, |sizes|) && Fits(sizes, room, other)
    requires k < |greedy| && k < |other|
    ensures other[k].end <= greedy[k].end
    decreases k
  {
    hide Bytes;
    if k > 0 { GreedyStaysAhead(sizes, room, greedy, other, k - 1); }
    var g, o := greedy[k], other[k];
    assert g.first == Start(greedy, k) && o.first == Start(other, k);
    if o.end > g.end { BytesGrow(sizes, o.first, g.first, g.end + 1, o.end); }
  }

  /** No way of cutting at least the same blobs into requests needs fewer of them. */
  lemma FewestBatches(sizes: seq<nat>, room: nat, greedy: seq<Range>, other: seq<Range>)
    requires Contiguous(greedy, |sizes|) && Fits(sizes, room, greedy) && Full(sizes, room, greedy)
    requires Contiguous(other, |sizes|) && Fits(sizes, room, other)
    requires End(other) >= End(greedy)
    ensures |greedy| <= |other|
  {
    if |greedy| > 0 && |other| > 0 && |other| < |greedy| {
      GreedyStaysAhead(sizes, room, greedy, other, |other| - 1);
      EndsGrow(greedy, |sizes|, |other| - 1, |greedy| - 1);
    }
  }
}
