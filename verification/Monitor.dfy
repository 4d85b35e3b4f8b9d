/** The thread that follows a file another process appends to, as a state
    machine: the writer, the request to stop, and the thread's own steps, in
    any order. */
module Monitor {
  import opened Blake3Spec
  import opened CasHash

  const MIN_BATCH: nat := 100

  /** Where the thread is. The stop flag is read twice in one round: once to
      decide on a last write, and, with nothing read or written, once more. */
  datatype Pc =
    | WaitCheck
    | WaitPoll
    | Reading
    | FirstFlag(got: nat)
    | Deciding(got: nat, lastWrite: bool)
    | SecondFlag
    | Returned
    | Crashed

  datatype State = State(
    pc: Pc,
    file: seq<byte>,
    stop: bool,
    pos: nat,
    buffer: seq<byte>,
    offset: nat,
    chunks: seq<seq<byte>>)
  {
    /** What has been read and not delivered. */
    function Held(): seq<byte>
      requires offset <= |buffer|
    {
      buffer[..offset]
    }

    /** Bytes the next read may fill; one is kept back. */
    function Free(): int { |buffer| - offset - 1 }
  }

  predicate Init(s: State) {
    s.pc == WaitCheck && !s.stop && s.pos == 0 && |s.buffer| > 0 && s.offset == 0 && s.chunks == []
  }

  predicate Append(s: State, s': State) {
    s.file <= s'.file && s' == s.(file := s'.file)
  }

  predicate RequestStop(s: State, s': State) {
    s' == s.(stop := true)
  }

  /** Waiting for the first byte: the flag, then the size, over and over. */
  predicate Wait(s: State, s': State) {
    || (s.pc == WaitCheck && s' == s.(pc := if s.stop then Returned else WaitPoll))
    || (s.pc == WaitPoll && s' == s.(pc := if s.file != [] then Reading else WaitCheck))
    || (s.pc == WaitPoll && s' == s.(pc := Returned))
  }

  /** A read of `n` bytes into the buffer after what it holds. */
  predicate ReadBytes(s: State, s': State, n: nat) {
    && s.pc == Reading
    && n <= s.Free() && s.pos + n <= |s.file|
    && s' == s.(pc := FirstFlag(n), pos := s.pos + n, offset := s.offset + n,
                buffer := s.buffer[..s.offset] + s.file[s.pos..s.pos + n] + s.buffer[s.offset + n..])
  }

  predicate ReadFails(s: State, s': State) {
    s.pc == Reading && s' == s.(pc := Crashed)
  }

  predicate CheckFlag(s: State, s': State) {
    s.pc.FirstFlag? && s' == s.(pc := Deciding(s.pc.got, s.offset > 0 && s.stop))
  }

  /** Delivers when there is enough or it is the last write. */
  predicate Decide(s: State, s': State)
    requires s.offset <= |s.buffer|
  {
    && s.pc.Deciding?
    && s' ==
       if s.offset > MIN_BATCH || s.pc.lastWrite then
         s.(pc := if s.pc.lastWrite then Returned else Reading, chunks := s.chunks + [s.Held()], offset := 0)
       else if s.pc.got == 0 then s.(pc := SecondFlag)
       else s.(pc := Reading)
  }

  predicate CheckFlagAgain(s: State, s': State) {
    s.pc == SecondFlag && s' == s.(pc := if s.stop then Returned else Reading)
  }

  ghost predicate Next(s: State, s': State) {
    || Append(s, s')
    || RequestStop(s, s')
    || Wait(s, s')
    || (exists n: nat :: ReadBytes(s, s', n))
    || ReadFails(s, s')
    || CheckFlag(s, s')
    || (s.offset <= |s.buffer| && Decide(s, s'))
    || CheckFlagAgain(s, s')
  }

  /** A sequence of steps from a start. */
  ghost predicate Run(run: seq<State>) {
    && run != []
    && Init(run[0])
    && forall i :: 0 <= i < |run| - 1 ==> Next(run[i], run[i + 1])
  }

  /** The pieces handed to the callback: never empty, never more than the buffer
      holds, and except for a last one before returning more than the minimum. */
  predicate ChunksFine(s: State) {
    forall i :: 0 <= i < |s.chunks| ==>
      && 0 < |s.chunks[i]| < |s.buffer|
      && (|s.chunks[i]| > MIN_BATCH || (i == |s.chunks| - 1 && s.pc == Returned))
  }

  /** Delivered bytes followed by the buffer are the part of the file read so far. */
  predicate Faithful(s: State) {
    s.offset < |s.buffer| && s.pos <= |s.file| && Concat(s.chunks) + s.Held() == s.file[..s.pos]
  }

  predicate Small(s: State) {
    match s.pc
    case WaitCheck => s.offset == 0 && s.pos == 0
    case WaitPoll => s.offset == 0 && s.pos == 0
    case FirstFlag(got) => got <= s.offset
    case Deciding(got, last) => got <= s.offset && (last ==> s.offset > 0 && s.stop)
    case _ => s.offset <= MIN_BATCH
  }

  predicate Inv(s: State) {
    Faithful(s) && Small(s) && ChunksFine(s) && (s.pc == Returned && s.offset > 0 ==> s.stop)
  }

  lemma InitInv(s: State)
    requires Init(s)
    ensures Inv(s)
  {
  }

  lemma NextInv(s: State, s': State)
    requires Inv(s) && Next(s, s')
    ensures Inv(s') && |s'.buffer| == |s.buffer|
  {
    hide Concat;
    if n: nat :| ReadBytes(s, s', n) {
      ReadInv(s, s', n);
    } else if Decide(s, s') {
      DecideInv(s, s');
    } else if Append(s, s') {
      assert s'.file[..s.pos] == s.file[..s.pos];
    }
  }

  lemma ReadInv(s: State, s': State, n: nat)
    requires Inv(s) && ReadBytes(s, s', n)
    ensures Inv(s') && |s'.buffer| == |s.buffer|
  {
    hide Concat;
    var data := s.file[s.pos..s.pos + n];
    assert s'.Held() == s.Held() + data;
    assert s.file[..s.pos + n] == s.file[..s.pos] + data;
    assert Concat(s.chunks) + (s.Held() + data) == (Concat(s.chunks) + s.Held()) + data;
  }

  lemma DecideInv(s: State, s': State)
    requires Inv(s) && Decide(s, s')
    ensures Inv(s') && |s'.buffer| == |s.buffer|
  {
    hide Concat;
    ConcatSnoc(s.chunks, s.Held());
    assert s'.offset == 0 ==> s'.Held() == [];
  }

  /** The invariant holds in every state of every run. */
  lemma {:induction false} RunInv(run: seq<State>, k: nat)
    requires Run(run) && k < |run|
    ensures Inv(run[k]) && |run[k].buffer| == |run[0].buffer|
    decreases k
  {
    hide Inv, Next;
    if k == 0 {
      InitInv(run[0]);
    } else {
      RunInv(run, k - 1);
      assert Next(run[k - 1], run[k - 1 + 1]);
      NextInv(run[k - 1], run[k]);
    }
  }

  /** Over every run: what was delivered is a prefix of the file, in order and
      without gaps; when the thread has returned, at most 100 bytes were read and
      not delivered, and none unless it was asked to stop. */
  lemma DeliveredIsPrefix(run: seq<State>, k: nat)
    requires Run(run) && k < |run|
    ensures var s := run[k];
            && Faithful(s)
            && Concat(s.chunks) <= s.file
            && (s.pc == Returned ==> s.pos - |Concat(s.chunks)| <= MIN_BATCH && (s.pos > |Concat(s.chunks)| ==> s.stop))
  {
    hide Next, Concat;
    RunInv(run, k);
    var s := run[k];
    assert |s.file[..s.pos]| == |Concat(s.chunks)| + s.offset;
    assert Concat(s.chunks) == s.file[..s.pos][..|Concat(s.chunks)|];
  }

  /** After a stop request: whether the thread is going to deliver the whole
      file, if no more is written and a read takes at least `q` bytes when there
      are that many and there is room for them. Taking `q` as 0 leaves reads
      free to come back empty, 1 is what a file guarantees, and a `q` as large as
      the buffer makes them complete. */
  predicate Saved(s: State, q: nat) {
    match s.pc
    case WaitCheck => s.file == []
    case WaitPoll => s.file == []
    case Reading => |s.file| - s.pos <= q && |s.file| - s.pos <= s.Free()
    case FirstFlag(_) => s.pos == |s.file|
    case Deciding(got, last) =>
      if last then s.pos == |s.file|
      else if s.offset > MIN_BATCH then |s.file| - s.pos <= q && |s.file| - s.pos <= |s.buffer| - 1
      else if got == 0 then s.offset == 0 && s.pos == |s.file|
      else |s.file| - s.pos <= q && |s.file| - s.pos <= s.Free()
    case SecondFlag => s.offset == 0 && s.pos == |s.file|
    case Returned => Concat(s.chunks) == s.file
    case Crashed => true
  }

  /** How many bytes a read is sure to take. */
  function Sure(s: State, q: nat): int {
    var rest := |s.file| - s.pos;
    if rest <= q && rest <= s.Free() then rest else if q <= s.Free() then q else s.Free()
  }

  /** One more step of a run in which nothing is appended any more. */
  ghost predicate Quiet(s: State, s': State, q: nat) {
    Next(s, s') && s'.file == s.file && (s.pc == Reading && s'.pc.FirstFlag? ==> s'.pc.got >= Sure(s, q))
  }

  /** A continuation of a run without further appends. */
  ghost predicate Continues(s: State, run: seq<State>, q: nat) {
    && run != [] && run[0] == s
    && forall i :: 0 <= i < |run| - 1 ==> Quiet(run[i], run[i + 1], q)
  }

  /** The thread's next step, with reads as short as they may be. */
  function Least(s: State, q: nat): State
    requires Inv(s)
  {
    match s.pc
    case WaitCheck => s.(pc := if s.stop then Returned else WaitPoll)
    case WaitPoll => s.(pc := Returned)
    case Reading =>
      var n := Sure(s, q);
      s.(pc := FirstFlag(n), pos := s.pos + n, offset := s.offset + n,
         buffer := s.buffer[..s.offset] + s.file[s.pos..s.pos + n] + s.buffer[s.offset + n..])
    case FirstFlag(got) => s.(pc := Deciding(got, s.offset > 0 && s.stop))
    case Deciding(got, last) =>
      if s.offset > MIN_BATCH || last then
        s.(pc := if last then Returned else Reading, chunks := s.chunks + [s.Held()], offset := 0)
      else if got == 0 then s.(pc := SecondFlag)
      else s.(pc := Reading)
    case SecondFlag => s.(pc := if s.stop then Returned else Reading)
    case _ => s
  }

  lemma LeastIsQuiet(s: State, q: nat)
    requires Inv(s) && s.pc != Returned && s.pc != Crashed
    ensures Quiet(s, Least(s, q), q)
  {
    var t := Least(s, q);
    if s.pc == Reading { ByRead(s, t, t.pc.got); }
  }

  /** Every step keeps a saved file saved. */
  lemma SavedStays(s: State, s': State, q: nat)
    requires Inv(s) && s.stop && Saved(s, q) && Quiet(s, s', q)
    ensures Saved(s', q) && s'.stop
  {
    hide Concat;
    AllDelivered(s);
    if s.pc.Deciding? && s.offset <= |s.buffer| && Decide(s, s') && s'.chunks != s.chunks {
      ConcatSnoc(s.chunks, s.Held());
    }
    if s'.file == s.file && s' == s.(stop := true) { assert s' == s; }
    if s.file <= s'.file && s' == s.(file := s'.file) { assert s' == s; }
  }

  lemma AllDelivered(s: State)
    requires Inv(s)
    ensures s.pos == |s.file| ==> Concat(s.chunks) + s.Held() == s.file
    ensures s.pos == |s.file| && s.offset == 0 ==> Concat(s.chunks) == s.file
    ensures s.pos < |s.file| || s.offset > 0 ==> Concat(s.chunks) != s.file
    ensures s.pos < |s.file| ==> Concat(s.chunks) + s.Held() != s.file
  {
    hide Concat;
    assert s.file[..|s.file|] == s.file;
    assert |Concat(s.chunks)| + s.offset == s.pos;
    assert s.offset == 0 ==> s.Held() == [] && Concat(s.chunks) + [] == Concat(s.chunks);
  }

  /** With the shortest reads a file that is not saved stays so. */
  lemma LostStays(s: State, q: nat)
    requires Inv(s) && s.stop && !Saved(s, q) && s.pc != Returned
    ensures var t := Least(s, q);
            Inv(t) && t.stop && !Saved(t, q) && t.file == s.file && (t.pc == Returned || Rank(t) < Rank(s))
  {
    hide Concat, Next;
    AllDelivered(s);
    LeastIsQuiet(s, q);
    var t := Least(s, q);
    NextInv(s, t);
    AllDelivered(t);
    if t.chunks != s.chunks { ConcatSnoc(s.chunks, s.Held()); }
  }

  /** How many steps it is to a return once a stop is requested. */
  function Rank(s: State): nat {
    match s.pc
    case Reading => 4
    case FirstFlag(_) => 3
    case Deciding(got, last) => if last then 1 else if s.offset <= MIN_BATCH && got == 0 then 2 else 5
    case Returned => 0
    case _ => 1
  }

  lemma {:induction false} LosingRun(s: State, q: nat) returns (run: seq<State>)
    requires Inv(s) && s.stop && !Saved(s, q)
    ensures Continues(s, run, q)
    ensures var t := run[|run| - 1]; t.pc == Returned && Concat(t.chunks) != t.file && t.file == s.file
    decreases Rank(s)
  {
    hide Next, Inv, Concat;
    if s.pc == Returned {
      run := [s];
    } else {
      LostStays(s, q);
      LeastIsQuiet(s, q);
      var t := Least(s, q);
      var rest;
      if t.pc == Returned { rest := [t]; } else { rest := LosingRun(t, q); }
      run := [s] + rest;
      forall i | 0 <= i < |run| - 1
        ensures Quiet(run[i], run[i + 1], q)
      {
        if i > 0 { assert Quiet(rest[i - 1], rest[i - 1 + 1], q); }
      }
    }
  }

  lemma {:induction false} SavedThroughout(s: State, run: seq<State>, q: nat, k: nat)
    requires Inv(s) && s.stop && Saved(s, q) && Continues(s, run, q) && k < |run|
    ensures Inv(run[k]) && run[k].stop && Saved(run[k], q) && run[k].file == s.file
    decreases k
  {
    hide Next, Inv, Saved, Concat;
    if k > 0 {
      SavedThroughout(s, run, q, k - 1);
      assert Quiet(run[k - 1], run[k - 1 + 1], q);
      NextInv(run[k - 1], run[k]);
      SavedStays(run[k - 1], run[k], q);
    }
  }

  /** Every continuation without further appends that returns has delivered the whole file. */
  ghost predicate NeverLoses(s: State, q: nat) {
    forall run: seq<State> :: Continues(s, run, q) && run[|run| - 1].pc == Returned ==>
      Concat(run[|run| - 1].chunks) == s.file
  }

  /** When a stop loses nothing. In any state of any run in which the file is
      finished and a stop has been requested: whatever happens from there, a
      return has delivered the whole file, if and only if the state is a saved one. */
  lemma StopLosesNothingExactly(run: seq<State>, k: nat, q: nat)
    requires Run(run) && k < |run| && run[k].stop
    ensures NeverLoses(run[k], q) <==> Saved(run[k], q)
  {
    hide Next, Inv, Saved, Concat;
    RunInv(run, k);
    var s := run[k];
    if Saved(s, q) {
      forall c: seq<State> | Continues(s, c, q) && c[|c| - 1].pc == Returned
        ensures Concat(c[|c| - 1].chunks) == s.file
      {
        SavedThroughout(s, c, q, |c| - 1);
        SavedReturn(c[|c| - 1], q);
      }
    } else {
      var c := LosingRun(s, q);
    }
  }

  lemma SavedReturn(s: State, q: nat)
    requires s.pc == Returned && Saved(s, q)
    ensures Concat(s.chunks) == s.file
  {
  }

  /** Read to the end is what it takes if reads may come back empty, unless the
      thread holds bytes and is past the look at the flag that would deliver them. */
  lemma SavedAtWorst(s: State)
    requires Inv(s) && (s.pc == Reading || s.pc.FirstFlag? || s.pc.Deciding? || s.pc == SecondFlag)
    ensures Saved(s, 0) <==>
            && s.pos == |s.file|
            && !(s.pc == SecondFlag && s.offset > 0)
            && !(s.pc.Deciding? && !s.pc.lastWrite && s.pc.got == 0 && 0 < s.offset <= MIN_BATCH)
  {
    hide Concat;
  }

  /** With a buffer of at least 102 bytes every read has room for a byte. */
  lemma RoomToRead(run: seq<State>, k: nat)
    requires Run(run) && k < |run| && run[k].pc == Reading
    ensures run[k].Free() >= |run[0].buffer| - 1 - MIN_BATCH
    ensures |run[0].buffer| >= 102 ==> run[k].Free() >= 1
  {
    hide Next, Concat;
    RunInv(run, k);
  }

  /** The thread at the start of a run on a file that is written already. */
  function Started(file: seq<byte>, buffer: seq<byte>): State {
    State(WaitCheck, file, false, 0, buffer, 0, [])
  }

  lemma Extend(run: seq<State>, s: State)
    requires Run(run) && Next(run[|run| - 1], s)
    ensures Run(run + [s])
  {
    var more := run + [s];
    forall i | 0 <= i < |more| - 1
      ensures Next(more[i], more[i + 1])
    {
      if i < |run| - 1 { assert Next(run[i], run[i + 1]); }
    }
  }

  lemma Extend3(run: seq<State>, a: State, b: State, c: State) returns (more: seq<State>)
    requires Run(run) && Next(run[|run| - 1], a) && Next(a, b) && Next(b, c)
    ensures Run(more) && more[0] == run[0] && more[|more| - 1] == c
  {
    hide Next;
    Extend(run, a);
    Extend(run + [a], b);
    Extend(run + [a] + [b], c);
    more := run + [a] + [b] + [c];
  }

  /** The run up to the first read. */
  lemma ToReading(file: seq<byte>, buffer: seq<byte>) returns (run: seq<State>)
    requires file != [] && buffer != []
    ensures Run(run) && run[0] == Started(file, buffer)
    ensures run[|run| - 1] == Started(file, buffer).(pc := Reading)
  {
    hide Next;
    var s0 := Started(file, buffer);
    var s1 := s0.(pc := WaitPoll);
    var s2 := s0.(pc := Reading);
    ByWait(s0, s1);
    ByWait(s1, s2);
    Extend([s0], s1);
    Extend([s0] + [s1], s2);
    run := [s0] + [s1] + [s2];
  }

  /** The run up to and including the first read, which takes `n` bytes. */
  lemma FirstRead(file: seq<byte>, buffer: seq<byte>, n: nat) returns (run: seq<State>)
    requires file != [] && n < |buffer| && n <= |file|
    ensures Run(run) && run[0] == Started(file, buffer)
    ensures run[|run| - 1]
            == Started(file, buffer).(pc := FirstFlag(n), pos := n, offset := n, buffer := file[..n] + buffer[n..])
  {
    hide Next;
    run := ToReading(file, buffer);
    var s := run[|run| - 1];
    var t := s.(pc := FirstFlag(n), pos := n, offset := n, buffer := file[..n] + buffer[n..]);
    assert t.buffer == buffer[..0] + file[0..n] + buffer[n..];
    ByRead(s, t, n);
    Extend(run, t);
    run := run + [t];
  }

  lemma ByWait(s: State, s': State)
    requires Wait(s, s')
    ensures Next(s, s')
  {
  }

  lemma ByRead(s: State, s': State, n: nat)
    requires ReadBytes(s, s', n)
    ensures Next(s, s')
  {
  }

  /** Flag checked, nothing delivered, back to reading. */
  lemma GoRound(run: seq<State>) returns (more: seq<State>)
    requires Run(run)
    requires var s := run[|run| - 1];
             s.pc.FirstFlag? && s.pc.got > 0 && !s.stop && s.offset <= MIN_BATCH && s.offset < |s.buffer|
    ensures Run(more) && more[0] == run[0] && more[|more| - 1] == run[|run| - 1].(pc := Reading)
  {
    var s := run[|run| - 1];
    var t := s.(pc := Deciding(s.pc.got, false));
    var u := s.(pc := Reading);
    assert CheckFlag(s, t) && Decide(t, u);
    hide Next;
    Extend(run, t);
    Extend(run + [t], u);
    more := run + [t] + [u];
  }

  /** A smaller buffer fills up below the minimum batch, and a read then has no room. */
  lemma SmallBufferFillsUp(file: seq<byte>, buffer: seq<byte>) returns (run: seq<State>)
    requires 1 <= |buffer| <= 101 && |file| >= |buffer|
    ensures Run(run) && |run[0].buffer| == |buffer|
    ensures var s := run[|run| - 1]; s.pc == Reading && s.Free() == 0 && s.pos < |s.file| && s.chunks == []
  {
    hide Next;
    if |buffer| == 1 {
      run := ToReading(file, buffer);
    } else {
      run := FirstRead(file, buffer, |buffer| - 1);
      run := GoRound(run);
    }
  }

  /** In every run with a buffer of this size every read has room for a byte. */
  ghost predicate AlwaysRoom(size: nat) {
    forall run: seq<State>, k: nat ::
      Run(run) && |run[0].buffer| == size && k < |run| && run[k].pc == Reading ==> run[k].Free() >= 1
  }

  /** That is so exactly for buffers of 102 bytes or more. */
  lemma RoomNeeds102(size: nat)
    requires size >= 1
    ensures AlwaysRoom(size) <==> size >= 102
  {
    hide Next;
    if size >= 102 {
      forall run: seq<State>, k: nat | Run(run) && |run[0].buffer| == size && k < |run| && run[k].pc == Reading
        ensures run[k].Free() >= 1
      {
        RoomToRead(run, k);
      }
    } else {
      var bytes := seq(size, _ => 0 as byte);
      var run := SmallBufferFillsUp(bytes, bytes);
      assert run[|run| - 1].Free() == 0;
    }
  }

  /** The bound of 100 is reached: between the two looks at the flag a request to
      stop makes the thread return with what it holds, although the whole file
      was written before and has been read. */
  lemma StopLosesHeldBytes(file: seq<byte>, buffer: seq<byte>) returns (run: seq<State>)
    requires 0 < |file| <= MIN_BATCH && |file| < |buffer|
    ensures Run(run) && run[0] == Started(file, buffer)
    ensures var s := run[|run| - 1]; s.pc == Returned && s.file == file && s.pos == |file| && s.chunks == []
  {
    run := FirstRead(file, buffer, |file|);
    run := GoRound(run);
    var s := run[|run| - 1];
    var empty, undecided, again := s.(pc := FirstFlag(0)), s.(pc := Deciding(0, false)), s.(pc := SecondFlag);
    var stopped, returned := again.(stop := true), again.(stop := true, pc := Returned);
    assert s.buffer == s.buffer[..s.offset] + s.file[s.pos..s.pos] + s.buffer[s.offset..];
    ByRead(s, empty, 0);
    assert CheckFlag(empty, undecided) && Decide(undecided, again) && RequestStop(again, stopped);
    assert CheckFlagAgain(stopped, returned);
    hide Next;
    run := Extend3(run, empty, undecided, again);
    Extend(run, stopped);
    Extend(run + [stopped], returned);
    run := run + [stopped] + [returned];
  }

  /** A last write ends the thread even when the file goes on: after one full
      buffer nothing more of a file that was complete all along is read. */
  lemma StopLeavesFileUnread(file: seq<byte>, buffer: seq<byte>) returns (run: seq<State>)
    requires |buffer| >= 2 && |file| >= |buffer|
    ensures Run(run) && run[0] == Started(file, buffer)
    ensures var s := run[|run| - 1];
            s.pc == Returned && s.file == file && s.chunks == [file[..|buffer| - 1]] && s.pos == |buffer| - 1 < |file|
  {
    var n := |buffer| - 1;
    run := FirstRead(file, buffer, n);
    var s := run[|run| - 1];
    var stopped := s.(stop := true);
    var deciding := stopped.(pc := Deciding(n, true));
    var last := deciding.(pc := Returned, chunks := [file[..n]], offset := 0);
    assert deciding.Held() == file[..n] && deciding.chunks + [file[..n]] == [file[..n]];
    assert RequestStop(s, stopped) && CheckFlag(stopped, deciding) && Decide(deciding, last);
    hide Next;
    run := Extend3(run, stopped, deciding, last);
  }
}
