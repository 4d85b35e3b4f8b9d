/** The thread itself. Time passes with each look at the outside world; what the
    file holds, whether a stop is requested and what calls return are functions
    of time, so every interleaving is some `World`. */
module MonitorThread {
  import opened Blake3Spec
  import opened CasHash
  import opened Monitor

  /** `got` is what `read` would return given room: -1 for an error. */
  datatype World = World(file: nat -> seq<byte>, stop: nat -> bool, statFails: nat -> bool, got: nat -> int)
  {
    ghost predicate Valid() {
      && !stop(0)
      && (forall t: nat :: file(t) <= file(t + 1))
      && (forall t: nat :: stop(t) ==> stop(t + 1))
      && (forall t: nat :: got(t) >= -1)
    }
  }

  lemma {:induction false} StopStays(w: World, t: nat, u: nat)
    requires w.Valid() && t <= u && w.stop(t)
    ensures w.stop(u)
    decreases u
  {
    if t < u {
      StopStays(w, t, u - 1);
      assert w.stop(u - 1) ==> w.stop(u - 1 + 1);
    }
  }

  /** A state of the thread and the time it is in it. */
  datatype Moment = Moment(time: nat, state: State)
  {
    predicate Over() { state.pc == Returned || state.pc == Crashed }
  }

  /** The state knows the world as it is at its time. */
  ghost predicate Current(w: World, m: Moment) {
    m.state.file == w.file(m.time) && m.state.stop == w.stop(m.time) && Inv(m.state)
  }

  /** One look at the world later: the writer may have appended, a stop may have been requested. */
  function Later(w: World, m: Moment): Moment {
    Moment(m.time + 1, m.state.(file := w.file(m.time + 1), stop := w.stop(m.time + 1)))
  }

  lemma LaterIsSteps(w: World, m: Moment)
    requires w.Valid() && Current(w, m)
    ensures var appended := m.state.(file := w.file(m.time + 1));
            && Next(m.state, appended)
            && (Later(w, m).state == appended || Next(appended, Later(w, m).state))
    ensures Current(w, Later(w, m)) && |Later(w, m).state.buffer| == |m.state.buffer|
  {
    var appended, later := m.state.(file := w.file(m.time + 1)), Later(w, m).state;
    assert Append(m.state, appended);
    assert RequestStop(appended, later) || later == appended;
    hide Inv;
    NextInv(m.state, appended);
    if later != appended { NextInv(appended, later); }
  }

  /** What `read` returns when there is this much room and the file goes on this far. */
  function ReadCount(got: int, room: int, available: int): int {
    if got <= room && got <= available then got else if room <= available then room else available
  }

  /** What the thread does next, in the world as it is. */
  ghost function Move(w: World, m: Moment): State
    requires w.Valid() && Current(w, m)
  {
    var s := m.state;
    match s.pc
    case WaitCheck => s.(pc := if s.stop then Returned else WaitPoll)
    case WaitPoll => s.(pc := if w.statFails(m.time) then Returned else if s.file != [] then Reading else WaitCheck)
    case Reading =>
      if w.got(m.time) == -1 then s.(pc := Crashed)
      else
        var n := ReadCount(w.got(m.time), s.Free(), |s.file| - s.pos);
        s.(pc := FirstFlag(n), pos := s.pos + n, offset := s.offset + n,
           buffer := s.buffer[..s.offset] + s.file[s.pos..s.pos + n] + s.buffer[s.offset + n..])
    case FirstFlag(got) => s.(pc := Deciding(got, s.offset > 0 && s.stop))
    case Deciding(got, last) =>
      if s.offset > MIN_BATCH || last then
        s.(pc := if last then Returned else Reading, chunks := s.chunks + [s.Held()], offset := 0)
      else s.(pc := if got == 0 then SecondFlag else Reading)
    case SecondFlag => s.(pc := if s.stop then Returned else Reading)
    case _ => s
  }

  lemma MoveIsStep(w: World, m: Moment)
    requires w.Valid() && Current(w, m) && !m.Over()
    ensures Next(m.state, Move(w, m)) && Inv(Move(w, m)) && |Move(w, m).buffer| == |m.state.buffer|
    ensures Move(w, m).file == m.state.file && Move(w, m).stop == m.state.stop
  {
    hide Concat, ChunksFine;
    var s, t := m.state, Move(w, m);
    match s.pc {
      case WaitCheck => ByWait(s, t);
      case WaitPoll => ByWait(s, t);
      case Reading => if t.pc.FirstFlag? { ByRead(s, t, t.pc.got); } else { assert ReadFails(s, t); }
      case FirstFlag(_) => assert CheckFlag(s, t);
      case Deciding(_, _) => assert Decide(s, t);
      case SecondFlag => assert CheckFlagAgain(s, t);
      case _ =>
    }
    hide Inv, Next, Move;
    NextInv(s, t);
  }

  /** One step of the thread. Every look at the outside takes a unit of time; what
      it decides from two of them it does at once. */
  ghost function Act(w: World, m: Moment): Moment
    requires w.Valid() && Current(w, m)
  {
    LaterIsSteps(w, m);
    if m.state.pc.Deciding? then Moment(m.time, Move(w, m))
    else Moment(m.time + 1, Move(w, Later(w, m)))
  }

  ghost predicate Acts(w: World, m: Moment, next: Moment) {
    w.Valid() && Current(w, m) && !m.Over() && next == Act(w, m)
  }

  /** The thread's whole history in this world so far. */
  ghost predicate Follows(w: World, trace: seq<Moment>) {
    && trace != []
    && trace[0].time == 0 && Init(trace[0].state) && Current(w, trace[0])
    && forall i :: 0 <= i < |trace| - 1 ==> Acts(w, trace[i], trace[i + 1])
  }

  lemma ActCurrent(w: World, m: Moment)
    requires w.Valid() && Current(w, m) && !m.Over()
    ensures Current(w, Act(w, m)) && |Act(w, m).state.buffer| == |m.state.buffer|
  {
    hide Inv;
    LaterIsSteps(w, m);
    MoveIsStep(w, if m.state.pc.Deciding? then m else Later(w, m));
  }

  lemma {:induction false} FollowsCurrent(w: World, trace: seq<Moment>, k: nat)
    requires w.Valid() && Follows(w, trace) && k < |trace|
    ensures Current(w, trace[k]) && |trace[k].state.buffer| == |trace[0].state.buffer|
    decreases k
  {
    hide Current, Act;
    if k > 0 {
      FollowsCurrent(w, trace, k - 1);
      assert Acts(w, trace[k - 1], trace[k - 1 + 1]);
      ActCurrent(w, trace[k - 1]);
    }
  }

  lemma Goes(w: World, trace: seq<Moment>) returns (more: seq<Moment>)
    requires w.Valid() && Follows(w, trace) && !trace[|trace| - 1].Over()
    ensures Follows(w, more) && more[0] == trace[0]
    ensures Current(w, trace[|trace| - 1]) && more == trace + [Act(w, trace[|trace| - 1])]
    ensures Current(w, more[|more| - 1])
  {
    var n := |trace|;
    FollowsCurrent(w, trace, n - 1);
    ActCurrent(w, trace[n - 1]);
    hide Current, Act;
    more := trace + [Act(w, trace[n - 1])];
    forall i | 0 <= i < |more| - 1
      ensures Acts(w, more[i], more[i + 1])
    {
      if i < n - 1 { assert Acts(w, trace[i], trace[i + 1]); }
    }
  }

  lemma FollowedBefore(w: World, trace: seq<Moment>, k: nat)
    requires Follows(w, trace) && 0 < k <= |trace|
    ensures Follows(w, trace[..k])
  {
    hide Acts, Current;
    forall i | 0 <= i < k - 1
      ensures Acts(w, trace[..k][i], trace[..k][i + 1])
    {
      assert Acts(w, trace[i], trace[i + 1]);
    }
  }

  lemma ActIsSteps(w: World, m: Moment, run: seq<State>) returns (more: seq<State>)
    requires w.Valid() && Current(w, m) && !m.Over() && Run(run) && run[|run| - 1] == m.state
    ensures Run(more) && run <= more && more[|more| - 1] == Act(w, m).state
  {
    LaterIsSteps(w, m);
    MoveIsStep(w, if m.state.pc.Deciding? then m else Later(w, m));
    var next := Act(w, m).state;
    hide Next, Inv, Move, Current;
    more := run;
    if !m.state.pc.Deciding? {
      var appended, later := m.state.(file := w.file(m.time + 1)), Later(w, m).state;
      Extend(more, appended);
      more := more + [appended];
      if later != appended {
        Extend(more, later);
        more := more + [later];
      }
    }
    Extend(more, next);
    more := more + [next];
  }

  /** The history is a run of the state machine. */
  lemma {:induction false} HistoryIsRun(w: World, trace: seq<Moment>) returns (run: seq<State>)
    requires w.Valid() && Follows(w, trace)
    ensures Run(run) && run[0] == trace[0].state && run[|run| - 1] == trace[|trace| - 1].state
    ensures forall i :: 0 <= i < |trace| ==> trace[i].state in run
    decreases |trace|
  {
    hide Act, Next, Current;
    var n := |trace| - 1;
    if n == 0 {
      run := [trace[0].state];
    } else {
      FollowedBefore(w, trace, n);
      run := HistoryIsRun(w, trace[..n]);
      assert Acts(w, trace[n - 1], trace[n - 1 + 1]);
      var before := run;
      run := ActIsSteps(w, trace[n - 1], run);
      forall i | 0 <= i <= n
        ensures trace[i].state in run
      {
        if i < n { assert trace[..n][i].state in before; } else { assert run[|run| - 1] in run; }
      }
    }
  }

  /** The thread's history has come to this state at this time. */
  ghost predicate At(w: World, trace: seq<Moment>, t: nat, pc: Pc, pos: nat, buffer: seq<byte>, offset: nat,
                     chunks: seq<seq<byte>>) {
    && trace != [] && Follows(w, trace)
    && trace[|trace| - 1] == Moment(t, State(pc, w.file(t), w.stop(t), pos, buffer, offset, chunks))
  }

  /** Waits until the file has data. */
  method WaitForInitialFileWrite(w: World, buffer: array<byte>, ghost deadline: nat)
    returns (hasData: bool, clock: nat, ghost trace: seq<Moment>)
    requires w.Valid() && w.stop(deadline) && buffer.Length > 0
    ensures At(w, trace, clock, if hasData then Reading else Returned, 0, buffer[..], 0, [])
    ensures trace[0].state == State(WaitCheck, w.file(0), false, 0, buffer[..], 0, [])
    ensures if hasData then w.file(clock) != [] else w.stop(clock) || w.statFails(clock)
    ensures clock <= if hasData then deadline else deadline + 1
  {
    clock := 0;
    trace := [Moment(0, State(WaitCheck, w.file(0), false, 0, buffer[..], 0, []))];
    InitInv(trace[0].state);
    hide World.Valid, Inv, Follows;
    while true
      invariant At(w, trace, clock, WaitCheck, 0, buffer[..], 0, [])
      invariant trace[0].state == State(WaitCheck, w.file(0), false, 0, buffer[..], 0, [])
      invariant clock <= deadline
      decreases deadline - clock
    {
      trace := Goes(w, trace);
      clock := clock + 1;
      if w.stop(clock) {
        return false, clock, trace;
      }
      if deadline <= clock { StopStays(w, deadline, clock); }
      trace := Goes(w, trace);
      clock := clock + 1;
      if w.statFails(clock) {
        return false, clock, trace;
      }
      if |w.file(clock)| > 0 {
        return true, clock, trace;
      }
    }
  }

  /** `read` into the buffer after what it holds. */
  method ReadIntoBuffer(w: World, clock: nat, pos: nat, buffer: array<byte>, offset: nat) returns (n: int)
    requires w.Valid() && offset < buffer.Length && pos <= |w.file(clock)|
    modifies buffer
    ensures n == ReadCount(w.got(clock), buffer.Length - offset - 1, |w.file(clock)| - pos) >= -1
    ensures n == -1 ==> buffer[..] == old(buffer[..])
    ensures n >= 0 ==>
              && n <= buffer.Length - offset - 1 && pos + n <= |w.file(clock)|
              && buffer[..] == old(buffer[..offset]) + w.file(clock)[pos..pos + n] + old(buffer[offset + n..])
  {
    n := ReadCount(w.got(clock), buffer.Length - offset - 1, |w.file(clock)| - pos);
    if n > 0 {
      forall i | 0 <= i < n {
        buffer[offset + i] := w.file(clock)[pos + i];
      }
    }
  }

  lemma Bounds(w: World, m: Moment)
    requires w.Valid() && Current(w, m)
    ensures m.state.offset < |m.state.buffer| && m.state.pos <= |m.state.file|
    ensures Later(w, m).state.offset < |m.state.buffer| && m.state.pos <= |w.file(m.time + 1)|
  {
    LaterIsSteps(w, m);
  }

  /** One read, at the next moment. */
  method ReadMore(w: World, clock: nat, pos: nat, buffer: array<byte>, offset: nat, ghost chunks: seq<seq<byte>>,
                  ghost trace: seq<Moment>)
    returns (n: int, now: nat, ghost more: seq<Moment>)
    requires w.Valid() && At(w, trace, clock, Reading, pos, buffer[..], offset, chunks)
    modifies buffer
    ensures now == clock + 1 && trace <= more && n >= -1
    ensures n == -1 ==> w.got(now) == -1 && At(w, more, now, Crashed, pos, buffer[..], offset, chunks)
    ensures n >= 0 ==>
              offset + n < buffer.Length && At(w, more, now, FirstFlag(n), pos + n, buffer[..], offset + n, chunks)
  {
    hide World.Valid, Inv, Follows;
    more := Goes(w, trace);
    now := clock + 1;
    Bounds(w, trace[|trace| - 1]);
    NoRead(w, now, pos, buffer.Length - offset - 1);
    n := ReadIntoBuffer(w, now, pos, buffer, offset);
  }

  lemma NoRead(w: World, t: nat, pos: nat, room: nat)
    requires w.Valid() && pos <= |w.file(t)|
    ensures ReadCount(w.got(t), room, |w.file(t)| - pos) == -1 <==> w.got(t) == -1
  {
  }

  /** A read in this history that is an error ends it. */
  ghost predicate ReadsFine(w: World, trace: seq<Moment>) {
    forall i :: 0 <= i < |trace| - 1 && trace[i].state.pc == Reading ==> w.got(trace[i].time + 1) >= 0
  }

  /** Whatever comes back from an error is the end of the history, and nothing else crashes. */
  lemma CrashIsReadError(w: World, trace: seq<Moment>)
    requires w.Valid() && Follows(w, trace)
    ensures trace[|trace| - 1].state.pc == Crashed <==> !ReadsFine(w, trace)
    ensures var last := trace[|trace| - 1]; last.state.pc == Crashed ==> w.got(last.time) == -1
  {
    hide Current, Act;
    var n := |trace| - 1;
    forall i | 0 <= i < n
      ensures trace[i].state.pc == Reading && w.got(trace[i].time + 1) < 0 <==> trace[i + 1].state.pc == Crashed
      ensures trace[i + 1].state.pc == Crashed ==> trace[i + 1].time == trace[i].time + 1 && i + 1 == n
    {
      assert Acts(w, trace[i], trace[i + 1]);
      CrashStep(w, trace[i]);
      if i + 1 < n { assert Acts(w, trace[i + 1], trace[i + 1 + 1]); }
    }
    if !ReadsFine(w, trace) {
      var i :| 0 <= i < n && trace[i].state.pc == Reading && w.got(trace[i].time + 1) < 0;
      assert trace[i + 1].state.pc == Crashed;
    }
    if trace[n].state.pc == Crashed {
      assert n > 0 && trace[n - 1 + 1].state.pc == Crashed;
      assert trace[n - 1].state.pc == Reading && w.got(trace[n - 1].time + 1) < 0;
    }
  }

  lemma CrashStep(w: World, m: Moment)
    requires w.Valid() && Current(w, m) && !m.Over()
    ensures var next := Act(w, m);
            next.state.pc == Crashed <==> m.state.pc == Reading && w.got(m.time + 1) < 0
    ensures m.state.pc == Reading ==> Act(w, m).time == m.time + 1
  {
    hide Inv;
  }

  /** A read takes the least of what it would return, the room there is and the rest of the file. */
  lemma ReadTakes(w: World, m: Moment)
    requires w.Valid() && Current(w, m) && m.state.pc == Reading && w.got(m.time + 1) >= 0
    ensures var got, room, rest := w.got(m.time + 1), m.state.Free(), |w.file(m.time + 1)| - m.state.pos;
            var next := Act(w, m).state;
            && next.pc.FirstFlag? && next.pos == m.state.pos + next.pc.got
            && next.pc.got <= got && next.pc.got <= room && next.pc.got <= rest
            && (next.pc.got == got || next.pc.got == room || next.pc.got == rest)
  {
    hide Inv;
  }

  /** The request to stop comes with the look at the world after moment `j`. */
  ghost predicate StopsAfter(trace: seq<Moment>, j: nat) {
    j + 1 < |trace| && !trace[j].state.stop && trace[j + 1].state.stop
  }

  /** From then on the file does not change and reads would return `q` bytes or more. */
  ghost predicate Quieted(w: World, t: nat, q: nat) {
    && (forall u: nat :: u >= t ==> w.file(u) == w.file(t))
    && (forall u: nat :: u >= t ==> w.got(u) >= q)
  }

  /** One step of the thread after the stop. */
  lemma SavedStep(w: World, m: Moment, t: nat, q: nat)
    requires w.Valid() && Current(w, m) && !m.Over() && m.state.stop && m.time >= t && Quieted(w, t, q)
    requires Saved(m.state, q)
    ensures var next := Act(w, m);
            next.time >= t && next.state.stop && Saved(next.state, q) && next.state.pc != Crashed
  {
    LaterIsSteps(w, m);
    StopStays(w, m.time, m.time + 1);
    var now := if m.state.pc.Deciding? then m else Later(w, m);
    assert now.state == m.state;
    SavedMove(w, now, q);
  }

  lemma SavedMove(w: World, m: Moment, q: nat)
    requires w.Valid() && Current(w, m) && !m.Over() && m.state.stop && w.got(m.time) >= q && Saved(m.state, q)
    ensures Saved(Move(w, m), q) && Move(w, m).stop && Move(w, m).pc != Crashed
  {
    MoveIsStep(w, m);
    hide Next, Concat;
    SavedStays(m.state, Move(w, m), q);
  }

  /** If the state is a saved one when the stop comes, the thread returns normally
      and has delivered the whole file. */
  lemma StopDelivers(w: World, trace: seq<Moment>, j: nat, q: nat)
    requires w.Valid() && Follows(w, trace) && trace[|trace| - 1].Over() && StopsAfter(trace, j)
    requires Quieted(w, trace[j].time + 1, q) && Saved(Later(w, trace[j]).state, q)
    ensures var s := trace[|trace| - 1].state; s.pc == Returned && Concat(s.chunks) == s.file
  {
    hide Next, Act, Saved, Concat;
    var t := trace[j].time + 1;
    assert Acts(w, trace[j], trace[j + 1]);
    StopsAtLook(w, trace[j]);
    LaterIsSteps(w, trace[j]);
    SavedMove(w, Later(w, trace[j]), q);
    StaysSaved(w, trace, j + 1, |trace| - 1, t, q);
    SavedReturn(trace[|trace| - 1].state, q);
  }

  lemma StopsAtLook(w: World, m: Moment)
    requires w.Valid() && Current(w, m) && !m.Over() && !m.state.stop && Act(w, m).state.stop
    ensures !m.state.pc.Deciding? && Later(w, m).state.stop && Current(w, Later(w, m))
    ensures Act(w, m) == Moment(m.time + 1, Move(w, Later(w, m)))
  {
    hide Inv, Next;
    LaterIsSteps(w, m);
    if m.state.pc.Deciding? { MoveIsStep(w, m); }
    MoveIsStep(w, Later(w, m));
  }

  lemma {:induction false} StaysSaved(w: World, trace: seq<Moment>, i: nat, k: nat, t: nat, q: nat)
    requires w.Valid() && Follows(w, trace) && i <= k < |trace| && Quieted(w, t, q)
    requires trace[i].time >= t && trace[i].state.stop && Saved(trace[i].state, q) && trace[i].state.pc != Crashed
    ensures trace[k].time >= t && trace[k].state.stop && Saved(trace[k].state, q) && trace[k].state.pc != Crashed
    decreases k
  {
    hide Current, Act, Saved;
    if i < k {
      StaysSaved(w, trace, i, k - 1, t, q);
      assert Acts(w, trace[k - 1], trace[k - 1 + 1]);
      SavedStep(w, trace[k - 1], t, q);
    }
  }

  /** The stop comes with the look at the world at time `t`. */
  ghost predicate StopsAt(w: World, t: nat) {
    t > 0 && w.stop(t) && !w.stop(t - 1)
  }

  /** The file is finished at time `t` and not empty; reads take a byte when there
      is one, and looking at its size does not fail. */
  ghost predicate Finished(w: World, t: nat) {
    && w.file(t) != []
    && (forall u: nat :: u >= t ==> w.file(u) == w.file(t))
    && (forall u: nat :: w.got(u) >= 1)
    && (forall u: nat :: !w.statFails(u))
  }

  /** Looks at the world until the file of `n` bytes is read, at one byte a read. */
  function Left(s: State, n: nat): int {
    var rest := n - s.pos;
    match s.pc
    case WaitCheck => 2 * n + 2
    case WaitPoll => 2 * n + 1
    case Reading => 2 * rest
    case FirstFlag(got) => 2 * rest + if got == 0 then 2 else 1
    case Deciding(got, _) => 2 * rest + if got == 0 then 1 else 0
    case SecondFlag => 2 * rest + 1
    case _ => 0
  }

  /** Read to the end, or on the way there in time. */
  predicate OnTime(m: Moment, n: nat, t: nat) {
    m.state.pos == n || (m.state.pos < n && m.time + Left(m.state, n) <= t + 2 * n + 2)
  }

  lemma OnTimeStep(w: World, m: Moment, t: nat)
    requires w.Valid() && Current(w, m) && !m.Over() && Finished(w, t) && |m.state.buffer| >= 102
    requires m.time >= t && OnTime(m, |w.file(t)|, t) && !Act(w, m).state.stop
    ensures Act(w, m).time >= t && OnTime(Act(w, m), |w.file(t)|, t)
  {
    hide Concat, ChunksFine;
  }

  lemma EntersOnTime(w: World, m: Moment, t: nat)
    requires w.Valid() && Current(w, m) && !m.Over() && Finished(w, t) && m.time == t
    ensures OnTime(m, |w.file(t)|, t)
  {
    hide Concat, ChunksFine;
  }

  /** The thread ends by itself only if a stop is requested, a read fails or the size cannot be had. */
  lemma OverStep(w: World, m: Moment)
    requires w.Valid() && Current(w, m) && !m.Over()
    requires w.got(m.time + 1) >= 0 && !w.statFails(m.time + 1)
    ensures Act(w, m).Over() ==> Act(w, m).state.stop && Act(w, m).state.pc == Returned
    ensures m.state.stop ==> Act(w, m).state.stop
    ensures m.time <= Act(w, m).time <= m.time + 1
  {
    hide Concat, ChunksFine, Faithful;
    LaterIsSteps(w, m);
  }

  /** While no stop is requested the thread goes on and keeps up with a finished file. */
  lemma {:induction false} KeepsUp(w: World, trace: seq<Moment>, t: nat, k: nat)
    requires w.Valid() && Follows(w, trace) && Finished(w, t) && |trace[0].state.buffer| >= 102
    requires k < |trace| && !trace[k].state.stop
    ensures !trace[k].Over() && Current(w, trace[k])
    ensures trace[k].time >= t ==> OnTime(trace[k], |w.file(t)|, t)
    decreases k
  {
    hide Act, Inv, OnTime, Init;
    FollowsCurrent(w, trace, k);
    if k == 0 {
      StartsWaiting(w, trace);
      if t == 0 { EntersOnTime(w, trace[0], t); }
    } else {
      var m := trace[k - 1];
      assert Acts(w, m, trace[k - 1 + 1]);
      OverStep(w, m);
      KeepsUp(w, trace, t, k - 1);
      FollowsCurrent(w, trace, k - 1);
      if m.time >= t {
        OnTimeStep(w, m, t);
      } else if trace[k].time == t {
        EntersOnTime(w, trace[k], t);
      }
    }
  }

  lemma StartsWaiting(w: World, trace: seq<Moment>)
    requires Follows(w, trace)
    ensures trace[0].time == 0 && trace[0].state.pc == WaitCheck && !trace[0].state.stop
  {
  }

  lemma {:induction false} FindStop(w: World, trace: seq<Moment>, k: nat) returns (j: nat)
    requires Follows(w, trace) && k < |trace| && trace[k].state.stop
    ensures StopsAfter(trace, j) && j < k
    decreases k
  {
    StartsWaiting(w, trace);
    hide Follows;
    j := k - 1;
    if trace[j].state.stop { j := FindStop(w, trace, j); }
  }

  /** What is held is all that can be missing at the end. */
  lemma MissingAtEnd(s: State)
    requires Inv(s) && s.pc == Returned && s.pos == |s.file|
    ensures Concat(s.chunks) <= s.file && |s.file| - |Concat(s.chunks)| <= 100
    ensures Concat(s.chunks) == s.file <==> s.offset == 0
  {
    hide Concat;
    AllDelivered(s);
    assert |Concat(s.chunks) + s.Held()| == |Concat(s.chunks)| + s.offset;
  }

  /** A stop while read bytes are held, before the second look at the flag, ends the thread with them. */
  lemma LostAtSecondLook(w: World, m: Moment)
    requires w.Valid() && Current(w, m) && m.state.pc == SecondFlag && w.stop(m.time + 1)
    ensures var s := Act(w, m).state; s.pc == Returned && s.offset == m.state.offset && s.pos == m.state.pos
  {
    hide Inv;
  }

  /** For every world in which the file is finished and the stop comes late enough
      for a reader that takes one byte a read: the thread returns normally, at most
      100 bytes are missing at the end, and none exactly unless the stop falls
      between the two looks at the flag while bytes are held. */
  lemma LateStopDelivers(w: World, trace: seq<Moment>, t: nat, stop: nat) returns (j: nat)
    requires w.Valid() && Follows(w, trace) && trace[|trace| - 1].Over() && |trace[0].state.buffer| >= 102
    requires Finished(w, t) && StopsAt(w, stop) && stop > t + 2 * |w.file(t)| + 2
    ensures StopsAfter(trace, j) && trace[j].time == stop - 1
    ensures var s := trace[|trace| - 1].state;
            && s.pc == Returned && s.file == w.file(t)
            && Concat(s.chunks) <= s.file && |s.file| - |Concat(s.chunks)| <= 100
            && (Concat(s.chunks) == s.file <==> !(trace[j].state.pc == SecondFlag && trace[j].state.offset > 0))
  {
    hide Act, Saved, Inv, Concat, Left;
    var n := |trace| - 1;
    var last := trace[n];
    FollowsCurrent(w, trace, n);
    if !last.state.stop { KeepsUp(w, trace, t, n); }
    j := FindStop(w, trace, n);
    StopTime(w, trace, j, stop);
    KeepsUp(w, trace, t, j);
    TimesGrow(w, trace, j, n);
    var m := trace[j];
    assert last.state.file == w.file(t);
    assert m.state.pos == |w.file(t)| by { LateOnTime(m, |w.file(t)|, t); }
    assert Acts(w, m, trace[j + 1]);
    if m.state.pc == SecondFlag && m.state.offset > 0 {
      LostAtSecondLook(w, m);
      OverIsLast(w, trace, j + 1);
      MissingAtEnd(last.state);
    } else {
      CaughtUpIsSaved(w, m, t);
      StopDelivers(w, trace, j, 1);
    }
  }

  lemma OverIsLast(w: World, trace: seq<Moment>, i: nat)
    requires Follows(w, trace) && i < |trace| && trace[i].Over()
    ensures i == |trace| - 1
  {
    hide Act, Current;
    assert i < |trace| - 1 ==> Acts(w, trace[i], trace[i + 1]);
  }

  lemma {:induction false} TimesGrow(w: World, trace: seq<Moment>, i: nat, k: nat)
    requires w.Valid() && Follows(w, trace) && i <= k < |trace|
    ensures trace[i].time <= trace[k].time
    decreases k
  {
    hide Current;
    if i < k {
      TimesGrow(w, trace, i, k - 1);
      assert Acts(w, trace[k - 1], trace[k - 1 + 1]);
    }
  }

  lemma LateOnTime(m: Moment, n: nat, t: nat)
    requires OnTime(m, n, t) && m.time >= t + 2 * n + 2 && !m.Over()
    ensures m.state.pos == n
  {
  }

  lemma CaughtUpIsSaved(w: World, m: Moment, t: nat)
    requires w.Valid() && Current(w, m) && !m.Over() && Finished(w, t) && m.time >= t && m.state.pos == |w.file(t)|
    requires !m.state.stop && !(m.state.pc == SecondFlag && m.state.offset > 0) && !m.state.pc.Deciding?
    ensures Saved(Later(w, m).state, 1) && Quieted(w, m.time + 1, 1)
  {
    hide Concat, ChunksFine;
    assert w.file(m.time + 1) == w.file(t);
  }

  lemma StopTime(w: World, trace: seq<Moment>, j: nat, stop: nat)
    requires w.Valid() && Follows(w, trace) && StopsAfter(trace, j) && StopsAt(w, stop)
    ensures trace[j].time == stop - 1 && !trace[j].state.pc.Deciding?
  {
    hide Act, Inv;
    FollowsCurrent(w, trace, j);
    FollowsCurrent(w, trace, j + 1);
    assert Acts(w, trace[j], trace[j + 1]);
    StopsAtLook(w, trace[j]);
    var t := trace[j].time;
    if stop <= t { StopStays(w, stop, t); }
    if t + 1 < stop { StopStays(w, t + 1, stop - 1); }
  }

  /** Nothing new in the file: the stop flag is looked at once more. */
  method CheckAgain(w: World, clock: nat, ghost pos: nat, ghost buffer: seq<byte>, ghost offset: nat,
                    ghost chunks: seq<seq<byte>>, ghost trace: seq<Moment>)
    returns (stopped: bool, now: nat, ghost more: seq<Moment>)
    requires w.Valid() && At(w, trace, clock, SecondFlag, pos, buffer, offset, chunks)
    ensures now == clock + 1 && stopped == w.stop(now) && trace <= more
    ensures At(w, more, now, if stopped then Returned else Reading, pos, buffer, offset, chunks)
  {
    hide World.Valid, Inv, Follows;
    more := Goes(w, trace);
    now := clock + 1;
    stopped := w.stop(now);
  }

  /** The thread's function. Its history is the one this world leads to, which is
      a run of the state machine; once a stop is requested it returns within three
      more looks at the world. It ends by an exception exactly when a read fails,
      and if the state is a saved one when the stop comes, it has delivered the
      whole file. */
  method MonitorFile(w: World, buffer: array<byte>, ghost deadline: nat)
    returns (normal: bool, chunks: seq<seq<byte>>, ghost trace: seq<Moment>, ghost run: seq<State>, ghost end: nat)
    requires w.Valid() && w.stop(deadline) && buffer.Length > 0
    modifies buffer
    ensures trace != []
    ensures var s := trace[|trace| - 1].state;
            At(w, trace, end, if normal then Returned else Crashed, s.pos, buffer[..], s.offset, chunks)
    ensures trace[0].state == State(WaitCheck, w.file(0), false, 0, old(buffer[..]), 0, [])
    ensures run != [] && Run(run) && run[0] == trace[0].state && run[|run| - 1] == trace[|trace| - 1].state
    ensures end <= deadline + 3
    ensures normal <==> ReadsFine(w, trace)
    ensures !normal ==> w.got(end) == -1
    ensures forall j: nat, q: nat :: StopsAfter(trace, j) && Quieted(w, trace[j].time + 1, q)
                                     && Saved(Later(w, trace[j]).state, q) ==>
              normal && Concat(chunks) == w.file(end)
  {
    hide World.Valid, Inv, Follows, Concat, Saved, Quieted, Run;
    normal, chunks, trace, end := FollowFile(w, buffer, deadline);
    run := HistoryIsRun(w, trace);
    CrashIsReadError(w, trace);
    forall j: nat, q: nat | StopsAfter(trace, j) && Quieted(w, trace[j].time + 1, q)
                            && Saved(Later(w, trace[j]).state, q)
      ensures normal && Concat(chunks) == w.file(end)
    {
      StopDelivers(w, trace, j, q);
    }
  }

  /** The loop. */
  method FollowFile(w: World, buffer: array<byte>, ghost deadline: nat)
    returns (normal: bool, chunks: seq<seq<byte>>, ghost trace: seq<Moment>, ghost end: nat)
    requires w.Valid() && w.stop(deadline) && buffer.Length > 0
    modifies buffer
    ensures trace != []
    ensures var s := trace[|trace| - 1].state;
            At(w, trace, end, if normal then Returned else Crashed, s.pos, buffer[..], s.offset, chunks)
    ensures trace[0].state == State(WaitCheck, w.file(0), false, 0, old(buffer[..]), 0, [])
    ensures end <= deadline + 3
  {
    hide World.Valid, Inv, Follows, ReadCount;
    chunks := [];
    var hasData, clock;
    hasData, clock, trace := WaitForInitialFileWrite(w, buffer, deadline);
    end := clock;
    normal := true;
    if !hasData {
      return;
    }
    var offset: nat, pos: nat := 0, 0;
    while true
      invariant At(w, trace, clock, Reading, pos, buffer[..], offset, chunks)
      invariant trace[0].state == State(WaitCheck, w.file(0), false, 0, old(buffer[..]), 0, [])
      invariant clock <= deadline
      decreases deadline - clock
    {
      var n;
      n, clock, trace := ReadMore(w, clock, pos, buffer, offset, chunks, trace);
      if n == -1 {
        return false, chunks, trace, clock;
      }
      pos, offset := pos + n, offset + n;
      var largerThanMin := offset > MIN_BATCH;
      trace := Goes(w, trace);
      clock, end := clock + 1, clock + 1;
      var lastWrite := offset > 0 && w.stop(clock);
      if deadline <= clock { StopStays(w, deadline, clock); }
      trace := Goes(w, trace);
      if largerThanMin || lastWrite {
        chunks := chunks + [buffer[..offset]];
        offset := 0;
        if lastWrite {
          return true, chunks, trace, end;
        }
      } else if n == 0 {
        var stopped;
        stopped, clock, trace := CheckAgain(w, clock, pos, buffer[..], offset, chunks, trace);
        end := clock;
        if stopped {
          return true, chunks, trace, end;
        }
        if deadline <= clock { StopStays(w, deadline, clock); }
      }
    }
  }

  /** Whatever the world does, the callbacks received a prefix of the file, in
      non-empty chunks of more than 100 bytes except for a last one. If the file
      was finished long enough before the stop, at most 100 bytes of it are missing. */
  method Follow(w: World, buffer: array<byte>, ghost deadline: nat)
    returns (normal: bool, chunks: seq<seq<byte>>, ghost end: nat)
    requires w.Valid() && w.stop(deadline) && buffer.Length > 0
    modifies buffer
    ensures Concat(chunks) <= w.file(end)
    ensures forall i :: 0 <= i < |chunks| ==> 0 < |chunks[i]| < buffer.Length
    ensures forall i :: 0 <= i < |chunks| - 1 ==> |chunks[i]| > MIN_BATCH
    ensures forall t: nat, stop: nat ::
              Finished(w, t) && StopsAt(w, stop) && stop > t + 2 * |w.file(t)| + 2 && buffer.Length >= 102 ==>
                normal && Concat(chunks) <= w.file(t) && |w.file(t)| - |Concat(chunks)| <= 100
  {
    hide Next, Concat, World.Valid, Follows, Finished, Saved;
    ghost var trace, run;
    normal, chunks, trace, run, end := MonitorFile(w, buffer, deadline);
    DeliveredIsPrefix(run, |run| - 1);
    RunInv(run, |run| - 1);
    forall t: nat, stop: nat | Finished(w, t) && StopsAt(w, stop) && stop > t + 2 * |w.file(t)| + 2
                               && buffer.Length >= 102
      ensures normal && Concat(chunks) <= w.file(t) && |w.file(t)| - |Concat(chunks)| <= 100
    {
      var j := LateStopDelivers(w, trace, t, stop);
    }
  }
}
