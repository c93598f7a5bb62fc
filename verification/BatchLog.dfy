/** The batching log sink as a transition system: emitters, one flusher thread and `close` share
    a buffer under a condition variable. A label is one lock-protected step, one write, or the
    expiry of the timed wait; a run is any sequence of enabled labels. */
module BatchLog {
  import opened Options

  /** Where the flusher thread is. */
  datatype Flusher =
    | AtTop                                        // about to take the lock
    | ParkedIdle                                   // in the wait without timeout
    | WokenIdle                                    // notified there, about to retake the lock
    | ParkedTimed                                  // in the wait with the flush interval
    | WokenTimed                                   // notified or timed out there
    | Writing(batch: seq<string>, closing: bool)   // outside the lock with a drained batch
    | Exited

  /** The handler's fields and the stream, then the history: the records appended in lock order,
      those written, how many had been appended when `_closed` was set, and for every buffered
      record the number of timed waits it has been through. */
  datatype Sink = Sink(
    buf: seq<string>, closed: bool, flusher: Flusher, stream: string,
    appended: seq<string>, written: seq<string>, closedAt: Option<nat>, waits: seq<nat>)

  datatype Label = Emit(msg: string) | Close | Timeout | Flush

  const Init := Sink([], false, AtTop, "", [], [], None, [])

  /** `notify()`: wakes the flusher if it is waiting, and is lost otherwise. */
  function Notify(f: Flusher): (g: Flusher) {
    match f
    case ParkedIdle => WokenIdle
    case ParkedTimed => WokenTimed
    case _ => f
  }

  predicate Enabled(s: Sink, l: Label) {
    match l
    case Emit(_) => true
    case Close => true
    case Timeout => s.flusher.ParkedTimed?
    case Flush => s.flusher.AtTop? || s.flusher.WokenIdle? || s.flusher.WokenTimed? || s.flusher.Writing?
  }

  function Join(lines: seq<string>): (text: string) {
    if lines == [] then "" else if |lines| == 1 then lines[0] else lines[0] + "\n" + Join(lines[1..])
  }

  /** What one call of `_write_batch` writes: a single join over the batch and an empty string. */
  function BatchText(batch: seq<string>): (text: string) {
    Join(batch + [""])
  }

  /** Every record followed by a newline. */
  function Lines(records: seq<string>): (text: string) {
    if records == [] then "" else Lines(records[..|records| - 1]) + records[|records| - 1] + "\n"
  }

  /** Drain the buffer under the lock. */
  function Drain(s: Sink): (t: Sink) {
    s.(buf := [], waits := [], flusher := Writing(s.buf, s.closed))
  }

  /** The flusher with the lock in hand at the head of its loop. */
  function TakeLock(s: Sink, size: nat): (t: Sink) {
    if s.buf == [] then s.(flusher := if s.closed then Exited else ParkedIdle)
    else if |s.buf| < size && !s.closed then
      s.(flusher := ParkedTimed, waits := seq(|s.waits|, i requires 0 <= i < |s.waits| => s.waits[i] + 1))
    else Drain(s)
  }

  function Apply(s: Sink, l: Label, size: nat): (t: Sink)
    requires Enabled(s, l)
  {
    match l
    case Emit(msg) =>
      var more := s.buf + [msg];
      s.(buf := more, appended := s.appended + [msg],
         waits := s.waits + [if s.flusher.ParkedTimed? then 1 else 0],
         flusher := if s.buf == [] || |more| >= size then Notify(s.flusher) else s.flusher)
    case Close =>
      if s.closed then s
      else s.(closed := true, flusher := Notify(s.flusher), closedAt := Some(|s.appended|))
    case Timeout => s.(flusher := WokenTimed)
    case Flush =>
      match s.flusher
      case WokenTimed => Drain(s)
      case Writing(batch, closing) =>
        s.(stream := s.stream + (if batch == [] then "" else BatchText(batch)), written := s.written + batch,
           flusher := if closing then Exited else AtTop)
      case _ => TakeLock(s, size)
  }

  /** The state after a run, if every label of it was enabled. */
  function Exec(s: Sink, run: seq<Label>, size: nat): (t: Option<Sink>) {
    if run == [] then Some(s)
    else
      var n := |run| - 1;
      var before := Exec(s, run[..n], size);
      if before.None? || !Enabled(before.value, run[n]) then None else Some(Apply(before.value, run[n], size))
  }

  // ---- Safety over every run --------------------------------------------------------------

  function InFlight(s: Sink): (batch: seq<string>) {
    if s.flusher.Writing? then s.flusher.batch else []
  }

  /** Nothing lost, nothing reordered, and the stream is one line per record. */
  ghost predicate Conserved(s: Sink) {
    s.appended == s.written + InFlight(s) + s.buf && s.stream == Lines(s.written)
  }

  /** No lost wake-up: a parked flusher has nothing to do, and a woken one has. */
  ghost predicate NoLostWakeUp(s: Sink, size: nat) {
    match s.flusher
    case ParkedIdle => s.buf == [] && !s.closed
    case WokenIdle => s.buf != [] || s.closed
    case ParkedTimed => 0 < |s.buf| < size && !s.closed
    case WokenTimed => s.buf != []
    case Writing(batch, closing) => batch != [] && (closing ==> s.closed)
    case Exited => s.closed
    case AtTop => true
  }

  /** Once the flusher has drained for the last time, every record from before `close` is out. */
  ghost predicate ClosedCovered(s: Sink) {
    && (s.closed <==> s.closedAt.Some?) && (s.closed ==> s.closedAt.value <= |s.appended|)
    && (s.flusher.Writing? && s.flusher.closing && s.closed ==> s.closedAt.value <= |s.written| + |s.flusher.batch|)
    && (s.flusher.Exited? && s.closed ==> s.closedAt.value <= |s.written|)
  }

  /** No buffered record is in its second timed wait. */
  ghost predicate WaitsOnce(s: Sink) {
    && |s.waits| == |s.buf|
    && (forall i :: 0 <= i < |s.waits| ==> s.waits[i] <= 1)
    && (!s.flusher.ParkedTimed? && !s.flusher.WokenTimed? ==> forall i :: 0 <= i < |s.waits| ==> s.waits[i] == 0)
  }

  ghost predicate Inv(s: Sink, size: nat) {
    Conserved(s) && NoLostWakeUp(s, size) && ClosedCovered(s) && WaitsOnce(s)
  }

  lemma {:induction false} LinesAppend(a: seq<string>, b: seq<string>)
    ensures Lines(a + b) == Lines(a) + Lines(b)
  {
    if b == [] {
      assert a + b == a;
    } else {
      var n := |b| - 1;
      LinesAppend(a, b[..n]);
      assert (a + b)[..|a + b| - 1] == a + b[..n];
      assert Lines(a + b) == Lines(a + b[..n]) + (b[n] + "\n");
      assert Lines(a) + Lines(b[..n]) + (b[n] + "\n") == Lines(a) + (Lines(b[..n]) + (b[n] + "\n"));
    }
  }

  /** One batch text is the batch's lines, wherever the batch boundaries fall. */
  lemma {:induction false} BatchTextIsLines(batch: seq<string>)
    ensures BatchText(batch) == Lines(batch)
  {
    if batch != [] {
      var head, rest := batch[0], batch[1..];
      BatchTextIsLines(rest);
      assert (batch + [""])[1..] == rest + [""];
      LinesAppend([head], rest);
      assert [head] + rest == batch && [head][..0] == [];
      assert Lines([head]) == head + "\n";
    }
  }

  lemma StepConserves(s: Sink, l: Label, size: nat)
    requires Conserved(s) && NoLostWakeUp(s, size) && Enabled(s, l)
    ensures Conserved(Apply(s, l, size))
  {
    match l {
      case Emit(msg) =>
        assert s.written + InFlight(s) + (s.buf + [msg]) == s.written + InFlight(s) + s.buf + [msg];
      case Flush =>
        if s.flusher.Writing? {
          BatchTextIsLines(s.flusher.batch);
          LinesAppend(s.written, s.flusher.batch);
          assert s.written + s.flusher.batch + [] + s.buf == s.written + s.flusher.batch + s.buf;
        } else {
          assert s.written + s.buf + [] == s.written + [] + s.buf;
        }
      case _ =>
    }
  }

  lemma StepKeepsInv(s: Sink, l: Label, size: nat)
    requires Inv(s, size) && Enabled(s, l) && size >= 2
    ensures Inv(Apply(s, l, size), size)
  {
    StepConserves(s, l, size);
    StepWaits(s, l, size);
  }

  lemma StepWaits(s: Sink, l: Label, size: nat)
    requires WaitsOnce(s) && NoLostWakeUp(s, size) && Enabled(s, l)
    ensures WaitsOnce(Apply(s, l, size))
  {
  }

  /** The records emitted in a run, in order. */
  function Emitted(run: seq<Label>): (msgs: seq<string>) {
    if run == [] then []
    else Emitted(run[..|run| - 1]) + (if run[|run| - 1].Emit? then [run[|run| - 1].msg] else [])
  }

  /** How many records were emitted before the first `close` of a run. */
  function EmittedAtClose(run: seq<Label>): (n: Option<nat>) {
    if run == [] then None
    else
      var front := run[..|run| - 1];
      var before := EmittedAtClose(front);
      if before.Some? then before else if run[|run| - 1].Close? then Some(|Emitted(front)|) else None
  }

  /** Every reachable state is safe, and its history is the run's. */
  lemma {:induction false} ReachableIsSafe(run: seq<Label>, size: nat)
    requires size >= 2 && Exec(Init, run, size).Some?
    ensures var s := Exec(Init, run, size).value;
            Inv(s, size) && s.appended == Emitted(run) && s.closedAt == EmittedAtClose(run)
  {
    if run != [] {
      var n := |run| - 1;
      ReachableIsSafe(run[..n], size);
      StepKeepsInv(Exec(Init, run[..n], size).value, run[n], size);
    }
  }

  /** When the flusher has exited, the stream starts with every record emitted before `close`,
      and what stays in the buffer came after. */
  lemma ExitLeavesOnlyLateRecords(run: seq<Label>, size: nat)
    requires size >= 2 && Exec(Init, run, size).Some? && Exec(Init, run, size).value.flusher.Exited?
    ensures EmittedAtClose(run).Some?
    ensures var s := Exec(Init, run, size).value;
            var early := EmittedAtClose(run).value;
            && s.stream == Lines(s.written) && Emitted(run) == s.written + s.buf
            && early <= |s.written| && s.written[..early] == Emitted(run)[..early]
  {
    ReachableIsSafe(run, size);
  }

  /** The flusher will not take the lock again. */
  predicate Finishing(s: Sink) { s.flusher.Exited? || (s.flusher.Writing? && s.flusher.closing) }

  ghost predicate FinishingAfter(run: seq<Label>, n: nat, size: nat)
    requires n <= |run|
  {
    Exec(Init, run[..n], size).Some? && Finishing(Exec(Init, run[..n], size).value)
  }

  /** Exactly what is never written: the records emitted after the flusher's last turn under the lock, which
      is the label at position `turn`. */
  lemma {:induction false} LeftAfterLastTurn(run: seq<Label>, size: nat) returns (turn: nat)
    requires Exec(Init, run, size).Some? && Finishing(Exec(Init, run, size).value)
    ensures turn < |run| && run[turn].Flush? && !FinishingAfter(run, turn, size) && FinishingAfter(run, turn + 1, size)
    ensures Exec(Init, run, size).value.buf == Emitted(run[turn + 1..])
  {
    var n := |run| - 1;
    var front := run[..n];
    FinishingStep(Exec(Init, front, size).value, run[n], size);
    if Finishing(Exec(Init, front, size).value) {
      turn := LeftAfterLastTurn(front, size);
      assert front[..turn] == run[..turn] && front[..turn + 1] == run[..turn + 1];
      EmittedSnoc(run, turn + 1);
    } else {
      turn := n;
      assert run[..n + 1] == run && run[n + 1..] == [];
    }
  }

  lemma FinishingStep(s: Sink, l: Label, size: nat)
    requires Enabled(s, l)
    ensures var t := Apply(s, l, size);
            && (Finishing(s) ==> t.buf == s.buf + (if l.Emit? then [l.msg] else []))
            && (!Finishing(s) && Finishing(t) ==> l.Flush? && t.buf == [])
  {
  }

  lemma EmittedSnoc(run: seq<Label>, k: nat)
    requires k < |run|
    ensures var n := |run| - 1;
            Emitted(run[k..]) == Emitted(run[..n][k..]) + (if run[n].Emit? then [run[n].msg] else [])
  {
    var tail := run[k..];
    assert tail[..|tail| - 1] == run[..|run| - 1][k..];
  }

  /** It happens: a record emitted while the flusher writes its last batch stays in the buffer. */
  lemma LateRecordStays(early: string, late: string, run: seq<Label>, size: nat)
    requires size >= 2 && run == [Emit(early), Flush, Close, Flush, Emit(late), Flush]
    ensures var end := Exec(Init, run, size);
            end.Some? && end.value.flusher.Exited? && end.value.buf == [late] && end.value.written == [early]
  {
    LastBatch(early, late, run, size);
    OneMore(run, 4, size);
    OneMore(run, 5, size);
    assert run[..6] == run;
  }

  lemma LastBatch(early: string, late: string, run: seq<Label>, size: nat)
    requires size >= 2 && run == [Emit(early), Flush, Close, Flush, Emit(late), Flush]
    ensures var s := Exec(Init, run[..4], size);
            s.Some? && s.value.flusher == Writing([early], true) && s.value.buf == [] && s.value.written == []
  {
    OneMore(run, 0, size);
    OneMore(run, 1, size);
    var parked := Exec(Init, run[..2], size).value;
    assert parked.flusher.ParkedTimed? && parked.buf == [early] && parked.written == [];
    OneMore(run, 2, size);
    OneMore(run, 3, size);
  }

  lemma OneMore(run: seq<Label>, n: nat, size: nat)
    requires n < |run| && Exec(Init, run[..n], size).Some? && Enabled(Exec(Init, run[..n], size).value, run[n])
    ensures Exec(Init, run[..n + 1], size) == Some(Apply(Exec(Init, run[..n], size).value, run[n], size))
  {
    assert run[..n + 1][..n] == run[..n];
  }

  // ---- Progress over every run ---------------------------------------------------------------

  /** The first `goal` records, all emitted before any `close`. */
  ghost predicate Pending(s: Sink, goal: nat) {
    goal <= |s.appended| && (s.closedAt.Some? ==> goal <= s.closedAt.value)
  }

  /** How many flusher moves until the first `goal` records are written. */
  ghost function Distance(s: Sink, goal: nat): nat {
    if goal <= |s.written| then 0
    else match s.flusher
      case Writing(batch, _) => if goal <= |s.written| + |batch| then 1 else 5
      case WokenTimed => 2
      case ParkedTimed => 3
      case _ => 4
  }

  predicate FlusherMove(l: Label) { l.Flush? || l.Timeout? }

  lemma StepNearsGoal(s: Sink, l: Label, size: nat, goal: nat)
    requires Inv(s, size) && Enabled(s, l) && size >= 2 && ClosedCovered(s) && Pending(s, goal)
    ensures Pending(Apply(s, l, size), goal)
    ensures Distance(Apply(s, l, size), goal) <= Distance(s, goal)
    ensures FlusherMove(l) && Distance(s, goal) > 0 ==> Distance(Apply(s, l, size), goal) < Distance(s, goal)
  {
  }

  function FlusherMoves(run: seq<Label>): (n: nat) {
    if run == [] then 0 else FlusherMoves(run[..|run| - 1]) + (if FlusherMove(run[|run| - 1]) then 1 else 0)
  }

  lemma {:induction false} RunNearsGoal(s: Sink, run: seq<Label>, size: nat, goal: nat)
    requires Inv(s, size) && size >= 2 && Pending(s, goal) && Exec(s, run, size).Some?
    ensures var t := Exec(s, run, size).value;
            && Inv(t, size) && Pending(t, goal)
            && (Distance(t, goal) == 0 || Distance(t, goal) + FlusherMoves(run) <= Distance(s, goal))
  {
    if run != [] {
      var n := |run| - 1;
      RunNearsGoal(s, run[..n], size, goal);
      var t := Exec(s, run[..n], size).value;
      StepKeepsInv(t, run[n], size);
      StepNearsGoal(t, run[n], size, goal);
    }
  }

  /** How many of a run's records must reach the stream: those emitted before any `close`. */
  function Promised(run: seq<Label>): (n: nat) {
    if EmittedAtClose(run).Some? then EmittedAtClose(run).value else |Emitted(run)|
  }

  /** Bounded delay: whatever the emitters do meanwhile, every record emitted before `close` is
      written once the flusher has moved five more times; and until then it can move. */
  lemma RecordsReachTheStream(before: seq<Label>, after: seq<Label>, size: nat)
    requires size >= 2 && Exec(Init, before, size).Some?
    requires Exec(Exec(Init, before, size).value, after, size).Some?
    ensures var s := Exec(Init, before, size).value;
            var t := Exec(s, after, size).value;
            var goal := Promised(before);
            && goal <= |Emitted(before)|
            && (FlusherMoves(after) >= 5 ==> Emitted(before)[..goal] <= t.written)
            && (|t.written| < goal ==> Enabled(t, Flush) || Enabled(t, Timeout))
  {
    ReachableIsSafe(before, size);
    var s := Exec(Init, before, size).value;
    var goal := Promised(before);
    RunNearsGoal(s, after, size, goal);
    AppendedGrows(s, after, size);
  }

  lemma {:induction false} AppendedGrows(s: Sink, run: seq<Label>, size: nat)
    requires Exec(s, run, size).Some?
    ensures s.appended <= Exec(s, run, size).value.appended
  {
    if run != [] {
      AppendedGrows(s, run[..|run| - 1], size);
    }
  }

  /** Flusher moves left until it exits, once closed. */
  ghost function ExitDistance(s: Sink): nat {
    match s.flusher
    case Exited => 0
    case Writing(_, closing) => if closing then 1 else 3
    case _ => 2
  }

  lemma {:induction false} ClosedRunExits(s: Sink, run: seq<Label>, size: nat)
    requires Inv(s, size) && size >= 2 && s.closed && Exec(s, run, size).Some?
    ensures var t := Exec(s, run, size).value;
            && Inv(t, size) && t.closed
            && (t.flusher.Exited? || ExitDistance(t) + FlusherMoves(run) <= ExitDistance(s))
  {
    if run != [] {
      var n := |run| - 1;
      ClosedRunExits(s, run[..n], size);
      var t := Exec(s, run[..n], size).value;
      StepKeepsInv(t, run[n], size);
    }
  }

  /** After `close`, the flusher exits within three of its moves, and until then it can move:
      joining it does not hang. */
  lemma CloseEndsTheFlusher(before: seq<Label>, after: seq<Label>, size: nat)
    requires size >= 2 && Exec(Init, before, size).Some? && Exec(Init, before, size).value.closed
    requires Exec(Exec(Init, before, size).value, after, size).Some?
    ensures var t := Exec(Exec(Init, before, size).value, after, size).value;
            && (FlusherMoves(after) >= 3 ==> t.flusher.Exited?)
            && (!t.flusher.Exited? ==> Enabled(t, Flush))
  {
    ReachableIsSafe(before, size);
    ClosedRunExits(Exec(Init, before, size).value, after, size);
  }
}
