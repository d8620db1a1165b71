/** What a measuring window reads at the end of any interleaving, stated over
    the run itself. */
module HeapTheorems {
  import opened Words
  import opened Heap

  // ---- what really happened during a run ----------------------------------

  function HighestCount(s: State, run: seq<Action>): int
    requires Legal(s, run)
    decreases |run|
  {
    if run == [] then s.counts.inFlight
    else Max(s.counts.inFlight, HighestCount(Apply(s, run[0]), run[1..]))
  }

  function HighestLive(s: State, run: seq<Action>): int
    requires Legal(s, run)
    decreases |run|
  {
    if run == [] then s.live else Max(s.live, HighestLive(Apply(s, run[0]), run[1..]))
  }

  predicate Opens(run: seq<Action>) {
    exists k :: 0 <= k < |run| && run[k].ArmBy?
  }

  /** No operation began while another was under way. */
  predicate OneAtATime(s: State, run: seq<Action>)
    requires Legal(s, run)
    decreases |run|
  {
    run == [] || ((Begins(run[0]) ==> Quiet(s)) && OneAtATime(Apply(s, run[0]), run[1..]))
  }

  predicate StaysOpen(s: State, run: seq<Action>, i: nat)
    requires Legal(s, run)
    decreases |run|
  {
    i < |s.windows| && (run == [] || StaysOpen(Apply(s, run[0]), run[1..], i))
  }

  /** What a window takes down about a run is what happened in it. */
  lemma {:induction false} ObserverSeesTheRun(s: State, run: seq<Action>, i: nat)
    requires Legal(s, run) && StaysOpen(s, run, i)
    requires s.counts.inFlight <= s.windows[i].seen.highest && s.live <= s.windows[i].seen.liveHighest
    ensures i < |Execute(s, run).windows|
    ensures var w := s.windows[i]; var v := Execute(s, run).windows[i];
      v.baseline == w.baseline && v.seen.liveAtArm == w.seen.liveAtArm &&
      v.seen.highest == Max(w.seen.highest, HighestCount(s, run)) &&
      v.seen.liveHighest == Max(w.seen.liveHighest, HighestLive(s, run)) &&
      (v.seen.rebased <==> w.seen.rebased || Opens(run)) &&
      (v.seen.alone <==> w.seen.alone && OneAtATime(s, run))
    decreases |run|
  {
    if run != [] {
      StepIsSeen(s, run[0], i);
      ObserverSeesTheRun(Apply(s, run[0]), run[1..], i);
      OpensFirstOrLater(run);
      RunsRise(Apply(s, run[0]), run[1..]);
    }
  }

  lemma StepIsSeen(s: State, a: Action, i: nat)
    requires Enabled(s, a) && i < |s.windows| && i < |Apply(s, a).windows|
    ensures var after := Apply(s, a); var w := s.windows[i]; var v := after.windows[i];
      v.baseline == w.baseline && v.seen.liveAtArm == w.seen.liveAtArm &&
      v.seen.highest == Max(w.seen.highest, after.counts.inFlight) &&
      v.seen.liveHighest == Max(w.seen.liveHighest, after.live) &&
      v.seen.rebased == (w.seen.rebased || a.ArmBy?) &&
      v.seen.alone == (w.seen.alone && (Begins(a) ==> Quiet(s)))
  {
    assert Bare(s, a).windows[i] == s.windows[i];
  }

  lemma OpensFirstOrLater(run: seq<Action>)
    requires run != []
    ensures Opens(run) <==> run[0].ArmBy? || Opens(run[1..])
  {
    if Opens(run) && !run[0].ArmBy? {
      var k :| 0 <= k < |run| && run[k].ArmBy?;
      assert run[1..][k - 1].ArmBy?;
    }
    if Opens(run[1..]) {
      var k :| 0 <= k < |run| - 1 && run[1..][k].ArmBy?;
      assert run[k + 1].ArmBy?;
    }
  }

  /** The window is opened at `s`, stays open through the run, and nothing is
      under way at the end. */
  ghost predicate Spans(s: State, t: nat, run: seq<Action>) {
    Enabled(s, ArmBy(t)) && Legal(Apply(s, ArmBy(t)), run) && StaysOpen(Apply(s, ArmBy(t)), run, |s.windows|) &&
    Quiet(Execute(Apply(s, ArmBy(t)), run))
  }

  /** It reads the bytes live now over the bytes live then; and, when no window
      begun inside it, the highest rise of the count, which with no two
      operations overlapping is the highest rise of live bytes. */
  ghost predicate ReadsItsRun(s: State, t: nat, run: seq<Action>)
    requires Spans(s, t, run)
  {
    var begun := Apply(s, ArmBy(t)); var i := |s.windows|;
    var end := Execute(begun, run);
    var countRise := HighestCount(begun, run) - s.counts.inFlight;
    i < |end.windows| &&
    LiveBytes(end, i) == Some(Max(end.live - s.live, 0)) &&
    PeakBytes(end, i).Some? &&
    LiveBytes(end, i).value <= PeakBytes(end, i).value <= countRise &&
    (!Opens(run) ==> PeakBytes(end, i).value == countRise) &&
    (!Opens(run) && OneAtATime(begun, run) ==> PeakBytes(end, i).value == HighestLive(begun, run) - s.live)
  }

  lemma WindowReadsTheRun(s: State, t: nat, run: seq<Action>)
    requires Inv(s) && s.hooked && Spans(s, t, run)
    ensures ReadsItsRun(s, t, run)
  {
    var begun := Apply(s, ArmBy(t));
    StepKeepsInv(s, ArmBy(t));
    RunsKeepInv(begun, run);
    HookStays(begun, run);
    OpenedWindow(s, t);
    ObserverSeesTheRun(begun, run, |s.windows|);
    RunsRise(begun, run);
    ReadingsAtRest(Execute(begun, run), |s.windows|);
  }

  /** What a window reads at rest, from what was taken down for it. */
  lemma ReadingsAtRest(e: State, i: nat)
    requires Inv(e) && Quiet(e) && e.hooked && i < |e.windows|
    ensures var w := e.windows[i]; var o := w.seen; var rise := o.highest - w.baseline;
      LiveBytes(e, i) == Some(Max(e.live - o.liveAtArm, 0)) && PeakBytes(e, i).Some? &&
      LiveBytes(e, i).value <= PeakBytes(e, i).value <= rise &&
      (!o.rebased ==> PeakBytes(e, i).value == rise) &&
      (!o.rebased && o.alone ==> PeakBytes(e, i).value == o.liveHighest - o.liveAtArm)
  {
    LiveBytesAreExact(e, i);
    PeakBytesAreExact(e, i);
    if !e.windows[i].seen.rebased { PeakAgainstLiveBytes(e, i); }
  }

  /** From the start of the process, whatever any of its threads have done and
      whatever windows are open: the next window opened reads its run. */
  lemma EveryWindowReadsItsRun(threads: nat, live: nat, before: seq<Action>, t: nat, run: seq<Action>)
    requires Legal(Start(threads, true, live), before)
    requires Spans(Execute(Start(threads, true, live), before), t, run)
    ensures ReadsItsRun(Execute(Start(threads, true, live), before), t, run)
  {
    StartFits(threads, true, live);
    RunsKeepInv(Start(threads, true, live), before);
    HookStays(Start(threads, true, live), before);
    WindowReadsTheRun(Execute(Start(threads, true, live), before), t, run);
  }

  lemma OpenedWindow(s: State, t: nat)
    requires Enabled(s, ArmBy(t))
    ensures var begun := Apply(s, ArmBy(t));
      |begun.windows| == |s.windows| + 1 && begun.live == s.live && begun.counts.inFlight == s.counts.inFlight &&
      var w := begun.windows[|s.windows|];
      w.baseline == s.counts.inFlight && w.seen == Opening(s.live, s.counts.inFlight)
  {
  }

  lemma RunsRise(s: State, run: seq<Action>)
    requires Legal(s, run)
    ensures HighestCount(s, run) >= s.counts.inFlight && HighestLive(s, run) >= s.live
  {
  }

  /** Without the allocator in the path a window reads nothing, rather than zero. */
  lemma UnhookedReadsNothing(s: State, run: seq<Action>, i: nat)
    requires Inv(s) && !s.hooked && Legal(s, run) && i < |Execute(s, run).windows|
    ensures PeakBytes(Execute(s, run), i) == None && LiveBytes(Execute(s, run), i) == None
  {
    RunsKeepInv(s, run);
    HookStays(s, run);
  }

  lemma {:induction false} HookStays(s: State, run: seq<Action>)
    requires Legal(s, run)
    ensures Execute(s, run).hooked == s.hooked
    decreases |run|
  {
    if run != [] { HookStays(Apply(s, run[0]), run[1..]); }
  }

  // ---- peaks that the count misses ----------------------------------------

  /** A window is open and counting, and nothing is under way. */
  predicate Counting(s: State) {
    s.hooked && Quiet(s) && |s.nested| == |s.pcs| && s.windows != [] &&
    s.counts.armed && s.counts.installed && s.counts.inFlight <= s.counts.peak
  }

  /** `e` is `s` but for live bytes, the count and where two threads are. */
  predicate IsMoved(e: State, s: State, live: int, counted: int, t: nat, tpc: Pc, u: nat, upc: Pc)
    requires t < |s.pcs| && u < |s.pcs|
  {
    e.hooked && e.live == live && e.counts == s.counts.(inFlight := s.counts.inFlight + counted) &&
    e.nested == s.nested && e.pcs == s.pcs[t := tpc][u := upc] && |e.windows| == |s.windows|
  }

  /** The run leaves the counts as `s` had them, opens no window, closes none,
      and live bytes rise to `top` in it. */
  ghost predicate Hides(e: State, run: seq<Action>, s: State, top: int) {
    Legal(e, run) && !Opens(run) && Execute(e, run).counts == s.counts && Execute(e, run).live == s.live &&
    Quiet(Execute(e, run)) && HighestLive(e, run) == top && KeepsWindows(e, run, |s.windows|)
  }

  predicate KeepsWindows(s: State, run: seq<Action>, n: nat)
    requires Legal(s, run)
    decreases |run|
  {
    |s.windows| == n && (run == [] || KeepsWindows(Apply(s, run[0]), run[1..], n))
  }

  lemma Prepended(s: State, a: Action, tail: seq<Action>, was: State, top: int) returns (run: seq<Action>)
    requires Enabled(s, a) && !a.ArmBy? && Hides(Apply(s, a), tail, was, top) && |s.windows| == |was.windows|
    ensures run == [a] + tail && Hides(s, run, was, Max(s.live, top))
  {
    run := [a] + tail;
    assert run[1..] == tail;
    assert Opens(run) ==> Opens(tail) by { OpensFirstOrLater(run); }
  }

  /** One thread is given `n` bytes and, before they are counted, another gives
      `n` back and is counted: the count never shows what was really there. */
  lemma HiddenBytes(s: State, t: nat, u: nat, n: nat) returns (run: seq<Action>)
    requires Counting(s) && t < |s.pcs| && u < |s.pcs| && t != u && n <= s.live
    ensures Hides(s, run, s, s.live + n)
  {
    var s1 := Apply(s, Malloc(t, n));
    assert IsMoved(s1, s, s.live + n, 0, t, LoadForCharge(n), u, Idle);
    var s2 := Apply(s1, Free(u, n));
    assert IsMoved(s2, s, s.live, 0, t, LoadForCharge(n), u, LoadForDischarge(n));
    run := FreeIsCountedFirst(s, s2, t, u, n);
    run := Prepended(s1, Free(u, n), run, s, s.live);
    run := Prepended(s, Malloc(t, n), run, s, s.live + n);
  }

  lemma FreeIsCountedFirst(s: State, e: State, t: nat, u: nat, n: nat) returns (run: seq<Action>)
    requires Counting(s) && t < |s.pcs| && u < |s.pcs| && t != u
    requires IsMoved(e, s, s.live, 0, t, LoadForCharge(n), u, LoadForDischarge(n))
    ensures Hides(e, run, s, s.live)
  {
    var e1 := Apply(e, Advance(u));
    assert IsMoved(e1, s, s.live, 0, t, LoadForCharge(n), u, Subtract(n));
    var e2 := Apply(e1, Advance(u));
    assert IsMoved(e2, s, s.live, 0 - n, t, LoadForCharge(n), u, Idle);
    run := MallocIsCountedLast(s, e2, t, u, n);
    run := Prepended(e1, Advance(u), run, s, s.live);
    run := Prepended(e, Advance(u), run, s, s.live);
  }

  lemma MallocIsCountedLast(s: State, e: State, t: nat, u: nat, n: nat) returns (run: seq<Action>)
    requires Counting(s) && t < |s.pcs| && u < |s.pcs| && t != u
    requires IsMoved(e, s, s.live, 0 - n, t, LoadForCharge(n), u, Idle)
    ensures Hides(e, run, s, s.live)
  {
    var e1 := Apply(e, Advance(t));
    assert IsMoved(e1, s, s.live, 0 - n, t, LoadInstalled(n), u, Idle);
    var e2 := Apply(e1, Advance(t));
    assert IsMoved(e2, s, s.live, 0 - n, t, Add(n), u, Idle);
    run := AddIsLast(s, e2, t, u, n);
    run := Prepended(e1, Advance(t), run, s, s.live);
    run := Prepended(e, Advance(t), run, s, s.live);
  }

  lemma AddIsLast(s: State, e: State, t: nat, u: nat, n: nat) returns (run: seq<Action>)
    requires Counting(s) && t < |s.pcs| && u < |s.pcs| && t != u
    requires IsMoved(e, s, s.live, 0 - n, t, Add(n), u, Idle)
    ensures Hides(e, run, s, s.live)
  {
    var e1 := Apply(e, Advance(t));
    assert IsMoved(e1, s, s.live, 0, t, RaisePeak(s.counts.inFlight), u, Idle);
    var e2 := Apply(e1, Advance(t));
    assert IsMoved(e2, s, s.live, 0, t, Idle, u, Idle);
    assert Hides(e2, [], s, s.live);
    run := Prepended(e1, Advance(t), [], s, s.live);
    run := Prepended(e, Advance(t), run, s, s.live);
  }

  lemma KeptIsOpen(s: State, run: seq<Action>, n: nat, i: nat)
    requires Legal(s, run) && KeepsWindows(s, run, n) && i < n
    ensures StaysOpen(s, run, i) && |Execute(s, run).windows| == n
    decreases |run|
  {
    if run != [] { KeptIsOpen(Apply(s, run[0]), run[1..], n, i); }
  }

  lemma OpenedIsCounting(s: State, t: nat)
    requires Inv(s) && s.hooked && Enabled(s, ArmBy(t))
    ensures Counting(Apply(s, ArmBy(t))) && Apply(s, ArmBy(t)).counts.peak == s.counts.inFlight
    ensures |Apply(s, ArmBy(t)).pcs| == |s.pcs|
  {
  }

  /** With two threads a rise of any size, up to what was already live, can pass
      a window by: it reads a peak of nothing. */
  lemma OverlapHidesAPeak(s: State, t: nat, u: nat, n: nat) returns (run: seq<Action>)
    requires Inv(s) && s.hooked && Enabled(s, ArmBy(t)) && u < |s.pcs| && u != t && n <= s.live
    ensures var begun := Apply(s, ArmBy(t));
      Legal(begun, run) && !Opens(run) && StaysOpen(begun, run, |s.windows|) && Quiet(Execute(begun, run)) &&
      |s.windows| < |Execute(begun, run).windows| &&
      PeakBytes(Execute(begun, run), |s.windows|) == Some(0) && HighestLive(begun, run) - s.live == n
  {
    var begun := Apply(s, ArmBy(t));
    OpenedWindow(s, t);
    OpenedIsCounting(s, t);
    run := HiddenBytes(begun, t, u, n);
    KeptIsOpen(begun, run, |begun.windows|, |s.windows|);
    StepKeepsInv(s, ArmBy(t));
    RunsKeepInv(begun, run);
    HookStays(begun, run);
    ObserverSeesTheRun(begun, run, |s.windows|);
  }

  /** One byte counted in full, then another hidden behind it. */
  lemma CountedThenHidden(s: State, t: nat, u: nat) returns (run: seq<Action>, was: State)
    requires Counting(s) && t < |s.pcs| && u < |s.pcs| && t != u && s.live >= 0
    ensures was.counts.peak == Max(s.counts.peak, s.counts.inFlight + 1) && |was.windows| == |s.windows|
    ensures Hides(s, run, was, s.live + 2)
  {
    var s1 := Apply(s, Malloc(t, 1));
    assert IsMoved(s1, s, s.live + 1, 0, t, LoadForCharge(1), u, Idle);
    var s2 := Apply(s1, Advance(t));
    assert IsMoved(s2, s, s.live + 1, 0, t, LoadInstalled(1), u, Idle);
    var s3 := Apply(s2, Advance(t));
    assert IsMoved(s3, s, s.live + 1, 0, t, Add(1), u, Idle);
    run, was := RaisedThenHidden(s, s3, t, u);
    run := Prepended(s2, Advance(t), run, was, s.live + 2);
    run := Prepended(s1, Advance(t), run, was, s.live + 2);
    run := Prepended(s, Malloc(t, 1), run, was, s.live + 2);
  }

  lemma RaisedThenHidden(s: State, e: State, t: nat, u: nat) returns (run: seq<Action>, was: State)
    requires Counting(s) && t < |s.pcs| && u < |s.pcs| && t != u && s.live >= 0
    requires IsMoved(e, s, s.live + 1, 0, t, Add(1), u, Idle)
    ensures was.counts.peak == Max(s.counts.peak, s.counts.inFlight + 1) && |was.windows| == |s.windows|
    ensures Hides(e, run, was, s.live + 2)
  {
    var e1 := Apply(e, Advance(t));
    assert IsMoved(e1, s, s.live + 1, 1, t, RaisePeak(s.counts.inFlight + 1), u, Idle);
    was := Apply(e1, Advance(t));
    assert was.pcs == s.pcs;
    run := HiddenBytes(was, t, u, 1);
    run := Prepended(e1, Advance(t), run, was, s.live + 2);
    run := Prepended(e, Advance(t), run, was, s.live + 2);
  }

  /** At rest with the window still open and none begun inside it, its peak is
      the highest rise of live bytes over `live`. */
  ghost predicate ReadsTheRise(begun: State, run: seq<Action>, i: nat, live: int)
    requires Legal(begun, run)
  {
    StaysOpen(begun, run, i) && Quiet(Execute(begun, run)) && !Opens(run) ==>
      i < |Execute(begun, run).windows| &&
      PeakBytes(Execute(begun, run), i) == Some(HighestLive(begun, run) - live)
  }

  lemma {:induction false} OneThreadIsAlone(s: State, run: seq<Action>)
    requires Legal(s, run) && |s.pcs| == 1
    ensures OneAtATime(s, run)
    decreases |run|
  {
    if run != [] { OneThreadIsAlone(Apply(s, run[0]), run[1..]); }
  }

  /** A window's peak is the true peak of live bytes in every run exactly when the
      process has only the one thread. */
  lemma PeakIsTrueIffAlone(s: State, t: nat)
    requires Inv(s) && s.hooked && s.live >= 0 && Enabled(s, ArmBy(t))
    ensures (forall run :: Legal(Apply(s, ArmBy(t)), run) ==> ReadsTheRise(Apply(s, ArmBy(t)), run, |s.windows|, s.live))
       <==> |s.pcs| == 1
  {
    var begun, i := Apply(s, ArmBy(t)), |s.windows|;
    OpenedWindow(s, t);
    OpenedIsCounting(s, t);
    if |s.pcs| == 1 {
      forall run | Legal(begun, run) ensures ReadsTheRise(begun, run, i, s.live) {
        OneThreadIsAlone(begun, run);
        if StaysOpen(begun, run, i) && Quiet(Execute(begun, run)) && !Opens(run) { WindowReadsTheRun(s, t, run); }
      }
    } else {
      var u := if t == 0 then 1 else 0;
      var run, was := CountedThenHidden(begun, t, u);
      KeptIsOpen(begun, run, |begun.windows|, i);
      ObserverSeesTheRun(begun, run, i);
      assert !ReadsTheRise(begun, run, i, s.live);
    }
  }

  // ---- flags --------------------------------------------------------------

  /** Only the thread that holds the measuring lock can open a window while one
      is open. */
  lemma OneMeasuringThread(s: State, t: nat)
    requires Inv(s) && s.windows != [] && Enabled(s, ArmBy(t))
    ensures s.owner == Some(t)
  {
  }

  /** When the window that was opened is closed, the armed flag, every thread's
      nesting flag and the lock are what they were before it opened. */
  lemma ClosingRestoresFlags(s: State, t: nat, run: seq<Action>)
    requires Inv(s) && Enabled(s, ArmBy(t))
    requires Legal(Apply(s, ArmBy(t)), run)
    requires |Execute(Apply(s, ArmBy(t)), run).windows| == |s.windows| + 1
    requires Enabled(Execute(Apply(s, ArmBy(t)), run), DropBy(t))
    ensures var closed := Apply(Execute(Apply(s, ArmBy(t)), run), DropBy(t));
      closed.counts.armed == s.counts.armed && closed.owner == s.owner &&
      forall u :: 0 <= u < |s.pcs| ==> u < |closed.nested| && closed.nested[u] == s.nested[u]
  {
    var begun := Apply(s, ArmBy(t));
    var end := Execute(begun, run);
    StepKeepsInv(s, ArmBy(t));
    RunsKeepInv(begun, run);
    StepKeepsInv(end, DropBy(t));
    ThreadsStay(begun, run);
  }

  lemma {:induction false} ThreadsStay(s: State, run: seq<Action>)
    requires Legal(s, run)
    ensures |Execute(s, run).pcs| == |s.pcs|
    decreases |run|
  {
    if run != [] { ThreadsStay(Apply(s, run[0]), run[1..]); }
  }

  /** Windows closed in the order given, whatever order they opened in. */
  function CloseAll(armed: bool, windows: seq<Window>, order: seq<nat>): bool
    requires forall k :: 0 <= k < |order| ==> order[k] < |windows|
    decreases |order|
  {
    if order == [] then armed else CloseAll(windows[order[0]].wasArmed, windows, order[1..])
  }

  /** Windows may be closed out of order: counting is off again exactly when the
      outermost one is the last to go. */
  lemma {:induction false} OutermostMustCloseLast(s: State, order: seq<nat>)
    requires Inv(s) && order != [] && forall k :: 0 <= k < |order| ==> order[k] < |s.windows|
    ensures !CloseAll(s.counts.armed, s.windows, order) <==> order[|order| - 1] == 0
  {
    LastCloseDecides(s.counts.armed, s.windows, order);
  }

  lemma {:induction false} LastCloseDecides(armed: bool, windows: seq<Window>, order: seq<nat>)
    requires order != [] && forall k :: 0 <= k < |order| ==> order[k] < |windows|
    ensures CloseAll(armed, windows, order) == windows[order[|order| - 1]].wasArmed
    decreases |order|
  {
    if |order| > 1 { LastCloseDecides(windows[order[0]].wasArmed, windows, order[1..]); }
  }

  // ---- one thread on its own ----------------------------------------------

  /** A thread left alone until it is idle again. */
  function Alone(c: Counts, pc: Pc, fuel: nat): (Counts, Pc)
    decreases fuel
  {
    if pc == Idle || fuel == 0 then (c, pc) else var (d, next) := Atomic(c, pc); Alone(d, next, fuel - 1)
  }

  /** Undisturbed, the atomic steps of a charge and of a discharge come to what
      `Charge` and `Discharge` promise. */
  lemma UndisturbedStepsAreTheCall(c: Counts, n: nat)
    ensures Alone(c, LoadForCharge(n), 5) == (Charged(c, n), Idle)
    ensures Alone(c, LoadForDischarge(n), 5) == (Discharged(c, n), Idle)
  {
    AloneAdds(c.(installed := true), n, 2);
    AloneAdds(c.(installed := true), n, 3);
    if c.armed && !c.installed {
      assert Alone(c, LoadInstalled(n), 4) == Alone(c, StoreInstalled(n), 3);
    }
    assert Alone(c, LoadForDischarge(n), 5) == Alone(c, if c.armed then Subtract(n) else Idle, 4);
  }

  lemma AloneAdds(c: Counts, n: nat, fuel: nat)
    requires c.installed && fuel >= 2
    ensures c.armed ==> Alone(c, Add(n), fuel) == (Charged(c, n), Idle)
  {
    if c.armed {
      var d := c.(inFlight := c.inFlight + n);
      assert Alone(c, Add(n), fuel) == Alone(d, RaisePeak(d.inFlight), fuel - 1);
    }
  }
}
