/** The counting allocator. */
module Heap {
  // Global counters changed by separate atomic steps of many threads, and nested
  // measuring windows that read them.

  import opened Words

  function Max(a: int, b: int): int {
    if a < b then b else a
  }

  // ---- the four counters --------------------------------------------------

  datatype Counts = Counts(inFlight: int, peak: int, armed: bool, installed: bool)

  function Charged(c: Counts, n: nat): Counts {
    if !c.armed then c else Counts(c.inFlight + n, Max(c.peak, c.inFlight + n), true, true)
  }

  function Discharged(c: Counts, n: nat): Counts {
    if !c.armed then c else c.(inFlight := c.inFlight - n)
  }

  const PROBE_BYTES: nat := 64

  /** Counting switched on and proved with a probe, then the high-water mark put
      back to what is in flight. `hooked`: this allocator is in the path. */
  function Armed(c: Counts, hooked: bool): Counts {
    var on := c.(armed := true);
    var probed := if hooked then Discharged(Charged(on, PROBE_BYTES), PROBE_BYTES) else on;
    probed.(peak := probed.inFlight)
  }

  /** An open window: what it took down when it opened, and beside that what an
      observer of the allocator would have taken down since. */
  datatype Window = Window(
    baseline: int,
    wasArmed: bool,
    wasNested: bool,
    installed: bool,
    seen: Observer)

  /** Live bytes when the window opened; the highest count, the highest live
      bytes and the extremes of what was under way since; whether a window
      opened inside it, and whether operations ever overlapped. */
  datatype Observer = Observer(
    liveAtArm: int,
    highest: int,
    liveHighest: int,
    mostUncharged: int,
    mostUndischarged: int,
    rebased: bool,
    alone: bool)

  /** An observer that has seen nothing yet. */
  function Opening(live: int, baseline: int): Observer {
    Observer(live, baseline, live, 0, 0, false, true)
  }

  // ---- the allocator as the process runs it -------------------------------

  class Allocator {
    var inFlight: int
    var peak: int
    var armed: bool
    var installed: bool
    var owner: Option<nat>
    var nested: seq<bool>
    const hooked: bool

    constructor (threads: nat, hooked: bool)
      ensures this.hooked == hooked && View() == Counts(0, 0, false, false)
      ensures owner == None && nested == seq(threads, _ => false)
    {
      this.hooked := hooked;
      inFlight, peak, armed, installed := 0, 0, false, false;
      owner, nested := None, seq(threads, _ => false);
    }

    function View(): Counts
      reads this
    {
      Counts(inFlight, peak, armed, installed)
    }

    method Charge(size: nat)
      modifies this`inFlight, this`peak, this`installed
      ensures View() == Charged(old(View()), size)
    {
      if !armed { return; }
      if !installed { installed := true; }
      inFlight := inFlight + size;
      var now := inFlight;
      peak := Max(peak, now);
    }

    method Discharge(size: nat)
      modifies this`inFlight
      ensures View() == Discharged(old(View()), size)
    {
      if !armed { return; }
      inFlight := inFlight - size;
    }

    /** A block grown or shrunk in place counts as the difference. */
    method Realloc(size: nat, newSize: nat, moved: bool)
      modifies this`inFlight, this`peak, this`installed
      ensures moved && newSize >= size ==> View() == Charged(old(View()), newSize - size)
      ensures moved && newSize < size ==> View() == Discharged(old(View()), size - newSize)
      ensures !moved ==> View() == old(View())
    {
      if moved {
        if newSize >= size { Charge(newSize - size); } else { Discharge(size - newSize); }
      }
    }

    /** `arm` on thread `t`, once the measuring lock is its own or free: the
        window remembers the flags it found. */
    method Arm(t: nat) returns (w: Window)
      requires t < |nested| && (nested[t] || owner == None)
      modifies this
      ensures View() == Armed(old(View()), hooked)
      ensures nested == old(nested)[t := true] && owner == if old(nested)[t] then old(owner) else Some(t)
      ensures w == Window(inFlight, old(armed), old(nested)[t], installed, Opening(0, inFlight))
    {
      if !nested[t] { owner := Some(t); }
      var wasNested := nested[t];
      nested := nested[t := true];
      var wasArmed := armed;
      armed := true;
      if hooked { Charge(PROBE_BYTES); }
      var found := installed;
      if hooked { Discharge(PROBE_BYTES); }
      var baseline := inFlight;
      peak := baseline;
      w := Window(baseline, wasArmed, wasNested, found, Opening(0, baseline));
    }

    /** The window's end on thread `t`: both flags as it found them, and the lock
        given up by the window that took it. */
    method Drop(t: nat, w: Window)
      requires t < |nested|
      modifies this`armed, this`nested, this`owner
      ensures View() == old(View()).(armed := w.wasArmed)
      ensures nested == old(nested)[t := w.wasNested] && owner == if w.wasNested then old(owner) else None
    {
      armed := w.wasArmed;
      nested := nested[t := w.wasNested];
      if !w.wasNested { owner := None; }
    }
  }

  // ---- the same, one atomic step at a time --------------------------------

  /** Where a thread is inside an allocation or a free. */
  datatype Pc =
    | Idle
    | LoadForCharge(n: nat)
    | LoadInstalled(n: nat)
    | StoreInstalled(n: nat)
    | Add(n: nat)
    | RaisePeak(now: int)
    | LoadForDischarge(n: nat)
    | Subtract(n: nat)

  /** `live` is what the system allocator really holds; it moves when the system
      call returns, before anything is counted. */
  datatype State = State(
    hooked: bool,
    live: int,
    counts: Counts,
    owner: Option<nat>,
    nested: seq<bool>,
    pcs: seq<Pc>,
    windows: seq<Window>)

  datatype Action =
    | Malloc(t: nat, n: nat)
    | Free(t: nat, n: nat)
    | Resize(t: nat, size: nat, newSize: nat)
    | Advance(t: nat)
    | ArmBy(t: nat)
    | DropBy(t: nat)

  predicate Quiet(s: State) {
    forall t :: 0 <= t < |s.pcs| ==> s.pcs[t] == Idle
  }

  /** A window opens only when no operation is under way, and only on the thread
      that holds the measuring lock or when nobody does; windows close innermost
      first. */
  predicate Enabled(s: State, a: Action) {
    a.t < |s.pcs| && |s.nested| == |s.pcs| &&
    match a
    case Malloc(t, n) => s.pcs[t] == Idle
    case Free(t, n) => s.pcs[t] == Idle && n <= s.live
    case Resize(t, size, newSize) => s.pcs[t] == Idle && size <= s.live
    case Advance(t) => s.pcs[t] != Idle
    case ArmBy(t) => Quiet(s) && (s.nested[t] || s.owner == None)
    case DropBy(t) => s.pcs[t] == Idle && s.windows != [] && s.owner == Some(t)
  }

  /** One atomic operation of a thread inside `charge` or `discharge`. */
  function Atomic(c: Counts, pc: Pc): (Counts, Pc) {
    match pc
    case Idle => (c, Idle)
    case LoadForCharge(n) => (c, if c.armed then LoadInstalled(n) else Idle)
    case LoadInstalled(n) => (c, if c.installed then Add(n) else StoreInstalled(n))
    case StoreInstalled(n) => (c.(installed := true), Add(n))
    case Add(n) => (c.(inFlight := c.inFlight + n), RaisePeak(c.inFlight + n))
    case RaisePeak(now) => (c.(peak := Max(c.peak, now)), Idle)
    case LoadForDischarge(n) => (c, if c.armed then Subtract(n) else Idle)
    case Subtract(n) => (c.(inFlight := c.inFlight - n), Idle)
  }

  predicate Begins(a: Action) {
    a.Malloc? || a.Free? || a.Resize?
  }

  /** The system call and the first program counter an operation starts with. */
  function Change(a: Action): int
    requires Begins(a)
  {
    match a
    case Malloc(_, n) => n
    case Free(_, n) => 0 - n
    case Resize(_, size, newSize) => newSize - size
  }

  function FirstPc(a: Action): Pc
    requires Begins(a)
  {
    match a
    case Malloc(_, n) => LoadForCharge(n)
    case Free(_, n) => LoadForDischarge(n)
    case Resize(_, size, newSize) =>
      if newSize >= size then LoadForCharge(newSize - size) else LoadForDischarge(size - newSize)
  }

  /** The system call has returned; the counting is still to come, when this
      allocator is in the path at all. */
  function Begin(s: State, t: nat, change: int, pc: Pc): State
    requires t < |s.pcs|
  {
    s.(live := s.live + change, pcs := if s.hooked then s.pcs[t := pc] else s.pcs)
  }

  function Advanced(s: State, t: nat): State
    requires t < |s.pcs|
  {
    var (c, pc) := Atomic(s.counts, s.pcs[t]);
    s.(counts := c, pcs := s.pcs[t := pc])
  }

  function Bare(s: State, a: Action): State
    requires Enabled(s, a)
  {
    match a
    case Advance(t) => Advanced(s, t)
    case ArmBy(t) =>
      var c := Armed(s.counts, s.hooked);
      s.(counts := c, owner := Some(t), nested := s.nested[t := true],
         windows := s.windows + [Window(c.inFlight, s.counts.armed, s.nested[t], c.installed,
                                        Opening(s.live, c.inFlight))])
    case DropBy(t) =>
      var w := s.windows[|s.windows| - 1];
      s.(counts := s.counts.(armed := w.wasArmed), nested := s.nested[t := w.wasNested],
         owner := if w.wasNested then s.owner else None,
         windows := s.windows[..|s.windows| - 1])
    case _ => Begin(s, a.t, Change(a), FirstPc(a))
  }

  /** What is under way on one thread and not yet in the count. */
  function Uncounted(pc: Pc): int {
    match pc
    case LoadForCharge(n) => n
    case LoadInstalled(n) => n
    case StoreInstalled(n) => n
    case Add(n) => n
    case LoadForDischarge(n) => 0 - n
    case Subtract(n) => 0 - n
    case _ => 0
  }

  function Pending(pcs: seq<Pc>): int {
    if pcs == [] then 0 else Pending(pcs[..|pcs| - 1]) + Uncounted(pcs[|pcs| - 1])
  }

  function Watched(o: Observer, after: State, overlaps: bool, arming: bool): Observer {
    Observer(o.liveAtArm,
             Max(o.highest, after.counts.inFlight),
             Max(o.liveHighest, after.live),
             Max(o.mostUncharged, Pending(after.pcs)),
             Max(o.mostUndischarged, -Pending(after.pcs)),
             o.rebased || arming,
             o.alone && !overlaps)
  }

  /** One step, with every window that stays open watching it. */
  function Apply(s: State, a: Action): State
    requires Enabled(s, a)
  {
    var after := Bare(s, a);
    var overlaps := Begins(a) && !Quiet(s);
    after.(windows := seq(|after.windows|, i requires 0 <= i < |after.windows| =>
      if i < |s.windows| then
        after.windows[i].(seen := Watched(after.windows[i].seen, after, overlaps, a.ArmBy?))
      else after.windows[i]))
  }

  // ---- runs ---------------------------------------------------------------

  predicate Legal(s: State, run: seq<Action>)
    decreases |run|
  {
    run == [] || (Enabled(s, run[0]) && Legal(Apply(s, run[0]), run[1..]))
  }

  function Execute(s: State, run: seq<Action>): State
    requires Legal(s, run)
    decreases |run|
  {
    if run == [] then s else Execute(Apply(s, run[0]), run[1..])
  }

  function Start(threads: nat, hooked: bool, live: nat): State {
    State(hooked, live, Counts(0, 0, false, false), None,
          seq(threads, _ => false), seq(threads, _ => Idle), [])
  }

  // ---- what the windows say -----------------------------------------------

  function PeakBytes(s: State, i: nat): Option<int>
    requires i < |s.windows|
  {
    if s.windows[i].installed then Some(Max(s.counts.peak - s.windows[i].baseline, 0)) else None
  }

  function LiveBytes(s: State, i: nat): Option<int>
    requires i < |s.windows|
  {
    if s.windows[i].installed then Some(Max(s.counts.inFlight - s.windows[i].baseline, 0)) else None
  }

  // ---- the invariant ------------------------------------------------------

  /** The flags say exactly which windows are open and on which thread. */
  predicate FlagsFit(s: State) {
    |s.nested| == |s.pcs| &&
    (s.counts.armed <==> s.windows != []) &&
    (s.owner.Some? <==> s.windows != []) &&
    (s.owner.Some? ==> s.owner.value < |s.pcs|) &&
    (forall t :: 0 <= t < |s.nested| ==> (s.nested[t] <==> s.owner == Some(t))) &&
    (forall i :: 0 <= i < |s.windows| ==> (s.windows[i].wasArmed <==> i > 0) && (s.windows[i].wasNested <==> i > 0))
  }

  /** With the allocator out of the path nothing is ever counted. */
  predicate UnhookedFits(s: State) {
    if s.hooked then forall i :: 0 <= i < |s.windows| ==> s.windows[i].installed
    else Quiet(s) && !s.counts.installed && forall i :: 0 <= i < |s.windows| ==> !s.windows[i].installed
  }

  /** The count has risen since the window opened by what live bytes have, but
      for what is still under way. */
  predicate CountFits(s: State, w: Window) {
    s.counts.inFlight - w.baseline == s.live - w.seen.liveAtArm - Pending(s.pcs)
  }

  /** Some thread is about to raise the peak to at least `h`, or it is there. */
  predicate Reaches(s: State, h: int) {
    s.counts.peak >= h || exists t :: 0 <= t < |s.pcs| && s.pcs[t].RaisePeak? && s.pcs[t].now >= h
  }

  predicate StaysBelow(s: State, h: int) {
    s.counts.peak <= h && forall t :: 0 <= t < |s.pcs| && s.pcs[t].RaisePeak? ==> s.pcs[t].now <= h
  }

  predicate PeakFits(s: State, w: Window) {
    s.counts.inFlight <= w.seen.highest && w.baseline <= w.seen.highest &&
    StaysBelow(s, w.seen.highest) &&
    (!w.seen.rebased ==> Reaches(s, w.seen.highest))
  }

  /** Live bytes and count never drift apart by more than was ever under way. */
  predicate DriftFits(s: State, w: Window) {
    var o := w.seen;
    s.live <= o.liveHighest && o.mostUncharged >= Pending(s.pcs) && o.mostUndischarged >= -Pending(s.pcs) &&
    o.liveHighest - o.liveAtArm <= o.highest - w.baseline + o.mostUncharged &&
    o.highest - w.baseline <= o.liveHighest - o.liveAtArm + o.mostUndischarged
  }

  predicate AtMostOneBusy(s: State) {
    forall t, u :: 0 <= t < u < |s.pcs| ==> s.pcs[t] == Idle || s.pcs[u] == Idle
  }

  predicate AloneFits(s: State, w: Window) {
    w.seen.alone ==>
      AtMostOneBusy(s) &&
      w.seen.liveHighest - w.seen.liveAtArm == Max(w.seen.highest - w.baseline, s.live - w.seen.liveAtArm)
  }

  predicate WindowFits(s: State, w: Window) {
    CountFits(s, w) && PeakFits(s, w) && DriftFits(s, w) && AloneFits(s, w)
  }

  predicate Inv(s: State) {
    FlagsFit(s) && UnhookedFits(s) &&
    (s.windows != [] ==> Reaches(s, s.counts.inFlight)) &&
    (s.hooked ==> forall i :: 0 <= i < |s.windows| ==> WindowFits(s, s.windows[i]))
  }

  // ---- the invariant is kept ----------------------------------------------

  lemma {:induction false} PendingOfUpdate(pcs: seq<Pc>, t: nat, pc: Pc)
    requires t < |pcs|
    ensures Pending(pcs[t := pc]) == Pending(pcs) - Uncounted(pcs[t]) + Uncounted(pc)
  {
    var n := |pcs| - 1;
    if t == n {
      assert pcs[t := pc][..n] == pcs[..n];
    } else {
      assert pcs[t := pc][..n] == pcs[..n][t := pc];
      PendingOfUpdate(pcs[..n], t, pc);
    }
  }

  lemma {:induction false} PendingWhenIdle(pcs: seq<Pc>)
    requires forall t :: 0 <= t < |pcs| ==> pcs[t] == Idle
    ensures Pending(pcs) == 0
  {
    if pcs != [] { PendingWhenIdle(pcs[..|pcs| - 1]); }
  }

  lemma PendingOfOne(pcs: seq<Pc>, t: nat)
    requires t < |pcs| && forall u :: 0 <= u < |pcs| && u != t ==> pcs[u] == Idle
    ensures Pending(pcs) == Uncounted(pcs[t])
  {
    PendingOfUpdate(pcs, t, Idle);
    PendingWhenIdle(pcs[t := Idle]);
  }

  lemma BeginKeepsWindow(s: State, t: nat, change: int, pc: Pc, w: Window)
    requires t < |s.pcs| && s.pcs[t] == Idle && s.hooked
    requires Uncounted(pc) == change && !pc.RaisePeak? && pc != Idle
    requires WindowFits(s, w)
    ensures var after := Begin(s, t, change, pc);
      WindowFits(after, w.(seen := Watched(w.seen, after, !Quiet(s), false)))
  {
    PendingOfUpdate(s.pcs, t, pc);
    if Quiet(s) { PendingWhenIdle(s.pcs); }
    var after := Begin(s, t, change, pc);
    assert forall u :: 0 <= u < |s.pcs| && s.pcs[u].RaisePeak? ==> after.pcs[u] == s.pcs[u];
  }

  lemma AdvanceReaches(s: State, t: nat, h: int)
    requires t < |s.pcs| && Reaches(s, h)
    ensures Reaches(Advanced(s, t), h)
  {
    if s.counts.peak < h {
      var u :| 0 <= u < |s.pcs| && s.pcs[u].RaisePeak? && s.pcs[u].now >= h;
      if u != t { assert Advanced(s, t).pcs[u] == s.pcs[u]; }
    }
  }

  lemma AddReaches(s: State, t: nat)
    requires t < |s.pcs| && s.pcs[t].Add?
    ensures Reaches(Advanced(s, t), s.counts.inFlight + s.pcs[t].n)
  {
    assert Advanced(s, t).pcs[t] == RaisePeak(s.counts.inFlight + s.pcs[t].n);
  }

  lemma AdvanceCounts(s: State, t: nat)
    requires t < |s.pcs| && s.counts.armed
    ensures Advanced(s, t).counts.inFlight + Pending(Advanced(s, t).pcs) == s.counts.inFlight + Pending(s.pcs)
    ensures Advanced(s, t).counts.armed && Advanced(s, t).live == s.live
  {
    PendingOfUpdate(s.pcs, t, Atomic(s.counts, s.pcs[t]).1);
  }

  lemma AdvanceKeepsPeak(s: State, t: nat, w: Window)
    requires t < |s.pcs| && s.pcs[t] != Idle && PeakFits(s, w)
    ensures var after := Advanced(s, t);
      PeakFits(after, w.(seen := Watched(w.seen, after, false, false)))
  {
    var after := Advanced(s, t);
    assert forall u :: 0 <= u < |s.pcs| && u != t ==> after.pcs[u] == s.pcs[u];
    if !w.seen.rebased { AdvanceReaches(s, t, w.seen.highest); }
    if s.pcs[t].Add? { AddReaches(s, t); }
  }

  lemma AdvanceKeepsAlone(s: State, t: nat, w: Window)
    requires t < |s.pcs| && s.pcs[t] != Idle && s.counts.armed
    requires CountFits(s, w) && AloneFits(s, w) && s.counts.inFlight <= w.seen.highest && s.live <= w.seen.liveHighest
    ensures var after := Advanced(s, t);
      AloneFits(after, w.(seen := Watched(w.seen, after, false, false)))
  {
    if w.seen.alone {
      PendingOfOne(s.pcs, t);
      AdvanceCounts(s, t);
    }
  }

  lemma AdvanceKeepsWindow(s: State, t: nat, w: Window)
    requires t < |s.pcs| && s.pcs[t] != Idle && s.counts.armed
    requires WindowFits(s, w)
    ensures var after := Advanced(s, t);
      WindowFits(after, w.(seen := Watched(w.seen, after, false, false)))
  {
    AdvanceCounts(s, t);
    AdvanceKeepsPeak(s, t, w);
    AdvanceKeepsAlone(s, t, w);
  }

  lemma ArmKeepsWindow(s: State, t: nat, w: Window)
    requires Enabled(s, ArmBy(t)) && s.hooked && WindowFits(s, w)
    ensures var after := Bare(s, ArmBy(t));
      WindowFits(after, w.(seen := Watched(w.seen, after, false, true)))
  {
  }

  lemma ArmOpensWindow(s: State, t: nat)
    requires Enabled(s, ArmBy(t)) && s.hooked
    ensures var after := Bare(s, ArmBy(t));
      WindowFits(after, after.windows[|s.windows|]) && Reaches(after, after.counts.inFlight) &&
      after.counts.inFlight == s.counts.inFlight && after.windows[|s.windows|].installed
  {
    PendingWhenIdle(s.pcs);
  }

  lemma DropKeepsWindow(s: State, t: nat, w: Window)
    requires Enabled(s, DropBy(t)) && WindowFits(s, w)
    ensures var after := Bare(s, DropBy(t));
      WindowFits(after, w.(seen := Watched(w.seen, after, false, false)))
  {
  }

  lemma StepKeepsFlags(s: State, a: Action)
    requires Inv(s) && Enabled(s, a)
    ensures FlagsFit(Apply(s, a)) && UnhookedFits(Apply(s, a))
  {
    match a
    case ArmBy(t) => ArmKeepsFlags(s, t);
    case DropBy(t) => DropKeepsFlags(s, t);
    case _ =>
  }

  lemma ArmKeepsFlags(s: State, t: nat)
    requires Inv(s) && Enabled(s, ArmBy(t))
    ensures FlagsFit(Apply(s, ArmBy(t))) && UnhookedFits(Apply(s, ArmBy(t)))
  {
  }

  lemma DropKeepsFlags(s: State, t: nat)
    requires Inv(s) && Enabled(s, DropBy(t))
    ensures FlagsFit(Apply(s, DropBy(t))) && UnhookedFits(Apply(s, DropBy(t)))
  {
  }

  /** A window that was open and stays open still fits. */
  lemma StepKeepsWindow(s: State, a: Action, i: nat)
    requires Inv(s) && Enabled(s, a) && s.hooked
    requires i < |s.windows| && i < |Apply(s, a).windows|
    ensures WindowFits(Apply(s, a), Apply(s, a).windows[i])
  {
    var bare := Bare(s, a);
    BareKeepsWindow(s, a, s.windows[i]);
    assert bare.windows[i] == s.windows[i];
    OnlyCountersMatter(bare, Apply(s, a), Apply(s, a).windows[i]);
  }

  lemma OnlyCountersMatter(s: State, r: State, w: Window)
    requires WindowFits(s, w) && s.counts == r.counts && s.live == r.live && s.pcs == r.pcs
    ensures WindowFits(r, w)
  {
  }

  lemma BareKeepsWindow(s: State, a: Action, w: Window)
    requires Enabled(s, a) && s.hooked && (a.Advance? ==> s.counts.armed) && WindowFits(s, w)
    ensures WindowFits(Bare(s, a), w.(seen := Watched(w.seen, Bare(s, a), Begins(a) && !Quiet(s), a.ArmBy?)))
  {
    if Begins(a) {
      BeginKeepsWindow(s, a.t, Change(a), FirstPc(a), w);
    } else if a.Advance? {
      AdvanceKeepsWindow(s, a.t, w);
    } else if a.ArmBy? {
      ArmKeepsWindow(s, a.t, w);
    } else {
      DropKeepsWindow(s, a.t, w);
    }
  }

  lemma StepKeepsReach(s: State, a: Action)
    requires Inv(s) && Enabled(s, a) && Apply(s, a).windows != []
    ensures Reaches(Apply(s, a), Apply(s, a).counts.inFlight)
  {
    var after := Apply(s, a);
    match a
    case Advance(t) =>
      AdvanceReaches(s, t, s.counts.inFlight);
      if s.pcs[t].Add? { AddReaches(s, t); }
      assert Reaches(Advanced(s, t), after.counts.inFlight);
      assert after.pcs == Advanced(s, t).pcs;
    case ArmBy(t) =>
    case DropBy(t) =>
      assert after.pcs == s.pcs;
    case _ =>
      if s.counts.peak < s.counts.inFlight {
        var u :| 0 <= u < |s.pcs| && s.pcs[u].RaisePeak? && s.pcs[u].now >= s.counts.inFlight;
        assert after.pcs[u] == s.pcs[u];
      }
  }

  lemma StepKeepsInv(s: State, a: Action)
    requires Inv(s) && Enabled(s, a)
    ensures Inv(Apply(s, a))
  {
    var after := Apply(s, a);
    StepKeepsFlags(s, a);
    if after.windows != [] { StepKeepsReach(s, a); }
    if s.hooked {
      forall i | 0 <= i < |after.windows| ensures WindowFits(after, after.windows[i]) {
        if i < |s.windows| { StepKeepsWindow(s, a, i); } else { ArmOpensWindow(s, a.t); }
      }
    }
  }

  /** The invariant holds at every point of every interleaving. */
  lemma {:induction false} RunsKeepInv(s: State, run: seq<Action>)
    requires Inv(s) && Legal(s, run)
    ensures Inv(Execute(s, run))
    decreases |run|
  {
    if run != [] {
      StepKeepsInv(s, run[0]);
      RunsKeepInv(Apply(s, run[0]), run[1..]);
    }
  }

  lemma StartFits(threads: nat, hooked: bool, live: nat)
    ensures Inv(Start(threads, hooked, live))
  {
  }

  // ---- what a window reads ------------------------------------------------

  /** At rest, every open window reads exactly the bytes live now over the bytes
      live when it opened, whatever was allocated before it or freed since. */
  lemma LiveBytesAreExact(s: State, i: nat)
    requires Inv(s) && Quiet(s) && i < |s.windows|
    ensures LiveBytes(s, i) == if s.hooked then Some(Max(s.live - s.windows[i].seen.liveAtArm, 0)) else None
  {
    PendingWhenIdle(s.pcs);
  }

  /** At rest, a window in which no other opened reads exactly the highest rise
      of the count; one in which others did reads no more than that and no less
      than what is live. */
  lemma PeakBytesAreExact(s: State, i: nat)
    requires Inv(s) && Quiet(s) && s.hooked && i < |s.windows|
    ensures PeakBytes(s, i).Some? && LiveBytes(s, i).Some?
    ensures LiveBytes(s, i).value <= PeakBytes(s, i).value <= s.windows[i].seen.highest - s.windows[i].baseline
    ensures !s.windows[i].seen.rebased ==> PeakBytes(s, i).value == s.windows[i].seen.highest - s.windows[i].baseline
  {
  }

  /** Against live bytes as the system allocator moves them: the rise of the
      count is off by no more than was ever under way, and by nothing when no
      two operations overlapped. */
  lemma PeakAgainstLiveBytes(s: State, i: nat)
    requires Inv(s) && Quiet(s) && s.hooked && i < |s.windows|
    requires !s.windows[i].seen.rebased
    ensures var o := s.windows[i].seen;
      var rise := o.liveHighest - o.liveAtArm;
      rise - o.mostUncharged <= PeakBytes(s, i).value <= rise + o.mostUndischarged &&
      (o.alone ==> PeakBytes(s, i).value == rise)
  {
    PeakBytesAreExact(s, i);
    PendingWhenIdle(s.pcs);
  }
}
