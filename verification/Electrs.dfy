/**
 The gate in front of the Electrs backend (electrs.rs, `call`). Any number of callers run at once;
 each goes through the steps below, and the clock may advance between any two steps. Times are in
 nanoseconds.
 */
module Electrs {
  import opened Prelude

  const CALL_SPACING: nat := 100_000_000
  const COOLDOWN: nat := 15_000_000_000
  const DEFAULT_TIMEOUT: nat := 30_000_000_000
  const HEALTH_TIMEOUT: nat := 5_000_000_000

  predicate Blocked(cooldownUntil: Option<nat>, now: nat) {
    cooldownUntil.Some? && now < cooldownUntil.value
  }

  /** How long a call sleeps: the spacing less the time since the last stamp. */
  function Wait(lastCall: Option<nat>, now: nat): nat {
    match lastCall
    case None => 0
    case Some(t) => SaturatingSub(CALL_SPACING, SaturatingSub(now, t))
  }

  // ---------------------------------------------------------------- the schedule

  datatype Phase =
    | Queued               // past the cooldown check, waiting for the permit
    | Permitted            // holds the permit
    | Measured(wait: nat)  // has computed its wait
    | Stamped(until: nat)  // has stamped `last_call`; sleeps until then
    | InFlight(deadline: nat) // the backend task was started and is awaited until then
    | Tripping(until: nat) // timed out; the end of the cooldown is not yet written

  /** `next` numbers the callers; `running` are the backend tasks started and not ended. */
  datatype State = State(
    now: nat,
    cooldownUntil: Option<nat>,
    lastCall: Option<nat>,
    next: nat,
    calls: map<nat, Phase>,
    holder: Option<nat>,
    running: set<nat>,
    dispatched: seq<nat>)

  const START := State(0, None, None, 0, map[], None, {}, [])

  datatype Step =
    | Elapse(d: nat)
    | Check               // a new caller reads the cooldown
    | Acquire(c: nat)
    | Measure(c: nat)
    | Stamp(c: nat)
    | Dispatch(c: nat, timeout: nat)
    | Answer(c: nat)
    | TimeOut(c: nat)
    | Trip(c: nat)
    | Abandon(c: nat)     // the caller is dropped at any point
    | TaskEnds(c: nat)    // the task of a call no longer awaited ends

  predicate Enabled(s: State, e: Step) {
    match e
    case Elapse(_) => true
    case Check => true
    case Acquire(c) => c in s.calls && s.calls[c] == Queued && s.holder == None
    case Measure(c) => c in s.calls && s.calls[c] == Permitted
    case Stamp(c) => c in s.calls && s.calls[c].Measured?
    case Dispatch(c, timeout) =>
      c in s.calls && s.calls[c].Stamped? && s.calls[c].until <= s.now
      && (timeout == DEFAULT_TIMEOUT || timeout == HEALTH_TIMEOUT)
    case Answer(c) => c in s.calls && s.calls[c].InFlight?
    case TimeOut(c) => c in s.calls && s.calls[c].InFlight? && s.calls[c].deadline <= s.now
    case Trip(c) => c in s.calls && s.calls[c].Tripping?
    case Abandon(c) => c in s.calls
    case TaskEnds(c) => c in s.running && (c in s.calls ==> !s.calls[c].InFlight?)
  }

  function Released(s: State, c: nat): State {
    s.(calls := s.calls - {c}, holder := if s.holder == Some(c) then None else s.holder)
  }

  function Next(s: State, e: Step): State {
    match e
    case Elapse(d) => s.(now := s.now + d)
    case Check =>
      s.(next := s.next + 1, calls := if Blocked(s.cooldownUntil, s.now) then s.calls else s.calls[s.next := Queued])
    case Acquire(c) => s.(calls := s.calls[c := Permitted], holder := Some(c))
    case Measure(c) => s.(calls := s.calls[c := Measured(Wait(s.lastCall, s.now))])
    case Stamp(c) =>
      if c in s.calls && s.calls[c].Measured? then
        s.(calls := s.calls[c := Stamped(s.now + s.calls[c].wait)], lastCall := Some(s.now))
      else s
    case Dispatch(c, timeout) =>
      s.(calls := s.calls[c := InFlight(s.now + timeout)], running := s.running + {c}, dispatched := s.dispatched + [s.now])
    case Answer(c) => Released(s, c).(running := s.running - {c})
    case TimeOut(c) => s.(calls := s.calls[c := Tripping(s.now + COOLDOWN)])
    case Trip(c) =>
      if c in s.calls && s.calls[c].Tripping? then
        Released(s, c).(cooldownUntil := Some(s.calls[c].until))
      else s
    case Abandon(c) => Released(s, c)
    case TaskEnds(c) => s.(running := s.running - {c})
  }

  function After(start: State, es: seq<Step>): State {
    if es == [] then start else Next(After(start, es[..|es| - 1]), es[|es| - 1])
  }

  predicate Run(start: State, es: seq<Step>) {
    es == [] || (Run(start, es[..|es| - 1]) && Enabled(After(start, es[..|es| - 1]), es[|es| - 1]))
  }

  lemma RunSnoc(start: State, es: seq<Step>, e: Step)
    requires Run(start, es) && Enabled(After(start, es), e)
    ensures Run(start, es + [e]) && After(start, es + [e]) == Next(After(start, es), e)
  {
    assert (es + [e])[..|es|] == es;
  }

  lemma RunOne(start: State, e: Step)
    requires Enabled(start, e)
    ensures Run(start, [e]) && After(start, [e]) == Next(start, e)
  {
    RunSnoc(start, [], e);
    assert [] + [e] == [e];
  }

  lemma {:induction false} RunConcat(start: State, a: seq<Step>, b: seq<Step>)
    requires Run(start, a) && Run(After(start, a), b)
    ensures Run(start, a + b) && After(start, a + b) == After(After(start, a), b)
    decreases |b|
  {
    if b == [] {
      assert a + b == a;
    } else {
      var n := |b| - 1;
      assert (a + b)[..|a + b| - 1] == a + b[..n];
      RunConcat(start, a, b[..n]);
    }
  }

  // ---------------------------------------------------------------- the permit

  /** One call at a time is past the queue, and callers are numbered apart. */
  ghost predicate PermitInv(s: State) {
    && (forall c :: c in s.calls && s.calls[c] != Queued ==> s.holder == Some(c))
    && (s.holder.Some? ==> s.holder.value in s.calls && s.calls[s.holder.value] != Queued)
    && (forall c :: c in s.calls || c in s.running ==> c < s.next)
    && (forall c :: c in s.calls && c in s.running ==> s.calls[c].InFlight? || s.calls[c].Tripping?)
  }

  lemma PermitStep(s: State, e: Step)
    requires PermitInv(s) && Enabled(s, e)
    ensures PermitInv(Next(s, e))
  {
  }

  /** The step makes call `c` stop waiting for its task, which goes on. */
  predicate Leaves(s: State, e: Step, c: nat) {
    e == TimeOut(c) || (e == Abandon(c) && c in s.calls && s.calls[c].InFlight?)
  }

  /** Call `c` timed out or was dropped while its task ran, and the task has not ended since. */
  ghost predicate LeftBehind(es: seq<Step>, c: nat) {
    exists i :: 0 <= i < |es| && Leaves(After(START, es[..i]), es[i], c) && !EndsIn(es, i, c)
  }

  ghost predicate EndsIn(es: seq<Step>, i: nat, c: nat) {
    exists j :: i < j < |es| && es[j] == TaskEnds(c)
  }

  lemma LeftBehindNext(es: seq<Step>, c: nat)
    requires es != []
    ensures var k := |es| - 1;
      LeftBehind(es, c) <==>
        Leaves(After(START, es[..k]), es[k], c) || (LeftBehind(es[..k], c) && es[k] != TaskEnds(c))
  {
    hide After, Leaves;
    var k := |es| - 1;
    var front := es[..k];
    if LeftBehind(front, c) && es[k] != TaskEnds(c) {
      var i :| 0 <= i < k && Leaves(After(START, front[..i]), front[i], c) && !EndsIn(front, i, c);
      assert front[..i] == es[..i];
      assert forall j :: i < j < k ==> front[j] == es[j];
      assert !EndsIn(es, i, c);
    }
    if Leaves(After(START, front), es[k], c) {
      assert !EndsIn(es, k, c);
    }
    if LeftBehind(es, c) {
      var i :| 0 <= i < |es| && Leaves(After(START, es[..i]), es[i], c) && !EndsIn(es, i, c);
      if i < k {
        assert front[..i] == es[..i];
        assert forall j :: i < j < k ==> front[j] == es[j];
        assert !EndsIn(front, i, c);
      }
    }
  }

  predicate Awaited(s: State, c: nat) {
    c in s.calls && s.calls[c].InFlight?
  }

  /** What one step does to the task of `c`, if it has one. */
  lemma TaskStep(s: State, e: Step, c: nat)
    requires PermitInv(s) && Enabled(s, e) && (Awaited(s, c) ==> c in s.running)
    ensures var s' := Next(s, e);
      (Awaited(s', c) ==> c in s'.running)
      && (c in s'.running && !Awaited(s', c) <==>
            Leaves(s, e, c) || (c in s.running && !Awaited(s, c) && e != TaskEnds(c)))
  {
  }

  /**
   A backend task runs if and only if its call awaits it or left it behind. At most one is awaited, and
   its call holds the permit.
   */
  lemma {:induction false} TasksAreAccounted(es: seq<Step>, c: nat)
    requires Run(START, es)
    ensures var s := After(START, es);
      (Awaited(s, c) ==> c in s.running && s.holder == Some(c))
      && (LeftBehind(es, c) <==> c in s.running && !Awaited(s, c))
    decreases |es|
  {
    if es != [] {
      var k := |es| - 1;
      var s := After(START, es[..k]);
      TasksAreAccounted(es[..k], c);
      CooldownHolds(es[..k]);
      CooldownHolds(es);
      TaskStep(s, es[k], c);
      LeftBehindNext(es, c);
      hide LeftBehind, Next, Leaves, CooldownInv;
    }
  }

  /** So two tasks run at once only if one of them was left behind by a timeout or a dropped call. */
  lemma OneTaskUnlessLeftBehind(es: seq<Step>, a: nat, b: nat)
    requires Run(START, es) && a != b && a in After(START, es).running && b in After(START, es).running
    ensures LeftBehind(es, a) || LeftBehind(es, b)
  {
    TasksAreAccounted(es, a);
    TasksAreAccounted(es, b);
  }

  // ---------------------------------------------------------------- spacing

  ghost predicate Spaced(ts: seq<nat>) {
    forall k :: 0 <= k < |ts| - 2 ==> SpacedAt(ts, k)
  }

  predicate SpacedAt(ts: seq<nat>, k: nat)
    requires k + 2 < |ts|
  {
    ts[k] + 100_000_000 <= ts[k + 2]
  }

  ghost predicate TimesInv(s: State) {
    && NonDecreasing(s.dispatched) && (forall i :: 0 <= i < |s.dispatched| ==> s.dispatched[i] <= s.now)
    && Spaced(s.dispatched)
    && (s.lastCall.Some? ==> s.lastCall.value <= s.now)
    && (s.dispatched != [] ==> s.lastCall.Some?)
    && (|s.dispatched| >= 2 ==> s.dispatched[|s.dispatched| - 2] <= s.lastCall.value)
  }

  /** What the call holding the permit knows about the times so far. */
  ghost predicate HolderInv(s: State, p: Phase) {
    var n := |s.dispatched|;
    match p
    case Measured(w) => s.lastCall.Some? ==> s.lastCall.value + CALL_SPACING <= s.now + w
    case Stamped(until) =>
      s.lastCall.Some? && (n >= 1 ==> s.dispatched[n - 1] <= s.lastCall.value)
      && (n >= 2 ==> s.dispatched[n - 2] + CALL_SPACING <= until)
    case _ => true
  }

  ghost predicate GateInv(s: State) {
    PermitInv(s) && TimesInv(s) && forall c :: c in s.calls ==> HolderInv(s, s.calls[c])
  }

  lemma DispatchStep(s: State, c: nat, timeout: nat)
    requires GateInv(s) && Enabled(s, Dispatch(c, timeout))
    ensures TimesInv(Next(s, Dispatch(c, timeout)))
  {
    var ts, ts' := s.dispatched, s.dispatched + [s.now];
    assert HolderInv(s, s.calls[c]);
    forall k | 0 <= k < |ts'| - 2 ensures SpacedAt(ts', k) {
      if k < |ts| - 2 {
        assert SpacedAt(ts, k);
      }
    }
  }

  lemma TimesStep(s: State, e: Step)
    requires GateInv(s) && Enabled(s, e)
    ensures TimesInv(Next(s, e))
  {
    if e.Dispatch? {
      DispatchStep(s, e.c, e.timeout);
    }
    hide Spaced, NonDecreasing;
  }

  lemma HolderStep(s: State, e: Step, c: nat)
    requires GateInv(s) && Enabled(s, e) && c in Next(s, e).calls
    ensures HolderInv(Next(s, e), Next(s, e).calls[c])
  {
    hide Spaced, NonDecreasing;
    assert c in s.calls ==> HolderInv(s, s.calls[c]);
  }

  lemma GateStep(s: State, e: Step)
    requires GateInv(s) && Enabled(s, e)
    ensures GateInv(Next(s, e))
  {
    PermitStep(s, e);
    TimesStep(s, e);
    forall c | c in Next(s, e).calls ensures HolderInv(Next(s, e), Next(s, e).calls[c]) {
      HolderStep(s, e, c);
    }
    hide PermitInv, TimesInv, HolderInv, Next, Enabled;
  }

  lemma {:induction false} GateHolds(es: seq<Step>)
    requires Run(START, es)
    ensures GateInv(After(START, es))
    decreases |es|
  {
    if es != [] {
      GateHolds(es[..|es| - 1]);
      GateStep(After(START, es[..|es| - 1]), es[|es| - 1]);
      hide GateInv, Next;
    }
  }

  /**
   Whatever the callers do, every dispatch comes at least the spacing after the one two before it.
   */
  lemma DispatchesAreSpaced(es: seq<Step>, k: nat)
    requires Run(START, es) && k + 2 < |After(START, es).dispatched|
    ensures var ts := After(START, es).dispatched;
      ts[k] + 100_000_000 <= ts[k + 2] && ts[k] <= ts[k + 1] <= ts[k + 2]
  {
    GateHolds(es);
    assert SpacedAt(After(START, es).dispatched, k);
  }

  lemma {:induction false} SpacedFar(ts: seq<nat>, i: nat, m: nat)
    requires Spaced(ts) && i + 2 * m < |ts|
    ensures ts[i] + m * 100_000_000 <= ts[i + 2 * m]
    decreases m
  {
    if m > 0 {
      SpacedFar(ts, i, m - 1);
      assert SpacedAt(ts, i + 2 * (m - 1));
    }
  }

  lemma WindowSize(ts: seq<nat>, i: nat, j: nat, w: nat)
    requires Spaced(ts) && NonDecreasing(ts) && i <= j < |ts| && ts[j] - ts[i] <= w
    ensures j - i + 1 <= 2 * (w / 100_000_000 + 1)
  {
    var m := w / 100_000_000 + 1;
    assert m * 100_000_000 > w;
    assert j - i >= 2 * m ==> ts[i + 2 * m] <= ts[j];
    if j - i >= 2 * m {
      SpacedFar(ts, i, m);
    }
  }

  /** So any window of `w` holds at most twice as many dispatches as spacings begun in it. */
  lemma DispatchesInWindow(es: seq<Step>, i: nat, j: nat, w: nat)
    requires Run(START, es) && i <= j < |After(START, es).dispatched|
    requires After(START, es).dispatched[j] - After(START, es).dispatched[i] <= w
    ensures j - i + 1 <= 2 * (w / 100_000_000 + 1)
  {
    GateHolds(es);
    hide Run, After, Spaced, NonDecreasing;
    WindowSize(After(START, es).dispatched, i, j, w);
  }

  // ---------------------------------------------------------------- cooldown

  ghost predicate CooldownInv(s: State) {
    && (s.cooldownUntil.Some? ==> s.cooldownUntil.value <= s.now + COOLDOWN)
    && (forall c :: c in s.calls && s.calls[c].Tripping? ==>
          s.calls[c].until <= s.now + COOLDOWN && !Later(s.cooldownUntil, s.calls[c].until))
  }

  predicate Later(cooldownUntil: Option<nat>, t: nat) {
    cooldownUntil.Some? && cooldownUntil.value > t
  }

  lemma CooldownStep(s: State, e: Step)
    requires PermitInv(s) && CooldownInv(s) && Enabled(s, e)
    ensures CooldownInv(Next(s, e))
    ensures s.cooldownUntil.Some? ==>
      Next(s, e).cooldownUntil.Some? && s.cooldownUntil.value <= Next(s, e).cooldownUntil.value
  {
  }

  /** Callers past the check that have not dispatched. */
  function Backlog(s: State): set<nat> {
    set c | c in s.calls && !s.calls[c].InFlight? && !s.calls[c].Tripping?
  }

  /** During a cooldown a new caller is turned away and the backlog only shrinks; a dispatch takes one out of it. */
  lemma BacklogStep(s: State, e: Step)
    requires PermitInv(s) && Enabled(s, e) && Blocked(s.cooldownUntil, s.now)
    ensures Next(s, e).calls.Keys <= s.calls.Keys
    ensures Backlog(Next(s, e)) <= Backlog(s)
    ensures e.Dispatch? ==> e.c in Backlog(s) && e.c !in Backlog(Next(s, e))
  {
  }

  lemma SubsetSize<T>(a: set<T>, b: set<T>)
    requires a <= b
    ensures |a| <= |b|
  {
    assert b == a + (b - a);
  }

  /**
   From any reachable state in cooldown, as long as the clock has not reached the end it had then:
   the cooldown never ends earlier, nobody joins, whoever dispatches was already past the check, and
   the dispatches made are covered by the callers that left the backlog.
   */
  lemma {:induction false} CooldownShields(before: seq<Step>, es: seq<Step>)
    requires Run(START, before) && Run(After(START, before), es)
    requires var s := After(START, before); s.cooldownUntil.Some? && After(s, es).now < s.cooldownUntil.value
    ensures var s := After(START, before); var s' := After(s, es);
      Shielded(s, s') && PermitInv(s') && CooldownInv(s')
      && forall i :: 0 <= i < |es| && es[i].Dispatch? ==> es[i].c in Backlog(s)
    decreases |es|
  {
    var s := After(START, before);
    if es == [] {
      CooldownHolds(before);
    } else {
      var k := |es| - 1;
      var t, e := After(s, es[..k]), es[k];
      assert After(s, es) == Next(t, e) && Run(s, es[..k]) && Enabled(t, e);
      ClockMonotone(t, e);
      hide *;
      CooldownShields(before, es[..k]);
      ShieldStep(s, t, e);
      forall i | 0 <= i < |es| && es[i].Dispatch? ensures es[i].c in Backlog(s) {
        if i < k {
          assert es[..k][i] == es[i];
        }
      }
    }
  }

  ghost predicate Shielded(s: State, s': State) {
    && s.cooldownUntil.Some? && s'.cooldownUntil.Some? && s.cooldownUntil.value <= s'.cooldownUntil.value
    && s'.calls.Keys <= s.calls.Keys && Backlog(s') <= Backlog(s)
    && |s'.dispatched| + |Backlog(s')| <= |s.dispatched| + |Backlog(s)|
  }

  lemma ShieldStep(s: State, t: State, e: Step)
    requires Shielded(s, t) && PermitInv(t) && CooldownInv(t) && Enabled(t, e)
    requires s.cooldownUntil.Some? && t.now < s.cooldownUntil.value
    ensures Shielded(s, Next(t, e)) && PermitInv(Next(t, e)) && CooldownInv(Next(t, e))
    ensures e.Dispatch? ==> e.c in Backlog(s)
  {
    BacklogStep(t, e);
    CooldownStep(t, e);
    PermitStep(t, e);
    DispatchCounts(t, e);
    hide Next, Enabled, Backlog, PermitInv, CooldownInv;
  }

  lemma DispatchCounts(s: State, e: Step)
    requires PermitInv(s) && Enabled(s, e) && Blocked(s.cooldownUntil, s.now)
    ensures |Next(s, e).dispatched| + |Backlog(Next(s, e))| <= |s.dispatched| + |Backlog(s)|
  {
    BacklogStep(s, e);
    var a, b := Backlog(Next(s, e)), Backlog(s);
    SubsetSize(a, b);
    if e.Dispatch? {
      SubsetSize(a, b - {e.c});
    }
  }

  lemma ClockMonotone(s: State, e: Step)
    ensures s.now <= Next(s, e).now
  {
  }

  /** A timed-out call still holds what it is about to write, or is gone. */
  ghost predicate StillTripping(s: State, c: nat, until: nat) {
    c < s.next && (c in s.calls ==> s.calls[c] == Tripping(until))
  }

  /** From a timeout on until it is written down, what is to be written stays the same. */
  lemma TripWrites(before: seq<Step>, i: nat, c: nat)
    requires Run(START, before) && i < |before| - 1
    requires before[i] == TimeOut(c) && before[|before| - 1] == Trip(c)
    ensures After(START, before).cooldownUntil == Some(After(START, before[..i]).now + 15_000_000_000)
  {
    var k := |before| - 1;
    TrippingFrom(before, i, k, c);
  }

  lemma {:induction false} TrippingFrom(before: seq<Step>, i: nat, k: nat, c: nat)
    requires i < k <= |before| && Run(START, before[..k]) && before[i] == TimeOut(c)
    ensures StillTripping(After(START, before[..k]), c, After(START, before[..i]).now + 15_000_000_000)
    decreases k
  {
    assert before[..k][..k - 1] == before[..k - 1];
    var s, e := After(START, before[..k - 1]), before[k - 1];
    CooldownHolds(before[..k - 1]);
    if k - 1 > i {
      TrippingFrom(before, i, k - 1, c);
    }
    TrippingStep(s, e, c);
    hide Next, Enabled, PermitInv, CooldownInv, StillTripping;
  }

  lemma TrippingStep(s: State, e: Step, c: nat)
    requires PermitInv(s) && Enabled(s, e)
    ensures e == TimeOut(c) ==> StillTripping(Next(s, e), c, s.now + 15_000_000_000)
    ensures forall until :: StillTripping(s, c, until) ==> StillTripping(Next(s, e), c, until)
  {
  }

  /**
   So for fifteen seconds from a timeout, once it is written down, nobody joins, and only callers that were
   past the check by then dispatch.
   */
  lemma TimeoutShields(before: seq<Step>, i: nat, c: nat, es: seq<Step>)
    requires Run(START, before) && i < |before| - 1
    requires before[i] == TimeOut(c) && before[|before| - 1] == Trip(c)
    requires var s := After(START, before);
      Run(s, es) && After(s, es).now < After(START, before[..i]).now + 15_000_000_000
    ensures var s := After(START, before);
      After(s, es).calls.Keys <= s.calls.Keys
      && forall j :: 0 <= j < |es| && es[j].Dispatch? ==> es[j].c in Backlog(s)
  {
    TripWrites(before, i, c);
    CooldownShields(before, es);
    hide Run, After, Backlog, PermitInv, CooldownInv;
  }

  /** A caller is let past the check unless a cooldown lasts longer than now. */
  lemma JoinsIff(before: seq<Step>)
    requires Run(START, before)
    ensures var s := After(START, before);
      s.next in Next(s, Check).calls <==> s.cooldownUntil.None? || s.cooldownUntil.value <= s.now
  {
    CooldownHolds(before);
  }

  lemma {:induction false} CooldownHolds(es: seq<Step>)
    requires Run(START, es)
    ensures PermitInv(After(START, es)) && CooldownInv(After(START, es))
    decreases |es|
  {
    if es != [] {
      var s := After(START, es[..|es| - 1]);
      CooldownHolds(es[..|es| - 1]);
      PermitStep(s, es[|es| - 1]);
      CooldownStep(s, es[|es| - 1]);
      hide PermitInv, CooldownInv, Next;
    }
  }

  // ---------------------------------------------------------------- the code

  datatype CallResult = Done | CooldownError | TimeoutError

  /** When the clock is read along one call; `ended` is when the answer came or the timeout struck. */
  datatype Times = Times(checked: nat, measured: nat, stamped: nat, dispatched: nat, ended: nat)

  /** The times of one call are in order, the sleep is long enough, and it times out no sooner than it may. */
  predicate Possible(lastCall: Option<nat>, t: Times, timeout: nat, answered: bool) {
    && t.checked <= t.measured <= t.stamped && t.stamped + Wait(lastCall, t.measured) <= t.dispatched <= t.ended
    && (timeout == DEFAULT_TIMEOUT || timeout == HEALTH_TIMEOUT)
    && (!answered ==> t.dispatched + timeout <= t.ended)
  }

  class Electrs {
    var cooldownUntil: Option<nat>
    var lastCall: Option<nat>

    constructor ()
      ensures cooldownUntil == None && lastCall == None
    {
      cooldownUntil := None;
      lastCall := None;
    }

    /** One call with nobody else at the gate; CallIsRun places it in the schedule. */
    method Call(t: Times, timeout: nat, answered: bool) returns (r: CallResult)
      requires Possible(lastCall, t, timeout, answered)
      modifies this
      ensures old(cooldownUntil).Some? && t.checked < old(cooldownUntil).value ==>
        r == CooldownError && cooldownUntil == old(cooldownUntil) && lastCall == old(lastCall)
      ensures old(cooldownUntil).None? || old(cooldownUntil).value <= t.checked ==>
        r == (if answered then Done else TimeoutError)
        && lastCall == Some(t.stamped)
        && cooldownUntil == if answered then old(cooldownUntil) else Some(t.ended + 15_000_000_000)
    {
      if cooldownUntil.Some? && t.checked < cooldownUntil.value {
        return CooldownError;
      }
      var elapsed := if lastCall.Some? then SaturatingSub(t.measured, lastCall.value) else 0;
      var wait := if lastCall.Some? then SaturatingSub(CALL_SPACING, elapsed) else 0;
      lastCall := Some(t.stamped);
      assert t.stamped + wait <= t.dispatched;
      if answered {
        return Done;
      }
      cooldownUntil := Some(t.ended + COOLDOWN);
      return TimeoutError;
    }
  }

  /** A state in which no call is under way. */
  predicate Quiet(s: State) {
    s.calls == map[] && s.holder == None
  }

  /** The state after one call alone. */
  function Called(s: State, t: Times, answered: bool): State {
    if Blocked(s.cooldownUntil, t.checked) then s.(now := t.checked, next := s.next + 1)
    else
      State(t.ended, if answered then s.cooldownUntil else Some(t.ended + COOLDOWN), Some(t.stamped), s.next + 1,
            map[], None, if answered then s.running else s.running + {s.next}, s.dispatched + [t.dispatched])
  }

  lemma EnterGate(s: State, t: Times)
    requires Quiet(s) && s.now <= t.checked <= t.measured && !Blocked(s.cooldownUntil, t.checked)
    ensures var c := s.next;
      var es := [Elapse(t.checked - s.now), Check, Acquire(c), Elapse(t.measured - t.checked)];
      Run(s, es) && After(s, es) == s.(now := t.measured, next := c + 1, calls := map[c := Permitted], holder := Some(c))
  {
    hide Run, After;
    var c := s.next;
    var e1 := [Elapse(t.checked - s.now)];
    RunOne(s, Elapse(t.checked - s.now));
    RunSnoc(s, e1, Check);
    var e2 := e1 + [Check];
    RunSnoc(s, e2, Acquire(c));
    var e3 := e2 + [Acquire(c)];
    RunSnoc(s, e3, Elapse(t.measured - t.checked));
    assert e3 + [Elapse(t.measured - t.checked)]
      == [Elapse(t.checked - s.now), Check, Acquire(c), Elapse(t.measured - t.checked)];
  }

  lemma StampGate(s: State, c: nat, t: Times)
    requires s.calls == map[c := Permitted] && s.now == t.measured <= t.stamped
    ensures var es := [Measure(c), Elapse(t.stamped - s.now), Stamp(c)];
      Run(s, es) && After(s, es) == s.(now := t.stamped, lastCall := Some(t.stamped),
                                       calls := map[c := Stamped(t.stamped + Wait(s.lastCall, t.measured))])
  {
    hide Run, After;
    var e1 := [Measure(c)];
    RunOne(s, Measure(c));
    RunSnoc(s, e1, Elapse(t.stamped - s.now));
    var e2 := e1 + [Elapse(t.stamped - s.now)];
    RunSnoc(s, e2, Stamp(c));
    assert e2 + [Stamp(c)] == [Measure(c), Elapse(t.stamped - s.now), Stamp(c)];
  }

  lemma LeaveSleep(s: State, c: nat, at: nat, timeout: nat)
    requires c in s.calls && s.calls == map[c := s.calls[c]] && s.calls[c].Stamped?
    requires s.now <= at && s.calls[c].until <= at && (timeout == DEFAULT_TIMEOUT || timeout == HEALTH_TIMEOUT)
    ensures var es := [Elapse(at - s.now), Dispatch(c, timeout)];
      Run(s, es) && After(s, es) == s.(now := at, calls := map[c := InFlight(at + timeout)],
                                       running := s.running + {c}, dispatched := s.dispatched + [at])
  {
    hide Run, After;
    RunOne(s, Elapse(at - s.now));
    RunSnoc(s, [Elapse(at - s.now)], Dispatch(c, timeout));
    assert [Elapse(at - s.now)] + [Dispatch(c, timeout)] == [Elapse(at - s.now), Dispatch(c, timeout)];
  }

  lemma PassGate(s: State, c: nat, t: Times, timeout: nat)
    requires timeout == DEFAULT_TIMEOUT || timeout == HEALTH_TIMEOUT
    requires s.calls == map[c := Permitted] && s.now == t.measured <= t.stamped
    requires t.stamped + Wait(s.lastCall, t.measured) <= t.dispatched
    ensures var es := [Measure(c), Elapse(t.stamped - s.now), Stamp(c), Elapse(t.dispatched - t.stamped), Dispatch(c, timeout)];
      Run(s, es) && After(s, es) == s.(now := t.dispatched, lastCall := Some(t.stamped),
                                       calls := map[c := InFlight(t.dispatched + timeout)],
                                       running := s.running + {c}, dispatched := s.dispatched + [t.dispatched])
  {
    hide Run, After;
    var a, b := [Measure(c), Elapse(t.stamped - s.now), Stamp(c)], [Elapse(t.dispatched - t.stamped), Dispatch(c, timeout)];
    StampGate(s, c, t);
    LeaveSleep(After(s, a), c, t.dispatched, timeout);
    RunConcat(s, a, b);
    assert a + b == [Measure(c), Elapse(t.stamped - s.now), Stamp(c), Elapse(t.dispatched - t.stamped), Dispatch(c, timeout)];
  }

  function EndSteps(c: nat, d: nat, answered: bool): seq<Step> {
    [Elapse(d)] + if answered then [Answer(c)] else [TimeOut(c), Trip(c)]
  }

  lemma LeaveGate(s: State, c: nat, d: nat, answered: bool)
    requires c in s.calls && s.calls == map[c := s.calls[c]] && s.calls[c].InFlight? && s.holder == Some(c) && c in s.running
    requires !answered ==> s.calls[c].deadline <= s.now + d
    ensures var es := EndSteps(c, d, answered);
      Run(s, es) && After(s, es) == s.(now := s.now + d, calls := map[], holder := None,
                                       running := if answered then s.running - {c} else s.running,
                                       cooldownUntil := if answered then s.cooldownUntil else Some(s.now + d + COOLDOWN))
  {
    hide Run, After;
    var e1 := [Elapse(d)];
    RunOne(s, Elapse(d));
    if answered {
      RunSnoc(s, e1, Answer(c));
    } else {
      RunSnoc(s, e1, TimeOut(c));
      RunSnoc(s, e1 + [TimeOut(c)], Trip(c));
      assert e1 + [TimeOut(c)] + [Trip(c)] == e1 + [TimeOut(c), Trip(c)];
    }
  }

  /** A call alone at the gate is a run of the schedule, with the effect `Call` has on the fields. */
  lemma CallIsRun(s: State, t: Times, timeout: nat, answered: bool) returns (es: seq<Step>)
    requires Quiet(s) && s.now <= t.checked && Possible(s.lastCall, t, timeout, answered) && s.next !in s.running
    ensures Run(s, es) && After(s, es) == Called(s, t, answered) && Quiet(Called(s, t, answered))
  {
    hide Run, After;
    if Blocked(s.cooldownUntil, t.checked) {
      RunOne(s, Elapse(t.checked - s.now));
      es := [Elapse(t.checked - s.now)];
      RunSnoc(s, es, Check);
      es := es + [Check];
    } else {
      var c := s.next;
      EnterGate(s, t);
      es := [Elapse(t.checked - s.now), Check, Acquire(c), Elapse(t.measured - t.checked)];
      var s1 := After(s, es);
      PassGate(s1, c, t, timeout);
      var more := [Measure(c), Elapse(t.stamped - s1.now), Stamp(c), Elapse(t.dispatched - t.stamped), Dispatch(c, timeout)];
      RunConcat(s, es, more);
      es := es + more;
      var s2 := After(s, es);
      LeaveGate(s2, c, t.ended - t.dispatched, answered);
      RunConcat(s, es, EndSteps(c, t.ended - t.dispatched, answered));
      es := es + EndSteps(c, t.ended - t.dispatched, answered);
      assert s2.running == s.running + {c};
      assert answered ==> s2.running - {c} == s.running;
    }
  }

  // ---------------------------------------------------------------- what the gate does not guarantee

  /** The earliest time at which the call can dispatch. */
  function ReadyAt(s: State, c: nat): nat
    requires c in Backlog(s)
  {
    match s.calls[c]
    case Queued => s.now + Wait(s.lastCall, s.now)
    case Permitted => s.now + Wait(s.lastCall, s.now)
    case Measured(wait) => s.now + wait
    case Stamped(until) => if until < s.now then s.now else until
  }

  lemma ReadyStep(s: State, e: Step, c: nat)
    requires PermitInv(s) && Enabled(s, e) && (s.lastCall.Some? ==> s.lastCall.value <= s.now)
    requires c in Backlog(s) && c in Backlog(Next(s, e))
    ensures ReadyAt(s, c) <= ReadyAt(Next(s, e), c)
  {
  }

  /** Nobody enters the backlog except through the check, under a new number. */
  lemma BacklogEntry(s: State, e: Step, c: nat)
    requires PermitInv(s) && Enabled(s, e) && c < s.next && c in Backlog(Next(s, e))
    ensures c in Backlog(s)
  {
  }

  lemma BacklogKnown(s: State, c: nat)
    requires PermitInv(s) && c in Backlog(s)
    ensures c < s.next
  {
  }

  lemma NextGrows(s: State, e: Step)
    ensures s.next <= Next(s, e).next
  {
  }

  /** However the others behave, no call gets ready earlier than it could have. */
  lemma {:induction false} ReadyLater(s: State, es: seq<Step>, c: nat)
    requires GateInv(s) && Run(s, es) && c in Backlog(s)
    ensures GateInv(After(s, es)) && c < After(s, es).next
    ensures c in Backlog(After(s, es)) ==> ReadyAt(s, c) <= ReadyAt(After(s, es), c)
    decreases |es|
  {
    if es == [] {
      BacklogKnown(s, c);
    } else {
      var k := |es| - 1;
      var t := After(s, es[..k]);
      ReadyLater(s, es[..k], c);
      GateStep(t, es[k]);
      NextGrows(t, es[k]);
      if c in Backlog(Next(t, es[k])) {
        BacklogEntry(t, es[k], c);
        ReadyStep(t, es[k], c);
      }
      hide GateInv, Next, Backlog, ReadyAt;
    }
  }

  lemma DispatchReady(s: State, e: Step)
    requires Enabled(s, e) && e.Dispatch?
    ensures e.c in Backlog(s) && ReadyAt(s, e.c) == s.now
  {
  }

  /** Everybody else giving way, a call does dispatch when it is ready. */
  lemma {:induction false} CanDispatch(s: State, c: nat) returns (es: seq<Step>)
    requires GateInv(s) && c in Backlog(s)
    ensures Run(s, es) && es != [] && es[|es| - 1] == Dispatch(c, DEFAULT_TIMEOUT)
    ensures After(s, es).now == ReadyAt(s, c) && After(s, es).dispatched == s.dispatched + [ReadyAt(s, c)]
    ensures After(s, es).cooldownUntil == s.cooldownUntil
    decreases match s.calls[c] case Queued => if s.holder == None then 4 else 5 case Permitted => 3 case Measured(_) => 2 case _ => 1
  {
    hide Run, After;
    if s.calls[c].Stamped? {
      var d := ReadyAt(s, c) - s.now;
      es := [Elapse(d)];
      RunOne(s, Elapse(d));
      RunSnoc(s, es, Dispatch(c, DEFAULT_TIMEOUT));
      es := es + [Dispatch(c, DEFAULT_TIMEOUT)];
    } else {
      var e := NextMove(s, c);
      GateStep(s, e);
      RunOne(s, e);
      var more := CanDispatch(Next(s, e), c);
      hide GateInv, Next, Backlog, ReadyAt;
      RunConcat(s, [e], more);
      es := [e] + more;
    }
  }

  /** How the permit gets free at once: the awaited task answers, or the call is dropped. */
  function Leave(s: State, c: nat): Step
    requires c in s.calls
  {
    if s.calls[c].InFlight? then Answer(c) else Abandon(c)
  }

  /** The next step that brings the call nearer to its dispatch, and does not make it later. */
  function NextMove(s: State, c: nat): (e: Step)
    requires GateInv(s) && c in Backlog(s) && !s.calls[c].Stamped?
    ensures Enabled(s, e) && c in Backlog(Next(s, e)) && ReadyAt(Next(s, e), c) == ReadyAt(s, c)
    ensures Next(s, e).dispatched == s.dispatched && Next(s, e).cooldownUntil == s.cooldownUntil
    ensures e == match s.calls[c]
      case Queued => if s.holder.Some? then Leave(s, s.holder.value) else Acquire(c)
      case Permitted => Measure(c)
      case _ => Stamp(c)
  {
    match s.calls[c]
    case Queued => if s.holder.Some? then Leave(s, s.holder.value) else Acquire(c)
    case Permitted => Measure(c)
    case _ => Stamp(c)
  }

  // No dispatch in cooldown?

  /** The run ends with `c` dispatching before the end the cooldown had in `s`. */
  ghost predicate DispatchesInCooldown(s: State, es: seq<Step>, c: nat) {
    && es != [] && Run(s, es) && es[|es| - 1].Dispatch? && es[|es| - 1].c == c
    && s.cooldownUntil.Some? && After(s, es).now < s.cooldownUntil.value
  }

  /**
   From a reachable state in cooldown a caller may dispatch before its end if and only if it is past the
   check already and can be ready by then.
   */
  lemma CooldownDispatchIff(before: seq<Step>, c: nat)
    requires Run(START, before) && Blocked(After(START, before).cooldownUntil, After(START, before).now)
    ensures var s := After(START, before);
      (exists es :: DispatchesInCooldown(s, es, c)) <==> c in Backlog(s) && ReadyAt(s, c) < s.cooldownUntil.value
  {
    var s := After(START, before);
    GateHolds(before);
    if es :| DispatchesInCooldown(s, es, c) {
      OnlyTheReady(before, es, c);
    }
    if c in Backlog(s) && ReadyAt(s, c) < s.cooldownUntil.value {
      var es := CanDispatch(s, c);
      assert DispatchesInCooldown(s, es, c);
    }
  }

  lemma OnlyTheReady(before: seq<Step>, es: seq<Step>, c: nat)
    requires Run(START, before) && DispatchesInCooldown(After(START, before), es, c)
    ensures c in Backlog(After(START, before)) && ReadyAt(After(START, before), c) <= After(After(START, before), es).now
  {
    var s := After(START, before);
    var k := |es| - 1;
    var t := After(s, es[..k]);
    CooldownShields(before, es);
    GateHolds(before);
    ReadyLater(s, es[..k], c);
    DispatchReady(t, es[k]);
    ClockMonotone(t, es[k]);
    hide GateInv, Backlog, ReadyAt;
  }

  // 100 ms from one dispatch to the next?

  /** Every later dispatch keeps its distance from the stamp `p`. */
  ghost predicate Floor(s: State, n: nat, p: nat) {
    && s.lastCall.Some? && p <= s.lastCall.value <= s.now
    && (forall i :: n <= i < |s.dispatched| ==> p + CALL_SPACING <= s.dispatched[i])
    && (forall c :: c in s.calls && s.calls[c].Measured? ==> p + CALL_SPACING <= s.now + s.calls[c].wait)
    && (forall c :: c in s.calls && s.calls[c].Stamped? ==> p + CALL_SPACING <= s.calls[c].until)
  }

  lemma FloorStep(s: State, e: Step, n: nat, p: nat)
    requires Floor(s, n, p) && Enabled(s, e)
    ensures Floor(Next(s, e), n, p)
  {
  }

  lemma {:induction false} FloorHolds(s: State, es: seq<Step>, n: nat, p: nat)
    requires Floor(s, n, p) && Run(s, es)
    ensures Floor(After(s, es), n, p)
    decreases |es|
  {
    if es != [] {
      FloorHolds(s, es[..|es| - 1], n, p);
      FloorStep(After(s, es[..|es| - 1]), es[|es| - 1], n, p);
      hide Floor, Next;
    }
  }

  lemma StampBeforeDispatch(before: seq<Step>)
    requires before != [] && Run(START, before) && before[|before| - 1].Dispatch?
    ensures var s := After(START, before); var n := |s.dispatched|;
      n > 0 && s.dispatched[n - 1] == s.now && s.lastCall.Some? && s.lastCall.value <= s.now
      && Floor(s, n, s.lastCall.value) && GateInv(s)
      && forall c :: c in Backlog(s) ==> s.calls[c] == Queued
  {
    GateHolds(before);
    GateHolds(before[..|before| - 1]);
  }

  /**
   After a dispatch whose call stamped `last_call` at `p`, every later dispatch comes at least the
   spacing after `p`, whatever anybody does.
   */
  lemma LaterDispatchesClearTheStamp(before: seq<Step>, es: seq<Step>, i: nat)
    requires before != [] && Run(START, before) && before[|before| - 1].Dispatch? && Run(After(START, before), es)
    requires var s := After(START, before); |s.dispatched| <= i < |After(s, es).dispatched|
    ensures var s := After(START, before);
      s.lastCall.Some? && s.lastCall.value + 100_000_000 <= After(s, es).dispatched[i]
  {
    var s := After(START, before);
    StampBeforeDispatch(before);
    FloorHolds(s, es, |s.dispatched|, s.lastCall.value);
  }

  /** Whatever happens next, the next dispatch keeps its distance from the one just made. */
  ghost predicate NextIsSpaced(s: State) {
    forall es :: Run(s, es) && |After(s, es).dispatched| > |s.dispatched| ==>
      s.now + 100_000_000 <= After(s, es).dispatched[|s.dispatched|]
  }

  /** Nobody is past the check, and the cooldown outlasts the spacing. */
  predicate CooldownCovers(s: State) {
    Backlog(s) == {} && s.cooldownUntil.Some? && s.now + 100_000_000 <= s.cooldownUntil.value
  }

  lemma {:induction false} NobodyInCooldown(before: seq<Step>, es: seq<Step>)
    requires Run(START, before) && Backlog(After(START, before)) == {} && Run(After(START, before), es)
    requires After(START, before).cooldownUntil.Some?
    ensures var s := After(START, before); var ts := After(s, es).dispatched;
      |s.dispatched| <= |ts| && forall i :: |s.dispatched| <= i < |ts| ==> s.cooldownUntil.value <= ts[i]
    decreases |es|
  {
    if es != [] {
      var k := |es| - 1;
      var s, t := After(START, before), After(After(START, before), es[..k]);
      NobodyInCooldown(before, es[..k]);
      DispatchLog(t, es[k]);
      if es[k].Dispatch? && t.now < s.cooldownUntil.value {
        OnlyTheReady(before, es, es[k].c);
      }
      hide Next, Enabled, Backlog;
    }
  }

  lemma DispatchLog(s: State, e: Step)
    ensures Next(s, e).dispatched == if e.Dispatch? then s.dispatched + [s.now] else s.dispatched
    ensures e.Dispatch? ==> Next(s, e).now == s.now
  {
  }

  /** A caller that checks as soon as it may, once `p` is stamped. */
  lemma Newcomer(s: State, at: nat) returns (es: seq<Step>)
    requires GateInv(s) && s.now <= at && !Blocked(s.cooldownUntil, at)
    ensures Run(s, es) && |After(s, es).dispatched| == |s.dispatched| + 1
    ensures After(s, es).dispatched[|s.dispatched|] == at + Wait(s.lastCall, at)
  {
    hide Run, After;
    var e := [Elapse(at - s.now)];
    RunOne(s, Elapse(at - s.now));
    RunSnoc(s, e, Check);
    var s1 := Next(s, Elapse(at - s.now));
    var s2 := Next(s1, Check);
    GateStep(s, Elapse(at - s.now));
    GateStep(s1, Check);
    assert s.next in Backlog(s2) && ReadyAt(s2, s.next) == at + Wait(s.lastCall, at);
    var more := CanDispatch(s2, s.next);
    RunConcat(s, e + [Check], more);
    es := e + [Check] + more;
  }

  lemma GuaranteedSpacing(before: seq<Step>, es: seq<Step>)
    requires before != [] && Run(START, before) && before[|before| - 1].Dispatch? && Run(After(START, before), es)
    requires var s := After(START, before);
      (s.lastCall == Some(s.now) || CooldownCovers(s)) && |After(s, es).dispatched| > |s.dispatched|
    ensures var s := After(START, before); s.now + CALL_SPACING <= After(s, es).dispatched[|s.dispatched|]
  {
    hide Run, After, Backlog;
    var s := After(START, before);
    LaterDispatchesClearTheStamp(before, es, |s.dispatched|);
    if CooldownCovers(s) {
      NobodyInCooldown(before, es);
    }
  }

  /**
   The spacing from a dispatch to the next is guaranteed if and only if the dispatching call did not
   sleep, or a cooldown with nobody past the check outlasts it.
   */
  lemma AdjacentSpacingIff(before: seq<Step>)
    requires before != [] && Run(START, before) && before[|before| - 1].Dispatch?
    ensures var s := After(START, before);
      NextIsSpaced(s) <==> s.lastCall == Some(s.now) || CooldownCovers(s)
  {
    hide Run, After, Backlog, GateInv, Floor, CooldownCovers;
    var s := After(START, before);
    StampBeforeDispatch(before);
    if s.lastCall == Some(s.now) || CooldownCovers(s) {
      forall es | Run(s, es) && |After(s, es).dispatched| > |s.dispatched|
        ensures s.now + CALL_SPACING <= After(s, es).dispatched[|s.dispatched|]
      {
        GuaranteedSpacing(before, es);
      }
    } else {
      var es := TooSoon(s);
      assert !(s.now + CALL_SPACING <= After(s, es).dispatched[|s.dispatched|]);
    }
  }

  lemma TooSoon(s: State) returns (es: seq<Step>)
    requires GateInv(s) && s.lastCall.Some? && s.lastCall.value < s.now && !CooldownCovers(s)
    requires forall c :: c in Backlog(s) ==> s.calls[c] == Queued
    ensures Run(s, es) && |After(s, es).dispatched| == |s.dispatched| + 1
    ensures After(s, es).dispatched[|s.dispatched|] < s.now + CALL_SPACING
  {
    hide Run, After;
    if c :| c in Backlog(s) {
      es := CanDispatch(s, c);
    } else {
      assert Backlog(s) == {};
      es := Newcomer(s, if Blocked(s.cooldownUntil, s.now) then s.cooldownUntil.value else s.now);
    }
  }

  // Runs that show it

  /** Adjacent dispatches may coincide: the stamp is taken before the sleep. */
  lemma AdjacentDispatchesMayCoincide() returns (es: seq<Step>)
    ensures Run(START, es) && After(START, es).dispatched == [0, 100_000_000, 100_000_000]
  {
    var s := CALL_SPACING;
    var a := CallIsRun(START, Times(0, 0, 0, 0, 0), DEFAULT_TIMEOUT, true);
    var s1 := Called(START, Times(0, 0, 0, 0, 0), true);
    var b := CallIsRun(s1, Times(0, 0, 0, s, s), DEFAULT_TIMEOUT, true);
    var s2 := Called(s1, Times(0, 0, 0, s, s), true);
    var c := CallIsRun(s2, Times(s, s, s, s, s), DEFAULT_TIMEOUT, true);
    hide Run, After;
    RunConcat(START, a, b);
    RunConcat(START, a + b, c);
    es := a + b + c;
  }

  /** Two backend tasks may run at once: a timed-out one keeps running past the cooldown. */
  lemma TwoTasksMayRun() returns (es: seq<Step>)
    ensures Run(START, es) && After(START, es).running == {0, 1}
  {
    var t0 := Times(0, 0, 0, 0, DEFAULT_TIMEOUT);
    var u := DEFAULT_TIMEOUT + COOLDOWN;
    var a := CallIsRun(START, t0, DEFAULT_TIMEOUT, false);
    var s1 := Called(START, t0, false);
    var b := CallIsRun(s1, Times(u, u, u, u, u + DEFAULT_TIMEOUT), DEFAULT_TIMEOUT, false);
    hide Run, After;
    RunConcat(START, a, b);
    es := a + b;
  }

  /** Two callers are past the check, and the first is about to dispatch. */
  lemma TwoPastTheCheck() returns (es: seq<Step>)
    ensures Run(START, es) && After(START, es)
      == State(0, None, Some(0), 2, map[0 := Stamped(0), 1 := Queued], Some(0), {}, [])
  {
    hide Run, After;
    RunOne(START, Check);
    es := [Check];
    RunSnoc(START, es, Check);
    es := es + [Check];
    RunSnoc(START, es, Acquire(0));
    es := es + [Acquire(0)];
    RunSnoc(START, es, Measure(0));
    es := es + [Measure(0)];
    RunSnoc(START, es, Stamp(0));
    es := es + [Stamp(0)];
  }

  /** The first of two callers times out after thirty seconds: the second is queued in the cooldown. */
  lemma QueuedInCooldown() returns (es: seq<Step>)
    ensures Run(START, es) && After(START, es)
      == State(DEFAULT_TIMEOUT, Some(DEFAULT_TIMEOUT + COOLDOWN), Some(0), 2, map[1 := Queued], None, {0}, [0])
  {
    hide Run, After;
    es := TwoPastTheCheck();
    RunSnoc(START, es, Dispatch(0, DEFAULT_TIMEOUT));
    es := es + [Dispatch(0, DEFAULT_TIMEOUT)];
    RunSnoc(START, es, Elapse(DEFAULT_TIMEOUT));
    es := es + [Elapse(DEFAULT_TIMEOUT)];
    RunSnoc(START, es, TimeOut(0));
    es := es + [TimeOut(0)];
    RunSnoc(START, es, Trip(0));
    es := es + [Trip(0)];
  }

  /** The cooldown is checked only before queuing: a caller queued by then dispatches during the cooldown. */
  lemma QueuedCallerMayDispatchInCooldown() returns (es: seq<Step>)
    ensures Run(START, es) && After(START, es).dispatched == [0, 30_000_000_000]
    ensures Blocked(After(START, es).cooldownUntil, After(START, es).now)
  {
    es := QueuedInCooldown();
    GateHolds(es);
    hide Run, After;
    var s := After(START, es);
    var more := CanDispatch(s, 1);
    RunConcat(START, es, more);
    es := es + more;
  }
}
