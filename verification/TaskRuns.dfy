/** Whole runs of one timed task: reconciles happen at creation and at or after the requested
    requeue time, never before. */
module TaskRuns {
  import opened Wrappers
  import opened TaskTimer

  /** A reconcile at time `now`. */
  datatype Event = Event(now: int, ready: bool, took: int)

  /** A dispatch at time `at` under the ExecuteTime `due`. */
  datatype Dispatch = Dispatch(at: int, due: int)

  /** `plans` are the times at which the task was put into phase Scheduled. */
  datatype Machine = Machine(st: Status, wake: Option<int>, dispatches: seq<Dispatch>, plans: seq<int>)

  function Created(t0: int): Machine {
    Machine(Status(Fresh, None, false), Some(t0), [], [])
  }

  predicate Planning(spec: Spec, m: Machine, ev: Event) {
    var out := Reconciled(spec, m.st, ev.now, ev.ready, ev.took);
    m.st.phase != Scheduled && out.status.phase == Scheduled
  }

  function Stepped(spec: Spec, m: Machine, ev: Event): Machine {
    var out := Reconciled(spec, m.st, ev.now, ev.ready, ev.took);
    Machine(out.status, out.wake,
      if out.dispatched then
        m.dispatches + [Dispatch(ev.now, if m.st.executeTime.Some? then m.st.executeTime.value else ev.now)]
      else m.dispatches,
      if Planning(spec, m, ev) then m.plans + [ev.now] else m.plans)
  }

  predicate Due(m: Machine, ev: Event) {
    m.wake.Some? && m.wake.value <= ev.now && SETTLE <= ev.took
  }

  ghost function Exec(spec: Spec, t0: int, events: seq<Event>): Machine {
    if events == [] then Created(t0)
    else Stepped(spec, Exec(spec, t0, events[..|events| - 1]), events[|events| - 1])
  }

  ghost predicate Legal(spec: Spec, t0: int, events: seq<Event>) {
    events != [] ==>
      Legal(spec, t0, events[..|events| - 1]) &&
      Due(Exec(spec, t0, events[..|events| - 1]), events[|events| - 1])
  }

  ghost predicate Timed(spec: Spec) {
    !spec.OneShot() && spec.hasTargets && (spec.schedule.Some? ==> Forward(spec.schedule.value))
  }

  // ---------- progress ----------

  /** The one way to be planned without a requeue: the fixed run time is this very second and no time
      is left after it. */
  ghost predicate PlannedTooLate(spec: Spec, st: Status, now: int) {
    st.phase != Scheduled && spec.schedule.None? && spec.runTime == Some(now) && spec.offset <= 0
  }

  /** Whichever branch a reconcile takes, if it leaves the task Scheduled it asks for a strictly
      later requeue, except exactly when the task was planned too late. */
  lemma PlannedProgress(spec: Spec, st: Status, now: int, ready: bool, took: int)
    requires Timed(spec) && !st.deleted
    ensures var out := Reconciled(spec, st, now, ready, took);
      out.status.phase == Scheduled ==>
        && (out.wake.Some? ==> now < out.wake.value)
        && (out.wake.None? <==> PlannedTooLate(spec, st, now))
  {
  }

  lemma {:induction false} LegalPrefix(spec: Spec, t0: int, events: seq<Event>, k: nat)
    requires k <= |events| && Legal(spec, t0, events)
    ensures Legal(spec, t0, events[..k])
    ensures k < |events| ==> Due(Exec(spec, t0, events[..k]), events[k])
    decreases |events|
  {
    if k == |events| {
      assert events[..k] == events;
    } else if k < |events| - 1 {
      LegalPrefix(spec, t0, events[..|events| - 1], k);
      assert events[..|events| - 1][..k] == events[..k];
    }
  }

  /** A reconcile that leaves a task Scheduled is the last one of every run it occurs in if and only if
      it planned the task too late: such a task stays Scheduled for ever. */
  lemma ScheduledForEverExactly(spec: Spec, t0: int, events: seq<Event>, ev: Event)
    requires Timed(spec) && Legal(spec, t0, events + [ev]) && !Exec(spec, t0, events).st.deleted
    requires Exec(spec, t0, events + [ev]).st.phase == Scheduled
    ensures (forall more :: Legal(spec, t0, events + [ev] + more) ==> more == []) <==>
      PlannedTooLate(spec, Exec(spec, t0, events).st, ev.now)
  {
    var upTo := events + [ev];
    assert upTo[..|upTo| - 1] == events;
    var m := Exec(spec, t0, upTo);
    PlannedProgress(spec, Exec(spec, t0, events).st, ev.now, ev.ready, ev.took);
    if m.wake.None? {
      forall more | Legal(spec, t0, upTo + more) ensures more == [] {
        LegalPrefix(spec, t0, upTo + more, |upTo|);
        assert (upTo + more)[..|upTo|] == upTo;
      }
    } else {
      var next := Event(m.wake.value, true, SETTLE);
      var longer := upTo + [next];
      assert longer[..|longer| - 1] == upTo;
      assert Legal(spec, t0, upTo + [next]);
    }
  }

  // ---------- never early ----------

  ghost predicate Punctual(m: Machine) {
    && (m.st.phase == Scheduled ==> m.st.executeTime.Some? && (m.wake.Some? ==> m.st.executeTime.value <= m.wake.value))
    && (forall d :: d in m.dispatches ==> d.due <= d.at)
  }

  lemma PunctualStep(spec: Spec, m: Machine, ev: Event)
    requires Timed(spec) && Punctual(m) && Due(m, ev)
    ensures Punctual(Stepped(spec, m, ev))
  {
    var m' := Stepped(spec, m, ev);
    forall d | d in m'.dispatches ensures d.due <= d.at {
      if d !in m.dispatches { assert d == m'.dispatches[|m.dispatches|]; }
    }
  }

  /** Every dispatch happens at or after the ExecuteTime recorded when it was planned. */
  lemma {:induction false} NeverEarly(spec: Spec, t0: int, events: seq<Event>)
    requires Timed(spec) && Legal(spec, t0, events)
    ensures Punctual(Exec(spec, t0, events))
  {
    if events != [] {
      NeverEarly(spec, t0, events[..|events| - 1]);
      PunctualStep(spec, Exec(spec, t0, events[..|events| - 1]), events[|events| - 1]);
    }
  }

  // ---------- cron schedules with an end ----------

  /** The shortest time from one planning to the next: the dispatch in between lasts at least
      SETTLE and is followed by a REQUEUE wait. */
  const CYCLE := SETTLE + REQUEUE

  /** The shortest time from one planning of a cron task to the next: it is never due at once. */
  const CRON_CYCLE := CYCLE + 1

  ghost predicate CronPaced(spec: Spec, t0: int, m: Machine)
    requires spec.runTime.Some?
  {
    var n := |m.plans|;
    && |m.dispatches| == (if m.st.phase == Scheduled then n - 1 else n)
    && (forall k :: 0 <= k < n ==> m.plans[0] + CRON_CYCLE * k <= m.plans[k] < spec.runTime.value)
    && (n > 0 ==> t0 <= m.plans[0])
    && (m.wake.Some? ==>
          if n == 0 then t0 <= m.wake.value
          else m.plans[n - 1] + (if m.st.phase == Scheduled then 1 else CRON_CYCLE) <= m.wake.value)
    && (m.st.executeTime.Some? ==> m.st.executeTime.value <= spec.runTime.value)
    && (m.st.phase == Scheduled ==> m.st.executeTime.Some?)
    && (forall d :: d in m.dispatches ==> d.due <= spec.runTime.value)
  }

  lemma CronDues(spec: Spec, t0: int, m: Machine, ev: Event)
    requires Timed(spec) && spec.schedule.Some? && spec.runTime.Some? && CronPaced(spec, t0, m)
    ensures forall d :: d in Stepped(spec, m, ev).dispatches ==> d.due <= spec.runTime.value
  {
    var m' := Stepped(spec, m, ev);
    forall d | d in m'.dispatches ensures d.due <= spec.runTime.value {
      if d !in m.dispatches { assert d == m'.dispatches[|m.dispatches|]; }
    }
  }

  lemma CronPlans(spec: Spec, t0: int, m: Machine, ev: Event)
    requires Timed(spec) && spec.schedule.Some? && spec.runTime.Some?
    requires CronPaced(spec, t0, m) && Due(m, ev) && Planning(spec, m, ev)
    ensures CronPaced(spec, t0, Stepped(spec, m, ev))
  {
    var n, m' := |m.plans|, Stepped(spec, m, ev);
    PlannedFor(spec, m.st, ev.now, ev.ready, ev.took);
    if n > 0 { assert m.plans[0] + CRON_CYCLE * (n - 1) <= m.plans[n - 1]; }
    assert m'.plans == m.plans + [ev.now] && m'.dispatches == m.dispatches;
  }

  lemma CronStep(spec: Spec, t0: int, m: Machine, ev: Event)
    requires Timed(spec) && spec.schedule.Some? && spec.runTime.Some?
    requires CronPaced(spec, t0, m) && Due(m, ev)
    ensures CronPaced(spec, t0, Stepped(spec, m, ev))
  {
    if Planning(spec, m, ev) {
      CronPlans(spec, t0, m, ev);
    } else {
      assert Stepped(spec, m, ev).plans == m.plans;
      CronDues(spec, t0, m, ev);
    }
  }

  lemma {:induction false} CronRun(spec: Spec, t0: int, events: seq<Event>)
    requires Timed(spec) && spec.schedule.Some? && spec.runTime.Some? && Legal(spec, t0, events)
    ensures CronPaced(spec, t0, Exec(spec, t0, events))
  {
    if events != [] {
      CronRun(spec, t0, events[..|events| - 1]);
      CronStep(spec, t0, Exec(spec, t0, events[..|events| - 1]), events[|events| - 1]);
    }
  }

  /** How often a cron task can be dispatched that is first planned at `from` and ends at `end`. */
  function MostCron(from: int, end: int): int {
    if end <= from then 0 else (end - from - 1) / CRON_CYCLE + 1
  }

  lemma MostCronMeans(from: int, end: int, n: nat)
    requires n >= 1
    ensures n <= MostCron(from, end) <==> from + CRON_CYCLE * (n - 1) < end
  {
  }

  /** A cron task with an end time never plans past the end, and runs a bounded number of times:
      one more for every full cycle between its first planning and the end. */
  lemma CronBounded(spec: Spec, t0: int, events: seq<Event>)
    requires Timed(spec) && spec.schedule.Some? && spec.runTime.Some? && Legal(spec, t0, events)
    ensures var m := Exec(spec, t0, events);
      && (m.st.executeTime.Some? ==> m.st.executeTime.value <= spec.runTime.value)
      && (m.plans == [] ==> m.dispatches == [])
      && (m.plans != [] ==> t0 <= m.plans[0] && |m.dispatches| <= MostCron(m.plans[0], spec.runTime.value))
  {
    CronRun(spec, t0, events);
    var m := Exec(spec, t0, events);
    if m.plans != [] {
      var k := |m.plans| - 1;
      assert m.plans[0] + CRON_CYCLE * k <= m.plans[k] < spec.runTime.value;
      MostCronMeans(m.plans[0], spec.runTime.value, k + 1);
    }
  }

  // ---------- cron schedules keep running ----------

  ghost predicate Rested(m: Machine) {
    m.st.phase != Scheduled && m.st.phase != Archiving && !m.st.deleted && m.wake.Some?
  }

  lemma TwoMore(spec: Spec, t0: int, events: seq<Event>, a: Event, b: Event)
    requires Legal(spec, t0, events) && Due(Exec(spec, t0, events), a)
    requires Due(Stepped(spec, Exec(spec, t0, events), a), b)
    ensures Legal(spec, t0, events + [a, b])
    ensures Exec(spec, t0, events + [a, b]) == Stepped(spec, Stepped(spec, Exec(spec, t0, events), a), b)
  {
    var one := events + [a];
    var two := events + [a, b];
    assert one[..|one| - 1] == events && two[..|two| - 1] == one;
  }

  /** A cron task at rest whose end is not passed goes on to its next dispatch. */
  lemma CronRound(spec: Spec, t0: int, events: seq<Event>) returns (longer: seq<Event>)
    requires Timed(spec) && spec.schedule.Some? && Legal(spec, t0, events) && Rested(Exec(spec, t0, events))
    requires var now := Exec(spec, t0, events).wake.value;
      spec.runTime.Some? ==> spec.schedule.value(now) <= spec.runTime.value
    ensures Legal(spec, t0, longer)
    ensures var m, m' := Exec(spec, t0, events), Exec(spec, t0, longer);
      && Rested(m') && |m'.dispatches| == |m.dispatches| + 1
      && (spec.offset == 0 ==> m'.wake == Some(spec.schedule.value(m.wake.value) + CYCLE))
  {
    var m := Exec(spec, t0, events);
    var plan := Event(m.wake.value, true, SETTLE);
    var planned := Stepped(spec, m, plan);
    PlannedExactly(spec, m.st, plan.now, true, SETTLE);
    PlannedFor(spec, m.st, plan.now, true, SETTLE);
    assert planned.st.phase == Scheduled && planned.wake.Some? && planned.dispatches == m.dispatches;
    var dispatch := Event(planned.wake.value, true, SETTLE);
    DispatchedExactly(spec, planned.st, dispatch.now, true, SETTLE);
    TwoMore(spec, t0, events, plan, dispatch);
    longer := events + [plan, dispatch];
  }

  /** A cron task without an end can be dispatched any number of times. */
  lemma {:induction false} CronRunsOn(spec: Spec, t0: int, n: nat) returns (events: seq<Event>)
    requires Timed(spec) && spec.schedule.Some? && spec.runTime.None?
    ensures Legal(spec, t0, events) && |Exec(spec, t0, events).dispatches| == n
    ensures Rested(Exec(spec, t0, events))
  {
    if n == 0 {
      events := [];
    } else {
      var before := CronRunsOn(spec, t0, n - 1);
      events := CronRound(spec, t0, before);
    }
  }

  /** A schedule that is due every second, with an end. */
  function EverySecond(end: int): Spec {
    Spec(true, Some((t: int) => t + 1), Some(end), 0, true, true)
  }

  /** After `n` dispatches the run is at rest and goes on at `at`. */
  ghost predicate RestsAt(end: int, t0: int, events: seq<Event>, n: nat, at: int) {
    var m := Exec(EverySecond(end), t0, events);
    Legal(EverySecond(end), t0, events) && Rested(m) && |m.dispatches| == n && m.wake == Some(at)
  }

  lemma EverySecondRound(end: int, t0: int, events: seq<Event>, n: nat, at: int) returns (longer: seq<Event>)
    requires RestsAt(end, t0, events, n, at) && at < end
    ensures RestsAt(end, t0, longer, n + 1, at + CRON_CYCLE)
  {
    longer := CronRound(EverySecond(end), t0, events);
  }

  lemma {:induction false} EverySecondRuns(end: int, t0: int, n: nat, at: int) returns (events: seq<Event>)
    requires n <= MostCron(t0, end) && at == t0 + CRON_CYCLE * n
    ensures RestsAt(end, t0, events, n, at)
  {
    if n == 0 {
      events := [];
      assert Rested(Created(t0));
    } else {
      MostCronMeans(t0, end, n);
      if n > 1 { MostCronMeans(t0, end, n - 1); }
      var before := EverySecondRuns(end, t0, n - 1, at - CRON_CYCLE);
      events := EverySecondRound(end, t0, before, n - 1, at - CRON_CYCLE);
    }
  }

  /** And the bound for an end is attained: a task due every second is dispatched `n` times in some run
      exactly when `n` is within it. */
  lemma CronDispatchesExactly(end: int, t0: int, n: nat)
    ensures (exists events ::
               Legal(EverySecond(end), t0, events) && |Exec(EverySecond(end), t0, events).dispatches| == n) <==>
            n <= MostCron(t0, end)
  {
    if n <= MostCron(t0, end) {
      var events := EverySecondRuns(end, t0, n, t0 + CRON_CYCLE * n);
      assert |Exec(EverySecond(end), t0, events).dispatches| == n;
    }
    forall events | Legal(EverySecond(end), t0, events) && |Exec(EverySecond(end), t0, events).dispatches| == n
      ensures n <= MostCron(t0, end)
    {
      CronBounded(EverySecond(end), t0, events);
      var m := Exec(EverySecond(end), t0, events);
      if n >= 1 {
        MostCronMeans(m.plans[0], end, n);
        MostCronMeans(t0, end, n);
      }
    }
  }

  // ---------- who is deleted ----------

  /** A persistent task is never archived or deleted. */
  lemma {:induction false} PersistentStays(spec: Spec, t0: int, events: seq<Event>)
    requires spec.persistent && Legal(spec, t0, events)
    ensures Exec(spec, t0, events).st.phase != Archiving && !Exec(spec, t0, events).st.deleted
  {
    if events != [] { PersistentStays(spec, t0, events[..|events| - 1]); }
  }

  /** Any other task that is over is deleted by the reconcile it asks for then. */
  lemma OverIsDeleted(spec: Spec, m: Machine, ev: Event, later: Event)
    requires !spec.persistent && spec.hasTargets && !m.st.deleted && Due(m, ev)
    requires Stepped(spec, m, ev).st.phase == Archiving && m.st.phase != Archiving && Due(Stepped(spec, m, ev), later)
    ensures Stepped(spec, Stepped(spec, m, ev), later).st.deleted && ev.now + DELETION_DELAY <= later.now
  {
  }

  // ---------- a fixed run time ----------

  /** A late planning of a run with a lead time costs a REQUEUE wait on top of the cycle. */
  const LATE_CYCLE := CYCLE + REQUEUE

  ghost predicate FixedRunTime(spec: Spec) {
    Timed(spec) && spec.schedule.None?
  }

  /** How often a task with a fixed run time can be dispatched. */
  function MostDispatches(spec: Spec): int {
    1 + (spec.Lead() + REQUEUE - 1) / LATE_CYCLE
  }

  ghost predicate FixedPaced(spec: Spec, m: Machine)
    requires spec.runTime.Some?
  {
    var n := |m.dispatches|;
    var opens := spec.runTime.value - spec.Lead();
    if m.st.phase == Scheduled then
      && (m.wake.Some? ==> opens + LATE_CYCLE * n <= m.wake.value)
      && (n >= 1 ==> LATE_CYCLE * (n - 1) + CYCLE < spec.Lead() || m.wake.None?)
      && (n >= 2 ==> LATE_CYCLE * (n - 2) + CYCLE < spec.Lead())
    else
      && (n >= 1 && m.wake.Some? ==> opens + LATE_CYCLE * (n - 1) + CYCLE <= m.wake.value)
      && (n >= 2 ==> LATE_CYCLE * (n - 2) + CYCLE < spec.Lead())
  }

  lemma FixedStep(spec: Spec, m: Machine, ev: Event)
    requires FixedRunTime(spec) && FixedPaced(spec, m) && Due(m, ev)
    ensures FixedPaced(spec, Stepped(spec, m, ev))
  {
  }

  lemma {:induction false} FixedRun(spec: Spec, t0: int, events: seq<Event>)
    requires FixedRunTime(spec) && Legal(spec, t0, events)
    ensures FixedPaced(spec, Exec(spec, t0, events))
  {
    if events != [] {
      FixedRun(spec, t0, events[..|events| - 1]);
      FixedStep(spec, Exec(spec, t0, events[..|events| - 1]), events[|events| - 1]);
    }
  }

  lemma FixedBounded(spec: Spec, t0: int, events: seq<Event>)
    requires FixedRunTime(spec) && Legal(spec, t0, events)
    ensures |Exec(spec, t0, events).dispatches| <= MostDispatches(spec)
  {
    FixedRun(spec, t0, events);
  }

  // ---------- the bound is attained ----------

  /** The run that starts one second before the lead time opens and then never dawdles: each round
      is a planning and, as soon as allowed, a dispatch. */
  ghost function Eager(spec: Spec, n: nat): seq<Event>
    requires spec.runTime.Some?
  {
    var opens := spec.runTime.value - spec.Lead();
    if n == 0 then []
    else if n == 1 then [Event(opens - 1, true, SETTLE), Event(opens, true, SETTLE)]
    else
      var dispatch := opens + LATE_CYCLE * (n - 1);
      Eager(spec, n - 1) + [Event(dispatch - REQUEUE, true, SETTLE), Event(dispatch, true, SETTLE)]
  }

  /** Where the eager run stands after its n-th dispatch. */
  ghost predicate EagerAt(spec: Spec, n: nat, m: Machine)
    requires spec.runTime.Some?
  {
    && m.st.phase == Completed && !m.st.deleted && |m.dispatches| == n
    && m.wake == Some(spec.runTime.value - spec.Lead() + LATE_CYCLE * (n - 1) + CYCLE)
  }

  lemma EagerRound(spec: Spec, n: nat, m: Machine, plan: Event, dispatch: Event)
    requires FixedRunTime(spec) && 1 <= n < MostDispatches(spec) && EagerAt(spec, n, m)
    requires dispatch == Event(spec.runTime.value - spec.Lead() + LATE_CYCLE * n, true, SETTLE)
    requires plan == Event(dispatch.now - REQUEUE, true, SETTLE)
    ensures Due(m, plan) && Due(Stepped(spec, m, plan), dispatch)
    ensures EagerAt(spec, n + 1, Stepped(spec, Stepped(spec, m, plan), dispatch))
  {
    assert plan.now == m.wake.value < spec.runTime.value;
    var planned := Stepped(spec, m, plan);
    assert planned.st.phase == Scheduled && planned.wake == Some(dispatch.now) && planned.dispatches == m.dispatches;
  }

  /** The eager run is legal and has brought `n` dispatches. */
  ghost predicate EagerReaches(spec: Spec, n: nat)
    requires spec.runTime.Some?
  {
    var t0 := spec.runTime.value - spec.Lead() - 1;
    Legal(spec, t0, Eager(spec, n)) && EagerAt(spec, n, Exec(spec, t0, Eager(spec, n)))
  }

  lemma EagerFirst(spec: Spec)
    requires FixedRunTime(spec)
    ensures EagerReaches(spec, 1)
  {
    var dispatch := Event(spec.runTime.value - spec.Lead(), true, SETTLE);
    var plan := Event(dispatch.now - 1, true, SETTLE);
    var planned := Stepped(spec, Created(plan.now), plan);
    assert planned.st.phase == Scheduled && planned.wake == Some(dispatch.now) && planned.dispatches == [];
    assert EagerAt(spec, 1, Stepped(spec, planned, dispatch));
    assert Eager(spec, 1) == [] + [plan, dispatch];
    TwoMore(spec, plan.now, [], plan, dispatch);
  }

  lemma EagerExtends(spec: Spec, n: nat, plan: Event, dispatch: Event)
    requires spec.runTime.Some? && n >= 1
    requires dispatch == Event(spec.runTime.value - spec.Lead() + LATE_CYCLE * n, true, SETTLE)
    requires plan == Event(dispatch.now - REQUEUE, true, SETTLE)
    ensures Eager(spec, n + 1) == Eager(spec, n) + [plan, dispatch]
  {
  }

  lemma EagerAgain(spec: Spec, n: nat)
    requires FixedRunTime(spec) && 1 <= n < MostDispatches(spec) && EagerReaches(spec, n)
    ensures EagerReaches(spec, n + 1)
  {
    var t0 := spec.runTime.value - spec.Lead() - 1;
    var dispatch := Event(spec.runTime.value - spec.Lead() + LATE_CYCLE * n, true, SETTLE);
    var plan := Event(dispatch.now - REQUEUE, true, SETTLE);
    EagerRound(spec, n, Exec(spec, t0, Eager(spec, n)), plan, dispatch);
    EagerExtends(spec, n, plan, dispatch);
    TwoMore(spec, t0, Eager(spec, n), plan, dispatch);
  }

  lemma {:induction false} EagerRuns(spec: Spec, n: nat)
    requires FixedRunTime(spec) && 1 <= n <= MostDispatches(spec)
    ensures EagerReaches(spec, n)
  {
    if n == 1 {
      EagerFirst(spec);
    } else {
      EagerRuns(spec, n - 1);
      EagerAgain(spec, n - 1);
    }
  }

  /** `n` dispatches occur in some run exactly when `n` is within the bound. */
  lemma DispatchesExactly(spec: Spec, n: nat)
    requires FixedRunTime(spec) && n >= 1
    ensures (exists t0, events :: Legal(spec, t0, events) && |Exec(spec, t0, events).dispatches| == n) <==>
            n <= MostDispatches(spec)
  {
    if n <= MostDispatches(spec) {
      EagerRuns(spec, n);
      assert |Exec(spec, spec.runTime.value - spec.Lead() - 1, Eager(spec, n)).dispatches| == n;
    }
    forall t0, events | Legal(spec, t0, events) && |Exec(spec, t0, events).dispatches| == n
      ensures n <= MostDispatches(spec)
    {
      FixedBounded(spec, t0, events);
    }
  }

  /** A task with a fixed run time is dispatched at most once in every run exactly when it starts
      no more than one cycle early. */
  lemma AtMostOnceExactly(spec: Spec)
    requires FixedRunTime(spec)
    ensures (forall t0, events :: Legal(spec, t0, events) ==> |Exec(spec, t0, events).dispatches| <= 1) <==>
            -70 <= spec.offset
  {
    if -CYCLE <= spec.offset {
      forall t0, events | Legal(spec, t0, events) ensures |Exec(spec, t0, events).dispatches| <= 1 {
        FixedBounded(spec, t0, events);
      }
    } else {
      DispatchesExactly(spec, 2);
    }
  }

  // ---------- tasks without a time ----------

  /** How often a task with neither schedule nor run time can be dispatched: the reconcile that
      asks for its deletion does not stop there. */
  function MostOneShot(spec: Spec): int {
    if spec.persistent then 1 else 2
  }

  ghost predicate OneShotPaced(spec: Spec, m: Machine) {
    var n := |m.dispatches|;
    n <= MostOneShot(spec) && m.st.phase != Scheduled &&
    (n == 0 || m.st.deleted || (spec.persistent && m.wake.None?) || (n == 1 && m.st.phase == Archiving))
  }

  lemma {:induction false} OneShotRun(spec: Spec, t0: int, events: seq<Event>)
    requires spec.OneShot() && spec.hasTargets && Legal(spec, t0, events)
    ensures OneShotPaced(spec, Exec(spec, t0, events))
  {
    if events != [] {
      OneShotRun(spec, t0, events[..|events| - 1]);
    }
  }

  /** An untimed task is dispatched at most once in every run exactly when it is persistent;
      otherwise a run with two dispatches exists, and none with more. */
  lemma OneShotOnceExactly(spec: Spec)
    requires spec.OneShot() && spec.hasTargets
    ensures forall t0, events :: Legal(spec, t0, events) ==> |Exec(spec, t0, events).dispatches| <= 2
    ensures (forall t0, events :: Legal(spec, t0, events) ==> |Exec(spec, t0, events).dispatches| <= 1) <==>
            spec.persistent
  {
    forall t0, events | Legal(spec, t0, events)
      ensures |Exec(spec, t0, events).dispatches| <= MostOneShot(spec)
    {
      OneShotRun(spec, t0, events);
    }
    if !spec.persistent {
      var first := Event(0, true, SETTLE);
      var second := Event(SETTLE + DELETION_DELAY, true, SETTLE);
      TwoMore(spec, 0, [], first, second);
      assert |Exec(spec, 0, [] + [first, second]).dispatches| == 2;
    }
  }
}
