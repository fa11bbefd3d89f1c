/** The Task controller's phase machine over wall-clock time, in whole seconds. */
module TaskTimer {
  import opened Wrappers

  datatype Phase = Fresh | Scheduled | Running | Completed | Failed | Archiving

  /** `schedule` is the parsed cron expression: the next activation strictly after a time. */
  datatype Spec = Spec(
    hasTargets: bool,
    schedule: Option<int -> int>,
    runTime: Option<int>,
    offset: int,
    unconditional: bool,
    persistent: bool)
  {
    predicate OneShot() { runTime.None? && schedule.None? }

    /** How long before its nominal time a run may start. */
    function Lead(): int { if offset < 0 then -offset else 0 }
  }

  datatype Status = Status(phase: Phase, executeTime: Option<int>, deleted: bool)

  /** What one reconcile leaves behind; `wake` is the absolute time of the requested requeue. */
  datatype Outcome = Outcome(status: Status, wake: Option<int>, dispatched: bool)

  const WAIT := 30             // some entity is not provisioned yet
  const REQUEUE := 60          // after a dispatch, and while a lead time has already begun
  const DELETION_DELAY := 3600
  const RETRY_SLEEP := 5
  const SETTLE := 10           // slept at the end of a dispatch that reports no failed entity

  ghost predicate Forward(next: int -> int) {
    forall t :: t < next(t)
  }

  // ---------- dispatch ----------

  /** The retry loop for one entity; `fails(k)` says whether attempt `k` errs. An error is slept
      on, but then control falls into the success path and leaves the loop: there is one attempt,
      the entity is recorded as tasked, and it is never reported failed. */
  method TaskEntity(fails: nat -> bool) returns (attempts: nat, slept: nat, recorded: nat, reported: bool)
    ensures attempts == 1 && recorded == 1 && !reported
    ensures slept == if fails(0) then RETRY_SLEEP else 0
  {
    attempts, slept, recorded, reported := 0, 0, 0, false;
    for retryCount := 0 to 3
      invariant retryCount == attempts == recorded == slept == 0 && !reported
    {
      attempts := attempts + 1;
      if fails(retryCount) {
        slept := slept + RETRY_SLEEP;
        if retryCount == 2 {
          reported := true;
          continue;
        }
      }
      recorded := recorded + 1;
      break;
    }
  }

  /** An entity to dispatch to: which attempts fail, and how long its request and the updates of its
      status take. */
  datatype Recipient = Recipient(fails: nat -> bool, lasts: nat)
  {
    /** A failed attempt costs the sleep on top. */
    function Took(): nat { lasts + if fails(0) then RETRY_SLEEP else 0 }
  }

  /** The dispatch to all entities at once, `updates` being the time the task's own status updates
      take: whatever errs, nobody is reported failed, so the phase becomes Completed and the call
      takes the settling time on top of what the slowest entity takes. */
  method ProcessEntities(entities: seq<Recipient>, updates: nat) returns (phase: Phase, failed: seq<int>, took: nat)
    ensures phase == Completed && failed == [] && SETTLE + updates <= took
    ensures forall k :: 0 <= k < |entities| ==> SETTLE + updates + entities[k].Took() <= took
    ensures took == SETTLE + updates || exists k :: 0 <= k < |entities| && took == SETTLE + updates + entities[k].Took()
  {
    failed, took := [], 0;
    for k := 0 to |entities|
      invariant failed == []
      invariant forall j :: 0 <= j < k ==> entities[j].Took() <= took
      invariant took == 0 || exists j :: 0 <= j < k && took == entities[j].Took()
    {
      var _, slept, _, reported := TaskEntity(entities[k].fails);
      if reported {
        failed := failed + [k];
      }
      var lasted := slept + entities[k].lasts;
      took := if lasted > took then lasted else took;
    }
    took := took + updates;
    if |failed| > 0 {
      phase := Failed;
    } else {
      took := took + SETTLE;
      phase := Completed;
    }
  }

  // ---------- one reconcile ----------

  /** The nominal next run. */
  function NextRun(spec: Spec, now: int): int
    requires !spec.OneShot()
  {
    if spec.schedule.Some? then spec.schedule.value(now) else spec.runTime.value
  }

  predicate Over(spec: Spec, now: int)
    requires !spec.OneShot()
  {
    if spec.schedule.Some? then spec.runTime.Some? && spec.runTime.value < NextRun(spec, now)
    else spec.runTime.value < now
  }

  function Finished(spec: Spec, st: Status, now: int, dispatched: bool): Outcome {
    if spec.persistent then Outcome(st, None, dispatched)
    else Outcome(st.(phase := Archiving), Some(now + DELETION_DELAY), dispatched)
  }

  function Planned(spec: Spec, st: Status, now: int): Outcome
    requires !spec.OneShot()
  {
    if Over(spec, now) then Finished(spec, st, now, false)
    else
      var nominal := NextRun(spec, now);
      var execute := nominal - spec.Lead();
      var cutoff := if spec.offset > 0 then nominal + spec.offset else nominal;
      Outcome(st.(phase := Scheduled, executeTime := Some(execute)),
              if now < execute then Some(execute) else if now < cutoff then Some(now + REQUEUE) else None,
              false)
  }

  /** `ready`: every target entity is provisioned. `took`: how long a dispatch lasts. */
  function Reconciled(spec: Spec, st: Status, now: int, ready: bool, took: int): Outcome {
    if st.deleted then Outcome(st, None, false)
    else
      var st := if st.phase == Archiving then st.(deleted := true) else st;
      if !spec.hasTargets then Outcome(st.(phase := Completed), None, false)
      else if spec.OneShot() || st.phase == Scheduled then
        if !spec.unconditional && !ready then Outcome(st, Some(now + WAIT), false)
        else if spec.OneShot() then Finished(spec, st.(phase := Completed), now + took, true)
        else Outcome(st.(phase := Completed), Some(now + took + REQUEUE), true)
      else Planned(spec, st, now)
  }

  // ---------- what one reconcile does ----------

  /** A reconcile dispatches exactly when the task is due and its entities are ready or need not be. */
  lemma DispatchedExactly(spec: Spec, st: Status, now: int, ready: bool, took: int)
    ensures Reconciled(spec, st, now, ready, took).dispatched <==>
      && !st.deleted && spec.hasTargets && (spec.unconditional || ready)
      && ((spec.runTime.None? && spec.schedule.None?) || st.phase == Scheduled)
  {
  }

  /** After a dispatch a timed task is looked at again in a minute, an untimed one is over. */
  lemma AfterDispatch(spec: Spec, st: Status, now: int, ready: bool, took: int)
    requires Reconciled(spec, st, now, ready, took).dispatched
    ensures var out := Reconciled(spec, st, now, ready, took);
      && out.status.executeTime == st.executeTime
      && (spec.runTime.Some? || spec.schedule.Some? ==>
            out.status.phase == Completed && out.wake == Some(now + took + REQUEUE))
      && (spec.runTime.None? && spec.schedule.None? && spec.persistent ==>
            out.status.phase == Completed && out.wake == None)
      && (spec.runTime.None? && spec.schedule.None? && !spec.persistent ==>
            out.status.phase == Archiving && out.wake == Some(now + took + DELETION_DELAY))
  {
  }

  /** A task that is due but has to wait for its entities stays as it is for half a minute; one
      without targets is over at once. */
  lemma NotDispatched(spec: Spec, st: Status, now: int, ready: bool, took: int)
    requires !st.deleted
    requires (spec.runTime.None? && spec.schedule.None?) || st.phase == Scheduled || !spec.hasTargets
    requires !Reconciled(spec, st, now, ready, took).dispatched
    ensures var out := Reconciled(spec, st, now, ready, took);
      && out.status.executeTime == st.executeTime
      && (if spec.hasTargets then out.status.phase == st.phase && out.wake == Some(now + WAIT)
          else out.status.phase == Completed && out.wake == None)
  {
  }

  /** The object is deleted by a reconcile that finds it archived, and by no other; after that nothing
      happens any more. */
  lemma DeletedExactly(spec: Spec, st: Status, now: int, ready: bool, took: int)
    ensures var out := Reconciled(spec, st, now, ready, took);
      && (out.status.deleted <==> st.deleted || st.phase == Archiving)
      && (st.deleted ==> out == Outcome(st, None, false))
  {
  }

  /** A timed task is planned exactly as long as its end is not passed: the next activation of its
      schedule is not after the end, if it has one, or the fixed run time is not over. */
  lemma PlannedExactly(spec: Spec, st: Status, now: int, ready: bool, took: int)
    requires (spec.runTime.Some? || spec.schedule.Some?) && spec.hasTargets && !st.deleted && st.phase != Scheduled
    ensures Reconciled(spec, st, now, ready, took).status.phase == Scheduled <==>
      if spec.schedule.Some? then spec.runTime.Some? ==> spec.schedule.value(now) <= spec.runTime.value
      else now <= spec.runTime.value
  {
  }

  /** A planned run is due at its nominal time, brought forward by a negative offset; the task wakes up
      then or, when that is not in the future, in a minute as long as the time put off by a positive
      offset is not over. */
  lemma PlannedFor(spec: Spec, st: Status, now: int, ready: bool, took: int)
    requires (spec.runTime.Some? || spec.schedule.Some?) && spec.hasTargets && !st.deleted && st.phase != Scheduled
    requires Reconciled(spec, st, now, ready, took).status.phase == Scheduled
    ensures var out := Reconciled(spec, st, now, ready, took);
      var nominal := if spec.schedule.Some? then spec.schedule.value(now) else spec.runTime.value;
      var due := nominal + if spec.offset < 0 then spec.offset else 0;
      && out.status.executeTime == Some(due)
      && (now < due ==> out.wake == Some(due))
      && (due <= now < nominal || (nominal <= now < nominal + spec.offset) ==> out.wake == Some(now + REQUEUE))
      && (nominal <= now && nominal + spec.offset <= now ==> out.wake == None)
  {
  }

  /** A timed task that is over is archived for an hour, or left for good if it is persistent. */
  lemma OverExactly(spec: Spec, st: Status, now: int, ready: bool, took: int)
    requires (spec.runTime.Some? || spec.schedule.Some?) && spec.hasTargets && !st.deleted && st.phase != Scheduled
    requires Reconciled(spec, st, now, ready, took).status.phase != Scheduled
    ensures var out := Reconciled(spec, st, now, ready, took);
      && out.status.executeTime == st.executeTime
      && (if spec.persistent then out.status.phase == st.phase && out.wake == None
          else out.status.phase == Archiving && out.wake == Some(now + DELETION_DELAY))
  {
  }

  /** The Task object, updated in place by its controller. */
  class Task {
    const spec: Spec
    var phase: Phase
    var executeTime: Option<int>
    var deleted: bool

    constructor (spec: Spec)
      ensures this.spec == spec && phase == Fresh && executeTime == None && !deleted
    {
      this.spec := spec;
      phase, executeTime, deleted := Fresh, None, false;
    }

    function St(): Status
      reads this
    {
      Status(phase, executeTime, deleted)
    }

    /** `start` is the time the reconcile begins; `wake` is absolute. */
    method Reconcile(start: int, ready: bool, entities: seq<Recipient>, updates: nat)
      returns (wake: Option<int>, dispatched: bool, took: nat)
      modifies this
      ensures Outcome(St(), wake, dispatched) == Reconciled(spec, old(St()), start, ready, took)
      ensures dispatched ==> SETTLE <= took
    {
      dispatched, took := false, 0;
      if deleted {
        return None, false, 0;
      }
      if phase == Archiving {
        deleted := true;
      }
      if !spec.hasTargets {
        phase := Completed;
        return None, false, 0;
      }
      var isCompleted := false;
      if (spec.runTime.None? && spec.schedule.None?) || phase == Scheduled {
        if !spec.unconditional && !ready {
          return Some(start + WAIT), false, 0;
        }
        phase := Running;
        var failed;
        phase, failed, took := ProcessEntities(entities, updates);
        dispatched := true;
        if spec.runTime.Some? || spec.schedule.Some? {
          return Some(start + took + REQUEUE), true, took;
        }
        isCompleted := true;
      }
      var now := start + took;
      var nextRun, terminationTime := 0, 0;
      if spec.schedule.Some? {
        nextRun := spec.schedule.value(now);
        if spec.runTime.Some? && nextRun > spec.runTime.value {
          isCompleted := true;
        }
      } else if spec.runTime.Some? {
        nextRun := spec.runTime.value;
        if nextRun < now {
          isCompleted := true;
        }
      }
      if isCompleted {
        if spec.persistent {
          return None, dispatched, took;
        }
        phase := Archiving;
        return Some(now + DELETION_DELAY), dispatched, took;
      }
      if spec.offset > 0 {
        terminationTime := nextRun + spec.offset;
      } else {
        terminationTime := nextRun;
        nextRun := nextRun + spec.offset;
      }
      executeTime := Some(nextRun);
      phase := Scheduled;
      if nextRun > now {
        return Some(now + (nextRun - now)), dispatched, took;
      }
      if terminationTime > now {
        return Some(now + REQUEUE), dispatched, took;
      }
      return None, dispatched, took;
    }
  }
}
