# RoboKube, modelled and proved

RoboKube is a Kubernetes operator. A *Model* owns a StatefulSet and a set of *Entities*, one for
each of its pods; *Groups* label entities and their pods; *Tasks* are dispatched to entities at
given times. This project models the operator's decisions and proves what they add up to.

| file | what it models |
|---|---|
| `Naming.dfy` | label keys, `%d` printing, `strings.Split`, `strconv.Atoi`, and their round trips |
| `Ordinals.dfy` | the sort and the first-gap loop that pick an entity's ordinal |
| `Cluster.dfy` | the state of one Model and what each event does to it, as functions |
| `ClusterSafety.dfy` | runs of the cluster and the inductive invariant |
| `ClusterTheorems.dfy` | the bijection between ordinals and entities, allocator bounds, pod resolution, and exactly when they fail |
| `ClusterOutcomes.dfy` | what each operation on the cluster does in full, and the way of a user's entity to its pod |
| `Controllers.dfy` | the controllers and webhooks as methods that change the cluster in place, each tied to its function in `Cluster.dfy` |
| `OptimisticStore.dfy`, `Interleaving.dfy` | read-modify-write with retry on conflict: one call under any interference, and any number of clients interleaved |
| `ConcurrentAdmission.dfy` | several requests under admission at the same time |
| `ConcurrentGrowth.dfy` | several entities growing one StatefulSet at the same time, with stale reads |
| `TaskTimer.dfy`, `TaskRuns.dfy` | the task phase machine over wall-clock time, and whole runs of it |
| `GroupLabels.dfy`, `GroupRuns.dfy`, `GroupDeletion.dfy` | group membership as a fold of targets, pod and entity labels, runs with group reconciles as events, clean-up behind the finalizer |
| `CreateOrUpdate.dfy` | the create-or-update handler and its conflict recursion |

A reconcile or an admission request is one atomic event in `Cluster.dfy`; the interleavings are the
subject of `Interleaving.dfy`, `ConcurrentAdmission.dfy` and `ConcurrentGrowth.dfy`. The order in
which the API server lists objects, the identities a UUID generator returns, the clock, the length of a
dispatch and the conflicts a write meets are parameters. A cron expression is a function to a strictly
later time. Times are whole seconds.

The assumptions on users and on the environment are the predicate `ClusterSafety.Enabled`: targets
and requested ordinals are not negative; users do not set owner references; a name
`<model>-<k>` goes to an entity of ordinal `k` only; nobody edits an entity's ordinal or model; an
adopted StatefulSet starts at zero replicas, whenever it comes; a deleted entity is gone in that
event. Label changes by group reconciles may happen at any moment. Two theorems say what becomes of
ordinals without the assumptions on names and owner references: `GrowthCoversExactly` and
`OwnerRefsBypassExactly`.

## Where the code does less than it says

- An adopted StatefulSet that is still missing: the Model controller creates owned entities beyond the
  replica count. A run keeps owned entities below the replica count throughout if and only if that
  never happens in it (`ReconcileKeepsSafeExactly`, `RunInRangeExactly`), and so it is with the bijection
  between ordinals and entities (`RunBijectiveExactly`). Everything else in the invariant holds in those
  runs, too (`RunCore`, `RunCoveredExactly`).
- A user entity named `<model>-<i>` with another ordinal is taken over by a scale-up and its ordinal
  falls vacant (`TakeoverVacates`); a scale-up fills all ordinals if and only if no such entity had one
  of them (`GrowthCoversExactly`). A request takes an ordinal twice if and only if it is new, carries an
  owner reference and names an ordinal already held (`OwnerRefsBypassExactly`).
- When no ordinal up to the one above the replica count is vacant, and only then, the mutating webhook
  hands out an ordinal that the validating webhook refuses (`AutoRequestRefusedExactly`).
- Nothing ties the validating webhook to the write that follows it: two requests admitted for one ordinal,
  the second before the first is stored, share it, and that is the only way for requests to do so
  (`AdmissionUniqueExactly`).
- Stale reads are harmless in the growth of a StatefulSet, but for one: an index check that shows an
  entity its own ordinal when the set has outgrown it (`RunOrderlyExactly`). That entity grows the
  set again (`StaleCheckDoubles`).
- The retry loop of a task leaves after its first attempt whether that failed or not; no entity is
  ever reported failed (`TaskEntity`, `ProcessEntities`). So a dispatch always lasts at least the ten
  seconds slept at its end, and the bounds below count on them.
- A task with a fixed run time is dispatched at most once exactly when `Offset >= -70`
  (`AtMostOnceExactly`); in general the bound of `DispatchesExactly` is attained. So is the one for cron tasks with an end (`CronDispatchesExactly`). An untimed task that
  is not persistent can be dispatched twice, because asking for its deletion does not end the
  reconcile (`OneShotOnceExactly`).
- A task planned for this very second with no time after it is left Scheduled for ever, and no other
  task is (`PlannedProgress`, `ScheduledForEverExactly`).
- A group update that changes the labels of an entity before it is locked on to its pod passes the pod
  by: once locked on, the two disagree exactly when there was something to change (`LateLockOnExactly`);
  for a whole reconcile, cut short by an error or not, `GroupInStepExactly` tells beforehand. An entity
  that comes to an ordinal whose old pod is still there disagrees with it exactly when that pod has other
  group labels (`StepInStepExactly`). A run keeps entity and pod of an ordinal in step throughout if and
  only if neither happens in it (`RunInStepExactly`).
- Deleting a group has one chance: a failure after its NetworkPolicy is gone blocks the finalizer for
  ever (`OneChance`), and after success the same reconcile creates the NetworkPolicy again unless it
  still sees the old one (`DeletionSafe`).
- Create-or-update leaves labels, annotations and owner of an existing object as they are when its
  spec is right (`MetadataRepairedExactly`), and never touches a RoleBinding's subjects (`SubjectsStay`).

## Model

| member | source | states |
|---|---|---|
| Naming.SequenceOfOrdinalName | api/v1/pod_webhook.go:137-138 | the number at the end of `<prefix>-<i>` reads back as `i`, whatever dashes the prefix contains |
| Naming.SequenceOfMalformed | api/v1/pod_webhook.go:137-138 | a name whose last part is not a number reads as number 0 |
| Naming.PrintInjective | api/v1/entity_webhook.go:207 | two ordinals with the same index label are equal |
| Naming.KeysApart | api/v1/common.go:50-52 | a group key never is an index or model key, and different groups have different keys |
| Naming.GroupKeysExactly | api/v1/pod_webhook.go:111-115 | a label key is a group key exactly when it is the key of some group |
| Ordinals.FirstGap | api/v1/entity_webhook.go:182-202 | on any list the ordinal picked is not negative, not in the list and at most its length; on distinct non-negative ordinals it is the least free one |
| Ordinals.SortList | api/v1/entity_webhook.go:184-186 | the library sort: ascending and a permutation |
| ClusterSafety.NextSafe | internal/controller/model_controller.go:77-251 | every event keeps the core of the invariant; all ordinals below the replica count stay taken exactly unless a user deletes an entity there; every event but a Model reconcile that creates entities for a missing StatefulSet keeps owned entities below the replica count |
| ClusterSafety.RunCore | internal/controller/model_controller.go:77-251 | in every state of every run, adopted StatefulSets that come late included, ordinals are unique, index labels print them, lock-ons and pods bear the names of their ordinals, a provisioned entity is owned and locked on, a settled Model has at least its target of replicas |
| ClusterSafety.RunSafe | internal/controller/entity_controller.go:340-388 | owned entities are below the replica count as well in every run that creates none while an adopted StatefulSet is missing |
| ClusterSafety.RunCovered | internal/controller/model_controller.go:263-329 | while users delete only entities at or above the replica count, no ordinal below it is vacant in any reachable state |
| ClusterSafety.RunCoveredExactly | internal/controller/model_controller.go:263-329 | no ordinal below the replica count is vacant in any state of a run if and only if every delete by a user spares them |
| ClusterSafety.GrownShape | internal/controller/model_controller.go:284-309 | scale-up keeps every entity as it is and adds exactly one owned entity for each ordinal that was missing |
| ClusterSafety.ShrunkSafe | internal/controller/model_controller.go:310-326 | scale-down to a target leaves no owned entity at or above it and every ordinal below it taken |
| ClusterSafety.ReconcileModelSafe | internal/controller/model_controller.go:107-250 | a Model reconcile keeps the core of the invariant and coverage in every case, and owned entities below the replica count unless it creates entities for a missing StatefulSet |
| ClusterSafety.CreateEntitySafe | api/v1/entity_webhook.go:53-102 | mutating and validating a user's entity keeps ordinals unique and labelled, and vacates none |
| ClusterSafety.OwnershipSafe | internal/controller/entity_controller.go:355-385 | the ownership step keeps owned entities below the replica count and grows it only onto a taken ordinal |
| ClusterSafety.LockSafe | internal/controller/entity_controller.go:285-338 | lock-on gives an owned entity the pod of its own ordinal |
| ClusterSafety.ReconcileEntitySafe | internal/controller/entity_controller.go:246-268 | an Entity reconcile keeps invariant, coverage and range, whether the entity is new, out of reach or provisioned already |
| ClusterSafety.CreatePodSafe | api/v1/pod_webhook.go:77-104 | an admitted pod carries the ordinal of its own name |
| ClusterSafety.RelabelSafe | api/v1/common.go:94-108 | changing group labels, at any moment, disturbs neither the invariant nor coverage |
| ClusterTheorems.OrdinalsHeldOnce | internal/controller/model_controller.go:276-326 | in every state of every run whose user deletes spare the ordinals below the replica count each of these has exactly one entity, adopted StatefulSets that come late included |
| ClusterTheorems.Bijection | internal/controller/entity_controller.go:355-385 | in such a state, once no entity is un-owned and if none was created for a missing StatefulSet, the ordinals held are exactly those below the replica count and there is one entity for each |
| ClusterTheorems.RunBijectiveExactly | internal/controller/model_controller.go:190-201 | throughout a run whose user deletes spare the ordinals below the replica count, the ordinals held are exactly those whenever no entity is un-owned, if and only if no reconcile creates entities while an adopted StatefulSet is missing |
| ClusterTheorems.ReconcileSettles | internal/controller/model_controller.go:190-246 | a reconcile with its StatefulSet at hand settles the Model with the replica count at the target, the ordinals below it taken, and owned entities below it if they were below the replica count |
| ClusterTheorems.ReconcileIdempotent | internal/controller/model_controller.go:121-132 | a second Model reconcile changes nothing |
| ClusterTheorems.AutoOrdinalBounds | api/v1/entity_webhook.go:187-200 | the ordinal handed out is vacant and at most the replica count plus the number of un-owned entities, and at least the replica count when no ordinal below it is vacant |
| ClusterTheorems.AutoRequestAdmitted | api/v1/entity_webhook.go:97-100 | with at most one un-owned entity an auto-assigned request passes admission; with none its ownership step is in range |
| ClusterTheorems.AutoRequestRefusedExactly | api/v1/entity_webhook.go:97-100 | an auto-assigned request is refused exactly when no ordinal up to the one above the replica count is vacant |
| ClusterTheorems.PodResolves | api/v1/pod_webhook.go:135-152 | pod `i` of the StatefulSet leads to exactly one entity, the one with ordinal `i` |
| ClusterTheorems.RunPodResolves | api/v1/pod_webhook.go:135-152 | the same in every state of every run whose user deletes spare the ordinals below the replica count |
| ClusterTheorems.RunLocksApart | internal/controller/entity_controller.go:289-331 | in every state of every run no two entities hold the same pod |
| ClusterTheorems.ReconcileLocksOwnPod | internal/controller/entity_controller.go:246-264 | reconciling an entity within reach whose pod exists leaves it owned, provisioned and on its own pod |
| ClusterTheorems.ProvisionedStays | internal/controller/entity_controller.go:112-128 | reconciling a provisioned entity changes nothing in the cluster, by the guard or, if its spec was edited, by going through |
| ClusterTheorems.ReconcileKeepsSafeExactly | internal/controller/model_controller.go:190-201 | a Model reconcile keeps owned entities below the replica count if and only if it does not create entities while an adopted StatefulSet is missing |
| ClusterTheorems.RunInRangeExactly | internal/controller/model_controller.go:190-201 | owned entities are below the replica count in every state of a run if and only if no reconcile in it creates entities while an adopted StatefulSet is missing |
| ClusterTheorems.TakeoverVacates | internal/controller/handler/cluster_resource_processor.go:245-258 | an entity named like a controller-made one but with another ordinal, wherever that ordinal is, loses it in a scale-up |
| ClusterTheorems.GrowthCoversExactly | internal/controller/model_controller.go:284-309 | whatever names users choose, a scale-up leaves no ordinal below its target vacant if and only if each name of a missing ordinal is free or borne by an entity at or above the target |
| ClusterTheorems.OwnerRefsBypassExactly | api/v1/entity_webhook.go:53-56 | a request gives an ordinal to two entities if and only if it is a new object with an owner reference that asks for an ordinal already held |
| ClusterTheorems.GrownTakesOver | internal/controller/model_controller.go:284-309 | whatever entities are called, scale-up gives each missing ordinal the object of its name, with the controller's ordinal, index label, owner and a new identity but the status it had, and leaves every other object alone |
| ClusterOutcomes.SettledStays | internal/controller/model_controller.go:121-128 | a settled Model is left alone, so replicas added for its users' entities stay |
| ClusterOutcomes.ModelStatus | internal/controller/model_controller.go:107-246 | any other reconcile settles the Model with the StatefulSet at its target, or, while an adopted one is missing, leaves it Provisioning unless it has failed |
| ClusterOutcomes.ModelEntities | internal/controller/model_controller.go:263-329 | exactly the entities at or above the target and below the replica count go, exactly the missing ordinals from the replica count up to the target get one, with its own identity, and all others stay as they are |
| ClusterOutcomes.OrdinalExactly | api/v1/entity_webhook.go:169-202 | the ordinal is the one asked for or the least vacant one |
| ClusterOutcomes.CreatedExactly | api/v1/entity_webhook.go:53-215 | a request is stored exactly when its name is free and it carries an owner reference or its ordinal is vacant and in range; with its ordinal and label, its identity or a new one, and its other labels |
| ClusterOutcomes.EntityReconciledExactly | internal/controller/entity_controller.go:246-268 | a reconcile within reach makes the entity owned, and grows the StatefulSet by one if it came new and next in line, whether its pod exists or not; once the pod exists the entity is locked on to it; nothing else changes |
| ClusterOutcomes.StampedModel | api/v1/pod_webhook.go:84-85 | a created pod carries the Model's label, whatever its template says |
| ClusterOutcomes.PodCreatedExactly | api/v1/pod_webhook.go:77-105 | pod `i` is created exactly when somebody holds ordinal `i`, with that ordinal, the Model, the holder's group labels and the template's other labels |
| ClusterOutcomes.NextInLineGetsItsPod | internal/controller/entity_controller.go:340-388 | a user's entity next in line grows the StatefulSet by one, the new pod is admitted, and the next reconcile locks the entity on to it |
| Controllers.Pod.SyncGroupLabels | api/v1/pod_webhook.go:108-132 | the pod's label map ends up with the entity's group labels and its own other labels |
| Controllers.ApiServer.IndexMap | internal/controller/model_controller.go:276-282 | the map holds exactly the ordinals of the labelled entities, each with a holder |
| Controllers.ApiServer.ManageEntities | internal/controller/model_controller.go:263-329 | the loops in place do what the scale-up and scale-down functions say |
| Controllers.ApiServer.ReconcileModel | internal/controller/model_controller.go:101-250 | the reconcile in place equals its function, keeps invariant and coverage, and keeps owned entities below the replica count exactly outside the missing-StatefulSet case |
| Controllers.ApiServer.MutateEntity | api/v1/entity_webhook.go:169-202 | list, sort and gap loop give the requested or the least free ordinal |
| Controllers.ApiServer.ValidateEntity | api/v1/entity_webhook.go:53-102 | a request without owner references is admitted exactly when nobody holds the ordinal and it is at most one above the replica count of a StatefulSet that exists; one with owner references always is |
| Controllers.ApiServer.CreateEntity | api/v1/entity_webhook.go:153-215 | mutate, validate and store: the whole new state; invariant, coverage and range kept |
| Controllers.ApiServer.HandleOwnershipAndReplicas | internal/controller/entity_controller.go:340-388 | succeeds exactly within the range check, and then the entity is owned and below the replica count; invariant, coverage and range kept |
| Controllers.ApiServer.LockOnPod | internal/controller/entity_controller.go:285-338 | finds a pod exactly when the StatefulSet's pod of that ordinal exists, and then takes that one, whichever is listed first |
| ClusterOutcomes.LockedOnExactly | internal/controller/entity_controller.go:285-338 | whichever pod is listed first, lock-on takes the pod of the entity's own ordinal or leaves everything as it is |
| ClusterOutcomes.PodNameExactly | internal/controller/entity_controller.go:343-346 | the pod of an ordinal is named after the StatefulSet, the customer's if the Model adopts one |
| Controllers.ApiServer.ReconcileEntity | internal/controller/entity_controller.go:112-268 | ownership, then lock-on, then the phase: the whole new state; an un-owned entity within reach becomes owned and, next in line, grows the StatefulSet by one, pod or no pod; nothing changes when out of reach or provisioned already; invariant, coverage and range kept |
| Controllers.ApiServer.LockAndProvision | internal/controller/entity_controller.go:253-266 | the entity ends up provisioned exactly when it was, or had a pod, or its own pod exists; invariant, coverage and range kept |
| Controllers.ApiServer.CreatePod | api/v1/pod_webhook.go:44-105 | a pod is created exactly when its name leads to an entity, with that entity's ordinal, the Model's label and that entity's group labels; invariant, coverage and range kept |
| ConcurrentAdmission.AdmissionUniqueExactly | api/v1/entity_webhook.go:53-102 | over any interleaving of requests between the two webhooks and the store, at whose end every admitted one is stored, ordinals are unique throughout if and only if no request is admitted for an ordinal while another one admitted for it is not stored yet |
| ConcurrentAdmission.AloneIsCreated | api/v1/entity_webhook.go:53-215 | a request whose steps nothing comes between fares as in the single event that creates an entity |
| ConcurrentAdmission.HarmlessIsUnique | api/v1/entity_webhook.go:153-215 | ordinals are unique throughout any such interleaving, whatever is still under way at its end, in which that never happens |
| OptimisticStore.UpdateObj | internal/controller/handler/cluster_object_processor.go:70-88 | under any staleness and foreign writes success adds the closures to the history exactly once, failure not at all, foreign writes stay; an attempt left in peace succeeds |
| OptimisticStore.ApplyInOrder | internal/controller/handler/cluster_object_processor.go:76-80 | update closures are applied one after the other, from the first to the last |
| OptimisticStore.Processor | internal/controller/processor_handler.go:46-86 | trying the closure on the caller's copy first leaves no trace; the update and then the condition go through if one of their attempts is left in peace before a read fails for good; a condition is appended only after a committed update |
| Interleaving.NoLostNoDoubled | internal/controller/processor_handler.go:110-128 | however clients interleave, the object is the fold of the committed closures in commit order, each successful call in it exactly once |
| Interleaving.GainIsSuccesses | internal/controller/entity_controller.go:368-370 | when every closure adds one, the object has gained exactly the number of calls that reported success |
| Interleaving.LeftInPeace | internal/controller/handler/cluster_object_processor.go:70-88 | a call left in peace succeeds and puts its closure on top of the object |
| Interleaving.OnlyNewestWrites | internal/controller/handler/cluster_object_processor.go:70-88 | only a write on top of the newest version changes the object, and no event touches another client |
| Interleaving.GivenUpExactly | internal/controller/handler/cluster_object_processor.go:70-88 | a call is given up exactly when its read fails for good or its last attempt meets a conflict |
| ConcurrentGrowth.GrowthIsExact | internal/controller/entity_controller.go:351-387 | with harmless checks, stale or not, at most one entity is between check and commit, its ordinal is still next, none grows the set twice, and replicas grew once for each that did |
| ConcurrentGrowth.RunOrderlyExactly | internal/controller/entity_controller.go:351-387 | a run with reads of any staleness is orderly throughout if and only if no check in it shows an entity its own ordinal when the set has outgrown it |
| ConcurrentGrowth.NextOrderlyExactly | internal/controller/entity_controller.go:351-387 | the same for a single event |
| ConcurrentGrowth.StaleCheckDoubles | internal/controller/entity_controller.go:359-373 | shown its own ordinal when the set has outgrown it, an entity grows the set for an ordinal it has already, and a second time if it grew it before |
| ConcurrentGrowth.LeftInPeace | internal/controller/entity_controller.go:359-385 | an entity left in peace becomes owned, growing the StatefulSet by one exactly when it is next in line; one too far out gets nowhere |
| ConcurrentGrowth.OnlyCommitGrows | internal/controller/entity_controller.go:364-373 | only a write on top of the newest version grows the set, and no event touches another entity |
| ConcurrentGrowth.Retries | internal/controller/entity_controller.go:364-373 | a conflict leads to a new fetch, an error to a new reconcile, and neither changes the set |
| TaskTimer.TaskEntity | internal/controller/task_controller.go:245-278 | one attempt, recorded as tasked, never reported failed |
| TaskTimer.ProcessEntities | internal/controller/task_controller.go:228-312 | a dispatch ends in phase Completed with no failed entity, after exactly ten seconds on top of what the slowest entity, with its sleep after an error, and the status updates take |
| TaskTimer.Task.Reconcile | internal/controller/task_controller.go:76-205 | the reconcile in place equals its function, and a dispatch lasts at least the settling time |
| TaskTimer.DispatchedExactly | internal/controller/task_controller.go:107-133 | a reconcile dispatches exactly when the task is untimed or Scheduled, has targets, and its entities are ready or need not be |
| TaskTimer.AfterDispatch | internal/controller/task_controller.go:131-172 | after a dispatch a timed task is looked at again in a minute, an untimed one is archived for an hour or, if persistent, left |
| TaskTimer.NotDispatched | internal/controller/task_controller.go:99-124 | a task waits half a minute for its entities; one without targets is Completed at once |
| TaskTimer.DeletedExactly | internal/controller/task_controller.go:95-97 | a task is deleted by the reconcile that finds it archived and by no other |
| TaskTimer.PlannedExactly | internal/controller/task_controller.go:139-161 | a cron task is planned exactly when the schedule's next activation is not after its end, if it has one; a fixed run time exactly until it is over |
| TaskTimer.PlannedFor | internal/controller/task_controller.go:174-204 | a planned run is due at its nominal time plus a negative offset, and the task wakes up then, or in a minute while the time is not over, or not at all |
| TaskTimer.OverExactly | internal/controller/task_controller.go:163-172 | a timed task that is over is archived for an hour or, if persistent, left |
| TaskRuns.PlannedProgress | internal/controller/task_controller.go:107-204 | every reconcile that leaves a task Scheduled requests a strictly later requeue, except exactly when it plans a fixed run time that is now with `Offset <= 0` |
| TaskRuns.ScheduledForEverExactly | internal/controller/task_controller.go:174-204 | a reconcile that leaves a task Scheduled is the last of every run if and only if it planned the task in that way |
| TaskRuns.NeverEarly | internal/controller/task_controller.go:181-190 | in every run each dispatch is at or after the ExecuteTime recorded for it |
| TaskRuns.CronBounded | internal/controller/task_controller.go:144-155 | a cron task with an end never plans past it and is dispatched at most once for each 71 seconds from first planning to end, plus one |
| TaskRuns.CronDispatchesExactly | internal/controller/task_controller.go:107-155 | that bound is attained: with a schedule due every second a number of dispatches occurs in some run exactly when it is within it |
| TaskRuns.CronRunsOn | internal/controller/task_controller.go:107-155 | a cron task without an end has, for every number, a run with that many dispatches |
| TaskRuns.FixedBounded | internal/controller/task_controller.go:156-161 | a fixed run time brings at most `1 + (lead + 59) / 130` dispatches |
| TaskRuns.DispatchesExactly | internal/controller/task_controller.go:107-137 | a number of dispatches occurs in some run exactly when it is within that bound |
| TaskRuns.AtMostOnceExactly | internal/controller/task_controller.go:174-179 | at most one dispatch in every run if and only if `Offset >= -70` |
| TaskRuns.OneShotOnceExactly | internal/controller/task_controller.go:95-97 | an untimed task is dispatched at most twice, and at most once exactly when it is persistent |
| TaskRuns.PersistentStays | internal/controller/task_controller.go:163-172 | a persistent task is never archived or deleted |
| TaskRuns.OverIsDeleted | internal/controller/task_controller.go:95-97 | any other task that is over is deleted by its next reconcile, an hour later at the earliest |
| GroupLabels.MembershipIsFold | internal/controller/group_controller.go:116-128 | a reconcile goes through exactly when each target can be served at its turn; members are then the fold of the targets over the initial labels; nothing but this group's label changes, even on error |
| GroupLabels.UpdateListShape | internal/controller/group_controller.go:234-265 | labelling a list touches only this group's label, sets it to the entity's identity, and goes through exactly when every provisioned entity listed has its pod |
| GroupLabels.UpdateListMembers | api/v1/common.go:94-108 | labelling a list adds it to, or removes it from, the members |
| GroupLabels.ReconcileIsRelabel | internal/controller/group_controller.go:234-265 | a group reconcile is one of the label changes the cluster invariant allows for |
| GroupLabels.CreatedPodAgrees | api/v1/pod_webhook.go:108-132 | a created pod has its entity's group labels and no other, its remaining labels as in the template |
| GroupLabels.PodCreationAgrees | api/v1/pod_webhook.go:77-90 | in a covered cluster pod `i` is created with the ordinal and group labels of the one entity of ordinal `i` |
| GroupLabels.ReconcileAgrees | internal/controller/group_controller.go:239-263 | a pod that agreed with its provisioned entity before a group reconcile agrees after it, error or not |
| GroupLabels.SafePodsApart | internal/controller/entity_controller.go:289-331 | in reachable states provisioned entities have pods of their own |
| GroupLabels.LateLockOnExactly | internal/controller/group_controller.go:245-247 | an entity whose labels a group update reaches before lock-on agrees with its pod afterwards if and only if the update, whether it adds or deletes, had nothing to change |
| GroupRuns.RunKeepsCore | internal/controller/group_controller.go:68-155 | runs with group reconciles of any groups and targets among their events keep the invariant |
| GroupRuns.ComesExactly | internal/controller/model_controller.go:284-309 | whether an event fills a vacant ordinal, told from the state before it: a scale-up past it, or an admissible request for it |
| GroupRuns.StepInStepExactly | internal/controller/model_controller.go:284-326 | an event other than a group reconcile keeps the entity and the pod of an ordinal in step if and only if it is not one that, judged by the state before it, brings an entity to a vacant ordinal whose pod is there with other group labels |
| GroupRuns.LabelIsForetold | internal/controller/group_controller.go:116-265 | the group's label an entity has after a reconcile, complete or cut short, is what the last target that gets to it makes of the label it had |
| GroupRuns.PodLabelIsForetold | internal/controller/group_controller.go:245-263 | the pod of a provisioned entity gets the same label whenever a target gets to the entity, whatever the pod carried before |
| GroupRuns.GroupInStepExactly | internal/controller/group_controller.go:234-265 | any group reconcile, complete or cut short, keeps the two in step if and only if it leaves the label of an entity that waits for lock-on to the pod with the value it had |
| GroupRuns.RunInStepExactly | internal/controller/group_controller.go:234-265 | the entity and the pod of an ordinal carry the same group labels in every state of a run if and only if no event of it is of those two kinds |
| GroupRuns.RunAgrees | api/v1/pod_webhook.go:108-132 | so in a run without such events for its ordinal a provisioned entity agrees with the pod it is locked on to |
| GroupLabels.GroupReconciler.GetEntityListForTarget | internal/controller/group_controller.go:188-232 | fails exactly for a missing entity or an unsupported type; otherwise lists, each once, the entity of that name, the entities with the group's label or those with the model's |
| GroupLabels.GroupReconciler.UpdateLabelsForEntities | internal/controller/group_controller.go:234-265 | the loop in place equals its function, stopping at the first error |
| GroupLabels.GroupReconciler.ApplyAll | internal/controller/group_controller.go:116-128 | the loop over the targets in place equals the list update it is specified by, stopping at the first error |
| GroupLabels.GroupReconciler.Reconcile | internal/controller/group_controller.go:68-155 | a settled group is left alone; otherwise it ends settled exactly on success, with TotalEntities the size of the fold, and Failed on error |
| GroupDeletion.Deletion.RunAll | internal/controller/handler/deletion_handler.go:23-44 | cleanups run in order and stop at the first error: the policy, then the entities, then the pods, each of these up to the first one refused; success exactly when nothing obstructs them |
| GroupDeletion.Deletion.DoUnlabelEntities | api/v1/group_types.go:140-161 | strips the group's label from the members listed before the first refused one, so from all exactly when none is refused |
| GroupDeletion.Deletion.DoUnlabelPods | api/v1/group_types.go:163-184 | the same for pods |
| GroupDeletion.Deletion.Pass | internal/controller/processor_handler.go:192-210 | the finalizer comes off exactly in an unobstructed pass, which then creates the NetworkPolicy anew unless its cache still shows the old one |
| GroupDeletion.DeletionSafe | internal/controller/processor_handler.go:197-207 | over any number of passes, whatever others change in between: the finalizer comes off in one pass, and then no entity or pod carries the group's label, for good if nobody is labelled from outside |
| GroupDeletion.OnlyTheLabelGoes | api/v1/group_types.go:140-184 | left to themselves, any number of passes take away the group's label and change nothing else |
| GroupDeletion.StuckWithoutPolicy | api/v1/group_types.go:127-138 | once a pass finds the NetworkPolicy missing, neither it nor any later pass changes anything, whatever others do in between |
| GroupDeletion.OneChance | api/v1/group_types.go:124-186 | the finalizer ever comes off if and only if the first pass whose removal of the policy is not refused is unobstructed |
| CreateOrUpdate.Converges | internal/controller/handler/cluster_resource_processor.go:234-392 | unless an error is reported the compared part of the stored object is as desired: the spec, or a RoleBinding's role reference; with at most one attempt more than foreign writes |
| CreateOrUpdate.MissingIsCreated | internal/controller/handler/cluster_resource_processor.go:234-244 | a missing object is created as desired, unless somebody else creates it meanwhile |
| CreateOrUpdate.RightIsLeft | internal/controller/handler/cluster_resource_processor.go:254-256 | an object whose compared part is right is left alone |
| CreateOrUpdate.WrongIsUpdated | internal/controller/handler/cluster_resource_processor.go:245-392 | any other is updated in that part and in its metadata and in nothing else; a foreign write starts the handler over, a removal fails it |
| CreateOrUpdate.UnreadableFails | internal/controller/handler/cluster_resource_processor.go:234-244 | an object that exists but cannot be read is taken for missing, and creating it fails |
| CreateOrUpdate.ResourceHandler.DesiredShape | internal/controller/handler/cluster_resource_processor.go:206-232 | the handler's labels win over the built object's, which stay otherwise, and the owner is set if asked for |
| CreateOrUpdate.SecondRunIdle | internal/controller/handler/cluster_resource_processor.go:254-256 | after a successful run another one writes and reports nothing |
| CreateOrUpdate.SucceedsAmongWriters | internal/controller/handler/cluster_resource_processor.go:378-382 | finitely many foreign writes cannot keep the conflict recursion from converging |
| CreateOrUpdate.MetadataRepairedExactly | internal/controller/handler/cluster_resource_processor.go:247-256 | whatever else writes, labels, annotations and owner become as desired exactly when the object last fetched differed in its compared part, or had them right already, or did not exist |
| CreateOrUpdate.SubjectsStay | internal/controller/handler/cluster_resource_processor.go:347-355 | the subjects of an existing RoleBinding are never changed |
| CreateOrUpdate.ResourceHandler.Handle | internal/controller/handler/cluster_resource_processor.go:191-392 | the handler in place equals its function and converges: a missing object is created, one that is right left, one that is wrong updated |
| CreateOrUpdate.ResourceHandler.Process | internal/controller/processor_handler.go:46-86 | a condition is appended exactly when something was provisioned |
| CreateOrUpdate.ResourceHandler.ProcessTwice | internal/controller/processor_handler.go:72-83 | of two runs the second leaves the store and the conditions as the first left them |

## Left out

- HTTP requests to pods, JSON patches, certificates, services, ingresses, an entity's status URLs, a pod's service account, the command line tools and the agent: plumbing.
- Template decoding, readiness verification, defaulting by the API server (which would make a stored spec differ from the built one), events and logs.
- Several Models in one namespace: `Cluster` follows one Model; entities of others do not carry its index label.
- Nil pointers: a Model without TargetReplicas, a pod or StatefulSet without owner references. The code indexes the empty list before it checks its length, so its branch for ownerless pods is never taken.
- 32-bit ordinals and the range error of `Atoi`: ordinals are unbounded integers; the difference shows only at 2^31 replicas.
- API errors in the middle of a Model reconcile: it is atomic here, apart from failing before it has changed anything.
- Secondary mode, edits of an entity's ordinal, back-filling of an adopted StatefulSet that already has replicas.
- Entity finalizers: a deleted entity disappears at once, its pod in an event of its own.
- Task edits, controller restarts and API errors during a task's run; fractions of a second; the webhook's default of 60 for an Offset of 0.
- Failing requests to the API server other than the refusals of `GroupDeletion.Conditions` during deletion of a group; other writers in the middle of a pass.
- ConcurrentAdmission.AdmissionUniqueExactly: does not interleave Model reconciles and deletes; two requests under one name are not under way together.
- ConcurrentGrowth.GrowthIsExact: does not interleave Model reconciles, which reset the replica count.
- GroupRuns.RunAgrees: the deletion of a group is not an event of these runs; a pass that fails halfway leaves entities without the label their pods still carry.
