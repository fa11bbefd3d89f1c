/** Runs of a cluster with group reconciles among their events: when an entity and its pod carry the
    same group labels in every state. */
module GroupRuns {
  import opened Wrappers
  import opened Naming
  import opened Cluster
  import opened ClusterSafety
  import opened GroupLabels
  import Controllers

  datatype Event =
    | InCluster(step: Step)
    | ReconcileGroup(group: string, targets: seq<Target>, order: Order)

  ghost predicate Possible(m: Model, s: State, ev: Event) {
    match ev
    case InCluster(step) => !step.Relabel? && Enabled(m, s, step)
    case ReconcileGroup(_, _, order) => Lists(order)
  }

  ghost function Objs(s: State): Objects {
    Objects(s.entities, s.pods)
  }

  ghost function After(m: Model, s: State, ev: Event): State
    requires Possible(m, s, ev)
  {
    match ev
    case InCluster(step) => Next(m, s, step)
    case ReconcileGroup(group, targets, order) =>
      var o := ApplyTargets(Objs(s), group, targets, order).objects;
      s.(entities := o.entities, pods := o.pods)
  }

  /** `states` are the states gone through, from a fresh cluster on. */
  ghost predicate Run(m: Model, target: int, states: seq<State>, events: seq<Event>) {
    && |states| == |events| + 1 && states[0] == Initial(target)
    && forall k :: 0 <= k < |events| ==>
         Possible(m, states[k], events[k]) && states[k + 1] == After(m, states[k], events[k])
  }

  // ---------- the cluster's invariant holds in these runs, too ----------

  lemma AfterCore(m: Model, s: State, ev: Event)
    requires Core(m, s) && Possible(m, s, ev)
    ensures Core(m, After(m, s, ev))
  {
    match ev
    case InCluster(step) => NextSafe(m, s, step);
    case ReconcileGroup(group, targets, order) =>
      ReconcileIsRelabel(Objs(s), group, targets, order);
      var o := ApplyTargets(Objs(s), group, targets, order).objects;
      NextSafe(m, s, Relabel(o.entities, o.pods));
  }

  // ---------- one ordinal ----------

  /** The entity of ordinal `i` and the StatefulSet's pod `i`, if both exist, carry the same group labels. */
  ghost predicate InStep(m: Model, o: Objects, i: int) {
    forall n :: n in o.entities && o.entities[n].index == i && m.PodName(i) in o.pods ==>
      GroupPart(o.pods[m.PodName(i)]) == GroupPart(o.entities[n].labels)
  }

  /** No pod `i` waits for its entity to lock on to it. */
  ghost predicate LockedAt(m: Model, o: Objects, i: int) {
    forall n :: n in o.entities && o.entities[n].index == i && m.PodName(i) in o.pods ==> o.entities[n].provisioned
  }

  /** The labels, index label aside, with which the event creates entities. */
  ghost function Arriving(step: Step): Labels {
    if step.CreateEntity? then step.req.labels else map[]
  }

  /** The event brings an entity to the vacant ordinal `i`. */
  ghost predicate Comes(m: Model, s: State, step: Step, i: int) {
    match step
    case ReconcileModel(_) => !s.Settled() && s.Current() <= i < s.target && !Held(s.entities, i)
    case CreateEntity(req, _) =>
      && req.name !in s.entities && Ordinal(m, s.entities, req) == i && !Held(s.entities, i)
      && s.replicas.Some? && i <= s.replicas.value + 1
    case _ => false
  }

  /** The value of the group's label, if there is one. */
  function LabelOf(labels: Labels, group: string): Option<string> {
    if GroupKey(group) in labels then Some(labels[GroupKey(group)]) else None
  }

  /** The update of a list stops after an entity whose pod is missing. */
  predicate Stops(o: Objects, n: string) {
    n in o.entities && o.entities[n].provisioned && o.entities[n].podName !in o.pods
  }

  /** The update of the list gets to `n`. */
  ghost predicate Reaches(o: Objects, list: seq<string>, n: string) {
    list != [] &&
    var init := list[..|list| - 1];
    Reaches(o, init, n) || (list[|list| - 1] == n && forall a :: a in init ==> !Stops(o, a))
  }

  /** The group's label after a reconcile on `n`, or on its pod, if it `had` that label before, judged by
      what was there before: the last target that gets to `n` decides, and targets after one that cannot
      be served count for nothing. */
  ghost function LabelAfter(o: Objects, group: string, targets: seq<Target>, order: Order, n: string,
      had: Option<string>): Option<string>
    requires n in o.entities
  {
    if targets == [] then had
    else
      var init, t := targets[..|targets| - 1], targets[|targets| - 1];
      var meant := Meant(o.entities, group, t, Fold(o.entities, group, init));
      if !AllServable(o, group, init) || meant.None? || !Reaches(o, order(meant.value), n) then
        LabelAfter(o, group, init, order, n, had)
      else if t.action == LABEL_DELETE then None
      else Some(o.entities[n].identity)
  }

  /** An entity of ordinal `i` that waits for lock-on to pod `i` keeps the group's label as it was. */
  ghost predicate LeavesWaiting(m: Model, o: Objects, group: string, targets: seq<Target>, order: Order, i: int) {
    forall n :: n in o.entities && o.entities[n].index == i && m.PodName(i) in o.pods && !o.entities[n].provisioned ==>
      var had := LabelOf(o.entities[n].labels, group);
      LabelAfter(o, group, targets, order, n, had) == had
  }

  /** What the agreement at ordinal `i` takes: an entity comes to it only while pod `i` is gone or has
      the group labels the entity comes with, and while its entity waits for lock-on to pod `i`, group
      reconciles leave that entity's label as it was. */
  ghost predicate Calm(m: Model, s: State, ev: Event, i: int) {
    match ev
    case InCluster(step) =>
      Comes(m, s, step, i) && m.PodName(i) in s.pods ==>
        GroupPart(s.pods[m.PodName(i)]) == GroupPart(Arriving(step))
    case ReconcileGroup(group, targets, order) => LeavesWaiting(m, Objs(s), group, targets, order, i)
  }

  // ---------- group reconciles ----------

  /** What an update of labels needs to know of the entities, and keeps. */
  ghost predicate Ready(m: Model, o: Objects, i: int) {
    && UniqueOrdinals(o.entities) && LocksHonest(m, o.entities) && LockedAt(m, o, i)
    && (forall n :: n in o.entities ==> 0 <= o.entities[n].index)
  }

  lemma ReadyStays(m: Model, o: Objects, o': Objects, group: string, i: int)
    requires Ready(m, o, i) && OnlyGroupDiffers(o, o', group)
    ensures Ready(m, o', i)
  {
    assert forall n :: n in o'.entities ==>
      n in o.entities && o'.entities[n] == o.entities[n].(labels := o'.entities[n].labels);
  }

  lemma UpdateOneInStep(m: Model, o: Objects, group: string, n: string, action: string, i: int)
    requires n in o.entities && Ready(m, o, i) && InStep(m, o, i) && 0 <= i
    ensures InStep(m, UpdateOne(o, group, n, action).objects, i)
  {
    var e, o' := o.entities[n], UpdateOne(o, group, n, action).objects;
    var pod := m.PodName(i);
    if e.index == i {
      if pod in o.pods {
        assert e.podName == pod;
        BuildLabelGroupPart(e.labels, o.pods[pod], group, e.identity, action);
        forall a | a in o'.entities && o'.entities[a].index == i
          ensures GroupPart(o'.pods[pod]) == GroupPart(o'.entities[a].labels)
        {
          assert o.entities[a].index == i && a == n;
        }
      }
    } else {
      if e.provisioned && e.podName == pod { OrdinalNameInjective(m.StsName(), e.index, i); }
      assert pod in o'.pods ==> pod in o.pods && o'.pods[pod] == o.pods[pod];
      forall a | a in o'.entities && o'.entities[a].index == i ensures o'.entities[a] == o.entities[a] {
      }
    }
  }

  lemma {:induction false} UpdateListInStep(m: Model, o: Objects, group: string, list: seq<string>, action: string,
      i: int)
    requires forall n :: n in list ==> n in o.entities
    requires Ready(m, o, i) && InStep(m, o, i) && 0 <= i
    ensures InStep(m, UpdateList(o, group, list, action).objects, i)
  {
    if list != [] {
      var init := list[..|list| - 1];
      UpdateListInStep(m, o, group, init, action, i);
      UpdateListShape(o, group, init, action);
      var before := UpdateList(o, group, init, action);
      if before.ok {
        ReadyStays(m, o, before.objects, group, i);
        UpdateOneInStep(m, before.objects, group, list[|list| - 1], action, i);
      }
    }
  }

  lemma {:induction false} ApplyTargetsInStep(m: Model, o: Objects, group: string, targets: seq<Target>,
      order: Order, i: int)
    requires Lists(order) && Ready(m, o, i) && InStep(m, o, i) && 0 <= i
    ensures InStep(m, ApplyTargets(o, group, targets, order).objects, i)
  {
    if targets != [] {
      var init, t := targets[..|targets| - 1], targets[|targets| - 1];
      ApplyTargetsInStep(m, o, group, init, order, i);
      MembershipIsFold(o, group, init, order);
      var before := ApplyTargets(o, group, init, order);
      if before.ok && Resolve(before.objects.entities, t).Some? {
        var names := Resolve(before.objects.entities, t).value;
        assert Controllers.IsListing(order(names), names);
        ReadyStays(m, o, before.objects, group, i);
        UpdateListInStep(m, before.objects, group, order(names), t.action, i);
      }
    }
  }

  // ---------- a group reconcile that comes before lock-on ----------

  /** The entity `n` of ordinal `i` is not locked on to pod `i` yet. */
  ghost predicate Waits(m: Model, o: Objects, n: string, i: int) {
    && UniqueOrdinals(o.entities) && LocksHonest(m, o.entities)
    && (forall a :: a in o.entities ==> 0 <= o.entities[a].index)
    && n in o.entities && o.entities[n].index == i && !o.entities[n].provisioned
  }

  lemma WaitsStill(m: Model, o: Objects, o': Objects, group: string, n: string, i: int)
    requires Waits(m, o, n, i) && OnlyGroupDiffers(o, o', group)
    ensures Waits(m, o', n, i)
  {
    assert forall a :: a in o'.entities ==>
      a in o.entities && o'.entities[a] == o.entities[a].(labels := o'.entities[a].labels);
  }

  lemma UpdateOnePasses(m: Model, o: Objects, group: string, a: string, action: string, n: string, i: int)
    requires a in o.entities && Waits(m, o, n, i) && m.PodName(i) in o.pods
    ensures var pods := UpdateOne(o, group, a, action).objects.pods;
      m.PodName(i) in pods && pods[m.PodName(i)] == o.pods[m.PodName(i)]
  {
    var e := o.entities[a];
    if e.provisioned && e.podName == m.PodName(i) {
      OrdinalNameInjective(m.StsName(), e.index, i);
      assert false;
    }
  }

  lemma {:induction false} UpdateListPasses(m: Model, o: Objects, group: string, list: seq<string>, action: string,
      n: string, i: int)
    requires forall a :: a in list ==> a in o.entities
    requires Waits(m, o, n, i) && m.PodName(i) in o.pods
    ensures var pods := UpdateList(o, group, list, action).objects.pods;
      m.PodName(i) in pods && pods[m.PodName(i)] == o.pods[m.PodName(i)]
  {
    if list != [] {
      var init := list[..|list| - 1];
      UpdateListPasses(m, o, group, init, action, n, i);
      UpdateListShape(o, group, init, action);
      var before := UpdateList(o, group, init, action);
      if before.ok {
        WaitsStill(m, o, before.objects, group, n, i);
        UpdateOnePasses(m, before.objects, group, list[|list| - 1], action, n, i);
      }
    }
  }

  lemma {:induction false} ApplyTargetsPasses(m: Model, o: Objects, group: string, targets: seq<Target>,
      order: Order, n: string, i: int)
    requires Lists(order) && Waits(m, o, n, i) && m.PodName(i) in o.pods
    ensures var pods := ApplyTargets(o, group, targets, order).objects.pods;
      m.PodName(i) in pods && pods[m.PodName(i)] == o.pods[m.PodName(i)]
  {
    if targets != [] {
      var init, t := targets[..|targets| - 1], targets[|targets| - 1];
      ApplyTargetsPasses(m, o, group, init, order, n, i);
      MembershipIsFold(o, group, init, order);
      var before := ApplyTargets(o, group, init, order);
      if before.ok && Resolve(before.objects.entities, t).Some? {
        var names := Resolve(before.objects.entities, t).value;
        assert Controllers.IsListing(order(names), names);
        WaitsStill(m, o, before.objects, group, n, i);
        UpdateListPasses(m, before.objects, group, order(names), t.action, n, i);
      }
    }
  }

  /** Label maps that may differ in one group's label agree on the group labels exactly when they agree
      on that one. */
  lemma GroupPartsExactly(a: Labels, b: Labels, group: string)
    requires SameExcept(a, b, GroupKey(group))
    ensures GroupPart(a) == GroupPart(b) <==>
      (GroupKey(group) in a <==> GroupKey(group) in b) &&
      (GroupKey(group) in a && GroupKey(group) in b ==> a[GroupKey(group)] == b[GroupKey(group)])
  {
    KeysApart("", group, "");
    var key := GroupKey(group);
    assert key in GroupPart(a) <==> key in a;
    assert key in GroupPart(b) <==> key in b;
    if key in a && key in b { assert GroupPart(a)[key] == a[key] && GroupPart(b)[key] == b[key]; }
  }

  lemma ReachesSame(o: Objects, o': Objects, group: string, list: seq<string>, n: string)
    requires OnlyGroupDiffers(o, o', group)
    ensures Reaches(o', list, n) == Reaches(o, list, n)
  {
    if list != [] {
      ReachesSame(o, o', group, list[..|list| - 1], n);
      assert forall a :: Stops(o', a) <==> Stops(o, a);
    }
  }

  lemma UpdateOneLabel(o: Objects, group: string, a: string, action: string, n: string)
    requires a in o.entities && n in o.entities
    ensures var es := UpdateOne(o, group, a, action).objects.entities;
      n in es && LabelOf(es[n].labels, group) ==
        if a != n then LabelOf(o.entities[n].labels, group)
        else if action == LABEL_DELETE then None else Some(o.entities[n].identity)
  {
  }

  lemma {:induction false} UpdateListLabel(o: Objects, group: string, list: seq<string>, action: string, n: string)
    requires n in o.entities && forall a :: a in list ==> a in o.entities
    ensures var u := UpdateList(o, group, list, action);
      LabelOf(u.objects.entities[n].labels, group) ==
        if !Reaches(o, list, n) then LabelOf(o.entities[n].labels, group)
        else if action == LABEL_DELETE then None else Some(o.entities[n].identity)
  {
    if list != [] {
      var init := list[..|list| - 1];
      UpdateListLabel(o, group, init, action, n);
      UpdateListShape(o, group, init, action);
      var before := UpdateList(o, group, init, action);
      if before.ok {
        UpdateOneLabel(before.objects, group, list[|list| - 1], action, n);
        assert forall a :: a in init ==> !Stops(o, a);
      } else {
        assert exists a :: a in init && Stops(o, a);
      }
    }
  }

  /** The label a reconcile leaves on an entity is the one foretold. */
  lemma {:induction false} LabelIsForetold(o: Objects, group: string, targets: seq<Target>, order: Order, n: string)
    requires Lists(order) && n in o.entities
    ensures var o' := ApplyTargets(o, group, targets, order).objects;
      n in o'.entities && LabelOf(o'.entities[n].labels, group) ==
        LabelAfter(o, group, targets, order, n, LabelOf(o.entities[n].labels, group))
  {
    if targets != [] {
      var init, t := targets[..|targets| - 1], targets[|targets| - 1];
      LabelIsForetold(o, group, init, order, n);
      MembershipIsFold(o, group, init, order);
      var before := ApplyTargets(o, group, init, order);
      MeantIsResolved(o, before.objects, group, t);
      var names := Resolve(before.objects.entities, t);
      if before.ok && names.Some? {
        var list := order(names.value);
        assert Controllers.IsListing(list, names.value);
        UpdateListLabel(before.objects, group, list, t.action, n);
        ReachesSame(o, before.objects, group, list, n);
      }
    }
  }

  lemma UpdateOnePodLabel(o: Objects, group: string, a: string, action: string, n: string)
    requires a in o.entities && n in o.entities && PodsApart(o.entities)
    requires o.entities[n].provisioned && o.entities[n].podName in o.pods
    ensures var pods := UpdateOne(o, group, a, action).objects.pods;
      o.entities[n].podName in pods && LabelOf(pods[o.entities[n].podName], group) ==
        if a != n then LabelOf(o.pods[o.entities[n].podName], group)
        else if action == LABEL_DELETE then None else Some(o.entities[n].identity)
  {
  }

  lemma {:induction false} UpdateListPodLabel(o: Objects, group: string, list: seq<string>, action: string, n: string)
    requires n in o.entities && PodsApart(o.entities) && forall a :: a in list ==> a in o.entities
    requires o.entities[n].provisioned && o.entities[n].podName in o.pods
    ensures var pods := UpdateList(o, group, list, action).objects.pods;
      o.entities[n].podName in pods && LabelOf(pods[o.entities[n].podName], group) ==
        if !Reaches(o, list, n) then LabelOf(o.pods[o.entities[n].podName], group)
        else if action == LABEL_DELETE then None else Some(o.entities[n].identity)
  {
    if list != [] {
      var init := list[..|list| - 1];
      UpdateListPodLabel(o, group, init, action, n);
      UpdateListShape(o, group, init, action);
      var before := UpdateList(o, group, init, action);
      if before.ok {
        UpdateOnePodLabel(before.objects, group, list[|list| - 1], action, n);
        assert forall a :: a in init ==> !Stops(o, a);
      } else {
        assert exists a :: a in init && Stops(o, a);
      }
    }
  }

  /** The pod of a provisioned entity gets the same label whenever a target gets to the entity, whatever
      the pod carried before. */
  lemma {:induction false} PodLabelIsForetold(o: Objects, group: string, targets: seq<Target>, order: Order, n: string)
    requires Lists(order) && n in o.entities && PodsApart(o.entities)
    requires o.entities[n].provisioned && o.entities[n].podName in o.pods
    ensures var pod := o.entities[n].podName;
      var pods := ApplyTargets(o, group, targets, order).objects.pods;
      pod in pods && LabelOf(pods[pod], group) == LabelAfter(o, group, targets, order, n, LabelOf(o.pods[pod], group))
  {
    if targets != [] {
      var init, t := targets[..|targets| - 1], targets[|targets| - 1];
      PodLabelIsForetold(o, group, init, order, n);
      MembershipIsFold(o, group, init, order);
      var before := ApplyTargets(o, group, init, order);
      MeantIsResolved(o, before.objects, group, t);
      var names := Resolve(before.objects.entities, t);
      if before.ok && names.Some? {
        var list := order(names.value);
        assert Controllers.IsListing(list, names.value);
        assert PodsApart(before.objects.entities);
        UpdateListPodLabel(before.objects, group, list, t.action, n);
        ReachesSame(o, before.objects, group, list, n);
      }
    }
  }

  lemma WaitingInStep(m: Model, o: Objects, group: string, targets: seq<Target>, order: Order, n: string, i: int)
    requires Lists(order) && Waits(m, o, n, i) && m.PodName(i) in o.pods && InStep(m, o, i)
    ensures InStep(m, ApplyTargets(o, group, targets, order).objects, i) <==>
      var had := LabelOf(o.entities[n].labels, group);
      LabelAfter(o, group, targets, order, n, had) == had
  {
    var o' := ApplyTargets(o, group, targets, order).objects;
    MembershipIsFold(o, group, targets, order);
    LabelIsForetold(o, group, targets, order, n);
    ApplyTargetsPasses(m, o, group, targets, order, n, i);
    WaitsStill(m, o, o', group, n, i);
    GroupPartsExactly(o.entities[n].labels, o'.entities[n].labels, group);
    assert InStep(m, o', i) <==> GroupPart(o'.entities[n].labels) == GroupPart(o.entities[n].labels) by {
      forall a | a in o'.entities && o'.entities[a].index == i ensures a == n {
      }
    }
  }

  /** Cut short by an error or not, and whatever value the group's label had: a group reconcile keeps
      entity and pod of an ordinal in step if and only if it is calm for the ordinal. */
  lemma GroupInStepExactly(m: Model, s: State, group: string, targets: seq<Target>, order: Order, i: int)
    requires Core(m, s) && Lists(order) && InStep(m, Objs(s), i) && 0 <= i
    ensures InStep(m, ApplyTargets(Objs(s), group, targets, order).objects, i) <==>
      Calm(m, s, ReconcileGroup(group, targets, order), i)
  {
    var o := Objs(s);
    if LockedAt(m, o, i) {
      ApplyTargetsInStep(m, o, group, targets, order, i);
    } else {
      var n :| n in o.entities && o.entities[n].index == i && m.PodName(i) in o.pods && !o.entities[n].provisioned;
      WaitingInStep(m, o, group, targets, order, n, i);
    }
  }

  // ---------- cluster events ----------

  /** Entities that stay keep ordinal and labels, one that comes to ordinal `i` finds it vacant and
      brings the given group labels, and no pod is relabelled; pods go only if nobody comes. */
  ghost predicate Still(s: State, s': State, arriving: Labels, i: int) {
    && (forall n :: n in s.entities && n in s'.entities ==>
          s'.entities[n].index == s.entities[n].index && s'.entities[n].labels == s.entities[n].labels)
    && (forall n :: n in s'.entities && n !in s.entities ==>
          (s'.entities[n].index == i ==> !Held(s.entities, i)) &&
          GroupPart(s'.entities[n].labels) == GroupPart(arriving) && s'.pods == s.pods)
    && (forall p :: p in s'.pods ==> p in s.pods && s'.pods[p] == s.pods[p])
  }

  lemma IndexLabelApart(m: Model, labels: Labels, val: string)
    ensures GroupPart(labels[IndexKey(m.name) := val]) == GroupPart(labels)
    ensures GroupPart(map[IndexKey(m.name) := val]) == GroupPart(map[])
  {
    KeysApart(m.name, "", "");
  }

  lemma GrownStill(m: Model, s: State, s': State, low: int, high: int, i: int)
    requires GrowsTo(m, s.entities, s'.entities, low, high) && s'.pods == s.pods
    ensures Still(s, s', map[], i)
  {
    forall n | n in s'.entities && n !in s.entities ensures GroupPart(s'.entities[n].labels) == GroupPart(map[]) {
      IndexLabelApart(m, map[], Print(s'.entities[n].index));
    }
  }

  lemma DroppedStill(s: State, s': State, i: int)
    requires s'.entities.Keys <= s.entities.Keys && s'.pods == s.pods
    requires forall n :: n in s'.entities ==> s'.entities[n] == s.entities[n]
    ensures Still(s, s', map[], i)
  {
  }

  lemma ModelReconciledStill(m: Model, s: State, uuids: string -> string, i: int)
    requires Core(m, s)
    ensures Still(s, ModelReconciled(m, s, uuids), map[], i)
  {
    var s' := ModelReconciled(m, s, uuids);
    if !s.Settled() && s.Current() < s.target {
      GrownShape(m, s.entities, s.Current(), s.target, uuids);
      GrownStill(m, s, s', s.Current(), s.target, i);
    } else {
      DroppedStill(s, s', i);
    }
  }

  lemma EntityCreatedStill(m: Model, s: State, req: Request, uuid: string, i: int)
    requires Core(m, s) && !req.ownerRefs
    ensures Still(s, EntityCreated(m, s, req, uuid), req.labels, i)
  {
    SelectedIsHolder(m, s.entities, Ordinal(m, s.entities, req));
    IndexLabelApart(m, req.labels, Print(Ordinal(m, s.entities, req)));
  }

  ghost predicate SameLabels(es: map<string, Entity>, es': map<string, Entity>) {
    es'.Keys == es.Keys && forall n :: n in es ==> es'[n].index == es[n].index && es'[n].labels == es[n].labels
  }

  lemma OwnershipLabels(s: State, name: string)
    requires name in s.entities
    ensures SameLabels(s.entities, OwnershipTaken(s, name).entities) && OwnershipTaken(s, name).pods == s.pods
  {
  }

  lemma LockedLabels(m: Model, s: State, name: string, pick: string)
    requires name in s.entities
    ensures SameLabels(s.entities, LockedOn(m, s, name, pick).entities) && LockedOn(m, s, name, pick).pods == s.pods
  {
  }

  lemma EntityReconciledStill(m: Model, s: State, name: string, pick: string, changed: bool, i: int)
    ensures Still(s, EntityReconciled(m, s, name, pick, changed), map[], i)
  {
    if name in s.entities {
      OwnershipLabels(s, name);
      LockedLabels(m, OwnershipTaken(s, name), name, pick);
    }
  }

  lemma DeletedStill(s: State, name: string, i: int)
    ensures Still(s, s.(entities := s.entities - {name}), map[], i)
    ensures Still(s, s.(pods := s.pods - {name}), map[], i)
  {
  }

  lemma StepStill(m: Model, s: State, step: Step, i: int)
    requires Core(m, s) && Enabled(m, s, step) && !step.Relabel? && !step.CreatePod?
    ensures Still(s, Next(m, s, step), Arriving(step), i)
  {
    match step
    case EditModel(_) =>
    case FailModel =>
    case ReconcileModel(uuids) => ModelReconciledStill(m, s, uuids, i);
    case ProvideSts =>
    case CreateEntity(req, uuid) => EntityCreatedStill(m, s, req, uuid, i);
    case DeleteEntity(name) => DeletedStill(s, name, i);
    case ReconcileEntity(name, pick, changed) => EntityReconciledStill(m, s, name, pick, changed, i);
    case DeletePod(name) => DeletedStill(s, name, i);
  }

  /** Events other than the creation of a pod keep an agreement exactly when nobody comes to ordinal
      `i` with other group labels than those of a pod that is there already. */
  lemma StillInStep(m: Model, s: State, s': State, arriving: Labels, i: int)
    requires InStep(m, Objs(s), i) && Still(s, s', arriving, i)
    ensures InStep(m, Objs(s'), i) <==>
      (Held(s'.entities, i) && !Held(s.entities, i) && m.PodName(i) in s.pods ==>
         GroupPart(s.pods[m.PodName(i)]) == GroupPart(arriving))
  {
    if Held(s'.entities, i) && !Held(s.entities, i) {
      var n :| n in s'.entities && s'.entities[n].index == i;
      assert n !in s.entities;
    }
    forall n | n in s'.entities && s'.entities[n].index == i && n !in s.entities ensures Held(s'.entities, i) {
    }
  }

  lemma CreatePodInStep(m: Model, s: State, ordinal: int, template: Labels, pick: string, i: int)
    requires Core(m, s) && Enabled(m, s, CreatePod(ordinal, template, pick)) && InStep(m, Objs(s), i) && 0 <= i
    ensures InStep(m, Objs(PodCreated(m, s, m.PodName(ordinal), template, pick)), i)
  {
    SequenceOfOrdinalName(m.StsName(), ordinal);
    SelectedIsHolder(m, s.entities, ordinal);
    if pick in s.entities { CreatedPodAgrees(m, s.entities[pick], template); }
    if m.PodName(ordinal) == m.PodName(i) { OrdinalNameInjective(m.StsName(), ordinal, i); }
  }

  lemma GrowthComes(m: Model, s: State, uuids: string -> string, i: int)
    requires Core(m, s) && !s.Settled() && s.Current() < s.target
    ensures Held(ModelReconciled(m, s, uuids).entities, i) && !Held(s.entities, i) <==>
      s.Current() <= i < s.target && !Held(s.entities, i)
  {
    GrownShape(m, s.entities, s.Current(), s.target, uuids);
    var r := ModelReconciled(m, s, uuids).entities;
    if Held(r, i) && !Held(s.entities, i) {
      var n :| n in r && r[n].index == i;
      assert n !in s.entities;
    }
  }

  lemma RequestComes(m: Model, s: State, req: Request, uuid: string, i: int)
    requires Core(m, s) && !req.ownerRefs
    ensures Held(EntityCreated(m, s, req, uuid).entities, i) && !Held(s.entities, i) <==>
      Comes(m, s, Step.CreateEntity(req, uuid), i)
  {
    var es := EntityCreated(m, s, req, uuid).entities;
    SelectedIsHolder(m, s.entities, Ordinal(m, s.entities, req));
    if Held(es, i) && !Held(s.entities, i) {
      var n :| n in es && es[n].index == i;
      assert n == req.name;
    }
    if Comes(m, s, Step.CreateEntity(req, uuid), i) {
      assert Selected(s.entities, IndexKey(m.name), Print(i)) == {};
      assert req.name in es && es[req.name].index == i;
    }
  }

  lemma NobodyComes(es: map<string, Entity>, es': map<string, Entity>, i: int)
    requires forall n :: n in es' ==> n in es && es'[n].index == es[n].index
    ensures Held(es', i) ==> Held(es, i)
  {
  }

  lemma ReconciledNobodyComes(m: Model, s: State, name: string, pick: string, changed: bool, i: int)
    ensures Held(EntityReconciled(m, s, name, pick, changed).entities, i) ==> Held(s.entities, i)
  {
    if name in s.entities {
      OwnershipLabels(s, name);
      LockedLabels(m, OwnershipTaken(s, name), name, pick);
      NobodyComes(s.entities, EntityReconciled(m, s, name, pick, changed).entities, i);
    }
  }

  /** Whether an event fills a vacant ordinal can be told before it. */
  lemma ComesExactly(m: Model, s: State, step: Step, i: int)
    requires Core(m, s) && Enabled(m, s, step) && !step.Relabel?
    ensures Comes(m, s, step, i) <==> Held(Next(m, s, step).entities, i) && !Held(s.entities, i)
  {
    match step
    case ReconcileModel(uuids) =>
      if !s.Settled() && s.Current() < s.target {
        GrowthComes(m, s, uuids, i);
      } else {
        NobodyComes(s.entities, ModelReconciled(m, s, uuids).entities, i);
      }
    case CreateEntity(req, uuid) => RequestComes(m, s, req, uuid, i);
    case DeleteEntity(name) => NobodyComes(s.entities, s.entities - {name}, i);
    case ReconcileEntity(name, pick, changed) => ReconciledNobodyComes(m, s, name, pick, changed, i);
    case _ =>
  }

  /** An event of the cluster keeps the agreement at an ordinal if and only if it is calm for it. */
  lemma StepInStepExactly(m: Model, s: State, step: Step, i: int)
    requires Core(m, s) && Possible(m, s, InCluster(step)) && InStep(m, Objs(s), i) && 0 <= i
    ensures InStep(m, Objs(Next(m, s, step)), i) <==> Calm(m, s, InCluster(step), i)
  {
    if step.CreatePod? {
      CreatePodInStep(m, s, step.ordinal, step.template, step.pick, i);
    } else {
      ComesExactly(m, s, step, i);
      StepStill(m, s, step, i);
      StillInStep(m, s, Next(m, s, step), Arriving(step), i);
    }
  }

  // ---------- every run ----------

  /** Group reconciles break nothing that holds in runs without them. */
  lemma {:induction false} RunKeepsCore(m: Model, target: int, states: seq<State>, events: seq<Event>, k: nat)
    requires target >= 0 && Run(m, target, states, events) && k < |states|
    ensures Core(m, states[k])
  {
    if k > 0 {
      RunKeepsCore(m, target, states, events, k - 1);
      assert Possible(m, states[k - 1], events[k - 1]);
      AfterCore(m, states[k - 1], events[k - 1]);
    }
  }

  lemma AfterInStepExactly(m: Model, s: State, ev: Event, i: int)
    requires Core(m, s) && Possible(m, s, ev) && InStep(m, Objs(s), i) && 0 <= i
    ensures InStep(m, Objs(After(m, s, ev)), i) <==> Calm(m, s, ev, i)
  {
    match ev
    case InCluster(step) => StepInStepExactly(m, s, step, i);
    case ReconcileGroup(group, targets, order) => GroupInStepExactly(m, s, group, targets, order, i);
  }

  ghost predicate AlwaysInStep(m: Model, states: seq<State>, i: int) {
    forall k :: 0 <= k < |states| ==> InStep(m, Objs(states[k]), i)
  }

  ghost predicate AlwaysCalm(m: Model, states: seq<State>, events: seq<Event>, i: int)
    requires |states| == |events| + 1
  {
    forall k :: 0 <= k < |events| ==> Calm(m, states[k], events[k], i)
  }

  lemma RunNext(m: Model, target: int, states: seq<State>, events: seq<Event>, k: nat, i: int)
    requires target >= 0 && 0 <= i && Run(m, target, states, events) && k < |events|
    requires InStep(m, Objs(states[k]), i)
    ensures InStep(m, Objs(states[k + 1]), i) <==> Calm(m, states[k], events[k], i)
  {
    RunKeepsCore(m, target, states, events, k);
    assert Possible(m, states[k], events[k]);
    AfterInStepExactly(m, states[k], events[k], i);
  }

  lemma {:induction false} CalmSoFar(m: Model, target: int, states: seq<State>, events: seq<Event>, k: nat, i: int)
    requires target >= 0 && 0 <= i && Run(m, target, states, events) && k < |states|
    requires AlwaysCalm(m, states, events, i)
    ensures InStep(m, Objs(states[k]), i)
  {
    if k > 0 {
      CalmSoFar(m, target, states, events, k - 1, i);
      RunNext(m, target, states, events, k - 1, i);
    }
  }

  /** Over a whole run the entity and the pod of an ordinal, wherever both exist, carry the same group
      labels in every state if and only if every event of the run is calm for the ordinal. */
  lemma RunInStepExactly(m: Model, target: int, states: seq<State>, events: seq<Event>, i: int)
    requires target >= 0 && 0 <= i && Run(m, target, states, events)
    ensures AlwaysInStep(m, states, i) <==> AlwaysCalm(m, states, events, i)
  {
    if AlwaysInStep(m, states, i) {
      forall k | 0 <= k < |events| ensures Calm(m, states[k], events[k], i) {
        assert InStep(m, Objs(states[k + 1]), i);
        RunNext(m, target, states, events, k, i);
      }
    }
    if AlwaysCalm(m, states, events, i) {
      forall k | 0 <= k < |states| ensures InStep(m, Objs(states[k]), i) {
        CalmSoFar(m, target, states, events, k, i);
      }
    }
  }

  /** So a provisioned entity agrees with the pod it is locked on to, if the run was calm for it. */
  lemma RunAgrees(m: Model, target: int, states: seq<State>, events: seq<Event>, s: State, name: string)
    requires target >= 0 && Run(m, target, states, events) && s == states[|events|]
    requires name in s.entities && s.entities[name].provisioned && s.entities[name].podName in s.pods
    requires AlwaysCalm(m, states, events, s.entities[name].index)
    ensures Agrees(Objs(s), name)
  {
    RunKeepsCore(m, target, states, events, |events|);
    CalmSoFar(m, target, states, events, |events|, s.entities[name].index);
  }
}
