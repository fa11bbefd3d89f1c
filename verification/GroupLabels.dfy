/** Group membership: a Group's target list is applied to the labels of entities and their pods. */
module GroupLabels {
  import opened Wrappers
  import opened Naming
  import opened Cluster
  import opened ClusterSafety
  import ClusterOutcomes
  import ClusterTheorems
  import Controllers

  const LABEL_DELETE := "LabelDelete"

  datatype TargetKind = EntityTarget | GroupTarget | ModelTarget | OtherTarget
  datatype Target = Target(kind: TargetKind, name: string, action: string)

  datatype Objects = Objects(entities: map<string, Entity>, pods: map<string, Labels>)

  /** An update, and whether it went through to the end. */
  datatype Update = Update(objects: Objects, ok: bool)

  // ---------- specification ----------

  function BuildLabel(labels: Labels, key: string, val: string, action: string): Labels {
    if action == LABEL_DELETE then labels - {key} else labels[key := val]
  }

  function Members(es: map<string, Entity>, group: string): set<string> {
    Listed(es, GroupKey(group))
  }

  function Resolve(es: map<string, Entity>, t: Target): (r: Option<set<string>>)
    ensures r.Some? ==> r.value <= es.Keys
  {
    match t.kind
    case EntityTarget => if t.name in es then Some({t.name}) else None
    case GroupTarget => Some(Members(es, t.name))
    case ModelTarget => Some(Listed(es, IndexKey(t.name)))
    case OtherTarget => None
  }

  /** Label the entity; if it is provisioned, label its pod, which must exist. */
  function UpdateOne(o: Objects, group: string, n: string, action: string): Update
    requires n in o.entities
  {
    var e := o.entities[n];
    var key := GroupKey(group);
    var entities := o.entities[n := e.(labels := BuildLabel(e.labels, key, e.identity, action))];
    if !e.provisioned then Update(Objects(entities, o.pods), true)
    else if e.podName !in o.pods then Update(Objects(entities, o.pods), false)
    else Update(Objects(entities, o.pods[e.podName := BuildLabel(o.pods[e.podName], key, e.identity, action)]), true)
  }

  /** The update stops at the first entity it fails for. */
  function UpdateList(o: Objects, group: string, list: seq<string>, action: string): (u: Update)
    requires forall n :: n in list ==> n in o.entities
    ensures u.objects.entities.Keys == o.entities.Keys
  {
    if list == [] then Update(o, true)
    else
      var before := UpdateList(o, group, list[..|list| - 1], action);
      if !before.ok then before else UpdateOne(before.objects, group, list[|list| - 1], action)
  }

  /** The API server's order of listing, whatever it is. */
  type Order = set<string> -> seq<string>

  ghost predicate Lists(order: Order) {
    forall names :: Controllers.IsListing(order(names), names)
  }

  function ApplyTarget(o: Objects, group: string, t: Target, order: Order): Update
    requires Lists(order)
  {
    var names := Resolve(o.entities, t);
    if names.None? then Update(o, false)
    else
      assert Controllers.IsListing(order(names.value), names.value);
      UpdateList(o, group, order(names.value), t.action)
  }

  function ApplyTargets(o: Objects, group: string, targets: seq<Target>, order: Order): Update
    requires Lists(order)
  {
    if targets == [] then Update(o, true)
    else
      var before := ApplyTargets(o, group, targets[..|targets| - 1], order);
      if !before.ok then before else ApplyTarget(before.objects, group, targets[|targets| - 1], order)
  }

  // ---------- the reference: a fold over the initial labels ----------

  /** Whom a target means, judged by the labels before the reconcile, except that the group's own
      name means the members gathered so far. */
  function Meant(es: map<string, Entity>, group: string, t: Target, soFar: set<string>): Option<set<string>> {
    if t.kind == GroupTarget && t.name == group then Some(soFar) else Resolve(es, t)
  }

  function Adjusted(soFar: set<string>, meant: Option<set<string>>, action: string): set<string> {
    if meant.None? then soFar
    else if action == LABEL_DELETE then soFar - meant.value
    else soFar + meant.value
  }

  function Fold(es: map<string, Entity>, group: string, targets: seq<Target>): set<string> {
    if targets == [] then Members(es, group)
    else
      var soFar := Fold(es, group, targets[..|targets| - 1]);
      var t := targets[|targets| - 1];
      Adjusted(soFar, Meant(es, group, t, soFar), t.action)
  }

  /** Everybody meant exists, and those provisioned have their pod. */
  ghost predicate Servable(o: Objects, meant: Option<set<string>>) {
    meant.Some? && forall n :: n in meant.value && n in o.entities && o.entities[n].provisioned ==>
      o.entities[n].podName in o.pods
  }

  ghost predicate AllServable(o: Objects, group: string, targets: seq<Target>) {
    targets != [] ==>
      var before := targets[..|targets| - 1];
      AllServable(o, group, before) &&
      Servable(o, Meant(o.entities, group, targets[|targets| - 1], Fold(o.entities, group, before)))
  }

  // ---------- what an update leaves alone ----------

  ghost predicate SameExcept(a: Labels, b: Labels, key: string) {
    forall k :: k != key ==> (k in a <==> k in b) && (k in a && k in b ==> a[k] == b[k])
  }

  /** Only the group's own label differs, and it carries the entity's identity wherever it was set. */
  ghost predicate OnlyGroupDiffers(o: Objects, o': Objects, group: string) {
    && o.entities.Keys == o'.entities.Keys && o.pods.Keys == o'.pods.Keys
    && (forall n :: n in o.entities ==>
          && o'.entities[n] == o.entities[n].(labels := o'.entities[n].labels)
          && SameExcept(o.entities[n].labels, o'.entities[n].labels, GroupKey(group))
          && (GroupKey(group) in o'.entities[n].labels ==>
                o'.entities[n].labels[GroupKey(group)] == o.entities[n].identity ||
                o'.entities[n].labels == o.entities[n].labels))
    && (forall p :: p in o.pods ==> SameExcept(o.pods[p], o'.pods[p], GroupKey(group)))
  }

  lemma OnlyGroupTransitive(a: Objects, b: Objects, c: Objects, group: string)
    requires OnlyGroupDiffers(a, b, group) && OnlyGroupDiffers(b, c, group)
    ensures OnlyGroupDiffers(a, c, group)
  {
  }

  lemma BuildLabelShape(labels: Labels, group: string, val: string, action: string)
    ensures var built := BuildLabel(labels, GroupKey(group), val, action);
      SameExcept(labels, built, GroupKey(group)) && (GroupKey(group) in built ==> built[GroupKey(group)] == val)
  {
  }

  lemma UpdateOneShape(o: Objects, group: string, n: string, action: string)
    requires n in o.entities
    ensures OnlyGroupDiffers(o, UpdateOne(o, group, n, action).objects, group)
    ensures UpdateOne(o, group, n, action).ok <==>
      (o.entities[n].provisioned ==> o.entities[n].podName in o.pods)
  {
    var e, o' := o.entities[n], UpdateOne(o, group, n, action).objects;
    BuildLabelShape(e.labels, group, e.identity, action);
    forall p | p in o.pods ensures p in o'.pods && SameExcept(o.pods[p], o'.pods[p], GroupKey(group)) {
      BuildLabelShape(o.pods[p], group, e.identity, action);
    }
    assert o'.pods.Keys == o.pods.Keys;
    assert forall a :: a in o.entities && a != n ==> o'.entities[a] == o.entities[a];
  }

  lemma UpdateOneMembers(o: Objects, group: string, n: string, action: string)
    requires n in o.entities
    ensures Members(UpdateOne(o, group, n, action).objects.entities, group) ==
      Adjusted(Members(o.entities, group), Some({n}), action)
  {
    var es := UpdateOne(o, group, n, action).objects.entities;
    assert es.Keys == o.entities.Keys && forall a :: a in es && a != n ==> es[a] == o.entities[a];
  }

  lemma {:induction false} UpdateListShape(o: Objects, group: string, list: seq<string>, action: string)
    requires forall n :: n in list ==> n in o.entities
    ensures OnlyGroupDiffers(o, UpdateList(o, group, list, action).objects, group)
    ensures UpdateList(o, group, list, action).ok <==>
      forall n :: n in list && o.entities[n].provisioned ==> o.entities[n].podName in o.pods
  {
    if list != [] {
      var init, last := list[..|list| - 1], list[|list| - 1];
      UpdateListShape(o, group, init, action);
      assert forall n :: n in list <==> n in init || n == last;
      var before := UpdateList(o, group, init, action);
      if before.ok {
        UpdateOneShape(before.objects, group, last, action);
        OnlyGroupTransitive(o, before.objects, UpdateOne(before.objects, group, last, action).objects, group);
      }
    }
  }

  function Names(list: seq<string>): set<string> {
    set n | n in list
  }

  lemma AdjustedTwice(start: set<string>, a: set<string>, b: set<string>, action: string)
    ensures Adjusted(Adjusted(start, Some(a), action), Some(b), action) == Adjusted(start, Some(a + b), action)
  {
  }

  lemma {:induction false} UpdateListMembers(o: Objects, group: string, list: seq<string>, action: string)
    requires forall n :: n in list ==> n in o.entities
    requires UpdateList(o, group, list, action).ok
    ensures Members(UpdateList(o, group, list, action).objects.entities, group) ==
      Adjusted(Members(o.entities, group), Some(Names(list)), action)
  {
    if list != [] {
      var init, last := list[..|list| - 1], list[|list| - 1];
      UpdateListMembers(o, group, init, action);
      UpdateOneMembers(UpdateList(o, group, init, action).objects, group, last, action);
      AdjustedTwice(Members(o.entities, group), Names(init), {last}, action);
      assert list == init + [last];
      assert Names(list) == Names(init) + {last};
    }
  }

  /** Another group's or a model's members, and entities as such, are not affected. */
  lemma MeantIsResolved(o: Objects, o': Objects, group: string, t: Target)
    requires OnlyGroupDiffers(o, o', group)
    ensures Resolve(o'.entities, t) == Meant(o.entities, group, t, Members(o'.entities, group))
  {
    KeysApart(t.name, group, t.name);
    if t.kind == GroupTarget && t.name != group {
      assert GroupKey(t.name) != GroupKey(group);
      assert Members(o'.entities, t.name) == Members(o.entities, t.name);
    } else if t.kind == ModelTarget {
      assert Listed(o'.entities, IndexKey(t.name)) == Listed(o.entities, IndexKey(t.name));
    }
  }

  // ---------- membership refines the fold ----------

  /** A reconcile goes through exactly when every target can be served in its turn. It then leaves
      as members precisely the left-to-right fold of the targets over the initial labels; whether
      it goes through or not, nothing but this group's label has changed anywhere. */
  lemma {:induction false} MembershipIsFold(o: Objects, group: string, targets: seq<Target>, order: Order)
    requires Lists(order)
    ensures var u := ApplyTargets(o, group, targets, order);
      && (u.ok <==> AllServable(o, group, targets))
      && (u.ok ==> Members(u.objects.entities, group) == Fold(o.entities, group, targets))
      && OnlyGroupDiffers(o, u.objects, group)
  {
    if targets != [] {
      var init, t := targets[..|targets| - 1], targets[|targets| - 1];
      MembershipIsFold(o, group, init, order);
      var before := ApplyTargets(o, group, init, order);
      if before.ok {
        MeantIsResolved(o, before.objects, group, t);
        var names := Resolve(before.objects.entities, t);
        if names.Some? {
          var list := order(names.value);
          assert Controllers.IsListing(list, names.value);
          UpdateListShape(before.objects, group, list, t.action);
          if UpdateList(before.objects, group, list, t.action).ok {
            UpdateListMembers(before.objects, group, list, t.action);
          }
          OnlyGroupTransitive(o, before.objects, UpdateList(before.objects, group, list, t.action).objects, group);
          assert Names(list) == names.value;
        }
      }
    }
  }

  /** Group reconciles are among the label changes that ClusterSafety allows at any moment. */
  lemma ReconcileIsRelabel(o: Objects, group: string, targets: seq<Target>, order: Order)
    requires Lists(order)
    ensures var o' := ApplyTargets(o, group, targets, order).objects;
      OnlyGroupLabelsDiffer(o.entities, o'.entities) && OnlyPodGroupLabelsDiffer(o.pods, o'.pods)
  {
    MembershipIsFold(o, group, targets, order);
    KeysApart("", group, "");
  }

  // ---------- pods agree with their entities ----------

  function GroupPart(labels: Labels): Labels {
    map k | k in labels && IsGroupKey(k) :: labels[k]
  }

  ghost predicate Agrees(o: Objects, n: string) {
    n in o.entities && o.entities[n].provisioned && o.entities[n].podName in o.pods &&
    GroupPart(o.pods[o.entities[n].podName]) == GroupPart(o.entities[n].labels)
  }

  ghost predicate PodsApart(es: map<string, Entity>) {
    forall a, b ::
      a in es && b in es && es[a].provisioned && es[b].provisioned && es[a].podName == es[b].podName ==> a == b
  }

  /** A pod is created with exactly its entity's group labels and otherwise its own. */
  lemma CreatedPodAgrees(m: Model, e: Entity, template: Labels)
    ensures GroupPart(Stamped(m, e, template)) == GroupPart(e.labels)
    ensures forall k :: !IsGroupKey(k) && k != IndexKey(m.name) && k != MODEL_KEY ==>
      (k in Stamped(m, e, template) <==> k in template) &&
      (k in template ==> Stamped(m, e, template)[k] == template[k])
  {
  }

  lemma BuildLabelGroupPart(a: Labels, b: Labels, group: string, val: string, action: string)
    requires GroupPart(a) == GroupPart(b)
    ensures GroupPart(BuildLabel(a, GroupKey(group), val, action)) ==
      GroupPart(BuildLabel(b, GroupKey(group), val, action))
  {
    KeysApart("", group, "");
    forall k | IsGroupKey(k) ensures (k in a <==> k in b) && (k in a ==> a[k] == b[k]) {
      assert k in GroupPart(a) <==> k in a;
      assert k in GroupPart(b) <==> k in b;
    }
  }

  lemma UpdateOneAgrees(o: Objects, group: string, n: string, action: string, other: string)
    requires n in o.entities && PodsApart(o.entities) && Agrees(o, other)
    ensures Agrees(UpdateOne(o, group, n, action).objects, other)
  {
    var e := o.entities[n];
    if n == other {
      BuildLabelGroupPart(e.labels, o.pods[e.podName], group, e.identity, action);
    }
  }

  lemma {:induction false} UpdateListAgrees(o: Objects, group: string, list: seq<string>, action: string, other: string)
    requires forall n :: n in list ==> n in o.entities
    requires PodsApart(o.entities) && Agrees(o, other)
    ensures Agrees(UpdateList(o, group, list, action).objects, other)
  {
    if list != [] {
      var init := list[..|list| - 1];
      UpdateListAgrees(o, group, init, action, other);
      UpdateListShape(o, group, init, action);
      var before := UpdateList(o, group, init, action);
      if before.ok {
        UpdateOneAgrees(before.objects, group, list[|list| - 1], action, other);
      }
    }
  }

  /** Every entity whose pod agrees with it before a group reconcile agrees with it afterwards,
      even when the reconcile is cut short by an error. */
  lemma {:induction false} ReconcileAgrees(o: Objects, group: string, targets: seq<Target>, order: Order, other: string)
    requires Lists(order) && PodsApart(o.entities) && Agrees(o, other)
    ensures Agrees(ApplyTargets(o, group, targets, order).objects, other)
  {
    if targets != [] {
      var init, t := targets[..|targets| - 1], targets[|targets| - 1];
      ReconcileAgrees(o, group, init, order, other);
      MembershipIsFold(o, group, init, order);
      var before := ApplyTargets(o, group, init, order);
      if before.ok && Resolve(before.objects.entities, t).Some? {
        var names := Resolve(before.objects.entities, t).value;
        assert Controllers.IsListing(order(names), names);
        UpdateListAgrees(before.objects, group, order(names), t.action, other);
      }
    }
  }

  /** In every reachable state of a cluster provisioned entities have pods of their own. */
  lemma SafePodsApart(m: Model, s: State)
    requires Core(m, s)
    ensures PodsApart(s.entities)
  {
    forall a, b | a in s.entities && b in s.entities && s.entities[a].provisioned && s.entities[b].provisioned &&
                  s.entities[a].podName == s.entities[b].podName
      ensures a == b
    {
      ClusterTheorems.LocksApart(m, s.entities, a, b);
    }
  }

  lemma GroupPartKept(labels: Labels, group: string, val: string, action: string)
    ensures GroupPart(BuildLabel(labels, GroupKey(group), val, action)) == GroupPart(labels) <==>
      BuildLabel(labels, GroupKey(group), val, action) == labels
  {
    KeysApart("", group, "");
    var key, built := GroupKey(group), BuildLabel(labels, GroupKey(group), val, action);
    assert key in GroupPart(labels) <==> key in labels;
    assert key in GroupPart(built) <==> key in built;
    if GroupPart(built) == GroupPart(labels) && key in labels {
      assert GroupPart(built)[key] == built[key] && GroupPart(labels)[key] == labels[key];
      assert labels[key := labels[key]] == labels;
    } else if key !in labels {
      assert labels - {key} == labels;
    }
  }

  /** A group update that reaches an entity before it is locked on to its pod passes the pod by. Once
      locked on, the two agree if and only if the update had nothing to change in the entity's labels. */
  lemma LateLockOnExactly(m: Model, s: State, name: string, pick: string, group: string, action: string)
    requires Core(m, s) && Enabled(m, s, Step.ReconcileEntity(name, pick, true))
    requires !s.entities[name].provisioned && s.entities[name].podName == ""
    requires m.PodName(s.entities[name].index) in s.pods
    requires GroupPart(s.pods[m.PodName(s.entities[name].index)]) == GroupPart(s.entities[name].labels)
    ensures var e := s.entities[name];
      var o := UpdateOne(Objects(s.entities, s.pods), group, name, action).objects;
      var s' := LockedOn(m, s.(entities := o.entities, pods := o.pods), name, pick);
      && name in s'.entities && s'.entities[name].provisioned && s'.entities[name].podName == m.PodName(e.index)
      && (Agrees(Objects(s'.entities, s'.pods), name) <==>
            BuildLabel(e.labels, GroupKey(group), e.identity, action) == e.labels)
  {
    var e := s.entities[name];
    var o := UpdateOne(Objects(s.entities, s.pods), group, name, action).objects;
    assert o.entities[name].index == e.index && o.pods == s.pods;
    ClusterOutcomes.LockedOnExactly(m, s.(entities := o.entities, pods := o.pods), name, pick);
    GroupPartKept(e.labels, group, e.identity, action);
  }

  /** In a state where every ordinal is covered, pod `i` is created, stamped with its own ordinal and
      with exactly the group labels of the one entity of that ordinal. */
  lemma PodCreationAgrees(m: Model, s: State, i: int, template: Labels, pick: string)
    requires Core(m, s) && Covered(s.entities, s.Current()) && i < s.Current()
    requires Enabled(m, s, CreatePod(i, template, pick))
    ensures var s' := PodCreated(m, s, m.PodName(i), template, pick);
      && m.PodName(i) in s'.pods && LabelPrints(m, s'.pods[m.PodName(i)], i)
      && pick in s.entities && s.entities[pick].index == i
      && GroupPart(s'.pods[m.PodName(i)]) == GroupPart(s.entities[pick].labels)
  {
    var holder := ClusterTheorems.PodResolves(m, s, i);
    assert pick == holder;
    StampedIndex(m, s.entities[pick], template);
    CreatedPodAgrees(m, s.entities[pick], template);
  }

  // ---------- the Group controller ----------

  class GroupReconciler {
    const order: Order
    var entities: map<string, Entity>
    var pods: map<string, Labels>
    var totalEntities: int
    var generation: nat
    var observed: int
    var phase: Phase

    constructor (order: Order, entities: map<string, Entity>, pods: map<string, Labels>)
      ensures this.order == order && Objs() == Objects(entities, pods) && !Settled()
    {
      this.order, this.entities, this.pods, totalEntities := order, entities, pods, 0;
      generation, observed, phase := 1, 0, New;
    }

    predicate Settled()
      reads this
    {
      observed == generation && phase == Provisioned
    }

    function Objs(): Objects
      reads this
    {
      Objects(entities, pods)
    }

    /** Fails for an entity that does not exist and for an unknown kind of target. Otherwise lists,
        each once, the entity of that name, the entities with the group's label, or those with the
        model's index label. */
    method GetEntityListForTarget(t: Target) returns (ok: bool, list: seq<string>)
      requires Lists(order)
      ensures !ok <==> t.kind == OtherTarget || (t.kind == EntityTarget && t.name !in entities)
      ensures ok ==> forall j, k :: 0 <= j < k < |list| ==> list[j] != list[k]
      ensures ok ==> forall n :: n in list <==> n in entities && match t.kind
        case EntityTarget => n == t.name
        case GroupTarget => GroupKey(t.name) in entities[n].labels
        case ModelTarget => IndexKey(t.name) in entities[n].labels
        case OtherTarget => false
      ensures ok == Resolve(entities, t).Some?
      ensures ok ==> list == order(Resolve(entities, t).value)
    {
      list := [];
      var names := {};
      match t.kind {
        case EntityTarget =>
          if t.name !in entities {
            return false, [];
          }
          names := {t.name};
        case GroupTarget =>
          names := Listed(entities, GroupKey(t.name));
        case ModelTarget =>
          names := Listed(entities, IndexKey(t.name));
        case OtherTarget =>
          return false, [];
      }
      list := order(names);
      assert Controllers.IsListing(list, names);
      return true, list;
    }

    method UpdateLabelsForEntities(group: string, list: seq<string>, action: string) returns (ok: bool)
      requires forall n :: n in list ==> n in entities
      modifies this`entities, this`pods
      ensures Update(Objs(), ok) == UpdateList(old(Objs()), group, list, action)
    {
      var key := GroupKey(group);
      for k := 0 to |list|
        invariant entities.Keys == old(entities).Keys
        invariant Update(Objs(), true) == UpdateList(old(Objs()), group, list[..k], action)
      {
        assert list[..k + 1][..k] == list[..k];
        var name := list[k];
        var e := entities[name];
        entities := entities[name := e.(labels := BuildLabel(e.labels, key, e.identity, action))];
        if e.provisioned {
          if e.podName !in pods {
            UpdateListStops(old(Objs()), group, list, k + 1, action);
            return false;
          }
          pods := pods[e.podName := BuildLabel(pods[e.podName], key, e.identity, action)];
        }
      }
      assert list[..|list|] == list;
      return true;
    }

    /** A settled group is left alone. Otherwise the group ends up settled exactly when every target
        was served in its turn, and then its members are the fold of its targets. */
    method Reconcile(group: string, targets: seq<Target>) returns (ok: bool)
      requires Lists(order)
      modifies this
      ensures old(Settled()) ==> ok && Objs() == old(Objs()) && totalEntities == old(totalEntities)
      ensures !old(Settled()) ==> Update(Objs(), ok) == ApplyTargets(old(Objs()), group, targets, order)
      ensures !old(Settled()) ==> (ok <==> old(AllServable(Objs(), group, targets)))
      ensures !old(Settled()) && ok ==>
        Members(entities, group) == Fold(old(entities), group, targets) && totalEntities == |Members(entities, group)|
      ensures !ok ==> totalEntities == old(totalEntities) && phase == Failed
      ensures Settled() == ok && generation == old(generation)
    {
      if observed == generation && phase == Provisioned {
        return true;
      }
      if phase == New {
        phase := Provisioning;
      }
      if phase != Provisioned {
        phase := Provisioned;
        observed := generation;
      }
      MembershipIsFold(Objs(), group, targets, order);
      ok := ApplyAll(group, targets);
      if !ok {
        phase := Failed;
        return false;
      }
      totalEntities := |Members(entities, group)|;
      phase := Provisioned;
      observed := generation;
    }

    /** The loop over the targets, each resolved at its turn. */
    method ApplyAll(group: string, targets: seq<Target>) returns (ok: bool)
      requires Lists(order)
      modifies this`entities, this`pods
      ensures Update(Objs(), ok) == ApplyTargets(old(Objs()), group, targets, order)
    {
      for k := 0 to |targets|
        invariant Update(Objs(), true) == ApplyTargets(old(Objs()), group, targets[..k], order)
      {
        assert targets[..k + 1][..k] == targets[..k];
        var found, list := GetEntityListForTarget(targets[k]);
        ok := false;
        if found {
          ok := UpdateLabelsForEntities(group, list, targets[k].action);
        }
        if !ok {
          ApplyTargetsStops(old(Objs()), group, targets, k + 1, order);
          return false;
        }
      }
      assert targets[..|targets|] == targets;
      return true;
    }
  }

  lemma {:induction false} UpdateListStops(o: Objects, group: string, list: seq<string>, k: nat, action: string)
    requires forall n :: n in list ==> n in o.entities
    requires k <= |list| && !UpdateList(o, group, list[..k], action).ok
    ensures UpdateList(o, group, list, action) == UpdateList(o, group, list[..k], action)
    decreases |list|
  {
    if k == |list| {
      assert list[..k] == list;
    } else {
      var init := list[..|list| - 1];
      assert init[..k] == list[..k];
      UpdateListStops(o, group, init, k, action);
    }
  }

  lemma {:induction false} ApplyTargetsStops(o: Objects, group: string, targets: seq<Target>, k: nat, order: Order)
    requires Lists(order) && k <= |targets| && !ApplyTargets(o, group, targets[..k], order).ok
    ensures ApplyTargets(o, group, targets, order) == ApplyTargets(o, group, targets[..k], order)
    decreases |targets|
  {
    if k == |targets| {
      assert targets[..k] == targets;
    } else {
      var init := targets[..|targets| - 1];
      assert init[..k] == targets[..k];
      ApplyTargetsStops(o, group, init, k, order);
    }
  }
}
