/** The controllers and webhooks as they change the cluster in place. Each method is tied to the
    function of module Cluster it implements, whose properties ClusterSafety proves. */
module Controllers {
  import opened Wrappers
  import opened Naming
  import opened Ordinals
  import opened Cluster
  import opened ClusterSafety
  import opened ClusterOutcomes
  import ClusterTheorems

  /** A list of the names in a set, each once, in the order the API server pleases. */
  ghost predicate IsListing(items: seq<string>, names: set<string>) {
    (forall n :: n in names <==> n in items) &&
    (forall j, k :: 0 <= j < k < |items| ==> items[j] != items[k])
  }

  method List(names: set<string>) returns (items: seq<string>)
    ensures IsListing(items, names)
  {
    items := [];
    var rest := names;
    while rest != {}
      invariant rest <= names && IsListing(items, names - rest)
      decreases rest
    {
      var n :| n in rest;
      items := items + [n];
      rest := rest - {n};
    }
  }

  /** Copying the entity's group labels over and dropping the pod's others is synchronising. */
  lemma CopiedAndDropped(entity: Labels, pod: Labels, groupLabels: Labels)
    requires groupLabels == map k | k in entity && IsGroupKey(k) :: entity[k]
    ensures var copied := pod + groupLabels;
      (map k | k in copied && (!IsGroupKey(k) || k in groupLabels) :: copied[k]) == GroupSynced(entity, pod)
  {
  }

  /** The pod under admission; the webhook edits its label map in place. */
  class Pod {
    var labels: Labels

    constructor (labels: Labels)
      ensures this.labels == labels
    {
      this.labels := labels;
    }

    /** syncGroupLabels: collect the entity's group labels, copy them over, then drop the pod's
        group labels the entity does not have. */
    method SyncGroupLabels(entity: Labels)
      modifies this
      ensures labels == GroupSynced(entity, old(labels))
    {
      var groupLabels: Labels := map[];
      var todo := entity.Keys;
      while todo != {}
        invariant todo <= entity.Keys
        invariant groupLabels == map k | k in entity && IsGroupKey(k) && k !in todo :: entity[k]
        decreases todo
      {
        var key :| key in todo;
        if IsGroupKey(key) {
          groupLabels := groupLabels[key := entity[key]];
        }
        todo := todo - {key};
      }
      ghost var before := labels;
      labels := labels + groupLabels;
      var copied := labels;
      todo := labels.Keys;
      while todo != {}
        invariant todo <= copied.Keys
        invariant forall k :: k in labels <==> k in copied && (k in todo || !IsGroupKey(k) || k in groupLabels)
        invariant forall k :: k in labels ==> labels[k] == copied[k]
        decreases todo
      {
        var key :| key in todo;
        if IsGroupKey(key) && key !in groupLabels {
          labels := labels - {key};
        }
        todo := todo - {key};
      }
      assert labels == map k | k in copied && (!IsGroupKey(k) || k in groupLabels) :: copied[k];
      CopiedAndDropped(entity, before, groupLabels);
    }
  }

  /** One round of the scale-down loop. */
  lemma DropOrdinal(m: Model, es: map<string, Entity>, low: int, i: int, entityMap: map<int, string>)
    requires low <= i && UniqueOrdinals(es) && entityMap.Keys == Taken(m, es)
    requires forall j :: j in entityMap ==> entityMap[j] in es && es[entityMap[j]].index == j
    ensures Shrunk(m, es, low, i + 1) ==
      if i in entityMap then Shrunk(m, es, low, i) - {entityMap[i]} else Shrunk(m, es, low, i)
  {
    forall n | n in Listed(es, IndexKey(m.name)) && es[n].index == i ensures i in entityMap && n == entityMap[i] {
      assert i in Taken(m, es);
    }
    if i in entityMap {
      var n :| n in Listed(es, IndexKey(m.name)) && es[n].index == i;
      assert n == entityMap[i];
    }
  }

  /** Noting the pod of its own ordinal in an entity's status. */
  lemma NamedKeeps(m: Model, s: State, name: string, e: Entity)
    requires Core(m, s) && name in s.entities
    requires e == s.entities[name].(podName := m.PodName(s.entities[name].index))
    ensures Keeps(m, s, s.(entities := s.entities[name := e]))
  {
    assert m.PodName(e.index) != "" && NameFits(m, name, e.index);
    PutTidy(m, s.entities, name, e);
    if Covered(s.entities, s.Current()) { PutCovers(s.entities, name, e, s.Current()); }
  }

  class ApiServer {
    const m: Model
    var target: int
    var generation: nat
    var observed: int
    var phase: Phase
    var replicas: Option<int>
    var entities: map<string, Entity>
    var pods: map<string, Labels>

    function St(): State
      reads this
    {
      State(target, generation, observed, phase, replicas, entities, pods)
    }

    ghost predicate Valid()
      reads this
    {
      Core(m, St())
    }

    constructor (m: Model, target: int)
      requires target >= 0
      ensures this.m == m && St() == Initial(target) && Valid()
    {
      this.m := m;
      this.target, generation, observed, phase := target, 1, 0, New;
      replicas, entities, pods := None, map[], map[];
    }

    // ---------- Model controller ----------

    /** The index map: ordinal to name, over every entity with the Model's index label. */
    method IndexMap() returns (entityMap: map<int, string>)
      ensures entityMap.Keys == Taken(m, entities)
      ensures forall i :: i in entityMap ==> entityMap[i] in entities && entities[entityMap[i]].index == i
    {
      var items := List(Listed(entities, IndexKey(m.name)));
      entityMap := map[];
      for k := 0 to |items|
        invariant forall i :: i in entityMap ==> entityMap[i] in entities && entities[entityMap[i]].index == i
        invariant entityMap.Keys <= Taken(m, entities)
        invariant forall j :: 0 <= j < k ==> items[j] in entities && entities[items[j]].index in entityMap
      {
        assert items[k] in Listed(entities, IndexKey(m.name));
        entityMap := entityMap[entities[items[k]].index := items[k]];
      }
      forall i | i in Taken(m, entities) ensures i in entityMap {
        var n :| n in Listed(entities, IndexKey(m.name)) && entities[n].index == i;
        assert n in items;
      }
    }

    method ManageEntities(currentReplicas: int, targetReplicas: int, uuid: string -> string)
      requires UniqueOrdinals(entities)
      modifies this`entities
      ensures entities == Managed(m, old(entities), currentReplicas, targetReplicas, uuid)
    {
      var entityMap := IndexMap();
      if currentReplicas < targetReplicas {
        ScaleUp(entityMap, currentReplicas, targetReplicas, uuid);
      } else if currentReplicas > targetReplicas {
        ScaleDown(entityMap, currentReplicas, targetReplicas);
      }
    }

    method ScaleUp(entityMap: map<int, string>, currentReplicas: int, targetReplicas: int, uuid: string -> string)
      requires currentReplicas < targetReplicas
      modifies this`entities
      ensures entities == Grown(m, old(entities), entityMap.Keys, currentReplicas, targetReplicas, uuid)
    {
      for i := currentReplicas to targetReplicas
        invariant entities == Grown(m, old(entities), entityMap.Keys, currentReplicas, i, uuid)
      {
        if i in entityMap {
          continue;
        }
        entities := entities[m.EntityName(i) := Minted(m, entities, i, uuid)];
      }
    }

    method ScaleDown(entityMap: map<int, string>, currentReplicas: int, targetReplicas: int)
      requires targetReplicas < currentReplicas && UniqueOrdinals(entities)
      requires entityMap.Keys == Taken(m, entities)
      requires forall i :: i in entityMap ==> entityMap[i] in entities && entities[entityMap[i]].index == i
      modifies this`entities
      ensures entities == Shrunk(m, old(entities), targetReplicas, currentReplicas)
    {
      ghost var before := entities;
      for i := targetReplicas to currentReplicas
        invariant entities == Shrunk(m, before, targetReplicas, i)
      {
        DropOrdinal(m, before, targetReplicas, i, entityMap);
        if i in entityMap {
          entities := entities - {entityMap[i]};
        }
      }
    }

    method ReconcileModel(uuid: string -> string)
      requires Valid()
      modifies this
      ensures St() == ModelReconciled(m, old(St()), uuid)
      ensures Valid()
      ensures old(Covered(entities, St().Current())) ==> Covered(entities, St().Current())
      ensures old(Safe(m, St())) ==> (Safe(m, St()) <==> !old(CreatesWithoutSts(m, St())))
    {
      ghost var before := St();
      ReconcileModelSafe(m, before, uuid);
      if Safe(m, before) { ClusterTheorems.ReconcileKeepsSafeExactly(m, before, uuid); }
      if phase == New {
        phase := Provisioning;
      }
      var currentReplicas := if replicas.Some? then replicas.value else 0;
      if observed == generation && phase == Provisioned {
        return;
      } else if phase == Provisioned {
        phase := Provisioning;
      }
      ManageEntities(currentReplicas, target, uuid);
      if m.Adopts() {
        if replicas.None? {
          return;
        }
        replicas := Some(target);
      } else {
        replicas := Some(target);
      }
      phase := Provisioned;
      observed := generation;
    }

    // ---------- entity admission ----------

    /** The mutating webhook: the requested ordinal, or the first gap among those in use. */
    method MutateEntity(req: Request) returns (ordinal: int)
      requires Valid()
      ensures ordinal == Ordinal(m, entities, req)
    {
      if req.index.Some? {
        return req.index.value;
      }
      var items := List(Listed(entities, IndexKey(m.name)));
      var indexes := [];
      for k := 0 to |items|
        invariant |indexes| == k
        invariant forall j :: 0 <= j < k ==> items[j] in entities && indexes[j] == entities[items[j]].index
      {
        assert items[k] in Listed(entities, IndexKey(m.name));
        indexes := indexes + [entities[items[k]].index];
      }
      ordinal := FirstGap(indexes);
      assert Elements(indexes) == Taken(m, entities) by {
        forall i | i in Taken(m, entities) ensures i in indexes {
          var n :| n in Listed(entities, IndexKey(m.name)) && entities[n].index == i;
          assert n in items;
          var j :| 0 <= j < |items| && items[j] == n;
          assert indexes[j] == i;
        }
        forall i | i in indexes ensures i in Taken(m, entities) {
          var j :| 0 <= j < |indexes| && indexes[j] == i;
          assert items[j] in items;
        }
      }
    }

    /** The validating webhook. */
    method ValidateEntity(req: Request, ordinal: int) returns (admitted: bool)
      ensures admitted == Admitted(m, St(), req, ordinal)
      ensures req.ownerRefs ==> admitted
      ensures Valid() && !req.ownerRefs ==>
        (admitted <==> !Held(entities, ordinal) && replicas.Some? && ordinal <= replicas.value + 1)
    {
      if req.ownerRefs {
        return true;
      }
      if Labelled(m, entities) { SelectedIsHolder(m, entities, ordinal); }
      var others := List(Selected(entities, IndexKey(m.name), Print(ordinal)));
      if |others| > 0 {
        assert others[0] in Selected(entities, IndexKey(m.name), Print(ordinal));
        return false;
      }
      if replicas.None? {
        return false;
      }
      if ordinal > replicas.value + 1 {
        return false;
      }
      return true;
    }

    method CreateEntity(req: Request, uuid: string) returns (created: bool)
      requires Valid()
      modifies this`entities
      ensures St() == EntityCreated(m, old(St()), req, uuid)
      ensures created <==> req.name !in old(entities) && req.name in entities
      ensures old(Enabled(m, St(), Step.CreateEntity(req, uuid))) ==> Keeps(m, old(St()), St())
    {
      ghost var before := St();
      if Enabled(m, before, Step.CreateEntity(req, uuid)) { CreateEntitySafe(m, before, req, uuid); }
      var ordinal := MutateEntity(req);
      var admitted := ValidateEntity(req, ordinal);
      if req.name in entities || !admitted {
        return false;
      }
      var labels := req.labels[IndexKey(m.name) := Print(ordinal)];
      var identity := if req.identity == "" then uuid else req.identity;
      entities := entities[req.name := Entity(ordinal, identity, labels, req.ownerRefs, "", false)];
      return true;
    }

    // ---------- Entity controller ----------

    method HandleOwnershipAndReplicas(name: string) returns (ok: bool)
      requires name in entities && !entities[name].owned
      modifies this`replicas, this`entities
      ensures St() == OwnershipTaken(old(St()), name)
      ensures ok == InReach(old(St()), old(entities[name].index))
      ensures ok ==> name in entities && entities[name].owned && entities[name].index < St().Current()
      ensures old(Valid()) ==> Keeps(m, old(St()), St())
    {
      if Valid() { OwnershipSafe(m, St(), name); }
      if replicas.None? {
        return false;
      }
      var index := entities[name].index;
      if replicas.value < index {
        return false;
      }
      if replicas.value == index {
        replicas := Some(replicas.value + 1);
      }
      entities := entities[name := entities[name].(owned := true)];
      return true;
    }

    /** `pick` stands for the head of the list of matching pods. */
    method LockOnPod(name: string, pick: string) returns (found: bool)
      requires PodsHonest(m, pods) && name in entities && 0 <= entities[name].index
      requires entities[name].podName == "" && Enabled(m, St(), Step.ReconcileEntity(name, pick, true))
      modifies this`entities
      ensures found <==> m.PodName(old(entities)[name].index) in pods
      ensures entities == if !found then old(entities) else
        old(entities)[name := old(entities)[name].(podName := m.PodName(old(entities)[name].index))]
      ensures old(Valid()) ==> Keeps(m, old(St()), St())
    {
      var index := entities[name].index;
      var matching := SelectedPods(pods, IndexKey(m.name), Print(index));
      MatchingIsOwn(m, pods, index);
      if matching == {} {
        return false;
      }
      var targetPod := if name in matching then name else pick;
      if Valid() { NamedKeeps(m, St(), name, entities[name].(podName := targetPod)); }
      entities := entities[name := entities[name].(podName := targetPod)];
      return true;
    }

    /** `changed` says that the entity's spec was edited since its status was last written. */
    method ReconcileEntity(name: string, pick: string, changed: bool)
      requires PodsHonest(m, pods) && name in entities && 0 <= entities[name].index
      requires Enabled(m, St(), Step.ReconcileEntity(name, pick, changed))
      modifies this`replicas, this`entities
      ensures St() == EntityReconciled(m, old(St()), name, pick, changed)
      ensures old(Valid()) ==> Keeps(m, old(St()), St())
      ensures old(Valid() && entities[name].provisioned) ==> St() == old(St())
      ensures old(Valid() && !entities[name].owned && InReach(St(), entities[name].index)) ==>
        && name in entities && entities[name].owned
        && replicas == Some(if old(entities[name].index) == old(replicas.value) then old(replicas.value) + 1
                            else old(replicas.value))
    {
      if Valid() {
        ReconcileEntitySafe(m, St(), name, pick, changed);
        EntityReconciledExactly(m, St(), name, pick, changed);
      }
      if Valid() && entities[name].provisioned { ClusterTheorems.ProvisionedStays(m, St(), name, pick, changed); }
      if entities[name].provisioned && !changed {
        return;
      }
      if !entities[name].owned {
        var ok := HandleOwnershipAndReplicas(name);
        if !ok {
          return;
        }
      }
      LockAndProvision(name, pick);
    }

    /** The rest of the reconcile, from the check of the pod name on. */
    method LockAndProvision(name: string, pick: string)
      requires PodsHonest(m, pods) && name in entities && 0 <= entities[name].index
      requires Enabled(m, St(), Step.ReconcileEntity(name, pick, true))
      modifies this`entities
      ensures St() == LockedOn(m, old(St()), name, pick)
      ensures name in entities && (entities[name].provisioned <==>
        old(entities[name].provisioned || entities[name].podName != "" || m.PodName(entities[name].index) in pods))
      ensures old(Valid() && entities[name].owned) ==> Keeps(m, old(St()), St())
    {
      LockedOnExactly(m, St(), name, pick);
      if Valid() && entities[name].owned { LockSafe(m, St(), name, pick); }
      ghost var before, pod := entities, m.PodName(entities[name].index);
      if entities[name].podName == "" {
        var found := LockOnPod(name, pick);
        if !found {
          return;
        }
        PutTwice(before, name, before[name].(podName := pod), before[name].(podName := pod, provisioned := true));
      }
      entities := entities[name := entities[name].(provisioned := true)];
    }

    // ---------- pod webhook ----------

    /** `pick` stands for the head of the list of matching entities. */
    method CreatePod(podName: string, template: Labels, pick: string) returns (created: bool)
      requires var found := Resolved(m, entities, podName); found != {} ==> pick in found
      modifies this`pods
      ensures St() == PodCreated(m, old(St()), podName, template, pick)
      ensures created <==> Resolved(m, entities, podName) != {}
      ensures created ==>
        && podName in pods && LabelPrints(m, pods[podName], entities[pick].index)
        && MODEL_KEY in pods[podName] && pods[podName][MODEL_KEY] == m.name
      ensures !created ==> pods == old(pods)
      ensures forall i: nat :: old(Valid()) && podName == m.PodName(i) ==> Keeps(m, old(St()), St())
    {
      forall i: nat | Valid() && podName == m.PodName(i)
        ensures Keeps(m, St(), PodCreated(m, St(), podName, template, pick))
      {
        CreatePodSafe(m, St(), i, template, pick);
      }
      var found := Resolved(m, entities, podName);
      if found == {} {
        return false;
      }
      var entity := entities[pick];
      StampedIndex(m, entity, template);
      StampedModel(m, entity, template);
      var pod := new Pod(template);
      pod.labels := pod.labels[IndexKey(m.name) := Print(entity.index)];
      pod.labels := pod.labels[MODEL_KEY := m.name];
      pod.SyncGroupLabels(entity.labels);
      pods := pods[podName := pod.labels];
      return true;
    }
  }
}
