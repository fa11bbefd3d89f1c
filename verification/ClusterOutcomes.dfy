/** What each operation on the cluster does, in full: who gets what, and what stays as it was. */
module ClusterOutcomes {
  import opened Wrappers
  import opened Naming
  import opened Ordinals
  import opened Cluster
  import opened ClusterSafety
  import ClusterTheorems

  // ---------- the Model controller ----------

  /** A settled Model is left alone, so that replicas added for its users' entities stay. */
  lemma SettledStays(m: Model, s: State, uuid: string -> string)
    requires s.observed == s.generation && s.phase == Provisioned
    ensures ModelReconciled(m, s, uuid) == s
  {
  }

  /** Otherwise the StatefulSet is set to the target, if it is there or the operator's own, and then the
      Model is settled; while an adopted one is missing the Model stays or becomes Provisioning,
      unless it has failed. Nobody touches its spec or the pods. */
  lemma ModelStatus(m: Model, s: State, uuid: string -> string)
    requires !(s.observed == s.generation && s.phase == Provisioned)
    ensures var s' := ModelReconciled(m, s, uuid);
      && s'.target == s.target && s'.generation == s.generation && s'.pods == s.pods
      && (if m.Adopts() && s.replicas.None? then
            s'.replicas == None && s'.observed == s.observed &&
            s'.phase == if s.phase == Failed then Failed else Provisioning
          else
            s'.replicas == Some(s.target) && s'.observed == s.generation && s'.phase == Provisioned)
  {
  }

  /** Of the entities, exactly those go whose ordinal is at or above the target and below the replica
      count; the others stay as they are; exactly the missing ordinals from the replica count up to the
      target get one each, made by the controller, with an identity of its own. */
  lemma ModelEntities(m: Model, s: State, uuid: string -> string)
    requires Core(m, s) && !s.Settled()
    ensures var es, es' := s.entities, ModelReconciled(m, s, uuid).entities;
      && (forall n :: n in es ==> (n in es' <==> !(s.target <= es[n].index < s.Current())))
      && (forall n :: n in es && n in es' ==> es'[n] == es[n])
      && (forall n :: n in es' && n !in es ==>
            Newborn(m, n, es'[n]) && n == m.name + "-" + Print(es'[n].index) && es'[n].identity == uuid(n) &&
            s.Current() <= es'[n].index < s.target && !Held(es, es'[n].index))
      && (forall i :: s.Current() <= i < s.target ==> Held(es', i))
  {
    if s.Current() < s.target {
      GrownShape(m, s.entities, s.Current(), s.target, uuid);
      ClusterTheorems.GrownTakesOver(m, s.entities, Taken(m, s.entities), s.Current(), s.target, uuid);
    }
  }

  // ---------- entity admission ----------

  /** A request is granted exactly when its name is free and it carries an owner reference or asks for, or
      is given, a vacant ordinal at most one above the replica count of an existing StatefulSet. */
  ghost predicate Granted(m: Model, s: State, req: Request) {
    req.name !in s.entities &&
    (req.ownerRefs ||
     (s.replicas.Some? && !Held(s.entities, Ordinal(m, s.entities, req)) &&
      Ordinal(m, s.entities, req) <= s.replicas.value + 1))
  }

  /** The ordinal is the one asked for or the least vacant one. */
  lemma OrdinalExactly(m: Model, es: map<string, Entity>, req: Request)
    requires Labelled(m, es)
    ensures var i := Ordinal(m, es, req);
      if req.index.Some? then i == req.index.value
      else 0 <= i && !Held(es, i) && forall j :: 0 <= j < i ==> Held(es, j)
  {
    TakenIsHeld(m, es);
  }

  /** The stored object has the ordinal and its label, the requested identity or a new one, the user's
      other labels and owner reference, and a blank status. A refused request changes nothing. */
  lemma CreatedExactly(m: Model, s: State, req: Request, uuid: string)
    requires Labelled(m, s.entities)
    ensures var s' := EntityCreated(m, s, req, uuid);
      if !Granted(m, s, req) then s' == s
      else
        && req.name in s'.entities && s' == s.(entities := s.entities[req.name := s'.entities[req.name]])
        && var e := s'.entities[req.name];
        && e.index == Ordinal(m, s.entities, req) && LabelPrints(m, e.labels, e.index)
        && e.labels.Keys == req.labels.Keys + {IndexKey(m.name)}
        && (forall k :: k in req.labels && k != IndexKey(m.name) ==> e.labels[k] == req.labels[k])
        && e.identity == (if req.identity != "" then req.identity else uuid)
        && e.owned == req.ownerRefs && e.podName == "" && !e.provisioned
  {
    SelectedIsHolder(m, s.entities, Ordinal(m, s.entities, req));
  }

  // ---------- the Entity controller ----------

  lemma PutTwice(es: map<string, Entity>, name: string, first: Entity, second: Entity)
    ensures es[name := first][name := second] == es[name := second]
  {
  }

  /** Whichever pod comes first in the list, lock-on ends with the pod of the entity's own ordinal,
      or leaves everything as it is when that pod does not exist. */
  lemma LockedOnExactly(m: Model, s: State, name: string, pick: string)
    requires PodsHonest(m, s.pods) && name in s.entities && 0 <= s.entities[name].index
    requires Enabled(m, s, Step.ReconcileEntity(name, pick, true))
    ensures var e := s.entities[name]; var pod := m.PodName(e.index);
      LockedOn(m, s, name, pick) ==
        if e.podName != "" then s.(entities := s.entities[name := e.(provisioned := true)])
        else if pod in s.pods then s.(entities := s.entities[name := e.(podName := pod, provisioned := true)])
        else s
  {
    MatchingIsOwn(m, s.pods, s.entities[name].index);
  }

  /** The pods listed for an ordinal are the StatefulSet's pod of that ordinal, if it exists. */
  lemma MatchingIsOwn(m: Model, pods: map<string, Labels>, index: int)
    requires PodsHonest(m, pods) && 0 <= index
    ensures SelectedPods(pods, IndexKey(m.name), Print(index)) ==
      if m.PodName(index) in pods then {m.PodName(index)} else {}
  {
    SelectedPodName(m, pods, index);
    SequenceOfOrdinalName(m.StsName(), index);
  }

  /** The pod of an ordinal is named after the StatefulSet, the customer's if the Model adopts one. */
  lemma PodNameExactly(m: Model, i: int)
    ensures m.PodName(i) ==
      (if m.statefulSetName != "" then m.statefulSetName else m.name + "-sts") + "-" + Print(i)
  {
  }

  /** A reconcile of an entity out of reach changes nothing. Otherwise, whether its pod exists or not, the
      entity ends up owned, and the StatefulSet has grown by one if the entity came new and next in
      line. Once its pod exists it is locked on to it and provisioned. Nothing else changes. */
  lemma EntityReconciledExactly(m: Model, s: State, name: string, pick: string, changed: bool)
    requires Core(m, s) && Enabled(m, s, ReconcileEntity(name, pick, changed))
    ensures var e, s' := s.entities[name], EntityReconciled(m, s, name, pick, changed);
      if !e.owned && (s.replicas.None? || s.replicas.value < e.index) then s' == s
      else
        && name in s'.entities
        && s' == s.(replicas := s'.replicas, entities := s.entities[name := s'.entities[name]])
        && s'.replicas == (if !e.owned && s.replicas.value == e.index then Some(e.index + 1) else s.replicas)
        && var found := e.podName != "" || m.PodName(e.index) in s.pods;
        s'.entities[name] == e.(
          owned := true,
          podName := if found then m.PodName(e.index) else "",
          provisioned := e.provisioned || found)
  {
    var e := s.entities[name];
    if e.owned || InReach(s, e.index) {
      var s1 := OwnershipTaken(s, name);
      LockedOnExactly(m, s1, name, pick);
      if e.provisioned { ClusterTheorems.ProvisionedStays(m, s, name, pick, changed); }
      assert s.entities[name := e] == s.entities;
      PutTwice(s.entities, name, s1.entities[name], EntityReconciled(m, s, name, pick, true).entities[name]);
    }
  }

  // ---------- the pod webhook ----------

  /** A created pod belongs to the Model, whatever its template says. */
  lemma StampedModel(m: Model, e: Entity, template: Labels)
    ensures var labels := Stamped(m, e, template); MODEL_KEY in labels && labels[MODEL_KEY] == m.name
  {
    KeysApart(m.name, "", "");
  }

  /** Pod `i` is created exactly when somebody holds ordinal `i`, carries then that ordinal, the Model's
      name and the group labels of its holder, besides the template's labels; nothing else changes. */
  lemma PodCreatedExactly(m: Model, s: State, i: nat, template: Labels, pick: string)
    requires Core(m, s) && Enabled(m, s, CreatePod(i, template, pick))
    ensures var pod, s' := m.PodName(i), PodCreated(m, s, m.PodName(i), template, pick);
      if !Held(s.entities, i) then s' == s
      else
        && pod in s'.pods && s' == s.(pods := s.pods[pod := s'.pods[pod]])
        && var labels := s'.pods[pod];
        && LabelPrints(m, labels, i) && MODEL_KEY in labels && labels[MODEL_KEY] == m.name
        && pick in s.entities && s.entities[pick].index == i
        && (forall k :: IsGroupKey(k) ==> (k in labels <==> k in s.entities[pick].labels))
        && (forall k :: IsGroupKey(k) && k in labels ==> labels[k] == s.entities[pick].labels[k])
        && (forall k :: !IsGroupKey(k) && k != IndexKey(m.name) && k != MODEL_KEY ==>
              (k in labels <==> k in template) && (k in template ==> labels[k] == template[k]))
  {
    SequenceOfOrdinalName(m.StsName(), i);
    SelectedIsHolder(m, s.entities, i);
    if Held(s.entities, i) {
      var n :| n in s.entities && s.entities[n].index == i;
      assert n in Resolved(m, s.entities, m.PodName(i));
      StampedIndex(m, s.entities[pick], template);
      StampedModel(m, s.entities[pick], template);
    }
  }

  // ---------- from request to pod ----------

  /** The entity's part in its way to a pod: owned, within the StatefulSet. */
  ghost predicate Placed(m: Model, s: State, name: string, i: int) {
    && Core(m, s) && s.replicas == Some(i + 1)
    && name in s.entities && s.entities[name].index == i && s.entities[name].owned
  }

  lemma FirstReconcile(m: Model, s: State, name: string, i: int, pick: string, changed: bool, s': State)
    requires Core(m, s) && name in s.entities && s.entities[name].index == i && !s.entities[name].owned
    requires s.replicas == Some(i) && m.PodName(i) !in s.pods
    requires s' == EntityReconciled(m, s, name, pick, changed)
    ensures Enabled(m, s, ReconcileEntity(name, pick, changed))
    ensures Placed(m, s', name, i) && s'.pods == s.pods
  {
    MatchingIsOwn(m, s.pods, i);
    EntityReconciledExactly(m, s, name, pick, changed);
    ReconcileEntitySafe(m, s, name, pick, changed);
  }

  lemma PodAdmitted(m: Model, s: State, name: string, i: int, template: Labels, s': State)
    requires Placed(m, s, name, i) && s' == PodCreated(m, s, m.PodName(i), template, name)
    ensures Enabled(m, s, CreatePod(i, template, name))
    ensures Placed(m, s', name, i) && m.PodName(i) in s'.pods
  {
    SequenceOfOrdinalName(m.StsName(), i);
    SelectedIsHolder(m, s.entities, i);
    assert Resolved(m, s.entities, m.PodName(i)) == {name};
    PodCreatedExactly(m, s, i, template, name);
    CreatePodSafe(m, s, i, template, name);
  }

  lemma LaterReconcile(m: Model, s: State, name: string, i: int, changed: bool, s': State)
    requires Placed(m, s, name, i) && m.PodName(i) in s.pods
    requires s' == EntityReconciled(m, s, name, m.PodName(i), changed)
    ensures Enabled(m, s, ReconcileEntity(name, m.PodName(i), changed))
    ensures Placed(m, s', name, i) && s'.entities[name].provisioned && s'.entities[name].podName == m.PodName(i)
  {
    MatchingIsOwn(m, s.pods, i);
    EntityReconciledExactly(m, s, name, m.PodName(i), changed);
    ReconcileEntitySafe(m, s, name, m.PodName(i), changed);
  }

  /** A user's entity next in line gets its pod: its first reconcile grows the StatefulSet by one and
      makes it owned, the StatefulSet's new pod is then admitted, and the next reconcile locks the entity
      on to that pod. */
  lemma NextInLineGetsItsPod(m: Model, s: State, name: string, i: int, pick: string, template: Labels, changed: bool,
      s1: State, s2: State, s3: State)
    requires Core(m, s) && name in s.entities && s.entities[name].index == i && !s.entities[name].owned
    requires s.replicas == Some(i) && m.PodName(i) !in s.pods
    requires s1 == EntityReconciled(m, s, name, pick, changed)
    requires s2 == PodCreated(m, s1, m.PodName(i), template, name)
    requires s3 == EntityReconciled(m, s2, name, m.PodName(i), changed)
    ensures Enabled(m, s, ReconcileEntity(name, pick, changed)) && Enabled(m, s1, CreatePod(i, template, name))
    ensures Enabled(m, s2, ReconcileEntity(name, m.PodName(i), changed))
    ensures Placed(m, s1, name, i) && m.PodName(i) !in s1.pods
    ensures Placed(m, s2, name, i) && m.PodName(i) in s2.pods
    ensures Placed(m, s3, name, i) && s3.entities[name].provisioned && s3.entities[name].podName == m.PodName(i)
  {
    FirstReconcile(m, s, name, i, pick, changed, s1);
    PodAdmitted(m, s1, name, i, template, s2);
    LaterReconcile(m, s2, name, i, changed, s3);
  }
}
