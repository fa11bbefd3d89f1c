/** Runs of the cluster, and what holds in every state they reach. */
module ClusterSafety {
  import opened Wrappers
  import opened Naming
  import opened Ordinals
  import opened Cluster

  // ---------- events and runs ----------

  datatype Step =
    | EditModel(target: int)
    | FailModel
    | ReconcileModel(uuids: string -> string)
    | ProvideSts
    | CreateEntity(req: Request, uuid: string)
    | DeleteEntity(name: string)
    | ReconcileEntity(name: string, pick: string, changed: bool)
    | CreatePod(ordinal: int, template: Labels, pick: string)
    | DeletePod(podName: string)
    | Relabel(entities: map<string, Entity>, pods: map<string, Labels>)

  ghost function Next(m: Model, s: State, step: Step): State {
    match step
    case EditModel(target) => s.(target := target, generation := s.generation + 1)
    case FailModel => s.(phase := Failed)
    case ReconcileModel(uuids) => ModelReconciled(m, s, uuids)
    case ProvideSts => s.(replicas := Some(0))
    case CreateEntity(req, uuid) => EntityCreated(m, s, req, uuid)
    case DeleteEntity(name) => s.(entities := s.entities - {name})
    case ReconcileEntity(name, pick, changed) => EntityReconciled(m, s, name, pick, changed)
    case CreatePod(ordinal, template, pick) => PodCreated(m, s, m.PodName(ordinal), template, pick)
    case DeletePod(podName) => s.(pods := s.pods - {podName})
    case Relabel(entities, pods) => s.(entities := entities, pods := pods)
  }

  /** Label maps that agree outside the group keys. */
  ghost predicate AgreeOffGroups(a: Labels, b: Labels) {
    forall k :: !IsGroupKey(k) ==> (k in a <==> k in b) && (k in a && k in b ==> a[k] == b[k])
  }

  ghost predicate OnlyGroupLabelsDiffer(es: map<string, Entity>, es': map<string, Entity>) {
    es.Keys == es'.Keys &&
    forall n :: n in es ==> es'[n] == es[n].(labels := es'[n].labels) && AgreeOffGroups(es[n].labels, es'[n].labels)
  }

  ghost predicate OnlyPodGroupLabelsDiffer(pods: map<string, Labels>, pods': map<string, Labels>) {
    pods.Keys == pods'.Keys && forall p :: p in pods ==> AgreeOffGroups(pods[p], pods'[p])
  }

  /** The name `<model>-<k>` is left to the controller, or to an entity that has ordinal `k`. */
  ghost predicate NameFits(m: Model, name: string, ordinal: int) {
    forall k: nat :: name == m.EntityName(k) ==> k == ordinal
  }

  /** An adopted StatefulSet that is still missing while the controller has entities to create. */
  ghost predicate CreatesWithoutSts(m: Model, s: State) {
    m.Adopts() && s.replicas.None? && !s.Settled() &&
    exists i :: 0 <= i < s.target && i !in Taken(m, s.entities)
  }

  /** The events a run is made of, with the assumptions on users and on the environment. */
  ghost predicate Enabled(m: Model, s: State, step: Step) {
    match step
    case EditModel(target) => target >= 0
    case FailModel => true
    case ReconcileModel(_) => true
    case ProvideSts => m.Adopts() && s.replicas.None?
    case CreateEntity(req, _) =>
      && !req.ownerRefs
      && (req.index.Some? ==> req.index.value >= 0)
      && NameFits(m, req.name, Ordinal(m, s.entities, req))
    case DeleteEntity(_) => true
    case ReconcileEntity(name, pick, _) =>
      && name in s.entities
      && var pods := SelectedPods(s.pods, IndexKey(m.name), Print(s.entities[name].index));
         pods != {} ==> pick in pods
    case CreatePod(ordinal, _, pick) =>
      && 0 <= ordinal
      && var found := Resolved(m, s.entities, m.PodName(ordinal)); found != {} ==> pick in found
    case DeletePod(_) => true
    case Relabel(entities, pods) =>
      OnlyGroupLabelsDiffer(s.entities, entities) && OnlyPodGroupLabelsDiffer(s.pods, pods)
  }

  ghost function Exec(m: Model, s: State, steps: seq<Step>): State {
    if steps == [] then s else Next(m, Exec(m, s, steps[..|steps| - 1]), steps[|steps| - 1])
  }

  ghost predicate Legal(m: Model, s: State, steps: seq<Step>) {
    steps != [] ==>
      Legal(m, s, steps[..|steps| - 1]) && Enabled(m, Exec(m, s, steps[..|steps| - 1]), steps[|steps| - 1])
  }

  /** No reconcile of the run creates entities while an adopted StatefulSet is missing. */
  ghost predicate StsFirst(m: Model, s: State, steps: seq<Step>) {
    steps != [] ==>
      var before := steps[..|steps| - 1];
      StsFirst(m, s, before) &&
      (steps[|steps| - 1].ReconcileModel? ==> !CreatesWithoutSts(m, Exec(m, s, before)))
  }

  /** A user's delete spares the ordinals below the replica count. */
  ghost predicate Spares(s: State, step: Step) {
    step.DeleteEntity? ==> step.name !in s.entities || s.entities[step.name].index >= s.Current()
  }

  ghost predicate DeletesSpare(m: Model, s: State, steps: seq<Step>) {
    steps != [] ==>
      var before := steps[..|steps| - 1];
      DeletesSpare(m, s, before) && Spares(Exec(m, s, before), steps[|steps| - 1])
  }

  // ---------- the invariant ----------

  ghost predicate UniqueOrdinals(es: map<string, Entity>) {
    forall a, b :: a in es && b in es && es[a].index == es[b].index ==> a == b
  }

  ghost predicate LabelPrints(m: Model, labels: Labels, index: int) {
    IndexKey(m.name) in labels && labels[IndexKey(m.name)] == Print(index)
  }

  ghost predicate Labelled(m: Model, es: map<string, Entity>) {
    forall n :: n in es ==> 0 <= es[n].index && LabelPrints(m, es[n].labels, es[n].index)
  }

  ghost predicate OwnedInRange(es: map<string, Entity>, replicas: int) {
    forall n :: n in es && es[n].owned ==> es[n].index < replicas
  }

  ghost predicate NamesHonest(m: Model, es: map<string, Entity>) {
    forall n :: n in es ==> NameFits(m, n, es[n].index)
  }

  ghost predicate PodsHonest(m: Model, pods: map<string, Labels>) {
    forall p :: p in pods ==>
      var i := Sequence(p); 0 <= i && p == m.PodName(i) && LabelPrints(m, pods[p], i)
  }

  ghost predicate LocksHonest(m: Model, es: map<string, Entity>) {
    forall n :: n in es ==>
      (es[n].podName == "" || es[n].podName == m.PodName(es[n].index)) &&
      (es[n].provisioned ==> es[n].podName != "" && es[n].owned)
  }

  /** A settled Model has its StatefulSet, grown to the target or beyond. */
  ghost predicate Booked(s: State) {
    0 <= s.target && 0 <= s.Current() && s.observed <= s.generation &&
    (s.Settled() ==> s.replicas.Some? && s.target <= s.replicas.value)
  }

  ghost predicate Tidy(m: Model, es: map<string, Entity>) {
    UniqueOrdinals(es) && Labelled(m, es) && NamesHonest(m, es) && LocksHonest(m, es)
  }

  /** What holds in every state of every run. */
  ghost predicate Core(m: Model, s: State) {
    Tidy(m, s.entities) && PodsHonest(m, s.pods) && Booked(s)
  }

  /** What holds as well while no entity is created for a StatefulSet that is missing. */
  ghost predicate Safe(m: Model, s: State) {
    Core(m, s) && OwnedInRange(s.entities, s.Current())
  }

  ghost predicate Held(es: map<string, Entity>, i: int) {
    exists n :: n in es && es[n].index == i
  }

  ghost predicate Covered(es: map<string, Entity>, replicas: int) {
    forall i :: 0 <= i < replicas ==> Held(es, i)
  }

  // ---------- scaling ----------

  lemma TakenIsHeld(m: Model, es: map<string, Entity>)
    requires Labelled(m, es)
    ensures forall i :: i in Taken(m, es) <==> Held(es, i)
  {
    forall i | Held(es, i) ensures i in Taken(m, es) {
      var n :| n in es && es[n].index == i;
      assert n in Listed(es, IndexKey(m.name));
    }
  }

  /** An entity the controller created from scratch for its ordinal. */
  ghost predicate Newborn(m: Model, name: string, e: Entity) {
    name == m.EntityName(e.index) && e.owned && e.podName == "" && !e.provisioned &&
    e.labels == map[IndexKey(m.name) := Print(e.index)]
  }

  /** Every entity is kept and exactly one newborn is there for each ordinal that was missing. */
  ghost predicate GrowsTo(m: Model, es: map<string, Entity>, r: map<string, Entity>, low: int, high: int) {
    && (forall n :: n in es ==> n in r && r[n] == es[n])
    && (forall n :: n in r && n !in es ==>
          Newborn(m, n, r[n]) && low <= r[n].index < high && !Held(es, r[n].index))
    && (forall i :: low <= i < high ==> Held(r, i))
  }

  lemma HeldStays(es: map<string, Entity>, r: map<string, Entity>, i: int)
    requires forall n :: n in es ==> n in r && r[n] == es[n]
    requires Held(es, i)
    ensures Held(r, i)
  {
    var n :| n in es && es[n].index == i;
    assert n in r && r[n].index == i;
  }

  lemma GrowOne(m: Model, es: map<string, Entity>, rest: map<string, Entity>, low: int, i: int, uuid: string -> string)
    requires 0 <= low <= i && NamesHonest(m, es)
    requires GrowsTo(m, es, rest, low, i) && !Held(es, i)
    ensures m.EntityName(i) !in rest
    ensures GrowsTo(m, es, rest[m.EntityName(i) := Minted(m, rest, i, uuid)], low, i + 1)
  {
    var name := m.EntityName(i);
    if name in rest {
      if name in es {
        assert false;
      } else {
        OrdinalNameInjective(m.name, i, rest[name].index);
        assert false;
      }
    }
    var r := rest[name := Minted(m, rest, i, uuid)];
    assert r[name].index == i;
    forall j | low <= j < i ensures Held(r, j) {
      HeldStays(rest, r, j);
    }
  }

  lemma GrowNone(m: Model, es: map<string, Entity>, rest: map<string, Entity>, low: int, i: int)
    requires low <= i && GrowsTo(m, es, rest, low, i) && Held(es, i)
    ensures GrowsTo(m, es, rest, low, i + 1)
  {
    HeldStays(es, rest, i);
  }

  lemma {:induction false} GrownShape(m: Model, es: map<string, Entity>, low: int, high: int, uuid: string -> string)
    requires 0 <= low <= high && Labelled(m, es) && NamesHonest(m, es)
    ensures GrowsTo(m, es, Grown(m, es, Taken(m, es), low, high, uuid), low, high)
  {
    if low < high {
      GrownShape(m, es, low, high - 1, uuid);
      var taken := Taken(m, es);
      assert high - 1 in taken <==> Held(es, high - 1) by { TakenIsHeld(m, es); }
      var rest := Grown(m, es, taken, low, high - 1, uuid);
      var r := Grown(m, es, taken, low, high, uuid);
      if Held(es, high - 1) {
        assert r == rest;
        GrowNone(m, es, rest, low, high - 1);
      } else {
        assert r == rest[m.EntityName(high - 1) := Minted(m, rest, high - 1, uuid)];
        GrowOne(m, es, rest, low, high - 1, uuid);
      }
    }
  }

  lemma GrowthTidy(m: Model, es: map<string, Entity>, r: map<string, Entity>, low: int, high: int)
    requires 0 <= low <= high && Tidy(m, es) && GrowsTo(m, es, r, low, high)
    ensures Tidy(m, r)
  {
    forall n, k: nat | n in r && n !in es && n == m.EntityName(k) ensures k == r[n].index {
      OrdinalNameInjective(m.name, k, r[n].index);
    }
    forall a, b | a in r && b in r && r[a].index == r[b].index ensures a == b {
      if a in es && b !in es { assert Held(es, r[b].index); }
      if b in es && a !in es { assert Held(es, r[a].index); }
    }
  }

  lemma GrowthCovers(m: Model, es: map<string, Entity>, r: map<string, Entity>, low: int, high: int)
    requires GrowsTo(m, es, r, low, high) && Covered(es, low)
    ensures Covered(r, high)
  {
    forall i | 0 <= i < high ensures Held(r, i) {
      if i < low { HeldStays(es, r, i); }
    }
  }

  lemma GrownTidy(m: Model, es: map<string, Entity>, low: int, high: int, uuid: string -> string)
    requires 0 <= low <= high && Tidy(m, es)
    ensures var r := Grown(m, es, Taken(m, es), low, high, uuid);
      && Tidy(m, r)
      && (Covered(es, low) ==> Covered(r, high))
      && (OwnedInRange(es, low) ==> OwnedInRange(r, high))
  {
    GrownShape(m, es, low, high, uuid);
    var r := Grown(m, es, Taken(m, es), low, high, uuid);
    GrowthTidy(m, es, r, low, high);
    if Covered(es, low) { GrowthCovers(m, es, r, low, high); }
  }

  lemma ShrunkSafe(m: Model, es: map<string, Entity>, low: int, high: int)
    requires 0 <= low <= high && Tidy(m, es)
    ensures Tidy(m, Shrunk(m, es, low, high))
    ensures OwnedInRange(es, high) ==> OwnedInRange(Shrunk(m, es, low, high), low)
    ensures Covered(es, high) ==> Covered(Shrunk(m, es, low, high), low)
  {
    var r := Shrunk(m, es, low, high);
    if Covered(es, high) {
      forall i | 0 <= i < low ensures Held(r, i) {
        assert Held(es, i);
        var n :| n in es && es[n].index == i;
        assert n in r && r[n].index == i;
      }
    }
  }

  lemma ManagedTidy(m: Model, s: State, uuid: string -> string)
    requires Core(m, s)
    ensures var es := Managed(m, s.entities, s.Current(), s.target, uuid);
      && Tidy(m, es)
      && (Covered(s.entities, s.Current()) ==> Covered(es, s.target))
      && (OwnedInRange(s.entities, s.Current()) ==> OwnedInRange(es, s.target))
  {
    if s.Current() < s.target {
      GrownTidy(m, s.entities, s.Current(), s.target, uuid);
    } else if s.Current() > s.target {
      ShrunkSafe(m, s.entities, s.target, s.Current());
    }
  }

  lemma NothingToGrow(m: Model, es: map<string, Entity>, low: int, high: int, uuid: string -> string)
    requires forall i :: low <= i < high ==> i in Taken(m, es)
    ensures Grown(m, es, Taken(m, es), low, high, uuid) == es
    decreases high - low
  {
    if low < high { NothingToGrow(m, es, low, high - 1, uuid); }
  }

  lemma ReconcileModelSafe(m: Model, s: State, uuid: string -> string)
    requires Core(m, s)
    ensures var s' := ModelReconciled(m, s, uuid);
      && Core(m, s')
      && (Covered(s.entities, s.Current()) ==> Covered(s'.entities, s'.Current()))
      && (Safe(m, s) && !CreatesWithoutSts(m, s) ==> Safe(m, s'))
  {
    ManagedTidy(m, s, uuid);
    if m.Adopts() && s.replicas.None? && !s.Settled() && s.target > 0 && !CreatesWithoutSts(m, s) {
      NothingToGrow(m, s.entities, 0, s.target, uuid);
    }
  }

  // ---------- admission ----------

  /** The label query of the validator sees exactly the holders of the ordinal. */
  lemma SelectedIsHolder(m: Model, es: map<string, Entity>, i: int)
    requires Labelled(m, es)
    ensures forall n :: n in Selected(es, IndexKey(m.name), Print(i)) <==> n in es && es[n].index == i
  {
    forall n | n in Selected(es, IndexKey(m.name), Print(i)) ensures es[n].index == i {
      PrintInjective(es[n].index, i);
    }
  }

  /** Storing one entity that keeps its ordinal, or brings a vacant one. */
  lemma PutTidy(m: Model, es: map<string, Entity>, name: string, e: Entity)
    requires Tidy(m, es)
    requires if name in es then es[name].index == e.index else !Held(es, e.index)
    requires 0 <= e.index && LabelPrints(m, e.labels, e.index) && NameFits(m, name, e.index)
    requires e.podName == "" || e.podName == m.PodName(e.index)
    requires e.provisioned ==> e.podName != "" && e.owned
    ensures Tidy(m, es[name := e])
  {
    var r := es[name := e];
    forall a, b | a in r && b in r && r[a].index == r[b].index ensures a == b {
    }
  }

  lemma PutCovers(es: map<string, Entity>, name: string, e: Entity, k: int)
    requires name in es ==> es[name].index == e.index
    requires Covered(es, k)
    ensures Covered(es[name := e], k)
    ensures k == e.index ==> Covered(es[name := e], k + 1)
  {
    var r := es[name := e];
    assert r[name].index == e.index;
    forall i | 0 <= i < k ensures Held(r, i) {
      assert Held(es, i);
      var n :| n in es && es[n].index == i;
      assert n in r && r[n].index == i;
    }
  }

  /** The invariant, coverage and range kept from one state to another. */
  ghost predicate Keeps(m: Model, s: State, s': State) {
    && Core(m, s')
    && (Covered(s.entities, s.Current()) ==> Covered(s'.entities, s'.Current()))
    && (Safe(m, s) ==> Safe(m, s'))
  }

  lemma CreateEntitySafe(m: Model, s: State, req: Request, uuid: string)
    requires Core(m, s) && Enabled(m, s, CreateEntity(req, uuid))
    ensures Keeps(m, s, EntityCreated(m, s, req, uuid))
  {
    var ordinal := Ordinal(m, s.entities, req);
    if req.name !in s.entities && Admitted(m, s, req, ordinal) {
      SelectedIsHolder(m, s.entities, ordinal);
      assert !Held(s.entities, ordinal);
      PutTidy(m, s.entities, req.name, Requested(m, req, ordinal, uuid));
      if Covered(s.entities, s.Current()) {
        PutCovers(s.entities, req.name, Requested(m, req, ordinal, uuid), s.Current());
      }
    }
  }

  // ---------- ownership, lock-on, pods ----------

  lemma OwnershipSafe(m: Model, s: State, name: string)
    requires Core(m, s) && name in s.entities
    ensures Keeps(m, s, OwnershipTaken(s, name))
  {
    var e := s.entities[name];
    if !e.owned && InReach(s, e.index) {
      PutTidy(m, s.entities, name, e.(owned := true));
      if Covered(s.entities, s.Current()) {
        PutCovers(s.entities, name, e.(owned := true), s.Current());
      }
    }
  }

  /** A pod found under the index label is the StatefulSet's pod of that ordinal. */
  lemma SelectedPodName(m: Model, pods: map<string, Labels>, i: int)
    requires PodsHonest(m, pods)
    ensures forall p :: p in SelectedPods(pods, IndexKey(m.name), Print(i)) ==> p == m.PodName(i)
  {
    forall p | p in SelectedPods(pods, IndexKey(m.name), Print(i)) ensures p == m.PodName(i) {
      PrintInjective(Sequence(p), i);
    }
  }

  lemma LockSafe(m: Model, s: State, name: string, pick: string)
    requires Core(m, s) && name in s.entities && s.entities[name].owned
    requires var pods := SelectedPods(s.pods, IndexKey(m.name), Print(s.entities[name].index));
      pods != {} ==> pick in pods
    ensures Keeps(m, s, LockedOn(m, s, name, pick))
  {
    var s' := LockedOn(m, s, name, pick);
    SelectedPodName(m, s.pods, s.entities[name].index);
    assert m.PodName(s.entities[name].index) != "";
    assert NameFits(m, name, s.entities[name].index);
    if s' != s {
      PutTidy(m, s.entities, name, s'.entities[name]);
      if Covered(s.entities, s.Current()) {
        PutCovers(s.entities, name, s'.entities[name], s.Current());
      }
    }
  }

  lemma ReconcileEntitySafe(m: Model, s: State, name: string, pick: string, changed: bool)
    requires Core(m, s) && Enabled(m, s, ReconcileEntity(name, pick, changed))
    ensures Keeps(m, s, EntityReconciled(m, s, name, pick, changed))
  {
    if s.entities[name].owned || InReach(s, s.entities[name].index) {
      OwnershipSafe(m, s, name);
      LockSafe(m, OwnershipTaken(s, name), name, pick);
    }
  }

  lemma StampedIndex(m: Model, e: Entity, template: Labels)
    ensures LabelPrints(m, Stamped(m, e, template), e.index)
  {
    KeysApart(m.name, "", "");
    assert IndexKey(m.name) != MODEL_KEY by {
      assert IndexKey(m.name)[0] == 'i' && MODEL_KEY[0] == 'm';
    }
  }

  lemma CreatePodSafe(m: Model, s: State, ordinal: int, template: Labels, pick: string)
    requires Core(m, s) && Enabled(m, s, CreatePod(ordinal, template, pick))
    ensures Keeps(m, s, PodCreated(m, s, m.PodName(ordinal), template, pick))
  {
    SequenceOfOrdinalName(m.StsName(), ordinal);
    SelectedIsHolder(m, s.entities, ordinal);
    if pick in s.entities { StampedIndex(m, s.entities[pick], template); }
  }

  lemma RelabelTidy(m: Model, es: map<string, Entity>, es': map<string, Entity>)
    requires Tidy(m, es) && OnlyGroupLabelsDiffer(es, es')
    ensures Tidy(m, es')
  {
    KeysApart(m.name, "", "");
    forall n | n in es'
      ensures n in es && es'[n] == es[n].(labels := es'[n].labels) && LabelPrints(m, es'[n].labels, es'[n].index)
    {
      assert AgreeOffGroups(es[n].labels, es'[n].labels) && LabelPrints(m, es[n].labels, es[n].index);
    }
  }

  lemma RelabelCovers(es: map<string, Entity>, es': map<string, Entity>, k: int)
    requires OnlyGroupLabelsDiffer(es, es') && Covered(es, k)
    ensures Covered(es', k)
  {
    forall i | 0 <= i < k ensures Held(es', i) {
      assert Held(es, i);
      var n :| n in es && es[n].index == i;
      assert n in es' && es'[n].index == i;
    }
  }

  lemma RelabelPods(m: Model, pods: map<string, Labels>, pods': map<string, Labels>)
    requires PodsHonest(m, pods) && OnlyPodGroupLabelsDiffer(pods, pods')
    ensures PodsHonest(m, pods')
  {
    KeysApart(m.name, "", "");
    forall p | p in pods'
      ensures 0 <= Sequence(p) && p == m.PodName(Sequence(p)) && LabelPrints(m, pods'[p], Sequence(p))
    {
      assert AgreeOffGroups(pods[p], pods'[p]) && LabelPrints(m, pods[p], Sequence(p));
    }
  }

  lemma RelabelSafe(m: Model, s: State, es: map<string, Entity>, pods: map<string, Labels>)
    requires Core(m, s) && Enabled(m, s, Relabel(es, pods))
    ensures Keeps(m, s, s.(entities := es, pods := pods))
  {
    RelabelTidy(m, s.entities, es);
    RelabelPods(m, s.pods, pods);
    if Covered(s.entities, s.Current()) { RelabelCovers(s.entities, es, s.Current()); }
  }

  // ---------- every step, every run ----------

  lemma DeleteSafe(m: Model, s: State, name: string)
    requires Core(m, s)
    ensures var s' := s.(entities := s.entities - {name});
      && Core(m, s') && (Safe(m, s) ==> Safe(m, s'))
      && (Covered(s.entities, s.Current()) ==>
            (Covered(s'.entities, s.Current()) <==> Spares(s, DeleteEntity(name))))
  {
    var es := s.entities - {name};
    if Covered(s.entities, s.Current()) && Spares(s, DeleteEntity(name)) {
      forall i | 0 <= i < s.Current() ensures Held(es, i) {
        assert Held(s.entities, i);
        var n :| n in s.entities && s.entities[n].index == i;
        assert n in es && es[n].index == i;
      }
    } else if name in s.entities {
      assert !Held(es, s.entities[name].index);
    }
  }

  /** Events that touch neither entities nor pods, or only take a pod away. */
  lemma PlainSafe(m: Model, s: State, step: Step)
    requires Core(m, s) && Enabled(m, s, step)
    requires step.EditModel? || step.FailModel? || step.ProvideSts? || step.DeletePod?
    ensures Keeps(m, s, Next(m, s, step))
  {
  }

  /** Every event keeps the core of the invariant, every event but a user's delete of an entity below
      the replica count keeps the ordinals there taken, and every event but a Model reconcile that
      creates entities for a missing StatefulSet keeps owned entities below the replica count. */
  lemma NextSafe(m: Model, s: State, step: Step)
    requires Core(m, s) && Enabled(m, s, step)
    ensures Core(m, Next(m, s, step))
    ensures Covered(s.entities, s.Current()) ==>
      (Covered(Next(m, s, step).entities, Next(m, s, step).Current()) <==> Spares(s, step))
    ensures Safe(m, s) && (step.ReconcileModel? ==> !CreatesWithoutSts(m, s)) ==> Safe(m, Next(m, s, step))
  {
    match step
    case ReconcileModel(uuids) => ReconcileModelSafe(m, s, uuids);
    case CreateEntity(req, uuid) => CreateEntitySafe(m, s, req, uuid);
    case DeleteEntity(name) => DeleteSafe(m, s, name);
    case ReconcileEntity(name, pick, changed) => ReconcileEntitySafe(m, s, name, pick, changed);
    case CreatePod(ordinal, template, pick) => CreatePodSafe(m, s, ordinal, template, pick);
    case Relabel(es, pods) => RelabelSafe(m, s, es, pods);
    case _ => PlainSafe(m, s, step);
  }

  /** In every state of every run: no two entities share an ordinal, each index label prints the
      ordinal, pods and lock-ons bear the names of their ordinals, a provisioned entity is owned and
      locked on, a settled Model has its replicas. */
  lemma {:induction false} RunCore(m: Model, target: int, steps: seq<Step>, s: State)
    requires target >= 0 && Legal(m, Initial(target), steps) && s == Exec(m, Initial(target), steps)
    ensures Core(m, s)
    decreases |steps|
  {
    if steps != [] {
      var before := Exec(m, Initial(target), steps[..|steps| - 1]);
      RunCore(m, target, steps[..|steps| - 1], before);
      NextSafe(m, before, steps[|steps| - 1]);
    }
  }

  /** Owned entities are below the replica count, too, as long as no reconcile creates entities for a
      missing StatefulSet. */
  lemma {:induction false} RunSafe(m: Model, target: int, steps: seq<Step>)
    requires target >= 0 && Legal(m, Initial(target), steps) && StsFirst(m, Initial(target), steps)
    ensures Safe(m, Exec(m, Initial(target), steps))
  {
    if steps != [] {
      RunSafe(m, target, steps[..|steps| - 1]);
      NextSafe(m, Exec(m, Initial(target), steps[..|steps| - 1]), steps[|steps| - 1]);
    }
  }

  ghost predicate AlwaysCovered(m: Model, s: State, steps: seq<Step>) {
    Covered(Exec(m, s, steps).entities, Exec(m, s, steps).Current()) &&
    (steps != [] ==> AlwaysCovered(m, s, steps[..|steps| - 1]))
  }

  /** No ordinal below the replica count is ever vacant in a run if and only if users only delete
      entities at or above it. */
  lemma {:induction false} RunCoveredExactly(m: Model, target: int, steps: seq<Step>)
    requires target >= 0 && Legal(m, Initial(target), steps)
    ensures AlwaysCovered(m, Initial(target), steps) <==> DeletesSpare(m, Initial(target), steps)
  {
    if steps != [] {
      var before := Exec(m, Initial(target), steps[..|steps| - 1]);
      RunCore(m, target, steps[..|steps| - 1], before);
      RunCoveredExactly(m, target, steps[..|steps| - 1]);
      NextSafe(m, before, steps[|steps| - 1]);
    }
  }

  lemma RunCovered(m: Model, target: int, steps: seq<Step>)
    requires target >= 0 && Legal(m, Initial(target), steps) && DeletesSpare(m, Initial(target), steps)
    ensures Covered(Exec(m, Initial(target), steps).entities, Exec(m, Initial(target), steps).Current())
  {
    RunCoveredExactly(m, target, steps);
  }
}
