/** Consequences of the run invariants: the bijection between ordinals and entities, the
    allocator's bounds, pod resolution; and what breaks when an assumption is dropped. */
module ClusterTheorems {
  import opened Wrappers
  import opened Naming
  import opened Ordinals
  import opened Cluster
  import opened ClusterSafety

  // ---------- counting ----------

  function Below(n: int): (r: set<int>)
    ensures forall i :: i in r <==> 0 <= i < n
    ensures |r| == if n < 0 then 0 else n
    decreases n
  {
    if n <= 0 then {} else Below(n - 1) + {n - 1}
  }

  lemma BelowFits(n: nat, s: set<int>)
    requires Below(n) <= s
    ensures n <= |s|
  {
    SubsetSize(Below(n), s);
  }

  lemma {:induction false} SubsetSize<T>(a: set<T>, b: set<T>)
    requires a <= b
    ensures |a| <= |b|
  {
    if a != {} {
      var x :| x in a;
      SubsetSize(a - {x}, b - {x});
    }
  }

  function IndexesOf(es: map<string, Entity>, names: set<string>): set<int>
    requires names <= es.Keys
  {
    set n | n in names :: es[n].index
  }

  lemma {:induction false} IndexesSize(es: map<string, Entity>, names: set<string>)
    requires UniqueOrdinals(es) && names <= es.Keys
    ensures |IndexesOf(es, names)| == |names|
  {
    if names != {} {
      var n :| n in names;
      IndexesSize(es, names - {n});
      assert IndexesOf(es, names) == IndexesOf(es, names - {n}) + {es[n].index};
      assert es[n].index !in IndexesOf(es, names - {n});
    }
  }

  function Unowned(es: map<string, Entity>): set<string> {
    set n | n in es && !es[n].owned
  }

  // ---------- the bijection ----------

  ghost predicate SoleHolder(es: map<string, Entity>, i: int, n: string) {
    n in es && es[n].index == i && forall other :: other in es && es[other].index == i ==> other == n
  }

  ghost predicate HeldOnce(es: map<string, Entity>, i: int) {
    exists n :: SoleHolder(es, i, n)
  }

  lemma OwnedIndexes(es: map<string, Entity>, replicas: int)
    requires OwnedInRange(es, replicas) && Covered(es, replicas) && Unowned(es) == {}
    requires forall n :: n in es ==> 0 <= es[n].index
    ensures IndexesOf(es, es.Keys) == Below(replicas)
  {
    forall n | n in es ensures es[n].index in Below(replicas) {
      assert n !in Unowned(es);
    }
    forall i | i in Below(replicas) ensures i in IndexesOf(es, es.Keys) {
      assert Held(es, i);
    }
  }

  lemma OwnedFill(es: map<string, Entity>, replicas: int)
    requires UniqueOrdinals(es) && OwnedInRange(es, replicas) && Covered(es, replicas) && Unowned(es) == {}
    requires 0 <= replicas && forall n :: n in es ==> 0 <= es[n].index
    ensures IndexesOf(es, es.Keys) == Below(replicas) && |es| == replicas
  {
    OwnedIndexes(es, replicas);
    IndexesSize(es, es.Keys);
    assert |es| == |es.Keys|;
  }

  /** In a run whose user deletes spare the ordinals below the replica count, every ordinal there belongs
      to exactly one entity. */
  lemma OrdinalsHeldOnce(m: Model, target: int, steps: seq<Step>)
    requires target >= 0 && Legal(m, Initial(target), steps) && DeletesSpare(m, Initial(target), steps)
    ensures forall i :: 0 <= i < Exec(m, Initial(target), steps).Current() ==>
      HeldOnce(Exec(m, Initial(target), steps).entities, i)
  {
    RunCore(m, target, steps, Exec(m, Initial(target), steps));
    RunCovered(m, target, steps);
    var s := Exec(m, Initial(target), steps);
    forall i | 0 <= i < s.Current() ensures HeldOnce(s.entities, i) {
      assert Held(s.entities, i);
      var n :| n in s.entities && s.entities[n].index == i;
      assert SoleHolder(s.entities, i, n);
    }
  }

  /** Once every entity is owned and none was created for a missing StatefulSet, the ordinals below
      the replica count and the entities are in bijection: the ordinals held are exactly those, and
      there is one entity for each. */
  lemma Bijection(m: Model, target: int, steps: seq<Step>, s: State)
    requires target >= 0 && Legal(m, Initial(target), steps) && DeletesSpare(m, Initial(target), steps)
    requires StsFirst(m, Initial(target), steps) && s == Exec(m, Initial(target), steps)
    requires Unowned(s.entities) == {}
    ensures IndexesOf(s.entities, s.entities.Keys) == Below(s.Current()) && |s.entities| == s.Current()
    ensures UniqueOrdinals(s.entities)
  {
    RunSafe(m, target, steps);
    RunCovered(m, target, steps);
    OwnedFill(s.entities, s.Current());
  }

  ghost predicate AllOwned(es: map<string, Entity>) {
    forall n :: n in es ==> es[n].owned
  }

  lemma ModelKeepsOwned(m: Model, s: State, uuid: string -> string)
    requires Core(m, s) && AllOwned(s.entities)
    ensures AllOwned(ModelReconciled(m, s, uuid).entities)
  {
    if !s.Settled() && s.Current() < s.target { GrownShape(m, s.entities, s.Current(), s.target, uuid); }
  }

  lemma EntityKeepsOwned(m: Model, s: State, name: string, pick: string, changed: bool)
    requires AllOwned(s.entities)
    ensures AllOwned(EntityReconciled(m, s, name, pick, changed).entities)
  {
    if name in s.entities { assert OwnershipTaken(s, name) == s; }
  }

  /** While the StatefulSet is missing, every entity is one the controller made. */
  lemma NextOwned(m: Model, s: State, step: Step)
    requires Core(m, s) && Enabled(m, s, step)
    requires s.replicas.None? ==> AllOwned(s.entities)
    ensures Next(m, s, step).replicas.None? ==> AllOwned(Next(m, s, step).entities)
  {
    if s.replicas.None? {
      match step
      case ReconcileModel(uuids) => ModelKeepsOwned(m, s, uuids);
      case ReconcileEntity(name, pick, changed) => EntityKeepsOwned(m, s, name, pick, changed);
      case CreateEntity(req, uuid) => assert EntityCreated(m, s, req, uuid) == s;
      case _ =>
    }
  }

  lemma {:induction false} RunOwned(m: Model, target: int, steps: seq<Step>, s: State)
    requires target >= 0 && Legal(m, Initial(target), steps) && s == Exec(m, Initial(target), steps)
    ensures s.replicas.None? ==> AllOwned(s.entities)
    decreases |steps|
  {
    if steps != [] {
      var before := Exec(m, Initial(target), steps[..|steps| - 1]);
      RunOwned(m, target, steps[..|steps| - 1], before);
      RunCore(m, target, steps[..|steps| - 1], before);
      NextOwned(m, before, steps[|steps| - 1]);
    }
  }

  /** Once every entity is owned, the ordinals held are those below the replica count. */
  ghost predicate Bijective(s: State) {
    Unowned(s.entities) == {} ==> IndexesOf(s.entities, s.entities.Keys) == Below(s.Current())
  }

  ghost predicate AlwaysBijective(m: Model, s: State, steps: seq<Step>) {
    Bijective(Exec(m, s, steps)) && (steps != [] ==> AlwaysBijective(m, s, steps[..|steps| - 1]))
  }

  /** An entity created for a missing StatefulSet has an ordinal where there should be none. */
  lemma CreatedWithoutSts(m: Model, s: State, uuid: string -> string)
    requires Core(m, s) && AllOwned(s.entities) && CreatesWithoutSts(m, s)
    ensures !Bijective(ModelReconciled(m, s, uuid))
  {
    var s' := ModelReconciled(m, s, uuid);
    ModelKeepsOwned(m, s, uuid);
    assert Unowned(s'.entities) == {};
    var i :| 0 <= i < s.target && i !in Taken(m, s.entities);
    GrownShape(m, s.entities, 0, s.target, uuid);
    assert Held(s'.entities, i);
    var n :| n in s'.entities && s'.entities[n].index == i;
    assert i in IndexesOf(s'.entities, s'.entities.Keys);
  }

  /** In a run whose user deletes spare the ordinals below the replica count, the ordinals of the
      entities are exactly those whenever every entity is owned, if and only if no reconcile creates
      entities while an adopted StatefulSet is missing. */
  lemma {:induction false} RunBijectiveExactly(m: Model, target: int, steps: seq<Step>)
    requires target >= 0 && Legal(m, Initial(target), steps) && DeletesSpare(m, Initial(target), steps)
    ensures AlwaysBijective(m, Initial(target), steps) <==> StsFirst(m, Initial(target), steps)
  {
    var s := Exec(m, Initial(target), steps);
    if StsFirst(m, Initial(target), steps) && Unowned(s.entities) == {} { Bijection(m, target, steps, s); }
    if steps != [] {
      var before, last := steps[..|steps| - 1], steps[|steps| - 1];
      RunBijectiveExactly(m, target, before);
      var s0 := Exec(m, Initial(target), before);
      if last.ReconcileModel? && CreatesWithoutSts(m, s0) {
        RunCore(m, target, before, s0);
        RunOwned(m, target, before, s0);
        CreatedWithoutSts(m, s0, last.uuids);
      }
    }
  }

  // ---------- the Model reconcile ----------

  /** A reconcile that finds its StatefulSet, or creates it, settles the Model at its target: the
      replica count is the target, in a covered cluster every ordinal below it is taken, and owned
      entities are below it if they were below the replica count. */
  lemma ReconcileSettles(m: Model, s: State, uuid: string -> string)
    requires Core(m, s) && !s.Settled() && (m.Adopts() ==> s.replicas.Some?)
    ensures var s' := ModelReconciled(m, s, uuid);
      && s'.Settled() && s'.replicas == Some(s.target) && s'.pods == s.pods
      && (Covered(s.entities, s.Current()) ==> Covered(s'.entities, s.target))
      && (OwnedInRange(s.entities, s.Current()) ==> OwnedInRange(s'.entities, s.target))
  {
    ReconcileModelSafe(m, s, uuid);
  }

  /** Reconciling again, whatever identities the second run would generate, changes nothing. */
  lemma ReconcileIdempotent(m: Model, s: State, uuid: string -> string, again: string -> string)
    requires Core(m, s)
    ensures var s' := ModelReconciled(m, s, uuid); ModelReconciled(m, s', again) == s'
  {
    var s' := ModelReconciled(m, s, uuid);
    if m.Adopts() && s.replicas.None? && !s.Settled() && s.target > 0 {
      ManagedTidy(m, s, uuid);
      GrownShape(m, s.entities, 0, s.target, uuid);
      TakenIsHeld(m, s'.entities);
      NothingToGrow(m, s'.entities, 0, s.target, again);
    }
  }

  // ---------- the allocator ----------

  lemma OwnedFit(m: Model, s: State)
    requires Safe(m, s)
    ensures |s.entities| <= s.Current() + |Unowned(s.entities)|
  {
    var owned := s.entities.Keys - Unowned(s.entities);
    IndexesSize(s.entities, owned);
    SubsetSize(IndexesOf(s.entities, owned), Below(s.Current()));
    assert s.entities.Keys == owned + Unowned(s.entities);
  }

  lemma AutoOrdinalVacant(m: Model, s: State)
    requires Core(m, s)
    ensures 0 <= LeastFree(Taken(m, s.entities)) && !Held(s.entities, LeastFree(Taken(m, s.entities)))
    ensures Covered(s.entities, s.Current()) ==> s.Current() <= LeastFree(Taken(m, s.entities))
  {
    TakenIsHeld(m, s.entities);
  }

  /** With `p` un-owned entities around, the ordinal handed out is vacant and at most `replicas + p`;
      if no ordinal below the replica count is vacant it is at least `replicas`. */
  lemma AutoOrdinalBounds(m: Model, s: State)
    requires Safe(m, s)
    ensures 0 <= LeastFree(Taken(m, s.entities)) <= s.Current() + |Unowned(s.entities)|
    ensures Covered(s.entities, s.Current()) ==> s.Current() <= LeastFree(Taken(m, s.entities))
    ensures !Held(s.entities, LeastFree(Taken(m, s.entities)))
  {
    AutoOrdinalVacant(m, s);
    TakenIsHeld(m, s.entities);
    var free := LeastFree(Taken(m, s.entities));
    var all := IndexesOf(s.entities, s.entities.Keys);
    forall i | i in Below(free) ensures i in all {
      assert Held(s.entities, i);
    }
    BelowFits(free, all);
    IndexesSize(s.entities, s.entities.Keys);
    OwnedFit(m, s);
  }

  /** A request that leaves the ordinal to the webhook is admitted whenever at most one entity is
      still un-owned, and when none is, its ownership step is within reach. */
  lemma AutoRequestAdmitted(m: Model, s: State, req: Request, uuid: string)
    requires Safe(m, s) && s.replicas.Some?
    requires req.index.None? && req.name !in s.entities && |Unowned(s.entities)| <= 1
    ensures Admitted(m, s, req, Ordinal(m, s.entities, req))
    ensures Unowned(s.entities) == {} ==>
      var s' := EntityCreated(m, s, req, uuid);
      req.name in s'.entities && InReach(s', s'.entities[req.name].index)
  {
    AutoOrdinalBounds(m, s);
    SelectedIsHolder(m, s.entities, Ordinal(m, s.entities, req));
  }

  /** Exactly when no ordinal up to the one above the replica count is vacant does the webhook hand
      out an ordinal that its own validator then refuses. */
  lemma AutoRequestRefusedExactly(m: Model, s: State, req: Request)
    requires Core(m, s) && s.replicas.Some?
    requires req.index.None? && !req.ownerRefs
    ensures !Admitted(m, s, req, Ordinal(m, s.entities, req)) <==> Covered(s.entities, s.Current() + 2)
  {
    AutoOrdinalVacant(m, s);
    TakenIsHeld(m, s.entities);
    SelectedIsHolder(m, s.entities, Ordinal(m, s.entities, req));
    var free := LeastFree(Taken(m, s.entities));
    forall i | 0 <= i < free ensures Held(s.entities, i) {
      assert i in Taken(m, s.entities);
    }
  }

  // ---------- pods ----------

  /** Every pod of the StatefulSet leads to exactly one entity, the one with its ordinal. */
  lemma PodResolves(m: Model, s: State, i: int) returns (name: string)
    requires Core(m, s) && Covered(s.entities, s.Current()) && 0 <= i < s.Current()
    ensures name in s.entities && s.entities[name].index == i
    ensures Resolved(m, s.entities, m.PodName(i)) == {name}
  {
    SequenceOfOrdinalName(m.StsName(), i);
    SelectedIsHolder(m, s.entities, i);
    assert Held(s.entities, i);
    name :| name in s.entities && s.entities[name].index == i;
    assert name in Resolved(m, s.entities, m.PodName(i));
  }

  /** No two entities are ever locked on to the same pod. */
  lemma LocksApart(m: Model, es: map<string, Entity>, a: string, b: string)
    requires UniqueOrdinals(es) && Labelled(m, es) && LocksHonest(m, es)
    requires a in es && b in es && es[a].podName == es[b].podName != ""
    ensures a == b
  {
    OrdinalNameInjective(m.StsName(), es[a].index, es[b].index);
  }

  /** In every state of a run without user deletes, pod `i` resolves to the unique entity of
      ordinal `i`. */
  lemma RunPodResolves(m: Model, target: int, steps: seq<Step>, s: State, i: int) returns (name: string)
    requires target >= 0 && Legal(m, Initial(target), steps) && DeletesSpare(m, Initial(target), steps)
    requires s == Exec(m, Initial(target), steps) && 0 <= i < s.Current()
    ensures Resolved(m, s.entities, m.PodName(i)) == {name}
    ensures SoleHolder(s.entities, i, name)
  {
    RunCore(m, target, steps, Exec(m, Initial(target), steps));
    RunCovered(m, target, steps);
    name := PodResolves(m, s, i);
  }

  /** In every state of every run, no two entities are locked on to the same pod. */
  lemma RunLocksApart(m: Model, target: int, steps: seq<Step>, a: string, b: string)
    requires target >= 0 && Legal(m, Initial(target), steps)
    requires var es := Exec(m, Initial(target), steps).entities;
      a in es && b in es && es[a].podName == es[b].podName != ""
    ensures a == b
  {
    RunCore(m, target, steps, Exec(m, Initial(target), steps));
    LocksApart(m, Exec(m, Initial(target), steps).entities, a, b);
  }

  /** Reconciling an entity within reach whose pod exists locks it on to the pod of its own ordinal. */
  lemma ReconcileLocksOwnPod(m: Model, s: State, name: string, pick: string, changed: bool)
    requires Core(m, s) && Enabled(m, s, ReconcileEntity(name, pick, changed))
    requires s.entities[name].owned || InReach(s, s.entities[name].index)
    requires m.PodName(s.entities[name].index) in s.pods
    ensures var s' := EntityReconciled(m, s, name, pick, changed);
      && name in s'.entities && s'.entities[name].owned && s'.entities[name].provisioned
      && s'.entities[name].podName == m.PodName(s.entities[name].index)
      && (OwnedInRange(s.entities, s.Current()) ==> s'.entities[name].index < s'.Current())
  {
    var pod := m.PodName(s.entities[name].index);
    SequenceOfOrdinalName(m.StsName(), s.entities[name].index);
    SelectedPodName(m, s.pods, s.entities[name].index);
    assert pod in SelectedPods(s.pods, IndexKey(m.name), Print(s.entities[name].index));
    ReconcileEntitySafe(m, s, name, pick, changed);
  }

  /** Once provisioned, an entity is left as it is by its reconciles, whether its spec was edited
      meanwhile or not, and so is the rest of the cluster. */
  lemma ProvisionedStays(m: Model, s: State, name: string, pick: string, changed: bool)
    requires Core(m, s) && name in s.entities && s.entities[name].provisioned
    ensures EntityReconciled(m, s, name, pick, changed) == s
  {
    var e := s.entities[name];
    assert e.owned && e.podName != "" && e == e.(provisioned := true);
    assert s.entities == s.entities[name := e];
  }

  // ---------- what breaks, and exactly when ----------

  /** A Model reconcile keeps owned entities below the replica count except in exactly one
      situation: an adopted StatefulSet is still missing and some ordinal below the target has no
      entity yet. */
  lemma ReconcileKeepsSafeExactly(m: Model, s: State, uuid: string -> string)
    requires Safe(m, s)
    ensures Safe(m, ModelReconciled(m, s, uuid)) <==> !CreatesWithoutSts(m, s)
  {
    ReconcileModelSafe(m, s, uuid);
    if CreatesWithoutSts(m, s) {
      var i :| 0 <= i < s.target && i !in Taken(m, s.entities);
      GrownShape(m, s.entities, 0, s.target, uuid);
      TakenIsHeld(m, s.entities);
      var r := ModelReconciled(m, s, uuid).entities;
      assert Held(r, i);
      var n :| n in r && r[n].index == i;
      assert n !in s.entities && r[n].owned;
    }
  }

  ghost predicate AlwaysInRange(m: Model, s: State, steps: seq<Step>) {
    OwnedInRange(Exec(m, s, steps).entities, Exec(m, s, steps).Current()) &&
    (steps != [] ==> AlwaysInRange(m, s, steps[..|steps| - 1]))
  }

  /** Owned entities are below the replica count throughout a run if and only if no reconcile of the
      run creates entities while an adopted StatefulSet is missing. */
  lemma {:induction false} RunInRangeExactly(m: Model, target: int, steps: seq<Step>)
    requires target >= 0 && Legal(m, Initial(target), steps)
    ensures AlwaysInRange(m, Initial(target), steps) <==> StsFirst(m, Initial(target), steps)
  {
    if steps != [] {
      var before, last := steps[..|steps| - 1], steps[|steps| - 1];
      var s := Exec(m, Initial(target), before);
      RunInRangeExactly(m, target, before);
      RunCore(m, target, before, s);
      if AlwaysInRange(m, Initial(target), before) {
        assert Safe(m, s);
        NextSafe(m, s, last);
        if last.ReconcileModel? { ReconcileKeepsSafeExactly(m, s, last.uuids); }
      }
    }
  }

  /** What scale-up makes of an object it writes: ordinal and owner are the controller's, the identity is
      new, all other labels are gone; an object that was there already keeps its status. */
  ghost predicate Rewritten(m: Model, es: map<string, Entity>, n: string, e: Entity, uuid: string -> string) {
    && n == m.EntityName(e.index) && e.owned && e.identity == uuid(n)
    && e.labels == map[IndexKey(m.name) := Print(e.index)]
    && (if n in es then e.podName == es[n].podName && e.provisioned == es[n].provisioned
        else e.podName == "" && !e.provisioned)
  }

  /** Scale-up whatever the entities are called: the name of each missing ordinal ends up with it,
      and every other object is as it was. */
  ghost predicate TakesOver(m: Model, es: map<string, Entity>, r: map<string, Entity>, taken: set<int>,
      low: int, high: int, uuid: string -> string) {
    && (forall n :: n in es ==> n in r)
    && (forall i :: low <= i < high && i !in taken ==> m.EntityName(i) in r && r[m.EntityName(i)].index == i)
    && (forall n :: n in r ==>
          || (n in es && r[n] == es[n])
          || (low <= r[n].index < high && r[n].index !in taken && Rewritten(m, es, n, r[n], uuid)))
  }

  lemma TakeOne(m: Model, es: map<string, Entity>, rest: map<string, Entity>, taken: set<int>, low: int, i: int,
      uuid: string -> string)
    requires 0 <= low <= i && i !in taken && TakesOver(m, es, rest, taken, low, i, uuid)
    ensures TakesOver(m, es, rest[m.EntityName(i) := Minted(m, rest, i, uuid)], taken, low, i + 1, uuid)
  {
    var name := m.EntityName(i);
    var e := Minted(m, rest, i, uuid);
    var r := rest[name := e];
    forall j | low <= j < i ensures m.EntityName(j) != name {
      if m.EntityName(j) == name { OrdinalNameInjective(m.name, j, i); }
    }
    assert name in rest ==> name in es && rest[name] == es[name];
    assert Rewritten(m, es, name, e, uuid);
    forall j | low <= j < i + 1 && j !in taken ensures m.EntityName(j) in r && r[m.EntityName(j)].index == j {
    }
  }

  lemma TakeNone(m: Model, es: map<string, Entity>, rest: map<string, Entity>, taken: set<int>, low: int, i: int,
      uuid: string -> string)
    requires 0 <= low <= i && i in taken && TakesOver(m, es, rest, taken, low, i, uuid)
    ensures TakesOver(m, es, rest, taken, low, i + 1, uuid)
  {
  }

  lemma {:induction false} GrownTakesOver(m: Model, es: map<string, Entity>, taken: set<int>, low: int, high: int,
      uuid: string -> string)
    requires 0 <= low <= high
    ensures TakesOver(m, es, Grown(m, es, taken, low, high, uuid), taken, low, high, uuid)
    decreases high
  {
    if low < high {
      GrownTakesOver(m, es, taken, low, high - 1, uuid);
      var rest := Grown(m, es, taken, low, high - 1, uuid);
      if high - 1 in taken {
        TakeNone(m, es, rest, taken, low, high - 1, uuid);
      } else {
        TakeOne(m, es, rest, taken, low, high - 1, uuid);
      }
    }
  }

  /** A scale-up takes over an entity that bears the name of a missing ordinal, and the ordinal that
      entity had falls vacant. */
  lemma TakeoverVacates(m: Model, es: map<string, Entity>, low: int, high: int, i: int, uuid: string -> string)
    requires 0 <= low <= i < high && UniqueOrdinals(es) && Labelled(m, es)
    requires !Held(es, i) && m.EntityName(i) in es
    ensures !Held(Grown(m, es, Taken(m, es), low, high, uuid), es[m.EntityName(i)].index)
  {
    GrownTakesOver(m, es, Taken(m, es), low, high, uuid);
    TakenIsHeld(m, es);
    assert Held(es, es[m.EntityName(i)].index);
  }

  /** Whatever names users choose, scaling up to `high` leaves no ordinal below it vacant if and only
      if each name of a missing ordinal is free or borne by an entity at or above `high`. */
  lemma GrowthCoversExactly(m: Model, es: map<string, Entity>, low: int, high: int, uuid: string -> string)
    requires 0 <= low <= high && UniqueOrdinals(es) && Labelled(m, es) && Covered(es, low)
    ensures Covered(Grown(m, es, Taken(m, es), low, high, uuid), high) <==>
      forall i :: low <= i < high && !Held(es, i) && m.EntityName(i) in es ==> es[m.EntityName(i)].index >= high
  {
    var r := Grown(m, es, Taken(m, es), low, high, uuid);
    GrownTakesOver(m, es, Taken(m, es), low, high, uuid);
    TakenIsHeld(m, es);
    if Covered(r, high) {
      forall i | low <= i < high && !Held(es, i) && m.EntityName(i) in es ensures es[m.EntityName(i)].index >= high {
        TakeoverVacates(m, es, low, high, i, uuid);
      }
    }
    if forall i :: low <= i < high && !Held(es, i) && m.EntityName(i) in es ==> es[m.EntityName(i)].index >= high {
      forall j | 0 <= j < high ensures Held(r, j) {
        if Held(es, j) {
          var n :| n in es && es[n].index == j;
          assert n in r && r[n].index == j;
        } else {
          assert m.EntityName(j) in r && r[m.EntityName(j)].index == j;
        }
      }
    }
  }

  /** A request leaves two entities with one ordinal if and only if it is a new object that carries an
      owner reference and asks for an ordinal already held. */
  lemma OwnerRefsBypassExactly(m: Model, s: State, req: Request, uuid: string)
    requires UniqueOrdinals(s.entities) && Labelled(m, s.entities)
    ensures !UniqueOrdinals(EntityCreated(m, s, req, uuid).entities) <==>
      req.name !in s.entities && req.ownerRefs && req.index.Some? && Held(s.entities, req.index.value)
  {
    var ordinal := Ordinal(m, s.entities, req);
    var es := EntityCreated(m, s, req, uuid).entities;
    SelectedIsHolder(m, s.entities, ordinal);
    TakenIsHeld(m, s.entities);
    if req.name !in s.entities && Held(s.entities, ordinal) && req.ownerRefs {
      var n :| n in s.entities && s.entities[n].index == ordinal;
      assert n in es && req.name in es && es[n].index == es[req.name].index;
    } else if req.name !in s.entities && Held(s.entities, ordinal) {
      var n :| n in s.entities && s.entities[n].index == ordinal;
      assert n in Selected(s.entities, IndexKey(m.name), Print(ordinal));
      assert es == s.entities;
    }
  }
}
