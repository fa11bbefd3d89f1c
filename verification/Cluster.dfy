/** One Model, its StatefulSet, its Entities and its Pods, and what one event does to them.
    A reconcile or an admission request is one atomic event. */
module Cluster {
  import opened Wrappers
  import opened Naming
  import opened Ordinals

  datatype Entity = Entity(
    index: int,          // Spec.OrdinalIndex
    identity: string,    // Spec.Identity
    labels: Labels,
    owned: bool,         // carries an owner reference to the Model
    podName: string,     // Status.PodName
    provisioned: bool)   // Status.Phase is Provisioned

  /** `statefulSetName` is empty when the operator creates the StatefulSet itself and names
      one provided by the customer, which the operator adopts, otherwise. */
  datatype Model = Model(name: string, statefulSetName: string)
  {
    predicate Adopts() { statefulSetName != "" }

    function StsName(): string {
      if Adopts() then statefulSetName else name + "-sts"
    }

    /** The name of the entity the controller creates for ordinal `i`. */
    function EntityName(i: int): string { name + "-" + Print(i) }

    /** The name the StatefulSet gives its pod `i`. */
    function PodName(i: int): string { StsName() + "-" + Print(i) }
  }

  datatype Phase = New | Provisioning | Provisioned | Failed

  /** `replicas` is None while the StatefulSet does not exist. */
  datatype State = State(
    target: int, generation: nat, observed: int, phase: Phase,
    replicas: Option<int>,
    entities: map<string, Entity>,
    pods: map<string, Labels>)
  {
    function Current(): int {
      if replicas.None? then 0 else replicas.value
    }

    predicate Settled() {
      observed == generation && phase == Provisioned
    }
  }

  function Initial(target: int): State {
    State(target, 1, 0, New, None, map[], map[])
  }

  // ---------- listing by label ----------

  /** Entities carrying the label key at all. */
  function Listed(es: map<string, Entity>, key: string): set<string> {
    set n | n in es && key in es[n].labels
  }

  /** Entities whose label has the given value. */
  function Selected(es: map<string, Entity>, key: string, val: string): set<string> {
    set n | n in es && key in es[n].labels && es[n].labels[key] == val
  }

  function SelectedPods(pods: map<string, Labels>, key: string, val: string): set<string> {
    set p | p in pods && key in pods[p] && pods[p][key] == val
  }

  /** The ordinals an index lookup over the listed entities would find. */
  function Taken(m: Model, es: map<string, Entity>): set<int> {
    set n | n in Listed(es, IndexKey(m.name)) :: es[n].index
  }

  // ---------- the Model controller ----------

  /** What the controller writes for a missing ordinal. An object already of that name is
      overwritten: spec, labels and owner reference alike. */
  function Minted(m: Model, es: map<string, Entity>, i: int, uuid: string -> string): Entity {
    var name := m.EntityName(i);
    var labels := map[IndexKey(m.name) := Print(i)];
    if name in es then
      es[name].(index := i, identity := uuid(name), labels := labels, owned := true)
    else
      Entity(i, uuid(name), labels, true, "", false)
  }

  /** Scale-up over the ordinals `[low, high)`; `taken` is the index map built beforehand. */
  function Grown(m: Model, es: map<string, Entity>, taken: set<int>, low: int, high: int,
                 uuid: string -> string): map<string, Entity>
    decreases high - low
  {
    if high <= low then es
    else
      var rest := Grown(m, es, taken, low, high - 1, uuid);
      if high - 1 in taken then rest
      else rest[m.EntityName(high - 1) := Minted(m, rest, high - 1, uuid)]
  }

  /** Scale-down: the entity found at each ordinal of `[low, high)` goes. */
  function Shrunk(m: Model, es: map<string, Entity>, low: int, high: int): map<string, Entity> {
    map n | n in es && !(IndexKey(m.name) in es[n].labels && low <= es[n].index < high) :: es[n]
  }

  function Managed(m: Model, es: map<string, Entity>, current: int, target: int,
                   uuid: string -> string): map<string, Entity> {
    if current < target then Grown(m, es, Taken(m, es), current, target, uuid)
    else if current > target then Shrunk(m, es, target, current)
    else es
  }

  function ModelReconciled(m: Model, s: State, uuid: string -> string): State {
    if s.Settled() then s
    else
      var managed := Managed(m, s.entities, s.Current(), s.target, uuid);
      var phase := if s.phase == New || s.phase == Provisioned then Provisioning else s.phase;
      if m.Adopts() && s.replicas.None? then s.(entities := managed, phase := phase)
      else s.(entities := managed, replicas := Some(s.target), phase := Provisioned, observed := s.generation)
  }

  // ---------- entity admission ----------

  datatype Request = Request(
    name: string, index: Option<int>, identity: string, labels: Labels, ownerRefs: bool)

  /** The ordinal the mutating webhook leaves on the request. */
  function Ordinal(m: Model, es: map<string, Entity>, req: Request): int {
    if req.index.Some? then req.index.value else LeastFree(Taken(m, es))
  }

  predicate Admitted(m: Model, s: State, req: Request, ordinal: int) {
    req.ownerRefs ||
    (Selected(s.entities, IndexKey(m.name), Print(ordinal)) == {} &&
     s.replicas.Some? &&
     ordinal <= s.replicas.value + 1)
  }

  function Requested(m: Model, req: Request, ordinal: int, uuid: string): Entity {
    Entity(ordinal, if req.identity == "" then uuid else req.identity,
           req.labels[IndexKey(m.name) := Print(ordinal)], req.ownerRefs, "", false)
  }

  /** Mutate, validate, store. */
  function EntityCreated(m: Model, s: State, req: Request, uuid: string): State {
    var ordinal := Ordinal(m, s.entities, req);
    if req.name in s.entities || !Admitted(m, s, req, ordinal) then s
    else s.(entities := s.entities[req.name := Requested(m, req, ordinal, uuid)])
  }

  // ---------- the Entity controller ----------

  /** The range check of the ownership step. */
  predicate InReach(s: State, index: int) {
    s.replicas.Some? && index <= s.replicas.value
  }

  /** Grow the StatefulSet when the entity is next in line, then take ownership. */
  function OwnershipTaken(s: State, name: string): State
    requires name in s.entities
  {
    var e := s.entities[name];
    if e.owned || !InReach(s, e.index) then s
    else
      s.(replicas := Some(if s.replicas.value == e.index then e.index + 1 else s.replicas.value),
         entities := s.entities[name := e.(owned := true)])
  }

  /** `pick` is the head of the list of matching pods. */
  function LockedOn(m: Model, s: State, name: string, pick: string): State
    requires name in s.entities
  {
    var e := s.entities[name];
    var pods := SelectedPods(s.pods, IndexKey(m.name), Print(e.index));
    if e.podName != "" then s.(entities := s.entities[name := e.(provisioned := true)])
    else if pods == {} then s
    else s.(entities := s.entities[name :=
      e.(podName := if name in pods then name else pick, provisioned := true)])
  }

  /** `changed` says that the entity's spec was edited since its status was last written. */
  function EntityReconciled(m: Model, s: State, name: string, pick: string, changed: bool): State {
    if name !in s.entities then s
    else
      var e := s.entities[name];
      if e.provisioned && !changed then s
      else if !e.owned && !InReach(s, e.index) then s
      else LockedOn(m, OwnershipTaken(s, name), name, pick)
  }

  // ---------- the pod webhook ----------

  /** Group labels follow the entity, every other label stays. */
  function GroupSynced(entity: Labels, pod: Labels): Labels {
    map k | k in pod.Keys + entity.Keys && (if IsGroupKey(k) then k in entity else k in pod)
      :: if IsGroupKey(k) then entity[k] else pod[k]
  }

  function Stamped(m: Model, e: Entity, template: Labels): Labels {
    GroupSynced(e.labels, template[IndexKey(m.name) := Print(e.index)][MODEL_KEY := m.name])
  }

  /** The entities a pod's name leads to. */
  function Resolved(m: Model, es: map<string, Entity>, podName: string): set<string> {
    Selected(es, IndexKey(m.name), Print(Sequence(podName)))
  }

  /** `pick` is the head of the list of matching entities. */
  function PodCreated(m: Model, s: State, podName: string, template: Labels, pick: string): State {
    if Resolved(m, s.entities, podName) == {} || pick !in s.entities then s
    else s.(pods := s.pods[podName := Stamped(m, s.entities[pick], template)])
  }
}
