/** The create-or-update handler behind every derived resource, and `Processor` around it. */
module CreateOrUpdate {
  import opened Wrappers
  import opened Naming

  /** What the update branch compares and copies: the whole spec, a RoleBinding's role reference,
      or, for a ServiceAccount, nothing. */
  datatype Kind = WithSpec | RoleBinding | ServiceAccount

  datatype Object<S(==)> = Object(
    labels: Labels, annotations: Labels, owner: string,
    spec: S, roleRef: string, subjects: seq<string>)

  /** What happens between the fetch and the write of one attempt. */
  datatype Weather<S(==)> = Quiet | Written(theirs: Object<S>) | Removed | Unreadable

  datatype Result = Unchanged | Provisioned | Error

  datatype Handled<S(==)> = Handled(stored: Option<Object<S>>, result: Result, attempts: nat)

  // ---------- specification ----------

  predicate Same<S(==)>(kind: Kind, a: Object<S>, b: Object<S>) {
    match kind
    case WithSpec => a.spec == b.spec
    case RoleBinding => a.roleRef == b.roleRef
    case ServiceAccount => true
  }

  function Merged<S(==)>(kind: Kind, stored: Object<S>, desired: Object<S>): Object<S> {
    var o := stored.(labels := desired.labels, annotations := desired.annotations, owner := desired.owner);
    match kind
    case WithSpec => o.(spec := desired.spec)
    case RoleBinding => o.(roleRef := desired.roleRef)
    case ServiceAccount => o
  }

  function After<S(==)>(stored: Option<Object<S>>, w: Weather<S>): Option<Object<S>> {
    match w
    case Written(o) => Some(o)
    case Removed => None
    case _ => stored
  }

  /** A conflict starts the handler over; `weather` has one entry for each attempt that is not Quiet. */
  function Handling<S(==)>(kind: Kind, desired: Object<S>, stored: Option<Object<S>>,
      weather: seq<Weather<S>>): Handled<S>
    decreases |weather|
  {
    var w := if weather == [] then Quiet else weather[0];
    if stored.None? || w == Unreadable then
      var now := After(stored, w);
      if now.None? then Handled(Some(desired), Provisioned, 1) else Handled(now, Error, 1)
    else if Same(kind, stored.value, desired) then Handled(stored, Unchanged, 1)
    else
      match w
      case Written(o) =>
        var again := Handling(kind, desired, Some(o), weather[1..]);
        again.(attempts := again.attempts + 1)
      case Removed => Handled(None, Error, 1)
      case _ => Handled(Some(Merged(kind, stored.value, desired)), Provisioned, 1)
  }

  predicate Converged<S(==)>(kind: Kind, stored: Option<Object<S>>, desired: Object<S>) {
    stored.Some? && Same(kind, stored.value, desired)
  }

  // ---------- convergence ----------

  /** Unless it reports an error the handler leaves the desired state in the store; every extra
      attempt is paid for by a foreign write. */
  lemma {:induction false} Converges<S>(kind: Kind, desired: Object<S>, stored: Option<Object<S>>,
      weather: seq<Weather<S>>)
    ensures var h := Handling(kind, desired, stored, weather);
      && (h.result != Error ==> Converged(kind, h.stored, desired) && Right(kind, h.stored.value, desired))
      && 1 <= h.attempts <= |weather| + 1
    decreases |weather|
  {
    if weather != [] && weather[0].Written? {
      Converges(kind, desired, Some(weather[0].theirs), weather[1..]);
    }
  }

  /** A run after a successful one writes nothing and reports nothing, unless it cannot even read. */
  lemma SecondRunIdle<S>(kind: Kind, desired: Object<S>, stored: Option<Object<S>>, weather: seq<Weather<S>>,
      later: seq<Weather<S>>)
    requires Handling(kind, desired, stored, weather).result != Error
    requires later != [] ==> later[0] != Unreadable
    ensures var s := Handling(kind, desired, stored, weather).stored;
      Handling(kind, desired, s, later) == Handled(s, Unchanged, 1)
  {
    Converges(kind, desired, stored, weather);
  }

  /** With foreign writes but no removals and no failed reads the handler always gets there. */
  lemma {:induction false} SucceedsAmongWriters<S>(kind: Kind, desired: Object<S>, stored: Object<S>,
      weather: seq<Weather<S>>)
    requires forall w :: w in weather ==> w.Quiet? || w.Written?
    ensures var h := Handling(kind, desired, Some(stored), weather);
      h.result != Error && Converged(kind, h.stored, desired)
    decreases |weather|
  {
    if weather != [] && weather[0].Written? {
      SucceedsAmongWriters(kind, desired, weather[0].theirs, weather[1..]);
    }
  }

  // ---------- one run in full ----------

  /** The part of the object the handler is after: the spec, or a RoleBinding's role reference. */
  ghost predicate Right<S>(kind: Kind, o: Object<S>, desired: Object<S>) {
    (kind == WithSpec ==> o.spec == desired.spec) && (kind == RoleBinding ==> o.roleRef == desired.roleRef)
  }

  predicate SameMetadata<S(==)>(a: Object<S>, b: Object<S>) {
    a.labels == b.labels && a.annotations == b.annotations && a.owner == b.owner
  }

  /** A missing object is created as desired, unless somebody else creates it meanwhile. */
  lemma MissingIsCreated<S>(kind: Kind, desired: Object<S>, weather: seq<Weather<S>>)
    ensures var h := Handling(kind, desired, None, weather);
      if weather != [] && weather[0].Written? then h == Handled(Some(weather[0].theirs), Error, 1)
      else h == Handled(Some(desired), Provisioned, 1)
  {
  }

  /** An object that is right is left alone. */
  lemma RightIsLeft<S>(kind: Kind, desired: Object<S>, stored: Object<S>, weather: seq<Weather<S>>)
    requires Right(kind, stored, desired) && (weather != [] ==> weather[0] != Unreadable)
    ensures Handling(kind, desired, Some(stored), weather) == Handled(Some(stored), Unchanged, 1)
  {
  }

  /** An object that is not right is updated in that part and in its metadata, and in nothing else. When
      somebody writes to it meanwhile the handler starts over, when somebody removes it it fails. */
  lemma WrongIsUpdated<S>(kind: Kind, desired: Object<S>, stored: Object<S>, weather: seq<Weather<S>>)
    requires !Right(kind, stored, desired) && (weather != [] ==> weather[0] != Unreadable)
    ensures var h := Handling(kind, desired, Some(stored), weather);
      if weather == [] || weather[0].Quiet? then
        h.result == Provisioned && h.attempts == 1 && h.stored.Some? &&
        var o := h.stored.value;
        && Right(kind, o, desired) && SameMetadata(o, desired) && o.subjects == stored.subjects
        && (kind != WithSpec ==> o.spec == stored.spec) && (kind != RoleBinding ==> o.roleRef == stored.roleRef)
      else if weather[0].Removed? then h == Handled(None, Error, 1)
      else
        var again := Handling(kind, desired, Some(weather[0].theirs), weather[1..]);
        h == Handled(again.stored, again.result, again.attempts + 1)
  {
  }

  /** An object that cannot be read is taken for missing: creating it fails. */
  lemma UnreadableFails<S>(kind: Kind, desired: Object<S>, stored: Object<S>, weather: seq<Weather<S>>)
    requires weather != [] && weather[0] == Unreadable
    ensures Handling(kind, desired, Some(stored), weather) == Handled(Some(stored), Error, 1)
  {
  }

  // ---------- what it does not repair ----------

  /** The object the last attempt fetches, if it finds one: the first that is right already, or
      that nobody writes to meanwhile. */
  function Fetched<S(==)>(kind: Kind, desired: Object<S>, stored: Option<Object<S>>,
      weather: seq<Weather<S>>): Option<Object<S>>
    decreases |weather|
  {
    if stored.None? || weather == [] || Same(kind, stored.value, desired) then stored
    else if weather[0].Written? then Fetched(kind, desired, Some(weather[0].theirs), weather[1..])
    else stored
  }

  /** Whatever else writes, labels, annotations and owner end up as desired exactly when the object
      last fetched differed in its compared part, or had them right already, or did not exist. */
  lemma {:induction false} MetadataRepairedExactly<S>(kind: Kind, desired: Object<S>, stored: Option<Object<S>>,
      weather: seq<Weather<S>>)
    requires Handling(kind, desired, stored, weather).result != Error
    ensures var h := Handling(kind, desired, stored, weather);
      var fetched := Fetched(kind, desired, stored, weather);
      h.stored.Some? &&
      (SameMetadata(h.stored.value, desired) <==>
         fetched.None? || !Same(kind, fetched.value, desired) || SameMetadata(fetched.value, desired))
    decreases |weather|
  {
    if weather != [] && weather[0].Written? && stored.Some? && !Same(kind, stored.value, desired) {
      MetadataRepairedExactly(kind, desired, Some(weather[0].theirs), weather[1..]);
    }
  }

  /** The subjects of an existing RoleBinding are never touched, whatever is desired. */
  lemma {:induction false} SubjectsStay<S>(desired: Object<S>, stored: Object<S>, weather: seq<Weather<S>>)
    requires forall w :: w in weather ==> w.Quiet? || (w.Written? && w.theirs.subjects == stored.subjects)
    ensures var h := Handling(RoleBinding, desired, Some(stored), weather);
      h.stored.Some? && h.stored.value.subjects == stored.subjects
    decreases |weather|
  {
    if weather != [] && weather[0].Written? {
      SubjectsStay(desired, weather[0].theirs, weather[1..]);
    }
  }

  // ---------- the handler ----------

  class ResourceHandler<S(==)> {
    const kind: Kind
    const injectLabels: Option<Labels>
    const parent: string
    const setOwner: bool
    var stored: Option<Object<S>>   // the object in the API server
    var conditions: seq<string>     // status conditions of the parent

    constructor (kind: Kind, injectLabels: Option<Labels>, parent: string, setOwner: bool, stored: Option<Object<S>>)
      ensures this.kind == kind && this.injectLabels == injectLabels
      ensures this.parent == parent && this.setOwner == setOwner
      ensures this.stored == stored && conditions == []
    {
      this.kind, this.injectLabels, this.parent, this.setOwner := kind, injectLabels, parent, setOwner;
      this.stored, conditions := stored, [];
    }

    /** The built object with the handler's labels and owner on it. */
    function Desired(built: Object<S>): Object<S> {
      var o := if injectLabels.Some? then built.(labels := built.labels + injectLabels.value) else built;
      if setOwner then o.(owner := parent) else o
    }

    /** The handler's labels win, all others and everything else stay, and the owner is set if asked for. */
    lemma DesiredShape(built: Object<S>)
      ensures var o := Desired(built);
        && (injectLabels.None? ==> o.labels == built.labels)
        && (injectLabels.Some? ==> o.labels.Keys == built.labels.Keys + injectLabels.value.Keys)
        && (injectLabels.Some? ==> forall k :: k in o.labels ==>
              o.labels[k] == if k in injectLabels.value then injectLabels.value[k] else built.labels[k])
        && o.owner == (if setOwner then parent else built.owner)
        && o == built.(labels := o.labels, owner := o.owner)
    {
    }

    method Prepare(built: Object<S>) returns (obj: Object<S>)
      ensures obj == Desired(built)
    {
      obj := built;
      if injectLabels.Some? {
        var labels := obj.labels;
        var todo := injectLabels.value.Keys;
        while todo != {}
          invariant todo <= injectLabels.value.Keys
          invariant labels == built.labels + map k | k in injectLabels.value && k !in todo :: injectLabels.value[k]
          decreases todo
        {
          var k :| k in todo;
          labels := labels[k := injectLabels.value[k]];
          todo := todo - {k};
        }
        assert (map k | k in injectLabels.value && k !in todo :: injectLabels.value[k]) == injectLabels.value;
        obj := obj.(labels := labels);
      }
      if setOwner {
        obj := obj.(owner := parent);
      }
    }

    method Handle(built: Object<S>, weather: seq<Weather<S>>) returns (result: Result, attempts: nat)
      modifies this`stored
      ensures Handled(stored, result, attempts) == Handling(kind, Desired(built), old(stored), weather)
      ensures result != Error ==> Converged(kind, stored, Desired(built)) && Right(kind, stored.value, Desired(built))
      ensures old(stored).None? && (weather == [] || !weather[0].Written?) ==>
        result == Provisioned && stored == Some(Desired(built))
      ensures old(stored).None? && weather != [] && weather[0].Written? ==>
        result == Error && stored == Some(weather[0].theirs)
      ensures old(stored).Some? && (weather == [] || weather[0].Quiet?) ==>
        result == if Right(kind, old(stored).value, Desired(built)) then Unchanged else Provisioned
      ensures result == Unchanged && attempts == 1 ==> stored == old(stored)
      decreases |weather|
    {
      Converges(kind, Desired(built), stored, weather);
      var obj := Prepare(built);
      var w := if weather == [] then Quiet else weather[0];
      if stored.None? || w == Unreadable {
        stored := After(stored, w);
        if stored.Some? {
          return Error, 1;
        }
        stored := Some(obj);
        return Provisioned, 1;
      }
      var init := stored.value;
      init := init.(labels := obj.labels, annotations := obj.annotations, owner := obj.owner);
      match kind {
        case WithSpec =>
          if init.spec == obj.spec {
            return Unchanged, 1;
          }
          init := init.(spec := obj.spec);
        case RoleBinding =>
          if init.roleRef == obj.roleRef {
            return Unchanged, 1;
          }
          init := init.(roleRef := obj.roleRef);
        case ServiceAccount =>
          return Unchanged, 1;
      }
      stored := After(stored, w);
      if w.Written? {
        DesiredTwice(built);
        result, attempts := Handle(obj, weather[1..]);
        return result, attempts + 1;
      }
      if w.Removed? {
        return Error, 1;
      }
      stored := Some(init);
      return Provisioned, 1;
    }

    /** Restarting with the already prepared object changes nothing about it. */
    lemma DesiredTwice(built: Object<S>)
      ensures Desired(Desired(built)) == Desired(built)
    {
      if injectLabels.Some? {
        var once := built.labels + injectLabels.value;
        assert once + injectLabels.value == once;
      }
    }

    /** Handle, then report on the parent, unless there is nothing to report. */
    method Process(built: Object<S>, condition: string, weather: seq<Weather<S>>) returns (result: Result)
      modifies this
      ensures var h := Handling(kind, Desired(built), old(stored), weather);
        stored == h.stored && result == h.result
      ensures conditions == if result == Provisioned then old(conditions) + [condition] else old(conditions)
    {
      var attempts;
      result, attempts := Handle(built, weather);
      if result == Error {
        return;
      }
      if result != Unchanged {
        conditions := conditions + [condition];
      }
    }

    /** Two runs in a row: the second leaves store and conditions as they are. */
    method ProcessTwice(built: Object<S>, condition: string, weather: seq<Weather<S>>, later: seq<Weather<S>>)
      returns (first: Result, second: Result)
      requires later != [] ==> later[0] != Unreadable
      modifies this
      ensures first != Error ==>
        && second == Unchanged && Converged(kind, stored, Desired(built))
        && stored == Handling(kind, Desired(built), old(stored), weather).stored
        && conditions == (if first == Provisioned then old(conditions) + [condition] else old(conditions))
    {
      first := Process(built, condition, weather);
      if first != Error {
        SecondRunIdle(kind, Desired(built), old(stored), weather, later);
        Converges(kind, Desired(built), old(stored), weather);
      }
      second := Process(built, condition, later);
    }
  }
}
