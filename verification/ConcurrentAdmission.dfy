/** Several requests for entities under admission at the same time, interleaved between the mutating
    webhook, the validating webhook and the write to the store. */
module ConcurrentAdmission {
  import opened Wrappers
  import opened Naming
  import opened Ordinals
  import opened Cluster
  import opened ClusterSafety

  /** How far a request has come: it has been given its ordinal, or has been admitted with it. */
  datatype Pc = Mutated(req: Request, ordinal: int) | Accepted(req: Request, ordinal: int)

  /** Requests under way, by the name of their object. */
  datatype World = World(s: State, pcs: map<string, Pc>)

  datatype Event =
    | Mutate(req: Request)
    | Validate(name: string)
    | Store(name: string, uuid: string)
    | Resize(replicas: Option<int>)   // the StatefulSet comes, goes, grows or shrinks

  ghost predicate Enabled(w: World, ev: Event) {
    match ev
    case Mutate(req) =>
      && req.name !in w.pcs && req.name !in w.s.entities
      && !req.ownerRefs && (req.index.Some? ==> req.index.value >= 0)
    case Validate(name) => name in w.pcs && w.pcs[name].Mutated?
    case Store(name, _) => name in w.pcs && w.pcs[name].Accepted?
    case Resize(_) => true
  }

  ghost function Next(m: Model, w: World, ev: Event): World
    requires Enabled(w, ev)
  {
    match ev
    case Mutate(req) => w.(pcs := w.pcs[req.name := Mutated(req, Ordinal(m, w.s.entities, req))])
    case Validate(name) =>
      var pc := w.pcs[name];
      if Admitted(m, w.s, pc.req, pc.ordinal) then w.(pcs := w.pcs[name := Accepted(pc.req, pc.ordinal)])
      else w.(pcs := w.pcs - {name})
    case Store(name, uuid) =>
      var pc := w.pcs[name];
      World(w.s.(entities := w.s.entities[name := Requested(m, pc.req, pc.ordinal, uuid)]), w.pcs - {name})
    case Resize(replicas) => w.(s := w.s.(replicas := replicas))
  }

  /** `worlds` are the states gone through, from one without requests under way on. */
  ghost predicate Run(m: Model, worlds: seq<World>, events: seq<Event>) {
    && |worlds| == |events| + 1
    && worlds[0].pcs == map[] && UniqueOrdinals(worlds[0].s.entities) && Labelled(m, worlds[0].s.entities)
    && forall k :: 0 <= k < |events| ==>
         Enabled(worlds[k], events[k]) && worlds[k + 1] == Next(m, worlds[k], events[k])
  }

  /** A request whose three steps follow each other without anything in between fares as in the single
      event that creates an entity. */
  lemma AloneIsCreated(m: Model, w: World, req: Request, uuid: string)
    requires Enabled(w, Mutate(req))
    ensures var w1 := Next(m, w, Mutate(req));
      && Enabled(w1, Validate(req.name))
      && var w2 := Next(m, w1, Validate(req.name));
      && w2.s == w.s
      && (if Enabled(w2, Store(req.name, uuid)) then
            Next(m, w2, Store(req.name, uuid)) == World(EntityCreated(m, w.s, req, uuid), w.pcs)
          else w2.pcs == w.pcs && EntityCreated(m, w.s, req, uuid) == w.s)
  {
    var w1 := Next(m, w, Mutate(req));
    var w2 := Next(m, w1, Validate(req.name));
    assert w1.pcs - {req.name} == w.pcs && w2.pcs - {req.name} == w.pcs;
  }

  // ---------- claims ----------

  /** The ordinal an object has, or is sure to get. */
  function Claim(w: World, n: string): Option<int> {
    if n in w.s.entities then Some(w.s.entities[n].index)
    else if n in w.pcs && w.pcs[n].Accepted? then Some(w.pcs[n].ordinal)
    else None
  }

  ghost predicate ClaimsApart(w: World) {
    forall a, b :: Claim(w, a).Some? && Claim(w, a) == Claim(w, b) ==> a == b
  }

  /** The event does not admit a request for an ordinal while another one admitted for it is not stored. */
  ghost predicate Harmless(m: Model, w: World, ev: Event)
    requires Enabled(w, ev)
  {
    ev.Validate? && Admitted(m, w.s, w.pcs[ev.name].req, w.pcs[ev.name].ordinal) ==>
      forall n :: n in w.pcs && n != ev.name && w.pcs[n].Accepted? ==> w.pcs[n].ordinal != w.pcs[ev.name].ordinal
  }

  ghost predicate Regular(m: Model, w: World) {
    && Labelled(m, w.s.entities)
    && (forall n :: n in w.pcs ==> n !in w.s.entities && 0 <= w.pcs[n].ordinal && !w.pcs[n].req.ownerRefs)
  }

  lemma NextRegular(m: Model, w: World, ev: Event)
    requires Regular(m, w) && Enabled(w, ev)
    ensures Regular(m, Next(m, w, ev))
  {
  }

  lemma ClaimsStay(w: World, w': World)
    requires forall n :: Claim(w', n) == Claim(w, n)
    ensures ClaimsApart(w') <==> ClaimsApart(w)
  {
    if ClaimsApart(w) {
      forall a, b | Claim(w', a).Some? && Claim(w', a) == Claim(w', b) ensures a == b {
        assert Claim(w, a) == Claim(w, b);
      }
    }
    if ClaimsApart(w') {
      forall a, b | Claim(w, a).Some? && Claim(w, a) == Claim(w, b) ensures a == b {
        assert Claim(w', a) == Claim(w', b);
      }
    }
  }

  /** Admitting a request adds its claim to an ordinal nobody has stored. */
  lemma AcceptApart(m: Model, w: World, name: string)
    requires Regular(m, w) && Enabled(w, Validate(name)) && Admitted(m, w.s, w.pcs[name].req, w.pcs[name].ordinal)
    ensures ClaimsApart(Next(m, w, Validate(name))) <==> ClaimsApart(w) && Harmless(m, w, Validate(name))
  {
    var w', ordinal := Next(m, w, Validate(name)), w.pcs[name].ordinal;
    SelectedIsHolder(m, w.s.entities, ordinal);
    assert Claim(w, name) == None && Claim(w', name) == Some(ordinal);
    assert forall n :: n != name ==> Claim(w', n) == Claim(w, n);
    assert forall n :: n in w.s.entities ==> Claim(w, n) != Some(ordinal);
    if ClaimsApart(w') {
      forall a, b | Claim(w, a).Some? && Claim(w, a) == Claim(w, b) ensures a == b {
        assert Claim(w', a) == Claim(w', b);
      }
      forall n | n in w.pcs && n != name && w.pcs[n].Accepted? ensures w.pcs[n].ordinal != ordinal {
        assert Claim(w', n) == Some(w.pcs[n].ordinal);
      }
    }
    if ClaimsApart(w) && Harmless(m, w, Validate(name)) {
      forall a, b | Claim(w', a).Some? && Claim(w', a) == Claim(w', b) ensures a == b {
        if a != name && b != name { assert Claim(w, a) == Claim(w, b); }
      }
    }
  }

  lemma NextApartExactly(m: Model, w: World, ev: Event)
    requires Regular(m, w) && Enabled(w, ev)
    ensures ClaimsApart(Next(m, w, ev)) <==> ClaimsApart(w) && Harmless(m, w, ev)
  {
    if ev.Validate? && Admitted(m, w.s, w.pcs[ev.name].req, w.pcs[ev.name].ordinal) {
      AcceptApart(m, w, ev.name);
    } else {
      ClaimsStay(w, Next(m, w, ev));
    }
  }

  // ---------- every run ----------

  ghost predicate AllHarmless(m: Model, worlds: seq<World>, events: seq<Event>, k: nat)
    requires Run(m, worlds, events) && k <= |events|
  {
    forall j :: 0 <= j < k ==> Harmless(m, worlds[j], events[j])
  }

  lemma {:induction false} RunApartExactly(m: Model, worlds: seq<World>, events: seq<Event>, k: nat)
    requires Run(m, worlds, events) && k <= |events|
    ensures Regular(m, worlds[k])
    ensures ClaimsApart(worlds[k]) <==> AllHarmless(m, worlds, events, k)
  {
    if k == 0 {
      forall a, b | Claim(worlds[0], a).Some? && Claim(worlds[0], a) == Claim(worlds[0], b) ensures a == b {
      }
    } else {
      RunApartExactly(m, worlds, events, k - 1);
      assert Enabled(worlds[k - 1], events[k - 1]);
      NextRegular(m, worlds[k - 1], events[k - 1]);
      NextApartExactly(m, worlds[k - 1], events[k - 1]);
    }
  }

  ghost predicate AlwaysUnique(worlds: seq<World>) {
    forall k :: 0 <= k < |worlds| ==> UniqueOrdinals(worlds[k].s.entities)
  }

  /** No request is admitted and not stored. */
  ghost predicate Quiet(w: World) {
    forall n :: n in w.pcs ==> w.pcs[n].Mutated?
  }

  lemma ApartIsUnique(w: World)
    ensures ClaimsApart(w) ==> UniqueOrdinals(w.s.entities)
    ensures Quiet(w) ==> (ClaimsApart(w) <==> UniqueOrdinals(w.s.entities))
  {
    if ClaimsApart(w) {
      forall a, b | a in w.s.entities && b in w.s.entities && w.s.entities[a].index == w.s.entities[b].index
        ensures a == b
      {
        assert Claim(w, a) == Claim(w, b);
      }
    }
  }

  /** However requests are interleaved, ordinals stay unique as long as none is admitted for an ordinal
      while another one admitted for it is not stored yet. */
  lemma HarmlessIsUnique(m: Model, worlds: seq<World>, events: seq<Event>)
    requires Run(m, worlds, events) && AllHarmless(m, worlds, events, |events|)
    ensures AlwaysUnique(worlds)
  {
    forall k | 0 <= k < |worlds| ensures UniqueOrdinals(worlds[k].s.entities) {
      RunApartExactly(m, worlds, events, k);
      ApartIsUnique(worlds[k]);
    }
  }

  /** And only then: in a run at whose end every admitted request is stored, ordinals were unique
      throughout if and only if that never happened. */
  lemma AdmissionUniqueExactly(m: Model, worlds: seq<World>, events: seq<Event>)
    requires Run(m, worlds, events) && Quiet(worlds[|events|])
    ensures AlwaysUnique(worlds) <==> AllHarmless(m, worlds, events, |events|)
  {
    RunApartExactly(m, worlds, events, |events|);
    ApartIsUnique(worlds[|events|]);
    if AllHarmless(m, worlds, events, |events|) { HarmlessIsUnique(m, worlds, events); }
    assert AlwaysUnique(worlds) ==> UniqueOrdinals(worlds[|events|].s.entities);
  }
}
