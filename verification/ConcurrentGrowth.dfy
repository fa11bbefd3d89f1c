/** Several Entity reconcilers growing one StatefulSet at the same time, interleaved between the
    index check, the fetch, the versioned write and the ownership step. */
module ConcurrentGrowth {

  datatype Pc =
    | Idle                               // not owned, before the check
    | Window                             // saw replicas == index
    | Fetched(copy: int, version: nat)   // copy already carries the increment
    | Past                               // about to set ownership
    | Owned

  /** `grown` lists the entities whose increment was committed, in commit order. */
  datatype World = World(replicas: int, version: nat, pcs: map<string, Pc>, grown: seq<string>)

  /** Reads go through a cache: a check may see an earlier replica count, a fetch an earlier version. */
  datatype Event =
    | Check(e: string, seen: int)
    | Fetch(e: string, seen: int, version: nat)
    | Commit(e: string)
    | Own(e: string)
    | Fail(e: string)     // any error: the reconcile starts over
    | Touch               // another write to the StatefulSet, replicas untouched

  predicate Possible(w: World, ev: Event) {
    match ev
    case Check(e, _) => e in w.pcs && w.pcs[e] == Idle
    case Fetch(e, seen, version) =>
      e in w.pcs && w.pcs[e] == Window && version <= w.version && (version == w.version ==> seen == w.replicas)
    case Commit(e) => e in w.pcs && w.pcs[e].Fetched?
    case Own(e) => e in w.pcs && w.pcs[e] == Past
    case Fail(e) => e in w.pcs && w.pcs[e] != Owned
    case Touch => true
  }

  /** Possible, and a check sees the current replica count or one from before. */
  predicate Enabled(w: World, ev: Event) {
    Possible(w, ev) && (ev.Check? ==> ev.seen <= w.replicas)
  }

  function Next(index: map<string, int>, w: World, ev: Event): World
    requires Possible(w, ev) && w.pcs.Keys <= index.Keys
  {
    match ev
    case Check(e, seen) =>
      w.(pcs := w.pcs[e := if seen < index[e] then Idle else if seen == index[e] then Window else Past])
    case Fetch(e, seen, version) => w.(pcs := w.pcs[e := Fetched(seen + 1, version)])
    case Commit(e) =>
      if w.pcs[e].version == w.version then
        World(w.pcs[e].copy, w.version + 1, w.pcs[e := Past], w.grown + [e])
      else w.(pcs := w.pcs[e := Window])
    case Own(e) => w.(pcs := w.pcs[e := Owned])
    case Fail(e) => w.(pcs := w.pcs[e := Idle])
    case Touch => w.(version := w.version + 1)
  }

  function Start(index: map<string, int>, replicas: int): World {
    World(replicas, 0, map e | e in index :: Idle, [])
  }

  ghost predicate Legal(index: map<string, int>, w: World, events: seq<Event>)
    requires w.pcs.Keys == index.Keys
    decreases |events|, 0
  {
    events != [] ==>
      Legal(index, w, events[..|events| - 1]) &&
      Enabled(Exec(index, w, events[..|events| - 1]), events[|events| - 1])
  }

  ghost function Exec(index: map<string, int>, w: World, events: seq<Event>): (w': World)
    requires w.pcs.Keys == index.Keys && Legal(index, w, events)
    ensures w'.pcs.Keys == index.Keys
    decreases |events|, 1
  {
    if events == [] then w else Next(index, Exec(index, w, events[..|events| - 1]), events[|events| - 1])
  }

  /** The event is not a check that shows an entity its own ordinal when the set has outgrown it. */
  predicate Harmless(index: map<string, int>, w: World, ev: Event)
    requires Possible(w, ev) && w.pcs.Keys <= index.Keys
  {
    ev.Check? ==> !(ev.seen == index[ev.e] && index[ev.e] < w.replicas)
  }

  ghost predicate AllHarmless(index: map<string, int>, w: World, events: seq<Event>)
    requires w.pcs.Keys == index.Keys && Legal(index, w, events)
  {
    events != [] ==>
      AllHarmless(index, w, events[..|events| - 1]) &&
      Harmless(index, Exec(index, w, events[..|events| - 1]), events[|events| - 1])
  }

  ghost predicate Unique(index: map<string, int>) {
    forall a, b :: a in index && b in index && index[a] == index[b] ==> a == b
  }

  predicate InWindow(w: World, e: string) {
    e in w.pcs && (w.pcs[e] == Window || w.pcs[e].Fetched?)
  }

  predicate PcOrderly(index: int, w: World, pc: Pc) {
    match pc
    case Idle => true
    case Window => index == w.replicas
    case Fetched(copy, version) =>
      index == w.replicas && version <= w.version && (version == w.version ==> copy == w.replicas + 1)
    case Past => index < w.replicas
    case Owned => index < w.replicas
  }

  ghost predicate GrownInOrder(index: map<string, int>, from: int, grown: seq<string>) {
    forall j :: 0 <= j < |grown| ==> grown[j] in index && index[grown[j]] == from + j
  }

  ghost predicate Orderly(index: map<string, int>, from: int, w: World) {
    && w.pcs.Keys == index.Keys
    && (forall e :: e in w.pcs ==> PcOrderly(index[e], w, w.pcs[e]))
    && w.replicas == from + |w.grown|
    && GrownInOrder(index, from, w.grown)
  }

  lemma CommitOrderly(index: map<string, int>, from: int, w: World, e: string)
    requires Unique(index) && Orderly(index, from, w) && Possible(w, Commit(e))
    ensures Orderly(index, from, Next(index, w, Commit(e)))
  {
    var w' := Next(index, w, Commit(e));
    assert PcOrderly(index[e], w, w.pcs[e]);
    forall a | a in w'.pcs ensures PcOrderly(index[a], w', w'.pcs[a]) {
      assert PcOrderly(index[a], w, w.pcs[a]);
    }
  }

  lemma NextOrderly(index: map<string, int>, from: int, w: World, ev: Event)
    requires Unique(index) && Orderly(index, from, w) && Enabled(w, ev) && Harmless(index, w, ev)
    ensures Orderly(index, from, Next(index, w, ev))
  {
    if ev.Commit? {
      CommitOrderly(index, from, w, ev.e);
    } else {
      var w' := Next(index, w, ev);
      forall a | a in w'.pcs ensures PcOrderly(index[a], w', w'.pcs[a]) {
        assert PcOrderly(index[a], w, w.pcs[a]);
      }
    }
  }

  /** Of the events that may come next, exactly a check that is not harmless leads out of the orderly
      worlds. */
  lemma NextOrderlyExactly(index: map<string, int>, from: int, w: World, ev: Event)
    requires Unique(index) && Orderly(index, from, w) && Enabled(w, ev)
    ensures Orderly(index, from, Next(index, w, ev)) <==> Harmless(index, w, ev)
  {
    if Harmless(index, w, ev) {
      NextOrderly(index, from, w, ev);
    } else {
      var w' := Next(index, w, ev);
      assert !PcOrderly(index[ev.e], w', w'.pcs[ev.e]);
    }
  }

  ghost predicate AlwaysOrderly(index: map<string, int>, from: int, events: seq<Event>)
    requires Legal(index, Start(index, from), events)
  {
    Orderly(index, from, Exec(index, Start(index, from), events)) &&
    (events != [] ==> AlwaysOrderly(index, from, events[..|events| - 1]))
  }

  /** However stale the reads of a run, it is orderly throughout if and only if no check of it shows
      an entity its own ordinal when the set has outgrown it. */
  lemma {:induction false} RunOrderlyExactly(index: map<string, int>, from: int, events: seq<Event>)
    requires Unique(index) && Legal(index, Start(index, from), events)
    ensures AlwaysOrderly(index, from, events) <==> AllHarmless(index, Start(index, from), events)
  {
    if events != [] {
      var before := events[..|events| - 1];
      RunOrderlyExactly(index, from, before);
      if AlwaysOrderly(index, from, before) {
        NextOrderlyExactly(index, from, Exec(index, Start(index, from), before), events[|events| - 1]);
      }
    }
  }

  /** With distinct ordinals and harmless checks: at most one entity is between check and commit, its
      ordinal still equals the replica count, no entity grows the set twice however often its
      reconcile starts over, and the replica count has gone up by one for each entity that did. */
  lemma GrowthIsExact(index: map<string, int>, from: int, events: seq<Event>, w: World)
    requires Unique(index) && Legal(index, Start(index, from), events)
    requires AllHarmless(index, Start(index, from), events) && w == Exec(index, Start(index, from), events)
    ensures forall a, b :: InWindow(w, a) && InWindow(w, b) ==> a == b
    ensures forall e :: InWindow(w, e) ==> e in index && index[e] == w.replicas
    ensures forall j, k :: 0 <= j < k < |w.grown| ==> w.grown[j] != w.grown[k]
    ensures w.replicas == from + |w.grown|
    ensures forall e :: e in w.pcs && w.pcs[e] == Owned ==> index[e] < w.replicas
  {
    RunOrderlyExactly(index, from, events);
  }

  /** An event leaves the other entities alone, and only a write on top of the newest version grows
      the set. */
  lemma OnlyCommitGrows(index: map<string, int>, w: World, ev: Event)
    requires Possible(w, ev) && w.pcs.Keys == index.Keys
    ensures var w' := Next(index, w, ev);
      && w'.pcs.Keys == w.pcs.Keys
      && (forall a :: a in w.pcs && (ev.Touch? || a != ev.e) ==> w'.pcs[a] == w.pcs[a])
      && (w'.grown != w.grown <==> ev.Commit? && w.pcs[ev.e].version == w.version)
      && (w'.grown == w.grown ==> w'.replicas == w.replicas)
  {
    var w' := Next(index, w, ev);
    assert |w'.grown| == |w.grown| ==> w'.grown == w.grown;
  }

  /** A write that meets a conflict is tried again from a new fetch; an error starts the reconcile over. */
  lemma Retries(index: map<string, int>, w: World, e: string)
    requires e in w.pcs && w.pcs.Keys == index.Keys
    ensures w.pcs[e].Fetched? && w.pcs[e].version != w.version ==>
      Next(index, w, Commit(e)) == w.(pcs := w.pcs[e := Window])
    ensures w.pcs[e] != Owned ==> Next(index, w, Fail(e)) == w.(pcs := w.pcs[e := Idle])
  {
  }

  /** An entity left in peace: next in line, it grows the set by one and becomes owned; already covered,
      it becomes owned without growing it; too far out, it gets nowhere. */
  lemma LeftInPeace(index: map<string, int>, w: World, e: string)
    requires e in w.pcs && w.pcs.Keys == index.Keys && w.pcs[e] == Idle
    ensures Enabled(w, Check(e, w.replicas))
    ensures var w1 := Next(index, w, Check(e, w.replicas));
      && (w.replicas < index[e] ==> w1 == w)
      && (index[e] < w.replicas ==> Enabled(w1, Own(e)) && Next(index, w1, Own(e)) == w.(pcs := w.pcs[e := Owned]))
      && (index[e] == w.replicas ==>
            var fetch := Fetch(e, w.replicas, w.version);
            Enabled(w1, fetch) &&
            var w2 := Next(index, w1, fetch);
            Enabled(w2, Commit(e)) &&
            var w3 := Next(index, w2, Commit(e));
            Enabled(w3, Own(e)) &&
            Next(index, w3, Own(e)) == World(w.replicas + 1, w.version + 1, w.pcs[e := Owned], w.grown + [e]))
  {
    assert w.pcs[e := Idle] == w.pcs;
  }

  /** What such a check costs: left in peace, the entity goes on to grow the set for an ordinal the set
      has already, and if the set had grown for it before, it has now grown twice. */
  lemma StaleCheckDoubles(index: map<string, int>, from: int, w: World, e: string)
    requires Orderly(index, from, w) && e in w.pcs && w.pcs[e] == Idle && index[e] < w.replicas
    ensures var check, fetch := Check(e, index[e]), Fetch(e, w.replicas, w.version);
      && Possible(w, check)
      && var w1 := Next(index, w, check);
      Possible(w1, fetch) &&
      var w2 := Next(index, w1, fetch);
      Possible(w2, Commit(e)) &&
      var w3 := Next(index, w2, Commit(e));
      && w3.replicas == w.replicas + 1 && w3.grown == w.grown + [e]
      && !GrownInOrder(index, from, w3.grown)
      && (e in w.grown ==> multiset(w3.grown)[e] >= 2)
  {
    var grown := w.grown + [e];
    assert index[grown[|w.grown|]] < from + |w.grown|;
    if e in w.grown { assert e in multiset(w.grown); }
  }
}
