/** Read-modify-write against a versioned object: fetch a possibly stale version, apply the
    update closures, write back, retry on conflict. */
module OptimisticStore {

  /** `retry.DefaultRetry` makes this many attempts. */
  const STEPS := 5

  function Apply<T>(fns: seq<T -> T>, x: T): T {
    if fns == [] then x else Apply(fns[1..], fns[0](x))
  }

  function Composed<T>(fns: seq<T -> T>): T -> T {
    x => Apply(fns, x)
  }

  /** Closures are applied one after the other, from the first to the last. */
  lemma {:induction false} ApplyInOrder<T>(fns: seq<T -> T>, f: T -> T, x: T)
    ensures Apply([], x) == x && Apply(fns + [f], x) == f(Apply(fns, x))
  {
    if fns == [] {
      assert (fns + [f])[1..] == [];
    } else {
      assert (fns + [f])[1..] == fns[1..] + [f];
      ApplyInOrder(fns[1..], f, fns[0](x));
    }
  }

  /** One object in the API server: every version it has had, oldest first, and the closures
      that led from each version to the next. */
  class Store<T(!new)> {
    var history: seq<T>
    ghost var log: seq<T -> T>

    ghost predicate Valid()
      reads this
    {
      |history| == |log| + 1 && forall j :: 0 <= j < |log| ==> history[j + 1] == log[j](history[j])
    }

    constructor (x: T)
      ensures Valid() && history == [x] && log == []
    {
      history, log := [x], [];
    }

    function Head(): T
      reads this
      requires |history| > 0
    {
      history[|history| - 1]
    }

    /** A read may lag behind by any number of versions. */
    method Get(lag: nat) returns (x: T, version: nat)
      requires Valid()
      ensures version < |history| && x == history[version]
      ensures version == if lag < |history| then |history| - 1 - lag else 0
    {
      version := if lag < |history| then |history| - 1 - lag else 0;
      x := history[version];
    }

    /** A write succeeds only on top of the newest version. */
    method Update(x: T, version: nat, ghost f: T -> T) returns (ok: bool)
      requires Valid() && version < |history| && x == f(history[version])
      modifies this
      ensures Valid() && ok == (version == old(|history|) - 1)
      ensures history == if ok then old(history) + [x] else old(history)
      ensures log == if ok then old(log) + [f] else old(log)
    {
      ok := version == |history| - 1;
      if ok {
        history := history + [x];
        log := log + [f];
      }
    }

    /** Other writers get in between. */
    method Foreign(fs: seq<T -> T>)
      requires Valid()
      modifies this
      ensures Valid() && log == old(log) + fs && |history| == old(|history|) + |fs|
      ensures old(history) <= history
    {
      for k := 0 to |fs|
        invariant Valid() && log == old(log) + fs[..k] && |history| == old(|history|) + k
        invariant old(history) <= history
      {
        history := history + [fs[k](Head())];
        log := log + [fs[k]];
        assert fs[..k + 1] == fs[..k] + [fs[k]];
      }
    }
  }

  /** What an attempt meets: how stale its read is, who writes before it does, and whether the
      read fails for good. */
  datatype Weather<!T> = Weather(lag: nat, foreign: seq<T -> T>, missing: bool)
  {
    predicate Calm() { lag == 0 && |foreign| == 0 }
  }

  function ForeignLog<T>(weather: seq<Weather<T>>, n: nat): seq<T -> T>
    requires n <= |weather|
  {
    if n == 0 then []
    else ForeignLog(weather, n - 1) + (if weather[n - 1].missing then [] else weather[n - 1].foreign)
  }

  /** The newest version is the closures applied, in order, to the one before. */
  predicate OnTop<T(==)>(history: seq<T>, fns: seq<T -> T>) {
    |history| >= 2 && history[|history| - 1] == Apply(fns, history[|history| - 2])
  }

  /** One round: fetch, apply the closures in order, write back. */
  method Attempt<T(!new)>(store: Store<T>, fns: seq<T -> T>, w: Weather<T>) returns (ok: bool, local: T)
    requires store.Valid() && !w.missing
    modifies store
    ensures store.Valid()
    ensures store.log == old(store.log) + w.foreign + (if ok then [Composed(fns)] else [])
    ensures ok ==> local == store.Head() && OnTop(store.history, fns)
    ensures ok <==> w.foreign == [] && (w.lag == 0 || |old(store.history)| == 1)
  {
    var version;
    local, version := store.Get(w.lag);
    var k := 0;
    while k < |fns|
      invariant 0 <= k <= |fns| && Apply(fns, store.history[version]) == Apply(fns[k..], local)
    {
      local := fns[k](local);
      k := k + 1;
    }
    store.Foreign(w.foreign);
    ok := store.Update(local, version, Composed(fns));
  }

  /** Whatever the interference, a successful call adds its closures to the object's history
      exactly once, a failed one not at all; nothing others wrote is lost. It succeeds if one
      of its attempts is left in peace. */
  method UpdateObj<T(!new)>(store: Store<T>, fns: seq<T -> T>, weather: seq<Weather<T>>, given: T)
    returns (ok: bool, local: T, attempts: nat)
    requires store.Valid() && |weather| == STEPS
    modifies store
    ensures store.Valid() && 1 <= attempts <= STEPS
    ensures store.log == old(store.log) + ForeignLog(weather, attempts) + (if ok then [Composed(fns)] else [])
    ensures ok ==> local == store.Head() && OnTop(store.history, fns)
    ensures !ok ==> attempts == STEPS || weather[attempts - 1].missing
    ensures ok ==> !weather[attempts - 1].missing && weather[attempts - 1].foreign == []
    ensures forall i :: 0 <= i < attempts - 1 ==> !weather[i].missing && !weather[i].Calm()
    ensures forall j :: 0 <= j < STEPS && weather[j].Calm() && !ok ==> exists i :: 0 <= i <= j && weather[i].missing
  {
    local, attempts := given, 0;
    ghost var before := store.log;
    while attempts < STEPS
      invariant store.Valid() && 0 <= attempts <= STEPS
      invariant store.log == before + ForeignLog(weather, attempts)
      invariant forall i :: 0 <= i < attempts ==> !weather[i].missing && !weather[i].Calm()
    {
      var w := weather[attempts];
      attempts := attempts + 1;
      if w.missing {
        return false, local, attempts;
      }
      ok, local := Attempt(store, fns, w);
      assert before + ForeignLog(weather, attempts - 1) + w.foreign == before + ForeignLog(weather, attempts);
      if ok {
        return true, local, attempts;
      }
    }
    return false, local, attempts;
  }

  /** `Processor` on an existing object: the closure is first applied to the caller's copy, then
      the update starts over from a fresh read, then a condition is appended to the parent. The
      early application leaves no trace, however little idempotent the closure is. Either update goes
      through if one of its attempts is left in peace before a read fails for good. */
  method Processor<T(!new), C(!new)>(obj: Store<T>, copy: T, f: T -> T, weather: seq<Weather<T>>,
                                     parent: Store<seq<C>>, condition: C, parentWeather: seq<Weather<seq<C>>>)
    returns (changed: bool, reported: bool, local: T, attempts: nat, parentAttempts: nat)
    requires obj.Valid() && parent.Valid() && obj as object != parent as object
    requires |weather| == STEPS && |parentWeather| == STEPS
    modifies obj, parent
    ensures obj.Valid() && parent.Valid() && 1 <= attempts <= STEPS && parentAttempts <= STEPS
    ensures forall j :: 0 <= j < STEPS && weather[j].Calm() && !changed ==>
      exists i :: 0 <= i <= j && weather[i].missing
    ensures forall j :: 0 <= j < STEPS && parentWeather[j].Calm() && changed && !reported ==>
      exists i :: 0 <= i <= j && parentWeather[i].missing
    ensures !changed ==> attempts == STEPS || weather[attempts - 1].missing
    ensures changed ==> 1 <= parentAttempts
    ensures changed && !reported ==> parentAttempts == STEPS || parentWeather[parentAttempts - 1].missing
    ensures obj.log == old(obj.log) + ForeignLog(weather, attempts) + (if changed then [Composed([f])] else [])
    ensures parent.log == old(parent.log) + ForeignLog(parentWeather, parentAttempts) +
      (if reported then [Composed([Appender(condition)])] else [])
    ensures changed ==> local == obj.Head() && |obj.history| >= 2 && local == f(obj.history[|obj.history| - 2])
    ensures reported ==> |parent.history| >= 2 && parent.Head() == parent.history[|parent.history| - 2] + [condition]
    ensures !changed ==> !reported && parentAttempts == 0
  {
    local := f(copy);
    changed, local, attempts := UpdateObj(obj, [f], weather, local);
    reported, parentAttempts := false, 0;
    if changed {
      ApplyInOrder([], f, obj.history[|obj.history| - 2]);
      assert [] + [f] == [f];
      var conditions;
      reported, conditions, parentAttempts := UpdateObj(parent, [Appender(condition)], parentWeather, []);
      if reported {
        ghost var before := parent.history[|parent.history| - 2];
        ApplyInOrder([], Appender(condition), before);
        assert [] + [Appender(condition)] == [Appender(condition)];
      }
    }
  }

  function Appender<C>(c: C): seq<C> -> seq<C> {
    s => s + [c]
  }
}
