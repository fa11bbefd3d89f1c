/** Any number of clients updating one object, interleaved between fetch and write-back. */
module Interleaving {
  import opened OptimisticStore

  /** The updates each client performs, one closure a call. */
  type Programme<!T> = map<nat, seq<T -> T>>

  datatype Base = NoBase | At(version: nat)

  /** `outcomes` has one entry for each finished call. */
  datatype Client<T> = Client(outcomes: seq<bool>, attempt: nat, local: T, base: Base)

  /** A call: client and position in its programme. */
  datatype Call = Call(client: nat, op: nat)

  datatype World<T> = World(history: seq<T>, log: seq<Call>, clients: map<nat, Client<T>>)

  datatype Event =
    | Preapply(c: nat)            // Processor tries the closure on the caller's copy
    | Fetch(c: nat, version: nat) // any version, however old, then the closure
    | Push(c: nat)
    | Abort(c: nat)               // the read fails for good

  predicate Active<T>(prog: Programme<T>, w: World<T>, c: nat) {
    c in prog && c in w.clients && |w.clients[c].outcomes| < |prog[c]|
  }

  predicate Enabled<T>(prog: Programme<T>, w: World<T>, ev: Event) {
    Active(prog, w, ev.c) &&
    match ev
    case Preapply(c) => w.clients[c].base == NoBase
    case Fetch(c, v) => w.clients[c].base == NoBase && v < |w.history|
    case Push(c) => w.clients[c].base.At?
    case Abort(c) => w.clients[c].base == NoBase
  }

  function Closed<T>(cl: Client<T>, success: bool): Client<T> {
    Client(cl.outcomes + [success], 0, cl.local, NoBase)
  }

  function Next<T>(prog: Programme<T>, w: World<T>, ev: Event): World<T>
    requires Enabled(prog, w, ev)
  {
    var cl := w.clients[ev.c];
    var f := prog[ev.c][|cl.outcomes|];
    match ev
    case Preapply(c) => w.(clients := w.clients[c := cl.(local := f(cl.local))])
    case Fetch(c, v) => w.(clients := w.clients[c := cl.(local := f(w.history[v]), base := At(v))])
    case Abort(c) => w.(clients := w.clients[c := Closed(cl, false)])
    case Push(c) =>
      if cl.base.version == |w.history| - 1 then
        World(w.history + [cl.local], w.log + [Call(c, |cl.outcomes|)], w.clients[c := Closed(cl, true)])
      else if cl.attempt + 1 == STEPS then
        w.(clients := w.clients[c := Closed(cl, false)])
      else
        w.(clients := w.clients[c := cl.(attempt := cl.attempt + 1, base := NoBase)])
  }

  function Start<T>(prog: Programme<T>, x: T): World<T> {
    World([x], [], map c | c in prog :: Client([], 0, x, NoBase))
  }

  ghost predicate Legal<T>(prog: Programme<T>, w: World<T>, events: seq<Event>)
    decreases |events|, 0
  {
    events != [] ==>
      Legal(prog, w, events[..|events| - 1]) &&
      Enabled(prog, Exec(prog, w, events[..|events| - 1]), events[|events| - 1])
  }

  ghost function Exec<T>(prog: Programme<T>, w: World<T>, events: seq<Event>): World<T>
    requires Legal(prog, w, events)
    decreases |events|, 1
  {
    if events == [] then w else Next(prog, Exec(prog, w, events[..|events| - 1]), events[|events| - 1])
  }

  // ---------- what the object holds ----------

  predicate InProgramme<T>(prog: Programme<T>, call: Call) {
    call.client in prog && call.op < |prog[call.client]|
  }

  ghost predicate AllInProgramme<T>(prog: Programme<T>, log: seq<Call>) {
    forall j :: 0 <= j < |log| ==> InProgramme(prog, log[j])
  }

  /** The closures of a list of calls, applied in order. */
  ghost function Fold<T>(prog: Programme<T>, log: seq<Call>, x: T): T
    requires AllInProgramme(prog, log)
  {
    if log == [] then x
    else
      var last := log[|log| - 1];
      prog[last.client][last.op](Fold(prog, log[..|log| - 1], x))
  }

  predicate Succeeded<T>(w: World<T>, call: Call) {
    call.client in w.clients && call.op < |w.clients[call.client].outcomes| &&
    w.clients[call.client].outcomes[call.op]
  }

  /** A fetched copy is the closure applied to some version, old or new. */
  ghost predicate CopyConsistent<T>(prog: Programme<T>, w: World<T>, c: nat) {
    c in w.clients && w.clients[c].base.At? ==>
      var cl := w.clients[c];
      Active(prog, w, c) && cl.base.version < |w.history| &&
      cl.local == prog[c][|cl.outcomes|](w.history[cl.base.version])
  }

  ghost predicate HistoryConsistent<T>(prog: Programme<T>, x: T, history: seq<T>, log: seq<Call>) {
    |history| == |log| + 1 && AllInProgramme(prog, log) && history[|log|] == Fold(prog, log, x)
  }

  ghost predicate Consistent<T>(prog: Programme<T>, x: T, w: World<T>) {
    && HistoryConsistent(prog, x, w.history, w.log)
    && (forall call :: multiset(w.log)[call] == if Succeeded(w, call) then 1 else 0)
    && (forall c :: CopyConsistent(prog, w, c))
  }

  lemma OutcomesStep<T>(prog: Programme<T>, w: World<T>, ev: Event)
    requires Enabled(prog, w, ev)
    requires forall call :: multiset(w.log)[call] == if Succeeded(w, call) then 1 else 0
    ensures var w' := Next(prog, w, ev);
      forall call :: multiset(w'.log)[call] == if Succeeded(w', call) then 1 else 0
  {
    var w' := Next(prog, w, ev);
    var now := Call(ev.c, |w.clients[ev.c].outcomes|);
    forall call ensures multiset(w'.log)[call] == if Succeeded(w', call) then 1 else 0 {
      assert multiset(w.log)[call] == if Succeeded(w, call) then 1 else 0;
      if call != now {
        assert Succeeded(w', call) == Succeeded(w, call);
      }
    }
  }

  lemma HistoryStep<T>(prog: Programme<T>, x: T, w: World<T>, ev: Event)
    requires Enabled(prog, w, ev)
    requires HistoryConsistent(prog, x, w.history, w.log) && CopyConsistent(prog, w, ev.c)
    ensures HistoryConsistent(prog, x, Next(prog, w, ev).history, Next(prog, w, ev).log)
  {
    var w' := Next(prog, w, ev);
    if |w'.log| > |w.log| {
      assert w'.log[..|w'.log| - 1] == w.log;
    }
  }

  lemma CopyStep<T>(prog: Programme<T>, w: World<T>, ev: Event, c: nat)
    requires Enabled(prog, w, ev) && CopyConsistent(prog, w, c)
    ensures CopyConsistent(prog, Next(prog, w, ev), c)
  {
    var w' := Next(prog, w, ev);
    assert w.history <= w'.history;
  }

  lemma NextConsistent<T>(prog: Programme<T>, x: T, w: World<T>, ev: Event)
    requires Consistent(prog, x, w) && Enabled(prog, w, ev)
    ensures Consistent(prog, x, Next(prog, w, ev))
  {
    OutcomesStep(prog, w, ev);
    HistoryStep(prog, x, w, ev);
    forall c: nat ensures CopyConsistent(prog, Next(prog, w, ev), c) {
      CopyStep(prog, w, ev, c);
    }
  }

  /** However the clients interleave and however stale their reads are: the object's value is the
      fold of the committed closures in commit order, every successful call is among them exactly
      once despite its retries and its early application, every failed call not at all. */
  lemma {:induction false} NoLostNoDoubled<T>(prog: Programme<T>, x: T, events: seq<Event>)
    requires Legal(prog, Start(prog, x), events)
    ensures var w := Exec(prog, Start(prog, x), events);
      && AllInProgramme(prog, w.log)
      && |w.history| > 0 && w.history[|w.history| - 1] == Fold(prog, w.log, x)
      && (forall call :: multiset(w.log)[call] == if Succeeded(w, call) then 1 else 0)
  {
    RunConsistent(prog, x, events);
  }

  lemma {:induction false} RunConsistent<T>(prog: Programme<T>, x: T, events: seq<Event>)
    requires Legal(prog, Start(prog, x), events)
    ensures Consistent(prog, x, Exec(prog, Start(prog, x), events))
  {
    if events != [] {
      RunConsistent(prog, x, events[..|events| - 1]);
      NextConsistent(prog, x, Exec(prog, Start(prog, x), events[..|events| - 1]), events[|events| - 1]);
    }
  }

  // ---------- progress ----------

  /** An event leaves the other clients alone, and only a write on top of the newest version changes the
      object. */
  lemma OnlyNewestWrites<T>(prog: Programme<T>, w: World<T>, ev: Event)
    requires Enabled(prog, w, ev)
    ensures var w' := Next(prog, w, ev);
      && (forall c :: c in w.clients && c != ev.c ==> c in w'.clients && w'.clients[c] == w.clients[c])
      && (w'.history != w.history <==> ev.Push? && w.clients[ev.c].base.version == |w.history| - 1)
  {
    var w' := Next(prog, w, ev);
    assert |w'.history| == |w.history| ==> w'.history == w.history;
  }

  /** A client between its calls, left in peace, gets its next call through: fetched from the newest
      version and written back, it succeeds and puts its closure on top. */
  lemma LeftInPeace<T>(prog: Programme<T>, x: T, w: World<T>, c: nat)
    requires Consistent(prog, x, w) && Active(prog, w, c) && w.clients[c].base == NoBase
    ensures var op := |w.clients[c].outcomes|;
      var fetch := Fetch(c, |w.history| - 1);
      && Enabled(prog, w, fetch)
      && var w1 := Next(prog, w, fetch);
      && Enabled(prog, w1, Push(c))
      && var w2 := Next(prog, w1, Push(c));
      && w2.history == w.history + [prog[c][op](w.history[|w.history| - 1])]
      && w2.log == w.log + [Call(c, op)]
      && w2.clients[c].outcomes == w.clients[c].outcomes + [true]
  {
  }

  /** A call is given up only when its read fails for good or its last attempt meets a conflict; an
      earlier conflict starts the next attempt. */
  lemma GivenUpExactly<T>(prog: Programme<T>, w: World<T>, ev: Event)
    requires Enabled(prog, w, ev)
    ensures var cl, cl' := w.clients[ev.c], Next(prog, w, ev).clients[ev.c];
      var conflict := ev.Push? && cl.base.version != |w.history| - 1;
      && (cl'.outcomes == cl.outcomes + [false] <==> ev.Abort? || (conflict && cl.attempt + 1 == STEPS))
      && (conflict && cl.attempt + 1 != STEPS ==>
            cl'.outcomes == cl.outcomes && cl'.attempt == cl.attempt + 1 && cl'.base == NoBase)
  {
    var cl, cl' := w.clients[ev.c], Next(prog, w, ev).clients[ev.c];
    if |cl'.outcomes| > |cl.outcomes| {
      assert cl'.outcomes[|cl.outcomes|] == (ev.Push? && cl.base.version == |w.history| - 1);
    }
  }

  // ---------- counting updates ----------

  function Trues(outcomes: seq<bool>): nat {
    if outcomes == [] then 0
    else Trues(outcomes[..|outcomes| - 1]) + (if outcomes[|outcomes| - 1] then 1 else 0)
  }

  /** Calls that reported success, over the clients `0..n`. */
  function Successes<T>(w: World<T>, n: nat): nat {
    if n == 0 then 0
    else Successes(w, n - 1) + (if n - 1 in w.clients then Trues(w.clients[n - 1].outcomes) else 0)
  }

  lemma {:induction false} SuccessesStep<T>(prog: Programme<T>, w: World<T>, ev: Event, n: nat)
    requires Enabled(prog, w, ev)
    ensures Successes(Next(prog, w, ev), n) ==
      Successes(w, n) + (if ev.c < n then |Next(prog, w, ev).log| - |w.log| else 0)
  {
    if n > 0 {
      SuccessesStep(prog, w, ev, n - 1);
      var before, after := w.clients[ev.c].outcomes, Next(prog, w, ev).clients[ev.c].outcomes;
      if |after| > |before| { assert after[..|after| - 1] == before; }
    }
  }

  /** When every closure adds one to some measure of the object (replicas grown, conditions
      appended), the object ends up having gained exactly the number of calls that reported success. */
  lemma {:induction false} GainIsSuccesses<T>(prog: Programme<T>, x: T, events: seq<Event>, size: T -> int, n: nat)
    requires Legal(prog, Start(prog, x), events)
    requires forall c :: c in prog ==> c < n
    requires forall c, k, y :: c in prog && 0 <= k < |prog[c]| ==> size(prog[c][k](y)) == size(y) + 1
    ensures var w := Exec(prog, Start(prog, x), events);
      |w.history| > 0 && size(w.history[|w.history| - 1]) == size(x) + Successes(w, n)
  {
    RunConsistent(prog, x, events);
    var w := Exec(prog, Start(prog, x), events);
    FoldGain(prog, w.log, x, size);
    LogIsSuccesses(prog, x, events, n);
  }

  lemma {:induction false} FoldGain<T>(prog: Programme<T>, log: seq<Call>, x: T, size: T -> int)
    requires AllInProgramme(prog, log)
    requires forall c, k, y :: c in prog && 0 <= k < |prog[c]| ==> size(prog[c][k](y)) == size(y) + 1
    ensures size(Fold(prog, log, x)) == size(x) + |log|
  {
    if log != [] {
      FoldGain(prog, log[..|log| - 1], x, size);
      assert InProgramme(prog, log[|log| - 1]);
    }
  }

  lemma {:induction false} StartSuccesses<T>(prog: Programme<T>, x: T, n: nat)
    ensures Successes(Start(prog, x), n) == 0
  {
    if n > 0 { StartSuccesses(prog, x, n - 1); }
  }

  lemma {:induction false} LogIsSuccesses<T>(prog: Programme<T>, x: T, events: seq<Event>, n: nat)
    requires Legal(prog, Start(prog, x), events)
    requires forall c :: c in prog ==> c < n
    ensures |Exec(prog, Start(prog, x), events).log| == Successes(Exec(prog, Start(prog, x), events), n)
  {
    if events == [] {
      StartSuccesses(prog, x, n);
    } else {
      LogIsSuccesses(prog, x, events[..|events| - 1], n);
      SuccessesStep(prog, Exec(prog, Start(prog, x), events[..|events| - 1]), events[|events| - 1], n);
    }
  }
}
