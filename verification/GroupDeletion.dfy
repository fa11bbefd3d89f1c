/** Deleting a Group: the cleanups behind its finalizer, and the rest of the reconcile that runs
    on after them. */
module GroupDeletion {
  import opened Naming
  import opened Cluster
  import opened GroupLabels
  import Controllers

  /** `netpol`: the group's NetworkPolicy exists. `finalizer`: the group object still carries it. */
  datatype Estate = Estate(objects: Objects, netpol: bool, finalizer: bool)

  /** What one pass meets: the reads and writes the API server refuses, its order of listing, and
      whether the cache still shows the policy right after its deletion. */
  datatype Conditions = Conditions(
    netpolRefused: bool, refused: set<string>, refusedPods: set<string>, order: Order, policySeen: bool)

  datatype Cleanup = RemoveNetpol | UnlabelEntities | UnlabelPods

  /** GetObjectsToDelete. */
  const CLEANUPS: seq<Cleanup> := [RemoveNetpol, UnlabelEntities, UnlabelPods]

  function Without(labels: Labels, group: string): Labels {
    BuildLabel(labels, GroupKey(group), "", LABEL_DELETE)
  }

  function PodMembers(pods: map<string, Labels>, group: string): set<string> {
    set p | p in pods && GroupKey(group) in pods[p]
  }

  function EntitiesWithout(es: map<string, Entity>, group: string, names: set<string>): map<string, Entity> {
    map n | n in es :: if n in names then es[n].(labels := Without(es[n].labels, group)) else es[n]
  }

  function PodsWithout(pods: map<string, Labels>, group: string, names: set<string>): map<string, Labels> {
    map p | p in pods :: if p in names then Without(pods[p], group) else pods[p]
  }

  /** Those whose turn comes before the first one refused. */
  function Before(list: seq<string>, refused: set<string>): set<string> {
    if list == [] || list[0] in refused then {} else {list[0]} + Before(list[1..], refused)
  }

  lemma {:induction false} BeforeExactly(list: seq<string>, refused: set<string>, k: nat)
    requires k <= |list| && forall j :: 0 <= j < k ==> list[j] !in refused
    requires k < |list| ==> list[k] in refused
    ensures Before(list, refused) == set j | 0 <= j < k :: list[j]
  {
    if k > 0 {
      BeforeExactly(list[1..], refused, k - 1);
      assert forall j :: 0 < j < k ==> list[j] == list[1..][j - 1];
    }
  }

  /** What the cleanups make of the entities: they go through the group's members in the order listed and
      stop at the first refusal. */
  ghost function EntitiesAfter(o: Objects, group: string, c: Conditions): map<string, Entity> {
    EntitiesWithout(o.entities, group, Before(c.order(Members(o.entities, group)), c.refused))
  }

  /** The pods' turn comes only when no entity was refused. */
  ghost function PodsAfter(o: Objects, group: string, c: Conditions): map<string, Labels> {
    if Members(o.entities, group) * c.refused != {} then o.pods
    else PodsWithout(o.pods, group, Before(c.order(PodMembers(o.pods, group)), c.refusedPods))
  }

  /** Every cleanup of the pass can go through. */
  predicate Unobstructed(e: Estate, group: string, c: Conditions) {
    e.netpol && !c.netpolRefused &&
    Members(e.objects.entities, group) * c.refused == {} &&
    PodMembers(e.objects.pods, group) * c.refusedPods == {}
  }

  /** Some entities and pods have lost the group's label; nothing else has changed. */
  ghost predicate PartlyUnlabelled(o: Objects, o': Objects, group: string) {
    && o.entities.Keys == o'.entities.Keys && o.pods.Keys == o'.pods.Keys
    && (forall n :: n in o.entities ==>
          o'.entities[n] == o.entities[n] ||
          o'.entities[n] == o.entities[n].(labels := o.entities[n].labels - {GroupKey(group)}))
    && (forall p :: p in o.pods ==> o'.pods[p] == o.pods[p] || o'.pods[p] == o.pods[p] - {GroupKey(group)})
  }

  ghost predicate LabelFree(o: Objects, group: string) {
    Members(o.entities, group) == {} && PodMembers(o.pods, group) == {}
  }

  /** One pass over the deleted group: the finalizer goes exactly when nothing obstructs the
      cleanups. The reconcile then runs on and creates the NetworkPolicy anew unless it still sees
      the old one. A pass that fails has still removed the policy if it got that far. */
  ghost predicate PassResult(e: Estate, group: string, c: Conditions, e': Estate) {
    if !e.finalizer then e' == e
    else if Unobstructed(e, group, c) then
      && !e'.finalizer && e'.netpol == !c.policySeen
      && LabelFree(e'.objects, group) && PartlyUnlabelled(e.objects, e'.objects, group)
    else
      && e'.finalizer && e'.netpol == (e.netpol && c.netpolRefused)
      && PartlyUnlabelled(e.objects, e'.objects, group)
      && e'.objects == (if !e.netpol || c.netpolRefused then e.objects
                        else Objects(EntitiesAfter(e.objects, group, c), PodsAfter(e.objects, group, c)))
  }

  class Deletion {
    const group: string
    var entities: map<string, Entity>
    var pods: map<string, Labels>
    var netpol: bool
    var finalizer: bool

    constructor (group: string, e: Estate)
      ensures this.group == group && St() == e
    {
      this.group := group;
      entities, pods, netpol, finalizer := e.objects.entities, e.objects.pods, e.netpol, e.finalizer;
    }

    function St(): Estate
      reads this
    {
      Estate(Objects(entities, pods), netpol, finalizer)
    }

    /** Fetch it, then delete it: a missing policy is an error. */
    method DoRemoveNetpol(refused: bool) returns (ok: bool)
      modifies this`netpol
      ensures ok == (old(netpol) && !refused) && netpol == (old(netpol) && !ok)
    {
      if !netpol || refused {
        return false;
      }
      netpol := false;
      return true;
    }

    method DoUnlabelEntities(refused: set<string>, order: Order) returns (ok: bool)
      requires Lists(order)
      modifies this`entities
      ensures ok <==> Members(old(entities), group) * refused == {}
      ensures entities == EntitiesWithout(old(entities), group, Before(order(Members(old(entities), group)), refused))
      ensures ok ==> entities == EntitiesWithout(old(entities), group, Members(old(entities), group))
    {
      var list := order(Members(entities, group));
      assert Controllers.IsListing(list, Members(entities, group));
      ghost var before := entities;
      ghost var done: set<string> := {};
      assert entities == EntitiesWithout(before, group, done);
      for k := 0 to |list|
        invariant done == (set j | 0 <= j < k :: list[j])
        invariant entities == EntitiesWithout(before, group, done)
        invariant forall j :: 0 <= j < k ==> list[j] !in refused
      {
        if list[k] in refused {
          assert list[k] in Members(before, group) * refused;
          BeforeExactly(list, refused, k);
          return false;
        }
        assert list[k] in Members(before, group);
        entities := entities[list[k] := entities[list[k]].(labels := Without(entities[list[k]].labels, group))];
        done := done + {list[k]};
      }
      assert done == Members(before, group) && done * refused == {};
      BeforeExactly(list, refused, |list|);
      return true;
    }

    method DoUnlabelPods(refused: set<string>, order: Order) returns (ok: bool)
      requires Lists(order)
      modifies this`pods
      ensures ok <==> PodMembers(old(pods), group) * refused == {}
      ensures pods == PodsWithout(old(pods), group, Before(order(PodMembers(old(pods), group)), refused))
      ensures ok ==> pods == PodsWithout(old(pods), group, PodMembers(old(pods), group))
    {
      var list := order(PodMembers(pods, group));
      assert Controllers.IsListing(list, PodMembers(pods, group));
      ghost var before := pods;
      ghost var done: set<string> := {};
      assert pods == PodsWithout(before, group, done);
      for k := 0 to |list|
        invariant done == (set j | 0 <= j < k :: list[j])
        invariant pods == PodsWithout(before, group, done)
        invariant forall j :: 0 <= j < k ==> list[j] !in refused
      {
        if list[k] in refused {
          assert list[k] in PodMembers(before, group) * refused;
          BeforeExactly(list, refused, k);
          return false;
        }
        assert list[k] in PodMembers(before, group);
        pods := pods[list[k] := Without(pods[list[k]], group)];
        done := done + {list[k]};
      }
      assert done == PodMembers(before, group) && done * refused == {};
      BeforeExactly(list, refused, |list|);
      return true;
    }

    method Run(cleanup: Cleanup, c: Conditions) returns (ok: bool)
      requires Lists(c.order)
      modifies this`entities, this`pods, this`netpol
      ensures match cleanup
        case RemoveNetpol =>
          ok == (old(netpol) && !c.netpolRefused) && netpol == (old(netpol) && !ok) &&
          entities == old(entities) && pods == old(pods)
        case UnlabelEntities =>
          (ok <==> Members(old(entities), group) * c.refused == {}) &&
          (ok ==> Members(entities, group) == {}) &&
          entities ==
            EntitiesWithout(old(entities), group, Before(c.order(Members(old(entities), group)), c.refused)) &&
          PartlyUnlabelled(Objects(old(entities), old(pods)), Objects(entities, pods), group) &&
          netpol == old(netpol) && pods == old(pods)
        case UnlabelPods =>
          (ok <==> PodMembers(old(pods), group) * c.refusedPods == {}) &&
          (ok ==> PodMembers(pods, group) == {}) &&
          pods == PodsWithout(old(pods), group, Before(c.order(PodMembers(old(pods), group)), c.refusedPods)) &&
          PartlyUnlabelled(Objects(old(entities), old(pods)), Objects(entities, pods), group) &&
          netpol == old(netpol) && entities == old(entities)
    {
      match cleanup {
        case RemoveNetpol => ok := DoRemoveNetpol(c.netpolRefused);
        case UnlabelEntities => ok := DoUnlabelEntities(c.refused, c.order);
        case UnlabelPods => ok := DoUnlabelPods(c.refusedPods, c.order);
      }
    }

    /** The deletion handler: run the cleanups in order, stop at the first error. */
    method RunAll(c: Conditions) returns (ok: bool)
      requires Lists(c.order)
      modifies this`entities, this`pods, this`netpol
      ensures ok <==> Unobstructed(old(St()), group, c)
      ensures netpol == (old(netpol) && c.netpolRefused)
      ensures PartlyUnlabelled(old(St()).objects, St().objects, group)
      ensures ok ==> LabelFree(St().objects, group)
      ensures !old(netpol) || c.netpolRefused ==> St() == old(St())
      ensures old(netpol) && !c.netpolRefused ==>
        entities == EntitiesAfter(old(St().objects), group, c) && pods == PodsAfter(old(St().objects), group, c)
    {
      ghost var start := St();
      for k := 0 to |CLEANUPS|
        invariant PartlyUnlabelled(start.objects, St().objects, group)
        invariant k == 0 ==> St() == start
        invariant k >= 1 ==> start.netpol && !c.netpolRefused && !netpol && pods.Keys == start.objects.pods.Keys
        invariant k <= 2 ==> pods == start.objects.pods
        invariant k == 1 ==> entities == start.objects.entities
        invariant k >= 2 ==> entities == EntitiesAfter(start.objects, group, c)
        invariant k >= 3 ==> pods == PodsAfter(start.objects, group, c)
        invariant k >= 2 ==> Members(start.objects.entities, group) * c.refused == {} && Members(entities, group) == {}
        invariant k >= 3 ==>
          PodMembers(start.objects.pods, group) * c.refusedPods == {} && PodMembers(pods, group) == {}
      {
        ok := Run(CLEANUPS[k], c);
        if !ok {
          return false;
        }
      }
      return true;
    }

    /** A reconcile of the group after it has been marked for deletion. */
    method Pass(c: Conditions)
      requires Lists(c.order)
      modifies this`entities, this`pods, this`netpol, this`finalizer
      ensures PassResult(old(St()), group, c, St())
    {
      if !finalizer {
        return;
      }
      var ok := RunAll(c);
      if !ok {
        return;
      }
      finalizer := false;
      // the finalizer step does not end the reconcile: the phase is Deleting, not Provisioned
      if !c.policySeen {
        netpol := true;
      }
    }
  }

  // ---------- any number of passes ----------

  datatype Round = Round(before: Estate, met: Conditions, after: Estate)

  /** Between passes others may change entities and pods as they like, group labels included; only
      this controller takes the finalizer off, and nobody else creates the policy. */
  ghost predicate Foreign(e: Estate, e': Estate) {
    e'.finalizer == e.finalizer && (e'.netpol ==> e.netpol)
  }

  ghost predicate Passed(rounds: seq<Round>, group: string, k: nat)
    requires k < |rounds|
  {
    PassResult(rounds[k].before, group, rounds[k].met, rounds[k].after)
  }

  ghost predicate Between(rounds: seq<Round>, k: nat)
    requires 0 < k < |rounds|
  {
    Foreign(rounds[k - 1].after, rounds[k].before)
  }

  ghost predicate Rounds(rounds: seq<Round>, group: string) {
    && |rounds| > 0
    && (forall k :: 0 <= k < |rounds| ==> Passed(rounds, group, k))
    && (forall k :: 0 < k < |rounds| ==> Between(rounds, k))
  }

  function Last(rounds: seq<Round>): Estate
    requires |rounds| > 0
  {
    rounds[|rounds| - 1].after
  }

  /** Nobody is given the group's label between pass `k - 1` and pass `k`. */
  ghost predicate NobodyJoins(rounds: seq<Round>, group: string, k: nat)
    requires 0 < k < |rounds|
  {
    var o, o' := rounds[k - 1].after.objects, rounds[k].before.objects;
    Members(o'.entities, group) <= Members(o.entities, group) && PodMembers(o'.pods, group) <= PodMembers(o.pods, group)
  }

  lemma PassFinalizer(r: Round, group: string)
    requires PassResult(r.before, group, r.met, r.after)
    ensures r.after.finalizer ==> r.before.finalizer
    ensures r.before.finalizer && !r.after.finalizer ==>
      LabelFree(r.after.objects, group) && r.after.netpol == !r.met.policySeen
    ensures !r.before.finalizer ==> r.after == r.before
  {
  }

  /** A pass that finds the policy gone changes nothing. */
  lemma PassStuck(r: Round, group: string)
    requires PassResult(r.before, group, r.met, r.after) && r.before.finalizer && !r.before.netpol
    ensures r.after == r.before
  {
  }

  lemma {:induction false} GoesOnce(rounds: seq<Round>, group: string, n: nat) returns (k: nat)
    requires Rounds(rounds, group) && rounds[0].before.finalizer && n < |rounds| && !rounds[n].after.finalizer
    ensures k <= n && rounds[k].before.finalizer && !rounds[k].after.finalizer
    ensures forall j :: k <= j <= n ==> !rounds[j].after.finalizer
  {
    assert Passed(rounds, group, n);
    PassFinalizer(rounds[n], group);
    if rounds[n].before.finalizer {
      k := n;
    } else {
      assert Between(rounds, n);
      k := GoesOnce(rounds, group, n - 1);
    }
  }

  lemma {:induction false} WasOn(rounds: seq<Round>, group: string, k: nat, j: nat)
    requires Rounds(rounds, group) && j <= k < |rounds| && rounds[k].before.finalizer
    ensures j < k ==> rounds[j].after.finalizer
    decreases k
  {
    if j < k {
      assert Between(rounds, k) && Passed(rounds, group, k - 1);
      PassFinalizer(rounds[k - 1], group);
      WasOn(rounds, group, k - 1, j);
    }
  }

  lemma {:induction false} StaysFree(rounds: seq<Round>, group: string, k: nat, n: nat)
    requires Rounds(rounds, group) && k <= n < |rounds|
    requires !rounds[k].after.finalizer && LabelFree(rounds[k].after.objects, group)
    requires forall j :: k < j < |rounds| ==> NobodyJoins(rounds, group, j)
    ensures !rounds[n].after.finalizer && LabelFree(rounds[n].after.objects, group)
  {
    if k < n {
      StaysFree(rounds, group, k, n - 1);
      assert Passed(rounds, group, n) && Between(rounds, n) && NobodyJoins(rounds, group, n);
      PassFinalizer(rounds[n], group);
    }
  }

  /** Whoever was labelled between the passes: the finalizer comes off in one pass, all passes before
      leave it on, and when it goes no entity or pod carries the group's label. That stays so if
      nobody is labelled from outside afterwards. */
  lemma DeletionSafe(rounds: seq<Round>, group: string) returns (k: nat)
    requires Rounds(rounds, group) && rounds[0].before.finalizer && !Last(rounds).finalizer
    ensures k < |rounds| && rounds[k].before.finalizer && !rounds[k].after.finalizer
    ensures forall j :: 0 <= j < k ==> rounds[j].after.finalizer
    ensures LabelFree(rounds[k].after.objects, group) && rounds[k].after.netpol == !rounds[k].met.policySeen
    ensures (forall j :: k < j < |rounds| ==> NobodyJoins(rounds, group, j)) ==> LabelFree(Last(rounds).objects, group)
  {
    k := GoesOnce(rounds, group, |rounds| - 1);
    assert Passed(rounds, group, k);
    PassFinalizer(rounds[k], group);
    forall j | 0 <= j < k ensures rounds[j].after.finalizer {
      WasOn(rounds, group, k, j);
    }
    if forall j :: k < j < |rounds| ==> NobodyJoins(rounds, group, j) {
      StaysFree(rounds, group, k, |rounds| - 1);
    }
  }

  lemma PartlyTransitive(a: Objects, b: Objects, c: Objects, group: string)
    requires PartlyUnlabelled(a, b, group) && PartlyUnlabelled(b, c, group)
    ensures PartlyUnlabelled(a, c, group)
  {
  }

  lemma PassPartly(r: Round, group: string)
    requires PassResult(r.before, group, r.met, r.after)
    ensures PartlyUnlabelled(r.before.objects, r.after.objects, group)
  {
  }

  /** The passes take away the group's label and nothing else: left to themselves, over any number of
      them every other label, and everything else, stays. */
  lemma {:induction false} OnlyTheLabelGoes(rounds: seq<Round>, group: string, n: nat)
    requires Rounds(rounds, group) && n < |rounds|
    requires forall k :: 0 < k < |rounds| ==> rounds[k].before.objects == rounds[k - 1].after.objects
    ensures PartlyUnlabelled(rounds[0].before.objects, rounds[n].after.objects, group)
  {
    assert Passed(rounds, group, n);
    PassPartly(rounds[n], group);
    if n > 0 {
      OnlyTheLabelGoes(rounds, group, n - 1);
      PartlyTransitive(rounds[0].before.objects, rounds[n].before.objects, rounds[n].after.objects, group);
    }
  }

  /** From a pass on that finds the policy gone, no pass changes anything. */
  lemma {:induction false} StuckWithoutPolicy(rounds: seq<Round>, group: string, k: nat, n: nat)
    requires Rounds(rounds, group) && k <= n < |rounds|
    requires rounds[k].before.finalizer && !rounds[k].before.netpol
    ensures rounds[n].after == rounds[n].before && rounds[n].after.finalizer && !rounds[n].after.netpol
  {
    if k < n {
      StuckWithoutPolicy(rounds, group, k, n - 1);
      assert Between(rounds, n);
    }
    assert Passed(rounds, group, n);
    PassStuck(rounds[n], group);
  }

  /** A pass that may not remove the policy changes nothing. */
  lemma PassRefused(r: Round, group: string)
    requires PassResult(r.before, group, r.met, r.after) && r.met.netpolRefused
    ensures r.after == r.before
  {
  }

  lemma {:induction false} RefusedSoFar(rounds: seq<Round>, group: string, k: nat)
    requires Rounds(rounds, group) && rounds[0].before.finalizer && k < |rounds|
    requires forall j :: 0 <= j < k ==> rounds[j].met.netpolRefused
    ensures rounds[k].before.finalizer
  {
    if k > 0 {
      RefusedSoFar(rounds, group, k - 1);
      assert Passed(rounds, group, k - 1) && Between(rounds, k);
      PassRefused(rounds[k - 1], group);
    }
  }

  lemma {:induction false} GoneStaysGone(rounds: seq<Round>, group: string, k: nat, n: nat)
    requires Rounds(rounds, group) && k <= n < |rounds| && !rounds[k].after.finalizer
    ensures !rounds[n].after.finalizer
  {
    if k < n {
      GoneStaysGone(rounds, group, k, n - 1);
      assert Between(rounds, n) && Passed(rounds, group, n);
      PassFinalizer(rounds[n], group);
    }
  }

  /** After a pass that was free to remove the policy and did not take the finalizer off, the policy is gone. */
  lemma PassSpent(r: Round, group: string)
    requires PassResult(r.before, group, r.met, r.after) && r.before.finalizer && !r.met.netpolRefused
    ensures !r.after.finalizer <==> Unobstructed(r.before, group, r.met)
    ensures r.after.finalizer ==> !r.after.netpol
  {
  }

  /** There is one chance: if the first pass whose removal of the policy is not refused is obstructed,
      the finalizer stays on for ever. Otherwise it comes off in that very pass. */
  lemma OneChance(rounds: seq<Round>, group: string, k: nat)
    requires Rounds(rounds, group) && rounds[0].before.finalizer && k < |rounds|
    requires !rounds[k].met.netpolRefused && forall j :: 0 <= j < k ==> rounds[j].met.netpolRefused
    ensures !Last(rounds).finalizer <==> Unobstructed(rounds[k].before, group, rounds[k].met)
  {
    RefusedSoFar(rounds, group, k);
    assert Passed(rounds, group, k);
    PassSpent(rounds[k], group);
    var last := |rounds| - 1;
    if !rounds[k].after.finalizer {
      GoneStaysGone(rounds, group, k, last);
    } else if k < last {
      assert Between(rounds, k + 1);
      StuckWithoutPolicy(rounds, group, k + 1, last);
    }
  }
}
