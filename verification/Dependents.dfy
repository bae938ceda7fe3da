/** The dependent rules of an annotated resource (internal/controllers/common.go).

    `ManageDependents` is proved to carry out a plan of API writes, up to the write at which the API server starts
    to fail; what the source promises is then proved about plans. */
module Dependents {
  import opened Conventions
  import opened Options

  /** A masquerading rule that carries the label of the resource. */
  datatype Dependent = Dependent(uid: nat, from: string, to: string, deleting: bool)

  /** The annotated resource; `annotatedTo` and `legacyTo` are its target annotations, empty if absent. */
  datatype Resource = Resource(deleting: bool, finalizers: set<string>, annotatedTo: string, legacyTo: string)
  {
    function Target(): string {
      if annotatedTo == "" then legacyTo else annotatedTo
    }
  }

  /** What the API server stores. */
  datatype Store = Store(rules: map<nat, Dependent>, owner: Resource, nextUid: nat)

  datatype Write = AddFinalizer | Create(from: string, to: string) | Delete(uid: nat) | RemoveFinalizer

  function Apply(s: Store, w: Write): Store {
    match w
    case AddFinalizer => s.(owner := s.owner.(finalizers := s.owner.finalizers + {FINALIZER}))
    case RemoveFinalizer => s.(owner := s.owner.(finalizers := s.owner.finalizers - {FINALIZER}))
    case Create(from, to) =>
      s.(rules := s.rules[s.nextUid := Dependent(s.nextUid, from, to, false)], nextUid := s.nextUid + 1)
    case Delete(uid) => if uid in s.rules then s.(rules := s.rules[uid := s.rules[uid].(deleting := true)]) else s
  }

  function ApplyAll(s: Store, writes: seq<Write>): Store {
    if writes == [] then s else Apply(ApplyAll(s, writes[..|writes| - 1]), writes[|writes| - 1])
  }

  /** The list is an enumeration of the stored rules. */
  ghost predicate Lists(s: Store, listing: seq<Dependent>) {
    && (forall uid | uid in s.rules :: s.rules[uid].uid == uid && uid < s.nextUid)
    && (forall i | 0 <= i < |listing| :: listing[i].uid in s.rules && s.rules[listing[i].uid] == listing[i])
    && (forall i, j | 0 <= i < j < |listing| :: listing[i].uid != listing[j].uid)
    && (forall uid | uid in s.rules :: s.rules[uid] in listing)
  }

  ghost predicate DistinctHosts(hosts: seq<string>) {
    forall i, j | 0 <= i < j < |hosts| :: hosts[i] != hosts[j]
  }

  /* ---- the plan ---- */

  /** The first listed rule with this source and target. */
  function FirstMatch(listing: seq<Dependent>, from: string, to: string): Option<Dependent> {
    if listing == [] then None
    else if listing[0].from == from && listing[0].to == to then Some(listing[0])
    else FirstMatch(listing[1..], from, to)
  }

  function Creates(listing: seq<Dependent>, hosts: seq<string>, to: string): seq<Write> {
    if hosts == [] then []
    else
      var from := hosts[|hosts| - 1];
      Creates(listing, hosts[..|hosts| - 1], to)
      + if FirstMatch(listing, from, to).None? then [Create(from, to)] else []
  }

  /** The identifiers of the listed rules that stay. */
  function Kept(listing: seq<Dependent>, hosts: seq<string>, to: string): set<nat> {
    if hosts == [] then {}
    else
      var first := FirstMatch(listing, hosts[|hosts| - 1], to);
      Kept(listing, hosts[..|hosts| - 1], to) + if first.Some? then {first.value.uid} else {}
  }

  function Deletes(listing: seq<Dependent>, kept: set<nat>): seq<Write> {
    if listing == [] then []
    else
      var rule := listing[|listing| - 1];
      Deletes(listing[..|listing| - 1], kept)
      + if rule.uid !in kept && !rule.deleting then [Delete(rule.uid)] else []
  }

  /** The number of listed rules that do not stay. */
  function Dropped(listing: seq<Dependent>, kept: set<nat>): nat {
    if listing == [] then 0
    else Dropped(listing[..|listing| - 1], kept) + if listing[|listing| - 1].uid !in kept then 1 else 0
  }

  /** The hosts and the target that count for the resource: none if it is being deleted or has no target. */
  function WantedHosts(owner: Resource, hosts: seq<string>): seq<string> {
    if owner.deleting || owner.Target() == "" then [] else hosts
  }

  function Preparation(owner: Resource): seq<Write> {
    if !owner.deleting && owner.Target() != "" && FINALIZER !in owner.finalizers then [AddFinalizer] else []
  }

  function NumDependents(owner: Resource, listing: seq<Dependent>, hosts: seq<string>): int {
    var wanted := WantedHosts(owner, hosts);
    |listing| + |Creates(listing, wanted, owner.Target())| - Dropped(listing, Kept(listing, wanted, owner.Target()))
  }

  function Conclusion(owner: Resource, listing: seq<Dependent>, hosts: seq<string>): seq<Write> {
    var finalized := FINALIZER in owner.finalizers || Preparation(owner) != [];
    if NumDependents(owner, listing, hosts) == 0 && finalized then [RemoveFinalizer] else []
  }

  /** The API writes of an undisturbed run. */
  function Plan(owner: Resource, listing: seq<Dependent>, hosts: seq<string>): seq<Write> {
    var wanted, to := WantedHosts(owner, hosts), owner.Target();
    Preparation(owner) + Creates(listing, wanted, to) + Deletes(listing, Kept(listing, wanted, to))
    + Conclusion(owner, listing, hosts)
  }

  /* ---- the run ---- */

  function Min(a: nat, b: nat): nat {
    if a < b then a else b
  }

  datatype Snapshot = Snapshot(store: Store, log: seq<Write>, budget: nat)

  /** From `a` to `b`, the plan was carried out as far as the API server did not refuse; `ok` says whether this
      was to the end. */
  ghost predicate Carried(a: Snapshot, b: Snapshot, plan: seq<Write>, ok: bool) {
    var n := Min(a.budget, |plan|);
    && b.log == a.log + plan[..n]
    && b.store == ApplyAll(a.store, plan[..n])
    && b.budget == a.budget - n
    && (ok <==> n == |plan|)
  }

  lemma {:induction false} ApplyAllAppend(s: Store, p: seq<Write>, q: seq<Write>)
    ensures ApplyAll(s, p + q) == ApplyAll(ApplyAll(s, p), q)
    decreases |q|
  {
    if q == [] {
      assert p + q == p;
    } else {
      ApplyAllAppend(s, p, q[..|q| - 1]);
      assert (p + q)[..|p + q| - 1] == p + q[..|q| - 1];
    }
  }

  lemma CarriedOn(a: Snapshot, b: Snapshot, c: Snapshot, p: seq<Write>, q: seq<Write>, ok: bool)
    requires Carried(a, b, p, true) && Carried(b, c, q, ok)
    ensures Carried(a, c, p + q, ok)
  {
    var n := Min(b.budget, |q|);
    assert p[..|p|] == p;
    assert (p + q)[..|p| + n] == p + q[..n];
    ApplyAllAppend(a.store, p, q[..n]);
  }

  lemma CarriedNoFurther(a: Snapshot, b: Snapshot, p: seq<Write>, plan: seq<Write>)
    requires Carried(a, b, p, false) && p <= plan
    ensures Carried(a, b, plan, false)
  {
    assert plan[..a.budget] == p[..a.budget];
  }

  lemma CarriedNothing(a: Snapshot)
    ensures Carried(a, a, [], true)
  {
  }

  lemma CarriedOne(a: Snapshot, b: Snapshot, w: Write, ok: bool)
    requires if ok then a.budget > 0 && b == Snapshot(Apply(a.store, w), a.log + [w], a.budget - 1)
             else a.budget == 0 && b == a
    ensures Carried(a, b, [w], ok)
  {
    if ok {
      assert [w][..0] == [];
    }
  }

  /** The API server as seen by one run: it carries out the next `budget` writes and refuses all later ones. */
  class Client {
    var rules: map<nat, Dependent>
    var owner: Resource
    var nextUid: nat
    var budget: nat
    ghost var log: seq<Write>

    ghost function Now(): Snapshot
      reads this
    {
      Snapshot(Store(rules, owner, nextUid), log, budget)
    }

    method UpdateOwner(finalized: bool) returns (ok: bool)
      modifies this
      ensures Carried(old(Now()), Now(), [if finalized then AddFinalizer else RemoveFinalizer], ok)
    {
      ok := budget > 0;
      if ok {
        budget := budget - 1;
        log := log + [if finalized then AddFinalizer else RemoveFinalizer];
        owner := owner.(finalizers :=
          if finalized then owner.finalizers + {FINALIZER} else owner.finalizers - {FINALIZER});
      }
      CarriedOne(old(Now()), Now(), if finalized then AddFinalizer else RemoveFinalizer, ok);
    }

    method CreateRule(from: string, to: string) returns (ok: bool, uid: nat)
      modifies this
      ensures Carried(old(Now()), Now(), [Create(from, to)], ok)
      ensures uid == old(nextUid) && nextUid >= uid
    {
      ok := budget > 0;
      uid := nextUid;
      if ok {
        budget := budget - 1;
        log := log + [Create(from, to)];
        rules := rules[nextUid := Dependent(nextUid, from, to, false)];
        nextUid := nextUid + 1;
      }
      CarriedOne(old(Now()), Now(), Create(from, to), ok);
    }

    method DeleteRule(uid: nat) returns (ok: bool)
      modifies this
      ensures Carried(old(Now()), Now(), [Delete(uid)], ok)
    {
      ok := budget > 0;
      if ok {
        budget := budget - 1;
        log := log + [Delete(uid)];
        if uid in rules {
          rules := rules[uid := rules[uid].(deleting := true)];
        }
      }
      CarriedOne(old(Now()), Now(), Delete(uid), ok);
    }
  }

  lemma {:induction false} CreatesPrefix(listing: seq<Dependent>, hosts: seq<string>, to: string, i: nat)
    requires i <= |hosts|
    ensures Creates(listing, hosts[..i], to) <= Creates(listing, hosts, to)
    decreases |hosts|
  {
    if i < |hosts| {
      var init := hosts[..|hosts| - 1];
      CreatesPrefix(listing, init, to, i);
      assert init[..i] == hosts[..i];
    } else {
      assert hosts[..i] == hosts;
    }
  }

  lemma {:induction false} DeletesPrefix(listing: seq<Dependent>, kept: set<nat>, i: nat)
    requires i <= |listing|
    ensures Deletes(listing[..i], kept) <= Deletes(listing, kept)
    decreases |listing|
  {
    if i < |listing| {
      var init := listing[..|listing| - 1];
      DeletesPrefix(init, kept, i);
      assert init[..i] == listing[..i];
    } else {
      assert listing[..i] == listing;
    }
  }

  method FindRule(listing: seq<Dependent>, from: string, to: string) returns (found: Option<Dependent>)
    ensures found == FirstMatch(listing, from, to)
  {
    var i := 0;
    while i < |listing|
      invariant 0 <= i <= |listing|
      invariant FirstMatch(listing[i..], from, to) == FirstMatch(listing, from, to)
    {
      if listing[i].from == from && listing[i].to == to {
        return Some(listing[i]);
      }
      i := i + 1;
    }
    return None;
  }

  /** Finds or creates a rule for every host; `kept` are the identifiers of these rules. */
  method CreateMissing(client: Client, listing: seq<Dependent>, hosts: seq<string>, to: string, numListed: int)
    returns (ok: bool, kept: seq<nat>, numDependents: int)
    modifies client
    ensures Carried(old(client.Now()), client.Now(), Creates(listing, hosts, to), ok)
    ensures ok ==> numDependents == numListed + |Creates(listing, hosts, to)|
    ensures ok ==> forall uid | uid < old(client.nextUid) :: uid in kept <==> uid in Kept(listing, hosts, to)
  {
    ghost var start := client.Now();
    CarriedNothing(start);
    kept, numDependents := [], numListed;
    var i := 0;
    while i < |hosts|
      invariant 0 <= i <= |hosts|
      invariant Carried(start, client.Now(), Creates(listing, hosts[..i], to), true)
      invariant numDependents == numListed + |Creates(listing, hosts[..i], to)|
      invariant client.nextUid >= old(client.nextUid)
      invariant forall uid | uid < old(client.nextUid) :: uid in kept <==> uid in Kept(listing, hosts[..i], to)
    {
      assert hosts[..i + 1][..i] == hosts[..i];
      CreatesPrefix(listing, hosts, to, i + 1);
      var found := FindRule(listing, hosts[i], to);
      if found.Some? {
        assert Creates(listing, hosts[..i + 1], to) == Creates(listing, hosts[..i], to);
        kept := kept + [found.value.uid];
      } else {
        ghost var before := client.Now();
        var created, uid := client.CreateRule(hosts[i], to);
        CarriedOn(start, before, client.Now(), Creates(listing, hosts[..i], to), [Create(hosts[i], to)], created);
        if !created {
          CarriedNoFurther(start, client.Now(), Creates(listing, hosts[..i + 1], to), Creates(listing, hosts, to));
          return false, kept, numDependents;
        }
        numDependents := numDependents + 1;
        kept := kept + [uid];
      }
      i := i + 1;
    }
    assert hosts[..i] == hosts;
    ok := true;
  }

  /** Deletes the listed rules that do not stay, unless they are being deleted already, and counts them off. */
  method DeleteOthers(client: Client, listing: seq<Dependent>, kept: seq<nat>, ghost keptUids: set<nat>, numBefore: int)
    returns (ok: bool, numDependents: int)
    requires forall i | 0 <= i < |listing| :: listing[i].uid in kept <==> listing[i].uid in keptUids
    modifies client
    ensures Carried(old(client.Now()), client.Now(), Deletes(listing, keptUids), ok)
    ensures ok ==> numDependents == numBefore - Dropped(listing, keptUids)
  {
    ghost var start := client.Now();
    CarriedNothing(start);
    numDependents := numBefore;
    var i := 0;
    while i < |listing|
      invariant 0 <= i <= |listing|
      invariant Carried(start, client.Now(), Deletes(listing[..i], keptUids), true)
      invariant numDependents == numBefore - Dropped(listing[..i], keptUids)
    {
      assert listing[..i + 1][..i] == listing[..i];
      DeletesPrefix(listing, keptUids, i + 1);
      if listing[i].uid !in kept {
        if !listing[i].deleting {
          ghost var before := client.Now();
          var deleted := client.DeleteRule(listing[i].uid);
          CarriedOn(start, before, client.Now(), Deletes(listing[..i], keptUids), [Delete(listing[i].uid)], deleted);
          if !deleted {
            CarriedNoFurther(start, client.Now(), Deletes(listing[..i + 1], keptUids), Deletes(listing, keptUids));
            return false, numDependents;
          }
        }
        numDependents := numDependents - 1;
      }
      if listing[i].uid in kept || listing[i].deleting {
        assert Deletes(listing[..i + 1], keptUids) == Deletes(listing[..i], keptUids);
      }
      i := i + 1;
    }
    assert listing[..i] == listing;
    ok := true;
  }

  /** One run of `manageDependents`: it carries out its plan up to the write that fails. */
  method ManageDependents(client: Client, listing: seq<Dependent>, hosts: seq<string>)
    returns (ok: bool, numDependents: int)
    requires Lists(client.Now().store, listing)
    modifies client
    ensures Carried(old(client.Now()), client.Now(), Plan(old(client.owner), listing, hosts), ok)
    ensures ok ==> numDependents == NumDependents(old(client.owner), listing, hosts)
  {
    ghost var start, owner := client.Now(), client.owner;
    ghost var wanted, target := WantedHosts(owner, hosts), owner.Target();
    ghost var plan := Plan(owner, listing, hosts);
    ghost var creates := Creates(listing, wanted, target);
    ghost var keptUids := Kept(listing, wanted, target);
    ghost var deletes := Deletes(listing, keptUids);
    var finalized := FINALIZER in client.owner.finalizers;
    var kept: seq<nat> := [];
    CarriedNothing(start);
    numDependents := |listing|;
    if !client.owner.deleting {
      var to := client.owner.Target();
      if to != "" {
        if !finalized {
          ok := client.UpdateOwner(true);
          if !ok {
            CarriedNoFurther(start, client.Now(), [AddFinalizer], plan);
            return;
          }
          finalized := true;
        }
        ghost var before := client.Now();
        ok, kept, numDependents := CreateMissing(client, listing, hosts, to, numDependents);
        CarriedOn(start, before, client.Now(), Preparation(owner), creates, ok);
        if !ok {
          CarriedNoFurther(start, client.Now(), Preparation(owner) + creates, plan);
          return;
        }
      }
    }
    assert Carried(start, client.Now(), Preparation(owner) + creates, true);
    ghost var before := client.Now();
    ok, numDependents := DeleteOthers(client, listing, kept, keptUids, numDependents);
    CarriedOn(start, before, client.Now(), Preparation(owner) + creates, deletes, ok);
    if !ok {
      CarriedNoFurther(start, client.Now(), Preparation(owner) + creates + deletes, plan);
      return;
    }
    if numDependents == 0 && finalized {
      before := client.Now();
      ok := client.UpdateOwner(false);
      CarriedOn(start, before, client.Now(), Preparation(owner) + creates + deletes, [RemoveFinalizer], ok);
    } else {
      assert plan == Preparation(owner) + creates + deletes;
    }
  }
}
