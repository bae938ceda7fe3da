/** What the plans for dependent rules achieve, also when a run stops early (internal/controllers/common.go). */
module DependentTheorems {
  import opened Conventions
  import opened Options
  import opened Dependents

  /* ---- the listed rules ---- */

  lemma {:induction false} FirstMatchIsFirst(listing: seq<Dependent>, from: string, to: string)
    ensures match FirstMatch(listing, from, to)
            case None => forall d | d in listing :: !(d.from == from && d.to == to)
            case Some(d) =>
              && d.from == from && d.to == to
              && exists i :: 0 <= i < |listing| && listing[i] == d
                             && forall j | 0 <= j < i :: !(listing[j].from == from && listing[j].to == to)
  {
    if listing != [] {
      if listing[0].from == from && listing[0].to == to {
        assert listing[0] == FirstMatch(listing, from, to).value;
      } else {
        FirstMatchIsFirst(listing[1..], from, to);
        assert listing == [listing[0]] + listing[1..];
        if FirstMatch(listing, from, to).Some? {
          var d := FirstMatch(listing, from, to).value;
          var i :| 0 <= i < |listing[1..]| && listing[1..][i] == d
                   && forall j | 0 <= j < i :: !(listing[1..][j].from == from && listing[1..][j].to == to);
          assert listing[i + 1] == d;
          forall j | 0 <= j < i + 1 ensures !(listing[j].from == from && listing[j].to == to) {
            if j > 0 { assert listing[j] == listing[1..][j - 1]; }
          }
        }
      }
    }
  }

  /** A match that precedes every other match is the first one. */
  lemma FirstMatchAt(listing: seq<Dependent>, from: string, to: string, i: nat)
    requires i < |listing| && listing[i].from == from && listing[i].to == to
    requires forall j | 0 <= j < i :: !(listing[j].from == from && listing[j].to == to)
    ensures FirstMatch(listing, from, to) == Some(listing[i])
  {
    FirstMatchIsFirst(listing, from, to);
    assert listing[i] in listing;
  }

  lemma {:induction false} KeptMembers(listing: seq<Dependent>, hosts: seq<string>, to: string, uid: nat)
    ensures uid in Kept(listing, hosts, to)
            <==> exists h :: h in hosts && FirstMatch(listing, h, to).Some?
                             && FirstMatch(listing, h, to).value.uid == uid
  {
    if hosts != [] {
      var init, last := hosts[..|hosts| - 1], hosts[|hosts| - 1];
      KeptMembers(listing, init, to, uid);
      assert hosts == init + [last];
      assert last in hosts && forall h | h in init :: h in hosts;
    }
  }

  lemma {:induction false} CreatesMembers(listing: seq<Dependent>, hosts: seq<string>, to: string, w: Write)
    ensures w in Creates(listing, hosts, to)
            <==> w.Create? && w.to == to && w.from in hosts && FirstMatch(listing, w.from, to).None?
  {
    if hosts != [] {
      var init, last := hosts[..|hosts| - 1], hosts[|hosts| - 1];
      CreatesMembers(listing, init, to, w);
      assert hosts == init + [last];
    }
  }

  lemma {:induction false} DeletesMembers(listing: seq<Dependent>, kept: set<nat>, w: Write)
    ensures w in Deletes(listing, kept)
            <==> w.Delete? && w.uid !in kept && exists d :: d in listing && d.uid == w.uid && !d.deleting
  {
    if listing != [] {
      var init, last := listing[..|listing| - 1], listing[|listing| - 1];
      DeletesMembers(init, kept, w);
      assert listing == init + [last];
    }
  }

  /* ---- counting ---- */

  ghost function Uids(listing: seq<Dependent>): set<nat> {
    set d | d in listing :: d.uid
  }

  ghost predicate DistinctUids(listing: seq<Dependent>) {
    forall i, j | 0 <= i < j < |listing| :: listing[i].uid != listing[j].uid
  }

  lemma UidsOfLast(listing: seq<Dependent>)
    requires DistinctUids(listing) && listing != []
    ensures var init, last := listing[..|listing| - 1], listing[|listing| - 1];
            Uids(listing) == Uids(init) + {last.uid} && last.uid !in Uids(init)
  {
    var init, last := listing[..|listing| - 1], listing[|listing| - 1];
    assert listing == init + [last];
    forall d | d in init ensures d.uid != last.uid {
      var i :| 0 <= i < |init| && init[i] == d;
      assert listing[i].uid != listing[|listing| - 1].uid;
    }
  }

  lemma {:induction false} StayingCount(listing: seq<Dependent>, kept: set<nat>)
    requires DistinctUids(listing)
    ensures |listing| - Dropped(listing, kept) == |kept * Uids(listing)|
  {
    if listing == [] {
      assert kept * Uids(listing) == {};
    } else {
      hide Uids;
      var init, last := listing[..|listing| - 1], listing[|listing| - 1];
      StayingCount(init, kept);
      UidsOfLast(listing);
      if last.uid in kept {
        assert kept * Uids(listing) == kept * Uids(init) + {last.uid};
      } else {
        assert kept * Uids(listing) == kept * Uids(init);
      }
    }
  }

  lemma {:induction false} KeptCount(listing: seq<Dependent>, hosts: seq<string>, to: string)
    requires DistinctHosts(hosts) && DistinctUids(listing)
    ensures |Kept(listing, hosts, to)| + |Creates(listing, hosts, to)| == |hosts|
  {
    if hosts != [] {
      var init, last := hosts[..|hosts| - 1], hosts[|hosts| - 1];
      KeptCount(listing, init, to);
      var found := FirstMatch(listing, last, to);
      if found.Some? {
        KeptMembers(listing, init, to, found.value.uid);
        forall h | h in init && FirstMatch(listing, h, to).Some?
          ensures FirstMatch(listing, h, to).value.uid != found.value.uid
        {
          var i :| 0 <= i < |init| && init[i] == h;
          assert hosts[i] != hosts[|hosts| - 1];
          MatchesDiffer(listing, h, last, to);
        }
      }
    }
  }

  lemma MatchesDiffer(listing: seq<Dependent>, h: string, g: string, to: string)
    requires DistinctUids(listing) && h != g
    requires FirstMatch(listing, h, to).Some? && FirstMatch(listing, g, to).Some?
    ensures FirstMatch(listing, h, to).value.uid != FirstMatch(listing, g, to).value.uid
  {
    FirstMatchIsFirst(listing, h, to);
    FirstMatchIsFirst(listing, g, to);
    var i :| 0 <= i < |listing| && listing[i] == FirstMatch(listing, h, to).value;
    var j :| 0 <= j < |listing| && listing[j] == FirstMatch(listing, g, to).value;
    assert i < j || j < i;
  }

  lemma SameUidSameRule(listing: seq<Dependent>, d: Dependent, e: Dependent)
    requires DistinctUids(listing) && d in listing && e in listing && d.uid == e.uid
    ensures d == e
  {
    var i :| 0 <= i < |listing| && listing[i] == d;
    var j :| 0 <= j < |listing| && listing[j] == e;
    assert i == j;
  }

  lemma KeptAreListed(listing: seq<Dependent>, hosts: seq<string>, to: string)
    ensures Kept(listing, hosts, to) <= Uids(listing)
  {
    forall uid | uid in Kept(listing, hosts, to) ensures uid in Uids(listing) {
      KeptMembers(listing, hosts, to, uid);
      var h :| h in hosts && FirstMatch(listing, h, to).Some? && FirstMatch(listing, h, to).value.uid == uid;
      FirstMatchIsFirst(listing, h, to);
    }
  }

  /** The number of dependents that a run ends with is the number of wanted hosts; in particular, it is zero
      for a resource that is being deleted. */
  lemma CountIsExact(owner: Resource, listing: seq<Dependent>, hosts: seq<string>)
    requires DistinctHosts(hosts) && DistinctUids(listing)
    ensures NumDependents(owner, listing, hosts) == |WantedHosts(owner, hosts)|
  {
    var wanted, to := WantedHosts(owner, hosts), owner.Target();
    KeptCount(listing, wanted, to);
    KeptAreListed(listing, wanted, to);
    StayingCount(listing, Kept(listing, wanted, to));
    assert Kept(listing, wanted, to) * Uids(listing) == Kept(listing, wanted, to);
  }

  /* ---- the effect of writes ---- */

  /** Rules of the store before are only marked for deletion; new rules stem from create calls. */
  ghost predicate Effect(s: Store, writes: seq<Write>, s': Store) {
    && s.nextUid <= s'.nextUid
    && s'.owner == s.owner.(finalizers := s'.owner.finalizers)
    && (forall uid | uid in s.rules ::
          uid in s'.rules && s'.rules[uid] == s.rules[uid].(deleting := s.rules[uid].deleting || Delete(uid) in writes))
    && (forall uid | uid in s'.rules && uid !in s.rules ::
          s.nextUid <= uid < s'.nextUid && s'.rules[uid].uid == uid && !s'.rules[uid].deleting
          && Create(s'.rules[uid].from, s'.rules[uid].to) in writes)
    && (forall from, to | Create(from, to) in writes :: Created(s, s', from, to))
  }

  ghost predicate Created(s: Store, s': Store, from: string, to: string) {
    exists uid :: uid in s'.rules && uid !in s.rules && s'.rules[uid].from == from && s'.rules[uid].to == to
  }

  ghost predicate StoreOk(s: Store) {
    forall uid | uid in s.rules :: s.rules[uid].uid == uid && uid < s.nextUid
  }

  ghost predicate OldDeletesOnly(s: Store, writes: seq<Write>) {
    forall uid | Delete(uid) in writes :: uid in s.rules
  }

  lemma {:induction false} EffectOf(s: Store, writes: seq<Write>)
    requires StoreOk(s) && OldDeletesOnly(s, writes)
    ensures Effect(s, writes, ApplyAll(s, writes))
    decreases |writes|
  {
    if writes != [] {
      var init, last := writes[..|writes| - 1], writes[|writes| - 1];
      assert writes == init + [last];
      EffectOf(s, init);
      EffectOfOne(s, init, last);
    }
  }

  lemma EffectOfOne(s: Store, init: seq<Write>, w: Write)
    requires StoreOk(s) && Effect(s, init, ApplyAll(s, init)) && (w.Delete? ==> w.uid in s.rules)
    ensures Effect(s, init + [w], Apply(ApplyAll(s, init), w))
  {
    hide Created, ApplyAll;
    var s1 := ApplyAll(s, init);
    forall from, to | Create(from, to) in init + [w] ensures Created(s, Apply(s1, w), from, to) {
      StillCreated(s, s1, init, w, from, to);
    }
  }

  lemma StillCreated(s: Store, s1: Store, init: seq<Write>, w: Write, from: string, to: string)
    requires StoreOk(s) && Effect(s, init, s1) && (Create(from, to) in init || w == Create(from, to))
    ensures Created(s, Apply(s1, w), from, to)
  {
    var s2 := Apply(s1, w);
    if Create(from, to) in init {
      assert Created(s, s1, from, to);
      var uid :| uid in s1.rules && uid !in s.rules && s1.rules[uid].from == from && s1.rules[uid].to == to;
      assert uid in s2.rules;
    } else {
      assert s1.nextUid in s2.rules;
    }
  }

  ghost predicate CreatesDiffer(writes: seq<Write>) {
    forall i, j | 0 <= i < j < |writes| :: writes[i].Create? ==> writes[i] != writes[j]
  }

  ghost predicate NewTwins(s: Store, s': Store, uid1: nat, uid2: nat) {
    && uid1 in s'.rules && uid2 in s'.rules && uid1 !in s.rules && uid2 !in s.rules
    && s'.rules[uid1].from == s'.rules[uid2].from && s'.rules[uid1].to == s'.rules[uid2].to
  }

  /** Create calls for different sources make different rules. */
  lemma {:induction false} NewRulesDiffer(s: Store, writes: seq<Write>, uid1: nat, uid2: nat)
    requires StoreOk(s) && OldDeletesOnly(s, writes) && CreatesDiffer(writes)
    requires NewTwins(s, ApplyAll(s, writes), uid1, uid2)
    ensures uid1 == uid2
    decreases |writes|
  {
    if writes != [] {
      hide Effect, NewTwins, Apply, StoreOk;
      var init, last := writes[..|writes| - 1], writes[|writes| - 1];
      assert writes == init + [last];
      EffectOf(s, init);
      if last.Create? {
        assert last !in init;
        LastIsNew(s, ApplyAll(s, init), init, last, uid1, uid2);
      } else {
        TwinsBefore(s, ApplyAll(s, init), last, uid1, uid2);
      }
      if uid1 != uid2 { NewRulesDiffer(s, init, uid1, uid2); }
    }
  }

  lemma TwinsBefore(s: Store, s1: Store, w: Write, uid1: nat, uid2: nat)
    requires !w.Create? && NewTwins(s, Apply(s1, w), uid1, uid2)
    ensures NewTwins(s, s1, uid1, uid2)
  {
  }

  /** A rule that a create call has made has no twin made by other calls. */
  lemma LastIsNew(s: Store, s1: Store, init: seq<Write>, w: Write, uid1: nat, uid2: nat)
    requires Effect(s, init, s1) && w.Create? && w !in init && NewTwins(s, Apply(s1, w), uid1, uid2)
    ensures uid1 == uid2 || NewTwins(s, s1, uid1, uid2)
  {
  }

  /* ---- the writes of a plan ---- */

  predicate Planned(owner: Resource, listing: seq<Dependent>, hosts: seq<string>, w: Write) {
    var wanted, to := WantedHosts(owner, hosts), owner.Target();
    match w
    case AddFinalizer => Preparation(owner) != []
    case Create(from, t) => t == to && from in wanted && FirstMatch(listing, from, to).None?
    case Delete(uid) => uid !in Kept(listing, wanted, to) && exists d | d in listing :: d.uid == uid && !d.deleting
    case RemoveFinalizer => Conclusion(owner, listing, hosts) != []
  }

  /** What is in a plan. */
  lemma PlanMembers(owner: Resource, listing: seq<Dependent>, hosts: seq<string>, w: Write)
    ensures w in Plan(owner, listing, hosts) <==> Planned(owner, listing, hosts, w)
  {
    hide FirstMatch, Kept, NumDependents;
    var wanted, to := WantedHosts(owner, hosts), owner.Target();
    CreatesMembers(listing, wanted, to, w);
    DeletesMembers(listing, Kept(listing, wanted, to), w);
    var a, b, c, d := Preparation(owner), Creates(listing, wanted, to), Deletes(listing, Kept(listing, wanted, to)),
      Conclusion(owner, listing, hosts);
    assert w in Plan(owner, listing, hosts) <==> w in a || w in b || w in c || w in d;
  }

  ghost predicate DistinctWrites(writes: seq<Write>) {
    forall i, j | 0 <= i < j < |writes| :: writes[i] != writes[j]
  }

  lemma {:induction false} CreatesOnce(listing: seq<Dependent>, hosts: seq<string>, to: string)
    requires DistinctHosts(hosts)
    ensures DistinctWrites(Creates(listing, hosts, to))
  {
    if hosts != [] {
      var init, last := hosts[..|hosts| - 1], hosts[|hosts| - 1];
      CreatesOnce(listing, init, to);
      CreatesMembers(listing, init, to, Create(last, to));
      forall h | h in init ensures h != last {
        var i :| 0 <= i < |init| && init[i] == h;
        assert hosts[i] != hosts[|hosts| - 1];
      }
      assert Create(last, to) !in Creates(listing, init, to);
    }
  }

  lemma PlanCreatesOnce(owner: Resource, listing: seq<Dependent>, hosts: seq<string>)
    requires DistinctHosts(hosts)
    ensures CreatesDiffer(Plan(owner, listing, hosts))
  {
    hide Kept, FirstMatch, NumDependents;
    var wanted, to := WantedHosts(owner, hosts), owner.Target();
    var kept := Kept(listing, wanted, to);
    var a, b, c := Preparation(owner), Creates(listing, wanted, to), Deletes(listing, kept);
    var plan := Plan(owner, listing, hosts);
    CreatesOnce(listing, wanted, to);
    forall i | |a| + |b| <= i < |plan| ensures !plan[i].Create? {
      if i < |a| + |b| + |c| {
        assert plan[i] == c[i - |a| - |b|];
        DeletesMembers(listing, kept, plan[i]);
      }
    }
    forall i | 0 <= i < |a| ensures !plan[i].Create? {
      assert plan[i] == a[i];
    }
    forall i | 0 <= i < |b| ensures plan[|a| + i] == b[i] {}
    forall i, j | 0 <= i < j < |plan| && plan[i].Create? ensures plan[i] != plan[j] {
      assert |a| <= i < |a| + |b|;
      if j < |a| + |b| {
        var k, l := i - |a|, j - |a|;
        assert plan[|a| + k] == b[k] && plan[|a| + l] == b[l];
        assert 0 <= k < l < |b| && b[k] != b[l];
      } else {
        assert !plan[j].Create?;
      }
    }
  }

  lemma PlanDeletesListed(s: Store, listing: seq<Dependent>, hosts: seq<string>, n: nat)
    requires Lists(s, listing) && n <= |Plan(s.owner, listing, hosts)|
    ensures StoreOk(s) && OldDeletesOnly(s, Plan(s.owner, listing, hosts)[..n])
  {
    hide Plan, Kept, FirstMatch;
    var plan := Plan(s.owner, listing, hosts);
    forall uid | Delete(uid) in plan[..n] ensures uid in s.rules {
      PlanMembers(s.owner, listing, hosts, Delete(uid));
      var d :| d in listing && d.uid == uid && !d.deleting;
      var i :| 0 <= i < |listing| && listing[i] == d;
    }
  }

  lemma ListedDistinct(s: Store, listing: seq<Dependent>)
    requires Lists(s, listing)
    ensures DistinctUids(listing)
    ensures forall d | d in listing :: d.uid in s.rules && s.rules[d.uid] == d
  {
  }

  /* ---- a complete run ---- */

  /** The rule that stays for a host, if there is one, is not being deleted already. */
  ghost predicate MatchesAlive(listing: seq<Dependent>, hosts: seq<string>, to: string) {
    forall h | h in hosts && FirstMatch(listing, h, to).Some? :: !FirstMatch(listing, h, to).value.deleting
  }

  ghost predicate Serves(s: Store, host: string, to: string) {
    exists uid :: uid in s.rules && s.rules[uid].from == host && s.rules[uid].to == to && !s.rules[uid].deleting
  }

  /** Whatever is stored, a complete run leaves no rule unmarked but those for wanted hosts, and not two for one. */
  lemma RunLeavesNothingElse(s: Store, listing: seq<Dependent>, hosts: seq<string>, uid: nat)
    requires Lists(s, listing)
    requires var s' := ApplyAll(s, Plan(s.owner, listing, hosts));
             uid in s'.rules && !s'.rules[uid].deleting
    ensures var s' := ApplyAll(s, Plan(s.owner, listing, hosts));
            var wanted, to := WantedHosts(s.owner, hosts), s.owner.Target();
            var rule := s'.rules[uid];
            && rule.to == to && rule.from in wanted
            && (if uid in s.rules then FirstMatch(listing, rule.from, to) == Some(rule)
                else FirstMatch(listing, rule.from, to) == None)
  {
    hide Plan, Kept, FirstMatch, ApplyAll;
    var plan := Plan(s.owner, listing, hosts);
    assert plan[..|plan|] == plan;
    var wanted, to := WantedHosts(s.owner, hosts), s.owner.Target();
    PlanDeletesListed(s, listing, hosts, |plan|);
    EffectOf(s, plan);
    ListedDistinct(s, listing);
    if uid in s.rules {
      var rule := s.rules[uid];
      assert rule in listing && !rule.deleting;
      PlanMembers(s.owner, listing, hosts, Delete(uid));
      KeptMembers(listing, wanted, to, uid);
      var h :| h in wanted && FirstMatch(listing, h, to).Some? && FirstMatch(listing, h, to).value.uid == uid;
      FirstMatchIsFirst(listing, h, to);
      SameUidSameRule(listing, FirstMatch(listing, h, to).value, rule);
    } else {
      var rule := ApplyAll(s, plan).rules[uid];
      PlanMembers(s.owner, listing, hosts, Create(rule.from, rule.to));
    }
  }

  lemma OneRuleForHost(s: Store, listing: seq<Dependent>, hosts: seq<string>, uid1: nat, uid2: nat)
    requires Lists(s, listing) && DistinctHosts(hosts)
    requires var s' := ApplyAll(s, Plan(s.owner, listing, hosts));
             && uid1 in s'.rules && uid2 in s'.rules && s'.rules[uid1].from == s'.rules[uid2].from
             && !s'.rules[uid1].deleting && !s'.rules[uid2].deleting
    ensures uid1 == uid2
  {
    hide Plan, FirstMatch, ApplyAll;
    var plan := Plan(s.owner, listing, hosts);
    assert plan[..|plan|] == plan;
    RunLeavesNothingElse(s, listing, hosts, uid1);
    RunLeavesNothingElse(s, listing, hosts, uid2);
    PlanDeletesListed(s, listing, hosts, |plan|);
    EffectOf(s, plan);
    PlanCreatesOnce(s.owner, listing, hosts);
    if uid1 !in s.rules && uid2 !in s.rules { NewRulesDiffer(s, plan, uid1, uid2); }
  }

  /** A complete run on a live resource with a target serves every host exactly if no rule that stays for a host
      is being deleted already. */
  lemma AllServedIffMatchesAlive(s: Store, listing: seq<Dependent>, hosts: seq<string>)
    requires Lists(s, listing) && !s.owner.deleting && s.owner.Target() != ""
    ensures (forall h | h in hosts :: Serves(ApplyAll(s, Plan(s.owner, listing, hosts)), h, s.owner.Target()))
            <==> MatchesAlive(listing, hosts, s.owner.Target())
  {
    hide Plan, FirstMatch, ApplyAll, Kept;
    var to := s.owner.Target();
    forall h | h in hosts
      ensures Serves(ApplyAll(s, Plan(s.owner, listing, hosts)), h, to)
              <==> FirstMatch(listing, h, to).None? || !FirstMatch(listing, h, to).value.deleting
    {
      HostServed(s, listing, hosts, h);
    }
  }

  lemma HostServed(s: Store, listing: seq<Dependent>, hosts: seq<string>, h: string)
    requires Lists(s, listing) && !s.owner.deleting && s.owner.Target() != "" && h in hosts
    ensures var to := s.owner.Target();
            Serves(ApplyAll(s, Plan(s.owner, listing, hosts)), h, to)
            <==> FirstMatch(listing, h, to).None? || !FirstMatch(listing, h, to).value.deleting
  {
    hide Plan, FirstMatch, ApplyAll, Kept;
    var to := s.owner.Target();
    var plan := Plan(s.owner, listing, hosts);
    var s' := ApplyAll(s, plan);
    assert plan[..|plan|] == plan;
    PlanDeletesListed(s, listing, hosts, |plan|);
    EffectOf(s, plan);
    ListedDistinct(s, listing);
    FirstMatchIsFirst(listing, h, to);
    if FirstMatch(listing, h, to).None? {
      PlanMembers(s.owner, listing, hosts, Create(h, to));
    } else {
      var d := FirstMatch(listing, h, to).value;
      KeptMembers(listing, hosts, to, d.uid);
      PlanMembers(s.owner, listing, hosts, Delete(d.uid));
      if uid :| uid in s'.rules && s'.rules[uid].from == h && s'.rules[uid].to == to && !s'.rules[uid].deleting {
        RunLeavesNothingElse(s, listing, hosts, uid);
      }
      if !d.deleting { assert d.uid in s'.rules && !s'.rules[d.uid].deleting; }
    }
  }

  /** The target that a complete run leaves in the rules: none on a resource that is being deleted or has neither
      annotation, otherwise the one of the new annotation, and the one of the legacy annotation only if the new one is
      missing. Each host is served with it exactly if its match is not being deleted already. */
  lemma TargetOfRules(s: Store, listing: seq<Dependent>, hosts: seq<string>)
    requires Lists(s, listing)
    ensures var s' := ApplyAll(s, Plan(s.owner, listing, hosts));
            forall uid | uid in s'.rules && !s'.rules[uid].deleting ::
              && !s.owner.deleting && s'.rules[uid].from in hosts
              && if s.owner.annotatedTo != "" then s'.rules[uid].to == s.owner.annotatedTo
                 else s.owner.legacyTo != "" && s'.rules[uid].to == s.owner.legacyTo
    ensures !s.owner.deleting && s.owner.annotatedTo != "" ==>
              ServedIfAlive(ApplyAll(s, Plan(s.owner, listing, hosts)), listing, hosts, s.owner.annotatedTo)
    ensures !s.owner.deleting && s.owner.annotatedTo == "" && s.owner.legacyTo != "" ==>
              ServedIfAlive(ApplyAll(s, Plan(s.owner, listing, hosts)), listing, hosts, s.owner.legacyTo)
  {
    hide Plan, FirstMatch, ApplyAll, Kept, Serves;
    var s' := ApplyAll(s, Plan(s.owner, listing, hosts));
    forall uid | uid in s'.rules && !s'.rules[uid].deleting
      ensures s'.rules[uid].to == s.owner.Target() && s'.rules[uid].from in WantedHosts(s.owner, hosts)
    {
      RunLeavesNothingElse(s, listing, hosts, uid);
    }
    if !s.owner.deleting && s.owner.Target() != "" {
      forall h | h in hosts
        ensures Serves(s', h, s.owner.Target())
                <==> FirstMatch(listing, h, s.owner.Target()).None?
                     || !FirstMatch(listing, h, s.owner.Target()).value.deleting
      {
        HostServed(s, listing, hosts, h);
      }
    }
  }

  ghost predicate ServedIfAlive(s: Store, listing: seq<Dependent>, hosts: seq<string>, to: string) {
    forall h | h in hosts ::
      Serves(s, h, to) <==> FirstMatch(listing, h, to).None? || !FirstMatch(listing, h, to).value.deleting
  }

  /* ---- the finalizer of the resource ---- */

  /** Whether the finalizer is there depends on the last write that concerns it. */
  lemma {:induction false} FinalizerAfter(s: Store, writes: seq<Write>)
    requires RemoveFinalizer !in writes
    ensures FINALIZER in ApplyAll(s, writes).owner.finalizers
            <==> FINALIZER in s.owner.finalizers || AddFinalizer in writes
    decreases |writes|
  {
    if writes != [] {
      var init, last := writes[..|writes| - 1], writes[|writes| - 1];
      assert writes == init + [last];
      FinalizerAfter(s, init);
    }
  }

  /** The finalizer is only removed by the last write of a plan. */
  lemma RemovalIsLast(owner: Resource, listing: seq<Dependent>, hosts: seq<string>, n: nat)
    requires n <= |Plan(owner, listing, hosts)|
    ensures var plan := Plan(owner, listing, hosts);
            && (RemoveFinalizer in plan[..n] ==> n == |plan| && Conclusion(owner, listing, hosts) == [RemoveFinalizer])
            && (n < |plan| ==> RemoveFinalizer !in plan[..n])
            && (Conclusion(owner, listing, hosts) != [] ==>
                  plan != [] && plan[|plan| - 1] == RemoveFinalizer && RemoveFinalizer !in plan[..|plan| - 1])
  {
    hide Kept, FirstMatch, NumDependents;
    var wanted, to := WantedHosts(owner, hosts), owner.Target();
    var kept := Kept(listing, wanted, to);
    var a, b, c, d := Preparation(owner), Creates(listing, wanted, to), Deletes(listing, kept),
      Conclusion(owner, listing, hosts);
    var plan := Plan(owner, listing, hosts);
    CreatesMembers(listing, wanted, to, RemoveFinalizer);
    DeletesMembers(listing, kept, RemoveFinalizer);
    var body := a + b + c;
    assert plan == body + d && RemoveFinalizer !in body;
    assert forall i | 0 <= i < |body| :: plan[i] == body[i] && plan[i] in body;
  }

  /** A prefix that creates a rule has the finalizer stored first, unless it was there before. */
  lemma PreparationFirst(owner: Resource, listing: seq<Dependent>, hosts: seq<string>, n: nat, w: Write)
    requires n <= |Plan(owner, listing, hosts)| && w.Create? && w in Plan(owner, listing, hosts)[..n]
    ensures FINALIZER in owner.finalizers || AddFinalizer in Plan(owner, listing, hosts)[..n]
    ensures Conclusion(owner, listing, hosts) != [] ==> NumDependents(owner, listing, hosts) == 0
    ensures w.from in WantedHosts(owner, hosts)
  {
    hide Kept, FirstMatch, NumDependents;
    var plan := Plan(owner, listing, hosts);
    PlanMembers(owner, listing, hosts, w);
    assert w in plan;
    if FINALIZER !in owner.finalizers {
      assert Preparation(owner) == [AddFinalizer];
      assert plan[..n][0] == AddFinalizer;
    }
  }

  /** At any point of a run on a freshly read resource, the resource carries the finalizer if the run has created
      a rule. */
  lemma CreatedRulesAreGuarded(s: Store, listing: seq<Dependent>, hosts: seq<string>, n: nat, uid: nat)
    requires Lists(s, listing) && DistinctHosts(hosts) && n <= |Plan(s.owner, listing, hosts)|
    requires var s' := ApplyAll(s, Plan(s.owner, listing, hosts)[..n]); uid in s'.rules && uid !in s.rules
    ensures FINALIZER in ApplyAll(s, Plan(s.owner, listing, hosts)[..n]).owner.finalizers
  {
    hide Plan, Kept, FirstMatch, ApplyAll, NumDependents;
    var writes := Plan(s.owner, listing, hosts)[..n];
    PlanDeletesListed(s, listing, hosts, n);
    EffectOf(s, writes);
    var rule := ApplyAll(s, writes).rules[uid];
    PreparationFirst(s.owner, listing, hosts, n, Create(rule.from, rule.to));
    ListedDistinct(s, listing);
    CountIsExact(s.owner, listing, hosts);
    RemovalIsLast(s.owner, listing, hosts, n);
    assert RemoveFinalizer !in writes;
    FinalizerAfter(s, writes);
  }

  /** Once a run has removed the finalizer, every stored rule is being deleted, whether the resource had the
      finalizer before or got it in the same run. */
  lemma RemovedOnlyWhenAllMarked(s: Store, listing: seq<Dependent>, hosts: seq<string>, n: nat, uid: nat)
    requires Lists(s, listing) && DistinctHosts(hosts) && n <= |Plan(s.owner, listing, hosts)|
    requires RemoveFinalizer in Plan(s.owner, listing, hosts)[..n]
    requires uid in ApplyAll(s, Plan(s.owner, listing, hosts)[..n]).rules
    ensures ApplyAll(s, Plan(s.owner, listing, hosts)[..n]).rules[uid].deleting
  {
    hide Plan, Kept, FirstMatch, ApplyAll, NumDependents;
    var plan := Plan(s.owner, listing, hosts);
    RemovalIsLast(s.owner, listing, hosts, n);
    assert plan[..n] == plan;
    ListedDistinct(s, listing);
    CountIsExact(s.owner, listing, hosts);
    ConclusionMeansNone(s.owner, listing, hosts);
    if !ApplyAll(s, plan).rules[uid].deleting {
      RunLeavesNothingElse(s, listing, hosts, uid);
    }
  }

  lemma ConclusionMeansNone(owner: Resource, listing: seq<Dependent>, hosts: seq<string>)
    requires Conclusion(owner, listing, hosts) != []
    ensures NumDependents(owner, listing, hosts) == 0
  {
  }

  /** A complete run on a resource that is being deleted, or that has no target, leaves no finalizer behind. */
  lemma FinalizerReleased(s: Store, listing: seq<Dependent>, hosts: seq<string>)
    requires Lists(s, listing) && DistinctHosts(hosts) && WantedHosts(s.owner, hosts) == []
    ensures FINALIZER !in ApplyAll(s, Plan(s.owner, listing, hosts)).owner.finalizers
  {
    hide Plan, Kept, FirstMatch, NumDependents;
    var plan := Plan(s.owner, listing, hosts);
    ListedDistinct(s, listing);
    CountIsExact(s.owner, listing, hosts);
    RemovalIsLast(s.owner, listing, hosts, |plan|);
    assert plan[..|plan|] == plan;
    if Conclusion(s.owner, listing, hosts) == [] {
      PlanMembers(s.owner, listing, hosts, AddFinalizer);
      PlanMembers(s.owner, listing, hosts, RemoveFinalizer);
      FinalizerAfter(s, plan);
    }
  }

  /* ---- stopping and starting again ---- */

  /** Some rules that were being deleted have disappeared since; nothing else has changed. */
  ghost predicate Survives(s: Store, s': Store) {
    && s'.owner == s.owner && s'.nextUid == s.nextUid
    && (forall uid | uid in s'.rules :: uid in s.rules && s'.rules[uid] == s.rules[uid])
    && (forall uid | uid in s.rules && uid !in s'.rules :: s.rules[uid].deleting)
  }

  /** Rules that are in both lists are in the same order. */
  ghost predicate SameOrder(listing: seq<Dependent>, listing': seq<Dependent>) {
    forall i, j, k, l |
      && 0 <= i < |listing| && 0 <= j < |listing| && 0 <= k < |listing'| && 0 <= l < |listing'|
      && listing[i].uid == listing'[k].uid && listing[j].uid == listing'[l].uid && i < j :: k < l
  }

  /** The same hosts, perhaps in another order: they are the keys of a Go map, which is built for every run. */
  ghost predicate SameHosts(hosts: seq<string>, hosts': seq<string>) {
    forall h :: h in hosts <==> h in hosts'
  }

  /** A later list of what a run on `listing` has left after `n` of its writes. */
  ghost predicate Later(s: Store, listing: seq<Dependent>, hosts: seq<string>, n: nat, s': Store,
                        listing': seq<Dependent>)
    requires n <= |Plan(s.owner, listing, hosts)|
  {
    && Survives(ApplyAll(s, Plan(s.owner, listing, hosts)[..n]), s')
    && Lists(s', listing') && SameOrder(listing, listing')
  }

  /** The state after some writes, in terms of what was stored before. */
  lemma LaterRule(s: Store, listing: seq<Dependent>, hosts: seq<string>, n: nat, s': Store, listing': seq<Dependent>,
                  d: Dependent)
    requires Lists(s, listing) && n <= |Plan(s.owner, listing, hosts)| && Later(s, listing, hosts, n, s', listing')
    requires d in listing'
    ensures if d.uid in s.rules then s.rules[d.uid] in listing && d == s.rules[d.uid].(deleting := d.deleting)
            else !d.deleting && Create(d.from, d.to) in Plan(s.owner, listing, hosts)
  {
    hide Plan, ApplyAll;
    var writes := Plan(s.owner, listing, hosts)[..n];
    PlanDeletesListed(s, listing, hosts, n);
    EffectOf(s, writes);
    ListedDistinct(s', listing');
  }

  /** A rule that stays is found again by a later run, in front of all others for its host. */
  lemma StayingMatchAgain(s: Store, listing: seq<Dependent>, hosts: seq<string>, n: nat, s': Store,
                          listing': seq<Dependent>, h: string)
    requires Lists(s, listing) && n <= |Plan(s.owner, listing, hosts)| && Later(s, listing, hosts, n, s', listing')
    requires h in WantedHosts(s.owner, hosts)
    requires FirstMatch(listing, h, s.owner.Target()).Some? && !FirstMatch(listing, h, s.owner.Target()).value.deleting
    ensures FirstMatch(listing', h, s.owner.Target()) == FirstMatch(listing, h, s.owner.Target())
  {
    hide Plan, Kept, FirstMatch, ApplyAll, SameOrder;
    var to := s.owner.Target();
    var d := FirstMatch(listing, h, to).value;
    var writes := Plan(s.owner, listing, hosts)[..n];
    PlanDeletesListed(s, listing, hosts, n);
    EffectOf(s, writes);
    FirstMatchIsFirst(listing, h, to);
    KeptMembers(listing, WantedHosts(s.owner, hosts), to, d.uid);
    PlanMembers(s.owner, listing, hosts, Delete(d.uid));
    assert s'.rules[d.uid] == d && d in listing';
    var i :| 0 <= i < |listing| && listing[i] == d
             && forall j | 0 <= j < i :: !(listing[j].from == h && listing[j].to == to);
    var k :| 0 <= k < |listing'| && listing'[k] == d;
    forall l | 0 <= l < k ensures !(listing'[l].from == h && listing'[l].to == to) {
      NoMatchBefore(s, listing, hosts, n, s', listing', h, i, k, l);
    }
    FirstMatchAt(listing', h, to, k);
  }

  lemma NoMatchBefore(s: Store, listing: seq<Dependent>, hosts: seq<string>, n: nat, s': Store,
                      listing': seq<Dependent>, h: string, i: nat, k: nat, l: nat)
    requires Lists(s, listing) && n <= |Plan(s.owner, listing, hosts)| && Later(s, listing, hosts, n, s', listing')
    requires var to := s.owner.Target();
             && i < |listing| && FirstMatch(listing, h, to) == Some(listing[i])
             && forall j | 0 <= j < i :: !(listing[j].from == h && listing[j].to == to)
    requires l < k < |listing'| && listing'[k] == listing[i]
    ensures !(listing'[l].from == h && listing'[l].to == s.owner.Target())
  {
    hide Plan, Kept, FirstMatch, ApplyAll;
    var to := s.owner.Target();
    var e := listing'[l];
    LaterRule(s, listing, hosts, n, s', listing', e);
    if e.uid in s.rules {
      var j :| 0 <= j < |listing| && listing[j] == s.rules[e.uid];
      ListedDistinct(s', listing');
      assert listing'[l].uid != listing'[k].uid;
      assert listing[j].uid == listing'[l].uid && listing[i].uid == listing'[k].uid;
      assert i < j ==> k < l;
    } else {
      PlanMembers(s.owner, listing, hosts, Create(e.from, e.to));
    }
  }

  lemma MissingMatchAgain(s: Store, listing: seq<Dependent>, hosts: seq<string>, n: nat, s': Store,
                          listing': seq<Dependent>, h: string)
    requires Lists(s, listing) && n <= |Plan(s.owner, listing, hosts)| && Later(s, listing, hosts, n, s', listing')
    requires FirstMatch(listing, h, s.owner.Target()).None?
    ensures var found := FirstMatch(listing', h, s.owner.Target()); found.Some? ==> !found.value.deleting
  {
    hide Plan, Kept, FirstMatch, ApplyAll, SameOrder;
    var to := s.owner.Target();
    FirstMatchIsFirst(listing, h, to);
    FirstMatchIsFirst(listing', h, to);
    if FirstMatch(listing', h, to).Some? {
      LaterRule(s, listing, hosts, n, s', listing', FirstMatch(listing', h, to).value);
    }
  }

  /** A run may stop after any of its writes: if no rule that stays was being deleted at its start, this is so at
      the start of a later run too, and the later run keeps the same listed rules. */
  lemma StartingAgain(s: Store, listing: seq<Dependent>, hosts: seq<string>, n: nat, s': Store,
                      listing': seq<Dependent>, hosts': seq<string>)
    requires Lists(s, listing) && !s.owner.deleting && s.owner.Target() != ""
    requires MatchesAlive(listing, hosts, s.owner.Target()) && SameHosts(hosts, hosts')
    requires n <= |Plan(s.owner, listing, hosts)| && Later(s, listing, hosts, n, s', listing')
    ensures MatchesAlive(listing', hosts', s.owner.Target())
    ensures forall h | h in hosts' && FirstMatch(listing, h, s.owner.Target()).Some? ::
              FirstMatch(listing', h, s.owner.Target()) == FirstMatch(listing, h, s.owner.Target())
  {
    hide Plan, Kept, FirstMatch, ApplyAll, Later;
    var to := s.owner.Target();
    forall h | h in hosts'
      ensures FirstMatch(listing', h, to).Some? ==> !FirstMatch(listing', h, to).value.deleting
      ensures FirstMatch(listing, h, to).Some? ==> FirstMatch(listing', h, to) == FirstMatch(listing, h, to)
    {
      if FirstMatch(listing, h, to).Some? {
        StayingMatchAgain(s, listing, hosts, n, s', listing', h);
      } else {
        MissingMatchAgain(s, listing, hosts, n, s', listing', h);
      }
    }
  }

  lemma LaterOwner(s: Store, listing: seq<Dependent>, hosts: seq<string>, n: nat, s': Store, listing': seq<Dependent>)
    requires Lists(s, listing) && n <= |Plan(s.owner, listing, hosts)| && Later(s, listing, hosts, n, s', listing')
    ensures s'.owner == s.owner.(finalizers := s'.owner.finalizers)
    ensures s'.owner.Target() == s.owner.Target() && s'.owner.deleting == s.owner.deleting
  {
    hide Plan, ApplyAll;
    PlanDeletesListed(s, listing, hosts, n);
    EffectOf(s, Plan(s.owner, listing, hosts)[..n]);
  }

  /** Crash tolerance: a run that stops after any prefix of its writes, followed by a complete run, serves the same
      names as an uninterrupted run, namely the wanted hosts; each run may take the hosts in an order of its own. */
  lemma CrashTolerance(s: Store, listing: seq<Dependent>, hosts: seq<string>, n: nat, s': Store,
                       listing': seq<Dependent>, hosts': seq<string>, host: string)
    requires Lists(s, listing) && !s.owner.deleting && s.owner.Target() != ""
    requires MatchesAlive(listing, hosts, s.owner.Target()) && SameHosts(hosts, hosts')
    requires n <= |Plan(s.owner, listing, hosts)| && Later(s, listing, hosts, n, s', listing')
    ensures var to := s.owner.Target();
            var uninterrupted := ApplyAll(s, Plan(s.owner, listing, hosts));
            var resumed := ApplyAll(s', Plan(s'.owner, listing', hosts'));
            && (Serves(resumed, host, to) <==> host in hosts)
            && (Serves(uninterrupted, host, to) <==> host in hosts)
  {
    hide Plan, Kept, FirstMatch, ApplyAll, Later, MatchesAlive;
    var to := s.owner.Target();
    StartingAgain(s, listing, hosts, n, s', listing', hosts');
    LaterOwner(s, listing, hosts, n, s', listing');
    assert Lists(s', listing') by { LaterLists(s, listing, hosts, n, s', listing'); }
    AllServedIffMatchesAlive(s, listing, hosts);
    AllServedIffMatchesAlive(s', listing', hosts');
    if Serves(ApplyAll(s, Plan(s.owner, listing, hosts)), host, to) { OnlyWantedServed(s, listing, hosts, host); }
    if Serves(ApplyAll(s', Plan(s'.owner, listing', hosts')), host, to) {
      OnlyWantedServed(s', listing', hosts', host);
    }
  }

  lemma LaterLists(s: Store, listing: seq<Dependent>, hosts: seq<string>, n: nat, s': Store, listing': seq<Dependent>)
    requires n <= |Plan(s.owner, listing, hosts)| && Later(s, listing, hosts, n, s', listing')
    ensures Lists(s', listing')
  {
    hide Plan, ApplyAll, Lists;
  }

  lemma OnlyWantedServed(s: Store, listing: seq<Dependent>, hosts: seq<string>, host: string)
    requires Lists(s, listing) && !s.owner.deleting && s.owner.Target() != ""
    requires Serves(ApplyAll(s, Plan(s.owner, listing, hosts)), host, s.owner.Target())
    ensures host in hosts
  {
    hide Plan, ApplyAll, FirstMatch;
    var s' := ApplyAll(s, Plan(s.owner, listing, hosts));
    var uid :| uid in s'.rules && s'.rules[uid].from == host && s'.rules[uid].to == s.owner.Target()
               && !s'.rules[uid].deleting;
    RunLeavesNothingElse(s, listing, hosts, uid);
  }

  /* ---- running again after a complete run ---- */

  /** The situation after a complete run; some terminating rules may have disappeared. */
  ghost predicate AfterRun(s: Store, listing: seq<Dependent>, hosts: seq<string>, s': Store, listing': seq<Dependent>) {
    && Lists(s, listing) && DistinctHosts(hosts)
    && (!s.owner.deleting && s.owner.Target() != "" ==> MatchesAlive(listing, hosts, s.owner.Target()))
    && Later(s, listing, hosts, |Plan(s.owner, listing, hosts)|, s', listing')
  }

  lemma AfterRunOwner(s: Store, listing: seq<Dependent>, hosts: seq<string>, s': Store, listing': seq<Dependent>)
    requires AfterRun(s, listing, hosts, s', listing')
    ensures Lists(s', listing') && WantedHosts(s'.owner, hosts) == WantedHosts(s.owner, hosts)
    ensures s'.owner.Target() == s.owner.Target() && s'.owner.deleting == s.owner.deleting
    ensures Survives(ApplyAll(s, Plan(s.owner, listing, hosts)), s')
  {
    hide Plan, ApplyAll, MatchesAlive, Lists, SameOrder, Survives;
    var plan := Plan(s.owner, listing, hosts);
    assert plan[..|plan|] == plan;
    LaterOwner(s, listing, hosts, |plan|, s', listing');
  }

  lemma NothingToCreate(s: Store, listing: seq<Dependent>, hosts: seq<string>, s': Store,
                        listing': seq<Dependent>, h: string)
    requires AfterRun(s, listing, hosts, s', listing') && h in WantedHosts(s.owner, hosts)
    ensures FirstMatch(listing', h, s.owner.Target()).Some?
  {
    hide Plan, ApplyAll, FirstMatch, SameOrder, Kept;
    var to := s.owner.Target();
    var plan := Plan(s.owner, listing, hosts);
    AfterRunOwner(s, listing, hosts, s', listing');
    if FirstMatch(listing, h, to).Some? {
      StayingMatchAgain(s, listing, hosts, |plan|, s', listing', h);
    } else {
      HostServed(s, listing, hosts, h);
      var done := ApplyAll(s, plan);
      var uid :| uid in done.rules && done.rules[uid].from == h && done.rules[uid].to == to
                 && !done.rules[uid].deleting;
      assert uid in s'.rules && s'.rules[uid] in listing';
      FirstMatchIsFirst(listing', h, to);
    }
  }

  lemma NothingToDelete(s: Store, listing: seq<Dependent>, hosts: seq<string>, s': Store,
                        listing': seq<Dependent>, d: Dependent)
    requires AfterRun(s, listing, hosts, s', listing') && d in listing' && !d.deleting
    ensures d.uid in Kept(listing', WantedHosts(s.owner, hosts), s.owner.Target())
  {
    hide Plan, ApplyAll, FirstMatch, SameOrder, Kept, MatchesAlive;
    var to := s.owner.Target();
    var plan := Plan(s.owner, listing, hosts);
    AfterRunOwner(s, listing, hosts, s', listing');
    ListedDistinct(s', listing');
    RunLeavesNothingElse(s, listing, hosts, d.uid);
    var h := d.from;
    KeptMembers(listing', WantedHosts(s.owner, hosts), to, d.uid);
    if d.uid in s.rules {
      StayingMatchAgain(s, listing, hosts, |plan|, s', listing', h);
    } else {
      NewMatchAgain(s, listing, hosts, s', listing', d);
    }
  }

  lemma NewMatchAgain(s: Store, listing: seq<Dependent>, hosts: seq<string>, s': Store,
                      listing': seq<Dependent>, d: Dependent)
    requires AfterRun(s, listing, hosts, s', listing') && d in listing' && !d.deleting && d.uid !in s.rules
    requires d.to == s.owner.Target() && d.from in WantedHosts(s.owner, hosts)
    requires FirstMatch(listing, d.from, d.to).None?
    ensures FirstMatch(listing', d.from, d.to) == Some(d)
  {
    hide Plan, ApplyAll, FirstMatch, SameOrder, Kept, MatchesAlive;
    var plan := Plan(s.owner, listing, hosts);
    AfterRunOwner(s, listing, hosts, s', listing');
    ListedDistinct(s', listing');
    NothingToCreate(s, listing, hosts, s', listing', d.from);
    FirstMatchIsFirst(listing', d.from, d.to);
    var e := FirstMatch(listing', d.from, d.to).value;
    MissingMatchAgain(s, listing, hosts, |plan|, s', listing', d.from);
    OneRuleForHost(s, listing, hosts, d.uid, e.uid);
  }

  lemma FinalizerKept(s: Store, listing: seq<Dependent>, hosts: seq<string>)
    requires Lists(s, listing) && DistinctHosts(hosts) && WantedHosts(s.owner, hosts) != []
    ensures FINALIZER in ApplyAll(s, Plan(s.owner, listing, hosts)).owner.finalizers
  {
    hide Plan, ApplyAll, Kept, FirstMatch, NumDependents;
    var plan := Plan(s.owner, listing, hosts);
    ListedDistinct(s, listing);
    CountIsExact(s.owner, listing, hosts);
    PlanMembers(s.owner, listing, hosts, AddFinalizer);
    PlanMembers(s.owner, listing, hosts, RemoveFinalizer);
    if Conclusion(s.owner, listing, hosts) != [] { ConclusionMeansNone(s.owner, listing, hosts); }
    FinalizerAfter(s, plan);
  }

  /** Running again makes no API write, whatever the order of the hosts, with one exception: a live resource with a
      target but without hosts gets the finalizer and loses it again, every time. */
  lemma QuietIffNotHostless(s: Store, listing: seq<Dependent>, hosts: seq<string>, s': Store, listing': seq<Dependent>,
                            hosts': seq<string>)
    requires AfterRun(s, listing, hosts, s', listing') && SameHosts(hosts, hosts') && DistinctHosts(hosts')
    ensures Plan(s'.owner, listing', hosts')
            == if s.owner.deleting || s.owner.Target() == "" || hosts != [] then [] else [AddFinalizer, RemoveFinalizer]
  {
    hide ApplyAll, FirstMatch, SameOrder, Kept, MatchesAlive, NumDependents, Lists, Later;
    var wanted, to := WantedHosts(s.owner, hosts), s.owner.Target();
    AfterRunOwner(s, listing, hosts, s', listing');
    NoCreates(s, listing, hosts, s', listing');
    NoDeletes(s, listing, hosts, s', listing');
    AnyOrder(listing', wanted, WantedHosts(s.owner, hosts'), to);
    ListedDistinct(s', listing');
    CountIsExact(s'.owner, listing', hosts');
    assert hosts == [] <==> hosts' == [] by {
      assert hosts != [] ==> hosts[0] in hosts';
      assert hosts' != [] ==> hosts'[0] in hosts;
    }
    if wanted == [] {
      FinalizerReleased(s, listing, hosts);
    } else {
      FinalizerKept(s, listing, hosts);
    }
    assert s'.owner == ApplyAll(s, Plan(s.owner, listing, hosts)).owner;
  }

  /** The order of the hosts does not matter for what stays and for whether something is missing. */
  lemma AnyOrder(listing: seq<Dependent>, hosts: seq<string>, hosts': seq<string>, to: string)
    requires SameHosts(hosts, hosts')
    ensures Kept(listing, hosts, to) == Kept(listing, hosts', to)
    ensures Creates(listing, hosts, to) == [] ==> Creates(listing, hosts', to) == []
  {
    hide FirstMatch, Kept, Creates;
    forall uid ensures uid in Kept(listing, hosts, to) <==> uid in Kept(listing, hosts', to) {
      KeptMembers(listing, hosts, to, uid);
      KeptMembers(listing, hosts', to, uid);
    }
    var creates := Creates(listing, hosts', to);
    if creates != [] {
      CreatesMembers(listing, hosts, to, creates[0]);
      CreatesMembers(listing, hosts', to, creates[0]);
    }
  }

  lemma NoCreates(s: Store, listing: seq<Dependent>, hosts: seq<string>, s': Store, listing': seq<Dependent>)
    requires AfterRun(s, listing, hosts, s', listing')
    ensures Creates(listing', WantedHosts(s.owner, hosts), s.owner.Target()) == []
  {
    hide FirstMatch, AfterRun;
    var wanted, to := WantedHosts(s.owner, hosts), s.owner.Target();
    var creates := Creates(listing', wanted, to);
    if creates != [] {
      CreatesMembers(listing', wanted, to, creates[0]);
      NothingToCreate(s, listing, hosts, s', listing', creates[0].from);
    }
  }

  lemma NoDeletes(s: Store, listing: seq<Dependent>, hosts: seq<string>, s': Store, listing': seq<Dependent>)
    requires AfterRun(s, listing, hosts, s', listing')
    ensures Deletes(listing', Kept(listing', WantedHosts(s.owner, hosts), s.owner.Target())) == []
  {
    hide AfterRun, Kept;
    var kept := Kept(listing', WantedHosts(s.owner, hosts), s.owner.Target());
    var deletes := Deletes(listing', kept);
    if deletes != [] {
      DeletesMembers(listing', kept, deletes[0]);
      var d :| d in listing' && d.uid == deletes[0].uid && !d.deleting;
      NothingToDelete(s, listing, hosts, s', listing', d);
    }
  }
}
