/** Exactly when undisturbed reconciliation converges (internal/controllers/masqueradingrule_controller.go). */
module ExactConvergence {
  import opened Conventions
  import opened Options
  import opened Graphs
  import opened RewriteRules
  import opened RuleMaps
  import opened Snippets
  import opened Clusters
  import opened ClusterSafety
  import opened Convergence
  import opened Deadlocks

  /* ---- rounds ---- */

  /** The rounds that are complete, and who has had a turn since then. */
  datatype Tally = Tally(rounds: nat, seen: set<Key>)

  /** A round is complete when every key has had a turn since the previous round; turns may come in any order, and
      some keys may have more of them. */
  function Rounds(keys: set<Key>, turns: seq<Turn>): Tally {
    if turns == [] then Tally(0, {})
    else
      var before := Rounds(keys, turns[..|turns| - 1]);
      var seen := before.seen + {turns[|turns| - 1].key};
      if keys <= seen then Tally(before.rounds + 1, {}) else Tally(before.rounds, seen)
  }

  /** What has become of an object after some rounds, if heights descend along the waits: an object that is being
      deleted has lost its entry after two rounds and is gone after three, and a live rule of height `height` has
      its entry after two more rounds than that and is ready after three more. */
  ghost predicate AtLevel(c: Cluster, k: Key, height: nat, rounds: nat)
    requires k in c.objects
  {
    && (rounds >= 1 ==> !c.objects[k].state.Unset?)
    && if c.objects[k].deleting then rounds < 3 && (rounds >= 2 ==> StoredEntry(c, k).None?)
       else
         && (rounds >= height + 2 ==> EntryIsCurrent(c, k))
         && (rounds >= height + 3 ==> ReadyForSpec(c.objects[k]))
  }

  ghost predicate AllAtLevel(c: Cluster, heights: map<Key, nat>, rounds: nat) {
    forall k | k in c.objects :: k in heights && AtLevel(c, k, heights[k], rounds)
  }

  /** Nobody waits for an object that has reached the level above its height. */
  lemma NoLongerInTheWay(c: Cluster, key: Key, l: Key, height: nat, rounds: nat)
    requires Compatible(c) && l in c.objects && AtLevel(c, l, height, rounds) && rounds >= height + 2
    ensures !WaitsFor(c, key, l)
  {
    hide Entries, OwnerName, Clash, Accepted;
  }

  /** When it is the turn of a rule after as many rounds as its height says, nobody is left for whom it waits. */
  lemma NobodyLeft(c: Cluster, key: Key, heights: map<Key, nat>, rounds: nat)
    requires Idle(c) && Compatible(c) && Live(c, key)
    requires Descending(Waits(c), heights) && AllAtLevel(c, heights, rounds) && rounds == heights[key] + 1
    ensures Admits(Entries(c.configMap), RuleOf(key, c.objects[key]))
  {
    hide Inv, Compatible, AtLevel, WaitsFor, RuleOf, Entries, Admits, Waits;
    forall l ensures !WaitsFor(c, key, l) {
      InWaits(c, key, l);
      if (key, l) in Waits(c) {
        WaitsWithin(c);
        NoLongerInTheWay(c, key, l, heights[l], rounds);
      }
    }
    AdmittedIffWaitsForNone(c, key);
  }

  /** A turn takes a rule one level further. */
  lemma PassLevel(c: Cluster, key: Key, now: int, heights: map<Key, nat>, rounds: nat)
    requires Idle(c) && Compatible(c) && MayWrite(c, now)
    requires Descending(Waits(c), heights) && AllAtLevel(c, heights, rounds) && key in c.objects
    ensures key in Pass(c, key, now).objects ==> AtLevel(Pass(c, key, now), key, heights[key], rounds + 1)
  {
    hide Parse, Print, Entries, OwnerName, Accepted, Admits, Clash, Pass, Inv, Waits, Descending;
    assert AtLevel(c, key, heights[key], rounds);
    if c.objects[key].state.Unset? {
      FirstPass(c, key, now);
    } else if c.objects[key].deleting {
      if OwnerName(key, c.objects[key].uid) in Entries(c.configMap) {
        RemovingPass(c, key, now);
      } else {
        DroppingPass(c, key, now);
      }
    } else if EntryIsCurrent(c, key) {
      CheckingPass(c, key, now);
    } else if Admits(Entries(c.configMap), RuleOf(key, c.objects[key])) {
      WritingPass(c, key, now);
    } else {
      FailingPass(c, key, now);
      if rounds == heights[key] + 1 { NobodyLeft(c, key, heights, rounds); }
    }
  }

  lemma OtherLevelsStay(c: Cluster, c': Cluster, key: Key, now: int, k: Key, height: nat, rounds: nat)
    requires Inv(c) && Frame(c, c', key, now) && k != key && k in c.objects
    requires AtLevel(c, k, height, rounds)
    ensures k in c'.objects && AtLevel(c', k, height, rounds)
  {
    hide Inv, Entries, OwnerName;
    OtherEntryStays(c, c', key, now, k);
  }

  lemma LowerLevel(c: Cluster, k: Key, height: nat, rounds: nat)
    requires k in c.objects && AtLevel(c, k, height, rounds + 1)
    ensures AtLevel(c, k, height, rounds)
  {
    hide Entries, OwnerName;
  }

  /** A pass makes nobody wait for anybody. */
  lemma WaitsShrink(c: Cluster, c': Cluster, key: Key, now: int, k: Key, l: Key)
    requires Idle(c) && Compatible(c) && Frame(c, c', key, now) && WaitsFor(c', k, l)
    ensures WaitsFor(c, k, l)
  {
    hide Inv, Entries, OwnerName, Clash, Accepted;
    if l != key { OtherEntryStays(c, c', key, now, l); }
  }

  lemma StillDescending(c: Cluster, c': Cluster, key: Key, now: int, heights: map<Key, nat>)
    requires Idle(c) && Compatible(c) && Frame(c, c', key, now) && Descending(Waits(c), heights)
    ensures Descending(Waits(c'), heights)
  {
    hide Idle, Compatible, Frame, WaitsFor, Waits;
    forall k, l | (k, l) in Waits(c') ensures (k, l) in Waits(c) {
      InWaits(c', k, l);
      WaitsShrink(c, c', key, now, k, l);
      InWaits(c, k, l);
    }
  }

  /** After every turn, all objects have reached the level of the complete rounds, and those that have had a turn
      since then have reached the next one. */
  ghost predicate Reached(c: Cluster, heights: map<Key, nat>, t: Tally) {
    && Descending(Waits(c), heights) && AllAtLevel(c, heights, t.rounds)
    && forall k | k in c.objects && k in t.seen :: AtLevel(c, k, heights[k], t.rounds + 1)
  }

  lemma TurnReaches(c: Cluster, key: Key, now: int, heights: map<Key, nat>, t: Tally, keys: set<Key>)
    requires Idle(c) && Compatible(c) && MayWrite(c, now) && Reached(c, heights, t) && c.objects.Keys <= keys
    ensures var seen := t.seen + {key};
            Reached(Pass(c, key, now), heights, if keys <= seen then Tally(t.rounds + 1, {}) else Tally(t.rounds, seen))
  {
    hide Inv, Pass, AtLevel, Waits, Descending, Compatible, MayWrite, Entries, OwnerName;
    var c' := Pass(c, key, now);
    PassFrame(c, key, now);
    StillDescending(c, c', key, now, heights);
    forall k | k in c'.objects
      ensures k in heights && AtLevel(c', k, heights[k], t.rounds)
      ensures k in t.seen || k == key ==> AtLevel(c', k, heights[k], t.rounds + 1)
    {
      if k == key {
        PassLevel(c, key, now, heights, t.rounds);
        LowerLevel(c', key, heights[key], t.rounds);
      } else {
        OtherLevelsStay(c, c', key, now, k, heights[k], t.rounds);
        if k in t.seen { OtherLevelsStay(c, c', key, now, k, heights[k], t.rounds + 1); }
      }
    }
  }

  lemma {:induction false} RoundsReach(c: Cluster, turns: seq<Turn>, heights: map<Key, nat>)
    requires Idle(c) && Compatible(c) && Spaced(c, turns)
    requires Descending(Waits(c), heights) && c.objects.Keys <= heights.Keys
    ensures Reached(Passes(c, turns), heights, Rounds(c.objects.Keys, turns))
    decreases |turns|
  {
    hide Idle, Compatible, Pass, Waits, Descending, Reached, StampFrom, Entries, OwnerName;
    if turns == [] {
      assert Reached(c, heights, Tally(0, {})) by { NothingReached(c, heights); }
    } else {
      var init, last := turns[..|turns| - 1], turns[|turns| - 1];
      var c1 := Passes(c, init);
      RoundsReach(c, init, heights);
      PassesKeep(c, init);
      StillCompatible(c, c1);
      LastMayWrite(c, turns);
      TurnReaches(c1, last.key, last.now, heights, Rounds(c.objects.Keys, init), c.objects.Keys);
    }
  }

  lemma NothingReached(c: Cluster, heights: map<Key, nat>)
    requires Descending(Waits(c), heights) && c.objects.Keys <= heights.Keys
    ensures Reached(c, heights, Tally(0, {}))
  {
    hide Waits, Descending, Entries, OwnerName;
  }

  /* ---- the exact condition ---- */

  lemma ConvergesWithoutCycle(c: Cluster, turns: seq<Turn>)
    requires Idle(c) && Spaced(c, turns) && Rounds(c.objects.Keys, turns).rounds >= |c.objects| + 2
    requires Compatible(c) && Acyclic(Waits(c))
    ensures Converged(c, Passes(c, turns))
  {
    hide Inv, Compatible, Waits, Acyclic, Descending, Passes, Spaced, StampFrom, Rounds, Entries, OwnerName, RuleOf,
         EntryIsCurrent, Converged;
    WaitsWithin(c);
    var heights := Heights(Waits(c), c.objects.Keys);
    RoundsReach(c, turns, heights);
    PassesKeep(c, turns);
    var c' := Passes(c, turns);
    var rounds := Rounds(c.objects.Keys, turns).rounds;
    forall k | k in c'.objects ensures Live(c', k) && EntryIsCurrent(c', k) && ReadyForSpec(c'.objects[k]) {
      assert k in c.objects && AtLevel(c', k, heights[k], rounds);
      assert heights[k] < |c.objects|;
    }
    ReadyIsConverged(c, c');
  }

  lemma WaitsWithin(c: Cluster)
    ensures Within(Waits(c), c.objects.Keys)
  {
    hide WaitsFor;
  }

  lemma ConvergedEntry(c: Cluster, c': Cluster, k: Key)
    requires Converged(c, c') && Live(c, k)
    ensures EntryOf(Entries(c'.configMap), OwnerName(k, c.objects[k].uid)) == Some(RuleOf(k, c.objects[k]))
    ensures Accepted(RuleOf(k, c.objects[k]))
  {
    hide Entries, OwnerName, Accepted, Consistent;
    var rule := RuleOf(k, c.objects[k]);
    assert EntryOf(Entries(c'.configMap), rule.owner) == Some(rule);
    EntriesWellFormed(c'.configMap);
    assert Printable(Entries(c'.configMap)[rule.owner]);
  }

  /** The entries of a converged cluster are the live rules, so these are valid and do not clash. */
  lemma ConvergedIsCompatible(c: Cluster, c': Cluster)
    requires Inv(c) && SameRules(c, c') && Converged(c, c')
    ensures Compatible(c)
  {
    hide Inv, Entries, OwnerName, Accepted, Clash, Printable, Converged;
    EntriesWellFormed(c'.configMap);
    forall k | Live(c, k) ensures Accepted(RuleOf(k, c.objects[k])) {
      ConvergedEntry(c, c', k);
    }
    forall k, l | Live(c, k) && Live(c, l) && k != l ensures !Clash(RuleOf(k, c.objects[k]), RuleOf(l, c.objects[l])) {
      ConvergedEntry(c, c', k);
      ConvergedEntry(c, c', l);
      DifferentOwners(c, k, l);
    }
    OnlyLiveRemain(c, c');
  }

  lemma OnlyLiveRemain(c: Cluster, c': Cluster)
    requires SameRules(c, c') && Converged(c, c')
    ensures forall k | k in c.objects && c.objects[k].deleting :: c.objects[k].finalizers <= {FINALIZER}
  {
    hide Entries, OwnerName, RuleOf;
  }

  lemma CycleNeverConverges(c: Cluster, turns: seq<Turn>, keys: seq<Key>)
    requires Idle(c) && IsCycle(Waits(c), keys)
    ensures !Converged(c, Passes(c, turns))
  {
    hide Inv, Waits, IsCycle, Passes, Run, Entries, OwnerName, RuleOf;
    PassesAreRun(c, turns);
    CycleWaits(c, keys);
    DeadlockIsForGood(c, StepsOf(turns), keys);
    assert keys[0] in keys;
  }

  /** If undisturbed passes are far enough apart, then after two rounds more than there are objects the cluster has
      converged if and only if the live rules are valid and do not clash with each other, no foreign finalizer holds
      a deletion up, and no live rules wait for each other's entries in a circle. */
  lemma ConvergesIffNoCycle(c: Cluster, turns: seq<Turn>)
    requires Idle(c) && Spaced(c, turns) && Rounds(c.objects.Keys, turns).rounds >= |c.objects| + 2
    ensures Converged(c, Passes(c, turns)) <==> Compatible(c) && Acyclic(Waits(c))
  {
    hide Inv, Waits, IsCycle, Compatible, Converged, Passes, Rounds, Spaced, StampFrom, SameRules;
    if Compatible(c) && Acyclic(Waits(c)) { ConvergesWithoutCycle(c, turns); }
    if Converged(c, Passes(c, turns)) {
      PassesKeep(c, turns);
      ConvergedIsCompatible(c, Passes(c, turns));
      forall keys ensures !IsCycle(Waits(c), keys) {
        if IsCycle(Waits(c), keys) { CycleNeverConverges(c, turns, keys); }
      }
    }
  }

  /** The same for runs: whenever nobody is at work in a run from a fresh installation, the run that goes on with
      undisturbed reconciliations converges if and only if these conditions hold at that point. */
  lemma RunsConvergeIffNoCycle(start: Cluster, steps: seq<Step>, turns: seq<Turn>)
    requires Initial(start) && Run(start, steps).workers == map[]
    requires var c := Run(start, steps);
             Spaced(c, turns) && Rounds(c.objects.Keys, turns).rounds >= |c.objects| + 2
    ensures var c := Run(start, steps);
            Converged(c, Run(start, steps + StepsOf(turns))) <==> Compatible(c) && Acyclic(Waits(c))
  {
    hide Idle, Run, Waits, Acyclic, Compatible, Converged, Passes, Rounds, Spaced;
    ReachableIdle(start, steps);
    RunOn(start, steps, StepsOf(turns));
    PassesAreRun(Run(start, steps), turns);
    ConvergesIffNoCycle(Run(start, steps), turns);
  }

  /** The condition of `Convergence`, for which three turns are enough, is that nobody waits for anybody. */
  lemma UnblockedIffNobodyWaits(c: Cluster)
    requires Inv(c)
    ensures Unblocked(c) <==> Compatible(c) && Waits(c) == {}
  {
    hide Inv, Compatible, WaitsFor, Entries, OwnerName, RuleOf, Admits;
    forall k | Live(c, k)
      ensures Admits(Entries(c.configMap), RuleOf(k, c.objects[k])) <==> forall l :: !WaitsFor(c, k, l)
    {
      AdmittedIffWaitsForNone(c, k);
    }
    WaitsLive(c);
  }

  lemma WaitsLive(c: Cluster)
    ensures Waits(c) == {} <==> forall k, l | Live(c, k) :: !WaitsFor(c, k, l)
  {
    forall k, l ensures (k, l) in Waits(c) <==> WaitsFor(c, k, l) { InWaits(c, k, l); }
    if Waits(c) != {} {
      var e :| e in Waits(c);
      assert WaitsFor(c, e.0, e.1);
    }
  }
}
