/** Live rules that wait for each other's entries (internal/controllers/masqueradingrule_controller.go). */
module Deadlocks {
  import opened Conventions
  import opened Options
  import opened Graphs
  import opened RewriteRules
  import opened RuleMaps
  import opened Snippets
  import opened Clusters
  import opened ClusterSafety
  import opened ClusterTheorems
  import opened Convergence

  /** The entry that the config map has for the object of `l`. */
  ghost function StoredEntry(c: Cluster, l: Key): Option<RewriteRule>
    requires l in c.objects
  {
    EntryOf(Entries(c.configMap), OwnerName(l, c.objects[l].uid))
  }

  /** What the live rule of `k` wants is taken by the stored entry of `l`. */
  ghost predicate WaitsFor(c: Cluster, k: Key, l: Key) {
    && Live(c, k) && l in c.objects && l != k
    && StoredEntry(c, l).Some? && Clash(StoredEntry(c, l).value, RuleOf(k, c.objects[k]))
  }

  ghost function Waits(c: Cluster): set<(Key, Key)> {
    set k, l | k in c.objects && l in c.objects && WaitsFor(c, k, l) :: (k, l)
  }

  /** A live rule is refused by the entries exactly if it waits for the entry of some object. */
  lemma AdmittedIffWaitsForNone(c: Cluster, k: Key)
    requires Inv(c) && Live(c, k)
    ensures Admits(Entries(c.configMap), RuleOf(k, c.objects[k])) <==> forall l :: !WaitsFor(c, k, l)
  {
    hide Entries, OwnerName, Clash, ConfigMapOk, WritesOk, ReadyIsTrue, WorkerOk, ObjectOk, Printable;
    var m, rule := Entries(c.configMap), RuleOf(k, c.objects[k]);
    EntriesWellFormed(c.configMap);
    if l :| WaitsFor(c, k, l) {
      DifferentOwners(c, k, l);
      assert OwnerName(l, c.objects[l].uid) in m;
    }
    if o :| o in m && m[o].owner != rule.owner && Clash(m[o], rule) {
      assert HasHolder(c, o);
      var l :| l in c.objects && OwnerName(l, c.objects[l].uid) == o;
      assert WaitsFor(c, k, l);
    }
  }

  /* ---- who keeps waiting ---- */

  /** The copy of a worker, if there is one, is of the present specification. */
  predicate CopyIsPresent(c: Cluster, k: Key) {
    k in c.objects && k in c.workers ==>
      c.workers[k].obj.uid == c.objects[k].uid && c.workers[k].obj.generation == c.objects[k].generation
  }

  /** The step is no edit and no deletion of one of these rules. */
  predicate LeavesAlone(s: Step, keys: seq<Key>) {
    s.EditSpec? || s.DeleteRule? ==> s.key !in keys
  }

  /** The object is live with the same specification as before. */
  predicate SameSpec(c: Cluster, c': Cluster, k: Key) {
    && Live(c, k) && Live(c', k)
    && c'.objects[k].generation == c.objects[k].generation && c'.objects[k].uid == c.objects[k].uid
    && c'.objects[k].from == c.objects[k].from && c'.objects[k].to == c.objects[k].to
  }

  lemma DecisionKeepsCopy(key: Key, w: Worker, now: int, delay: int)
    ensures var d := Decide(key, w, now, delay);
            d.Some? ==> d.value.obj.uid == w.obj.uid && d.value.obj.generation == w.obj.generation
  {
    hide Print, Parse, NewRewriteRule, Admits, OwnerName, RuleMaps.RemoveRule;
  }

  lemma CallKeepsSpec(c: Cluster, k: Key, o: Outcome)
    requires Live(c, k) && k in c.workers && CopyIsPresent(c, k)
    ensures var c' := DoProceed(c, k, c.workers[k], o); SameSpec(c, c', k) && CopyIsPresent(c', k)
  {
    hide Decide;
    var w := c.workers[k];
    match w.call
    case ReadConfigMap =>
      DecisionKeepsCopy(k, w.(configMap := c.configMap), o.now, c.delay);
    case AddFinalizer =>
      var c1 := StoreObject(c, k, c.objects[k].(finalizers := w.obj.finalizers + {FINALIZER}));
      DecisionKeepsCopy(k, w.(obj := c1.objects[k]), o.now, c.delay);
    case _ =>
  }

  /** The object and the worker of the key are the same. */
  predicate Alike(c: Cluster, c': Cluster, k: Key) {
    && (k in c'.objects <==> k in c.objects) && (k in c.objects ==> c'.objects[k] == c.objects[k])
    && (k in c'.workers <==> k in c.workers) && (k in c.workers ==> c'.workers[k] == c.workers[k])
  }

  lemma OtherCallKeepsSpec(c: Cluster, key: Key, o: Outcome, k: Key)
    requires Live(c, k) && key in c.workers && CopyIsPresent(c, k) && k != key
    ensures var c' := DoProceed(c, key, c.workers[key], o); SameSpec(c, c', k) && CopyIsPresent(c', k)
  {
    var c' := DoProceed(c, key, c.workers[key], o);
    assert Alike(c, c', k) by {
      hide Decide, Current, Fail, Finish;
      match c.workers[key].call
      case ReadConfigMap =>
      case AddFinalizer =>
      case CreateConfigMap(_) =>
      case UpdateConfigMap(_, _) =>
      case CheckRecord =>
      case DropFinalizer =>
      case SaveStatus =>
    }
  }

  lemma StepKeepsSpec(c: Cluster, s: Step, k: Key)
    requires Live(c, k) && CopyIsPresent(c, k) && LeavesAlone(s, [k])
    ensures SameSpec(c, Next(c, s), k) && CopyIsPresent(Next(c, s), k)
  {
    hide DoProceed;
    assert k in [k];
    if s.Proceed? && Enabled(c, s) {
      if s.key == k { CallKeepsSpec(c, k, s.outcome); } else { OtherCallKeepsSpec(c, s.key, s.outcome, k); }
    }
  }

  /** A present copy has the rule of the stored object. */
  lemma PresentCopyIsSame(c: Cluster, k: Key)
    requires Inv(c) && Live(c, k) && k in c.workers && CopyIsPresent(c, k)
    ensures RuleOf(k, c.workers[k].obj) == RuleOf(k, c.objects[k]) && !c.workers[k].obj.deleting
  {
    hide OwnerName, CallOk, Entries, ConfigMapOk, WritesOk, ReadyIsTrue, HasHolder;
    assert WorkerOk(c, k);
  }

  /** No step changes the entry of a rule that waits, unless the rule is edited or deleted. */
  lemma WaitingEntryStays(c: Cluster, s: Step, k: Key, l: Key)
    requires Inv(c) && WaitsFor(c, k, l) && CopyIsPresent(c, k) && LeavesAlone(s, [k])
    ensures Live(Next(c, s), k) && StoredEntry(Next(c, s), k) == StoredEntry(c, k)
  {
    hide Inv, Next, Entries, OwnerName, Clash, Admits, Decide, Writes;
    StepKeepsSpec(c, s, k);
    if Writes(c, s) {
      WriterUid(c, s);
      WriteChangesOwnEntry(c, s);
      if s.key == k {
        PresentCopyIsSame(c, k);
        AdmittedIffWaitsForNone(c, k);
      } else {
        ObjectUid(c, k);
        if OwnerName(k, c.objects[k].uid) == OwnerName(s.key, c.workers[s.key].obj.uid) {
          OwnerNameInjective(k, c.objects[k].uid, s.key, c.workers[s.key].obj.uid);
        }
      }
    } else {
      OtherStepsKeepEntries(c, s);
    }
  }

  lemma WriterUid(c: Cluster, s: Step)
    requires Inv(c) && Writes(c, s)
    ensures s.Proceed? && s.key in c.workers && ' ' !in c.workers[s.key].obj.uid
  {
    hide Inv;
    WorkerUid(c, s.key);
    UidHasNoSpace(c.workers[s.key].obj.uid);
  }

  lemma ObjectUid(c: Cluster, k: Key)
    requires Inv(c) && k in c.objects
    ensures ' ' !in c.objects[k].uid
  {
    hide ConfigMapOk, WritesOk, ReadyIsTrue, HasHolder, WorkerOk;
    assert ObjectOk(c, k);
    UidHasNoSpace(c.objects[k].uid);
  }

  /** Rules that wait for each other in a circle; nobody is at work on an older specification of them. */
  ghost predicate Deadlock(c: Cluster, keys: seq<Key>) {
    IsCycle(Waits(c), keys) && forall k | k in keys :: CopyIsPresent(c, k)
  }

  /** The next one in the circle. */
  function Successor(keys: seq<Key>, i: nat): Key
    requires i < |keys|
  {
    if i + 1 < |keys| then keys[i + 1] else keys[0]
  }

  lemma InWaits(c: Cluster, k: Key, l: Key)
    ensures (k, l) in Waits(c) <==> WaitsFor(c, k, l)
  {
  }

  lemma CycleWaits(c: Cluster, keys: seq<Key>)
    ensures IsCycle(Waits(c), keys)
            <==> keys != [] && forall i | 0 <= i < |keys| :: WaitsFor(c, keys[i], Successor(keys, i))
  {
    hide WaitsFor, Waits;
    forall k, l ensures (k, l) in Waits(c) <==> WaitsFor(c, k, l) { InWaits(c, k, l); }
    if IsCycle(Waits(c), keys) {
      forall i | 0 <= i < |keys| ensures (keys[i], Successor(keys, i)) in Waits(c) {
        if i + 1 < |keys| { assert (keys[i + 1 - 1], keys[i + 1]) in Waits(c); }
      }
    }
    if keys != [] && forall i | 0 <= i < |keys| :: WaitsFor(c, keys[i], Successor(keys, i)) {
      forall i | 0 < i < |keys| ensures (keys[i - 1], keys[i]) in Waits(c) {
        assert keys[i] == Successor(keys, i - 1);
      }
      assert WaitsFor(c, keys[|keys| - 1], Successor(keys, |keys| - 1));
    }
  }

  /** The rules of a deadlock after some steps. */
  ghost predicate Unmoved(c: Cluster, c': Cluster, keys: seq<Key>) {
    forall k | k in keys :: SameSpec(c, c', k) && StoredEntry(c', k) == StoredEntry(c, k)
  }

  lemma StepKeepsDeadlock(c: Cluster, s: Step, keys: seq<Key>)
    requires Inv(c) && Deadlock(c, keys) && LeavesAlone(s, keys)
    ensures Deadlock(Next(c, s), keys) && Unmoved(c, Next(c, s), keys)
  {
    hide Inv, Next, StoredEntry, Clash, Waits, IsCycle, OwnerName, CopyIsPresent;
    var c' := Next(c, s);
    CycleWaits(c, keys);
    CycleWaits(c', keys);
    forall k | k in keys
      ensures SameSpec(c, c', k) && StoredEntry(c', k) == StoredEntry(c, k) && CopyIsPresent(c', k)
    {
      var i :| 0 <= i < |keys| && keys[i] == k;
      assert WaitsFor(c, keys[i], Successor(keys, i));
      StepKeepsSpec(c, s, k);
      WaitingEntryStays(c, s, k, Successor(keys, i));
    }
    forall i | 0 <= i < |keys| ensures WaitsFor(c', keys[i], Successor(keys, i)) {
      assert WaitsFor(c, keys[i], Successor(keys, i));
      assert keys[i] in keys && Successor(keys, i) in keys;
    }
  }

  /** A deadlock is for good: whatever happens to other rules, however often and in whatever interleaving the
      operator reconciles, none of the rules of the circle gets its entry in place as long as nobody edits or
      deletes one of them. */
  lemma {:induction false} DeadlockIsForGood(c: Cluster, steps: seq<Step>, keys: seq<Key>)
    requires Inv(c) && Deadlock(c, keys)
    requires forall i | 0 <= i < |steps| :: LeavesAlone(steps[i], keys)
    ensures Inv(Run(c, steps)) && Deadlock(Run(c, steps), keys) && Unmoved(c, Run(c, steps), keys)
    ensures forall k | k in keys :: !EntryIsCurrent(Run(c, steps), k) && !ReadyForSpec(Run(c, steps).objects[k])
    decreases |steps|
  {
    hide Inv, Next, StoredEntry, Deadlock, EntryIsCurrent;
    if steps == [] {
      DeadlockIsLive(c, keys);
    } else {
      var init, last := steps[..|steps| - 1], steps[|steps| - 1];
      DeadlockIsForGood(c, init, keys);
      StepKeepsInv(Run(c, init), last);
      StepKeepsDeadlock(Run(c, init), last, keys);
    }
    forall k | k in keys ensures !EntryIsCurrent(Run(c, steps), k) && !ReadyForSpec(Run(c, steps).objects[k]) {
      NotInPlace(Run(c, steps), keys, k);
    }
  }

  lemma DeadlockIsLive(c: Cluster, keys: seq<Key>)
    requires Deadlock(c, keys)
    ensures forall k | k in keys :: Live(c, k)
  {
    hide StoredEntry, Clash, Waits, IsCycle, OwnerName, CopyIsPresent;
    CycleWaits(c, keys);
    forall k | k in keys ensures Live(c, k) {
      var i :| 0 <= i < |keys| && keys[i] == k;
      assert WaitsFor(c, keys[i], Successor(keys, i));
    }
  }

  lemma NotInPlace(c: Cluster, keys: seq<Key>, k: Key)
    requires Inv(c) && Deadlock(c, keys) && k in keys
    ensures Live(c, k) && !EntryIsCurrent(c, k) && !ReadyForSpec(c.objects[k])
  {
    hide StoredEntry, Clash, Waits, IsCycle, OwnerName, CopyIsPresent, Entries, Admits, ConfigMapOk, WritesOk,
         HasHolder, ObjectOk, WorkerOk, WellFormed;
    CycleWaits(c, keys);
    var i :| 0 <= i < |keys| && keys[i] == k;
    assert WaitsFor(c, keys[i], Successor(keys, i));
    AdmittedIffWaitsForNone(c, k);
    if EntryIsCurrent(c, k) {
      EntriesWellFormed(c.configMap);
      PresentIsAdmitted(Entries(c.configMap), OwnerName(k, c.objects[k].uid));
    }
    assert ReadyIsTrue(c, k);
  }

  /** Exchanging the sources of two rules that are in place makes a deadlock of them. */
  lemma SwapIsDeadlock(c: Cluster, key: Key, other: Key)
    requires Idle(c) && Live(c, key) && Live(c, other) && key != other
    requires EntryIsCurrent(c, key) && EntryIsCurrent(c, other)
    ensures var s1 := EditSpec(key, c.objects[other].from, c.objects[key].to);
            var s2 := EditSpec(other, c.objects[key].from, c.objects[other].to);
            var c' := Run(c, [s1, s2]);
            Inv(c') && Deadlock(c', [key, other])
  {
    hide Inv, Entries, OwnerName, Run, Next, WaitsFor, IsCycle;
    var s1 := EditSpec(key, c.objects[other].from, c.objects[key].to);
    var s2 := EditSpec(other, c.objects[key].from, c.objects[other].to);
    var c1 := Next(c, s1);
    var c' := Next(c1, s2);
    EmptyRun(c);
    RunStep(c, [], s1);
    RunStep(c, [s1], s2);
    assert [] + [s1] == [s1] && [s1] + [s2] == [s1, s2];
    StepKeepsInv(c, s1);
    StepKeepsInv(c1, s2);
    Edited(c, key, s1.from, s1.to);
    Edited(c1, other, s2.from, s2.to);
    TakenSource(c', key, other);
    TakenSource(c', other, key);
    CycleWaits(c', [key, other]);
  }

  lemma Edited(c: Cluster, key: Key, from: string, to: string)
    requires Live(c, key)
    ensures var c' := Next(c, EditSpec(key, from, to));
            && c'.workers == c.workers && c'.configMap == c.configMap
            && key in c'.objects && c'.objects == c.objects[key := c'.objects[key]]
            && c'.objects[key].uid == c.objects[key].uid && !c'.objects[key].deleting
            && c'.objects[key].from == from && c'.objects[key].to == to
  {
    hide DoBegin, DoProceed, StoreConfigMap;
    assert c.objects[key := c.objects[key]] == c.objects;
  }

  lemma TakenSource(c: Cluster, key: Key, other: Key)
    requires Live(c, key) && other in c.objects && key != other
    requires StoredEntry(c, other).Some? && StoredEntry(c, other).value.from == c.objects[key].from
    ensures WaitsFor(c, key, other)
  {
    hide Entries, OwnerName;
  }

  /** In particular, two live rules that each want what the entry of the other one holds, such as after swapping
      their sources, stay as they are through all passes over these and all other rules. */
  lemma SwappedRulesStayBlocked(c: Cluster, turns: seq<Turn>, key: Key, other: Key)
    requires Idle(c) && WaitsFor(c, key, other) && WaitsFor(c, other, key)
    ensures var c' := Passes(c, turns);
            && WaitsFor(c', key, other) && WaitsFor(c', other, key)
            && StoredEntry(c', key) == StoredEntry(c, key) && StoredEntry(c', other) == StoredEntry(c, other)
  {
    hide Inv, WaitsFor, StoredEntry, Run;
    var keys := [key, other];
    CycleWaits(c, keys);
    PassesAreRun(c, turns);
    DeadlockIsForGood(c, StepsOf(turns), keys);
    CycleWaits(Passes(c, turns), keys);
    assert key in keys && other in keys && Successor(keys, 0) == other && Successor(keys, 1) == key;
    assert WaitsFor(Passes(c, turns), keys[0], Successor(keys, 0));
    assert WaitsFor(Passes(c, turns), keys[1], Successor(keys, 1));
  }
}
