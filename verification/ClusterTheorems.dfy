/** The guarantees of the operator over whole runs (internal/controllers/masqueradingrule_controller.go). */
module ClusterTheorems {
  import opened Conventions
  import opened Options
  import opened RewriteRules
  import opened RuleMaps
  import opened Snippets
  import opened Clusters
  import opened ClusterSafety

  /** A live rule whose status is Ready for its present generation has exactly its rule in the config map, whatever
      users and workers have done before. */
  lemma ReadyIsNeverStale(c: Cluster, steps: seq<Step>, key: Key)
    requires Initial(c)
    requires key in Run(c, steps).objects && ReadyForSpec(Run(c, steps).objects[key])
    ensures var now := Run(c, steps);
            var obj := now.objects[key];
            var owner := obj.uid + " (" + key + ")";
            && now.configMap.Some? && Parse(now.configMap.value.text).Some?
            && owner in Parse(now.configMap.value.text).value
            && Parse(now.configMap.value.text).value[owner] == RewriteRule(owner, obj.from, obj.to)
  {
    hide Parse, Run;
    RunKeepsInv(c, steps);
    assert ReadyIsTrue(Run(c, steps), key);
  }

  /** Every entry of the config map belongs to a stored object that carries the finalizer; so no object
      disappears while its entry remains. */
  lemma NoOrphanedEntries(c: Cluster, steps: seq<Step>, owner: string)
    requires Initial(c) && owner in Entries(Run(c, steps).configMap)
    ensures exists key :: key in Run(c, steps).objects && OwnerName(key, Run(c, steps).objects[key].uid) == owner
                          && FINALIZER in Run(c, steps).objects[key].finalizers
  {
    hide Entries, OwnerName, Run;
    RunKeepsInv(c, steps);
    assert HasHolder(Run(c, steps), owner);
  }

  /** Consecutive updates of the config map record timestamps that are at least the delay apart. */
  lemma UpdatesAreSpaced(c: Cluster, steps: seq<Step>, i: nat)
    requires Initial(c) && i + 1 < |Run(c, steps).writes|
    ensures Run(c, steps).writes[i] + c.delay <= Run(c, steps).writes[i + 1]
  {
    hide Run, ConfigMapOk, ObjectOk, WorkerOk, ReadyIsTrue, HasHolder;
    RunKeepsInv(c, steps);
    DelayIsFixed(c, steps);
  }

  lemma {:induction false} DelayIsFixed(c: Cluster, steps: seq<Step>)
    ensures Run(c, steps).delay == c.delay
    decreases |steps|
  {
    hide Next;
    if steps != [] {
      DelayIsFixed(c, steps[..|steps| - 1]);
      StepKeepsDelay(Run(c, steps[..|steps| - 1]), steps[|steps| - 1]);
    }
  }

  lemma StepKeepsDelay(c: Cluster, s: Step)
    ensures Next(c, s).delay == c.delay
  {
    hide Decide, Print;
  }

  /** Every stored object is in the queue or at the hands of a worker: reconciliation never stops for a rule. */
  lemma NoRuleIsForgotten(c: Cluster, steps: seq<Step>, key: Key)
    requires Initial(c) && key in Run(c, steps).objects
    ensures key in Run(c, steps).queued || key in Run(c, steps).workers
  {
    hide Run, ConfigMapOk, WritesOk, WorkerOk, ReadyIsTrue, HasHolder;
    RunKeepsInv(c, steps);
    assert ObjectOk(Run(c, steps), key);
  }

  /* ---- the shared text is an atomic map ---- */

  /** The step stores a new text: a worker creates or updates the config map, and nobody was faster. */
  predicate Writes(c: Cluster, s: Step) {
    && s.Proceed? && s.key in c.workers && !s.outcome.verdict.Refused?
    && var w := c.workers[s.key];
       || (w.call.CreateConfigMap? && c.configMap.None?)
       || (w.call.UpdateConfigMap? && c.configMap.Some? && w.configMap.Some?
           && c.configMap.value.version == w.configMap.value.version)
  }

  /** The operation on the map that such a step stands for. */
  function WriteOf(c: Cluster, s: Step): Op
    requires Writes(c, s)
  {
    var obj := c.workers[s.key].obj;
    if obj.deleting then Remove(OwnerName(s.key, obj.uid)) else Add(RuleOf(s.key, obj))
  }

  ghost function WritesOf(c: Cluster, steps: seq<Step>): seq<Op>
    decreases |steps|
  {
    if steps == [] then []
    else
      var init, last := steps[..|steps| - 1], steps[|steps| - 1];
      WritesOf(c, init) + if Writes(Run(c, init), last) then [WriteOf(Run(c, init), last)] else []
  }

  lemma WriteChangesOwnEntry(c: Cluster, s: Step)
    requires Inv(c) && Writes(c, s)
    ensures var obj := c.workers[s.key].obj;
            var rule := RuleOf(s.key, obj);
            && (!obj.deleting ==> Admits(Entries(c.configMap), rule))
            && Entries(Next(c, s).configMap)
               == if obj.deleting then RemoveRule(Entries(c.configMap), rule.owner)
                  else Entries(c.configMap)[rule.owner := rule]
  {
    hide Parse, Print, Entries, OwnerName, HasHolder, ReadyIsTrue, Accepted, WellFormed, WritesOk, ObjectOk;
    var w := c.workers[s.key];
    WorkerUid(c, s.key);
    if w.call.CreateConfigMap? {
      NoEntries();
      EntriesWellFormed(None);
      WithRuleWellFormed(map[], s.key, w.obj);
      PrintedEntries(map[RuleOf(s.key, w.obj).owner := RuleOf(s.key, w.obj)], c.nextVersion, NoStamp);
    } else {
      UpdatedEntries(c, s.key);
    }
  }

  lemma OtherStepsKeepEntries(c: Cluster, s: Step)
    requires Inv(c) && !Writes(c, s)
    ensures Entries(Next(c, s).configMap) == Entries(c.configMap)
  {
    hide Print, Parse, Entries, Decide, OwnerName, HasHolder, ReadyIsTrue, WritesOk, ObjectOk, WorkerOk;
    match s
    case TouchConfigMap | AddConfigMap(_) => OthersKeepEntries(c, s);
    case Proceed(_, _) =>
    case _ =>
  }

  lemma OthersKeepEntries(c: Cluster, s: Step)
    requires s.TouchConfigMap? || s.AddConfigMap?
    ensures Entries(Next(c, s).configMap) == Entries(c.configMap)
  {
    hide Print, DoProceed, DoBegin;
  }

  /** The text refines a map with atomic operations: after every run, it stands for the result of the effective
      writes in their order, each applied to what the previous ones have left. */
  lemma {:induction false} TextRefinesAtomicMap(c: Cluster, steps: seq<Step>)
    requires Initial(c)
    ensures Run(c, steps).configMap.Some? ==> Parse(Run(c, steps).configMap.value.text).Some?
    ensures Entries(Run(c, steps).configMap) == AfterOps(map[], WritesOf(c, steps))
    decreases |steps|
  {
    hide Parse, Entries, OwnerName, Next, HasHolder, ReadyIsTrue, WritesOk, ObjectOk, WorkerOk, Writes;
    RunKeepsInv(c, steps);
    if steps == [] {
      InitialEntries(c);
    } else {
      var init, last := steps[..|steps| - 1], steps[|steps| - 1];
      var before := Run(c, init);
      TextRefinesAtomicMap(c, init);
      RunKeepsInv(c, init);
      if Writes(before, last) {
        WriteChangesOwnEntry(before, last);
        var ops := WritesOf(c, steps);
        assert ops[..|ops| - 1] == WritesOf(c, init);
      } else {
        OtherStepsKeepEntries(before, last);
        assert WritesOf(c, steps) == WritesOf(c, init);
      }
    }
  }

  lemma InitialEntries(c: Cluster)
    requires Initial(c)
    ensures Entries(c.configMap) == map[]
  {
    hide Parse;
  }

  /** None of the effective writes is refused by the rules that are there, so every one of them counts; and it
      leaves the entries of all other owners as they were. */
  lemma NoLostUpdates(c: Cluster, steps: seq<Step>, s: Step, owner: string)
    requires Initial(c) && Writes(Run(c, steps), s)
    ensures var before, after := Entries(Run(c, steps).configMap), Entries(Run(c, steps + [s]).configMap);
            var key, obj := s.key, Run(c, steps).workers[s.key].obj;
            && (owner != OwnerName(key, obj.uid) ==> EntryOf(after, owner) == EntryOf(before, owner))
            && EntryOf(after, OwnerName(key, obj.uid)) == (if obj.deleting then None else Some(RuleOf(key, obj)))
  {
    hide Parse, Entries, OwnerName, Next, Inv;
    RunKeepsInv(c, steps);
    WriteChangesOwnEntry(Run(c, steps), s);
    assert (steps + [s])[..|steps|] == steps;
  }
}
