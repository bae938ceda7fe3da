/** One reconciliation as sequential code (internal/controllers/masqueradingrule_controller.go), proved to be a run
    of the state machine: the decisions and API calls are those of its steps, in the same order, whether the calls
    succeed or fail. */
module Reconcilers {
  import opened Conventions
  import opened Options
  import opened RewriteRules
  import opened RuleMaps
  import opened Snippets
  import opened RewriteRuleSets
  import opened Clusters

  /** The cluster while the worker of `key` is the only one. */
  function Working(c: Cluster, key: Key, w: Worker): Cluster {
    c.(workers := map[key := w])
  }

  /** The state after the first `n` calls of the worker of `key`, with the given outcomes. */
  ghost function AfterCalls(c: Cluster, key: Key, outcomes: seq<Outcome>, n: nat): Cluster
    requires n <= |outcomes|
  {
    if n == 0 then c else Next(AfterCalls(c, key, outcomes, n - 1), Proceed(key, outcomes[n - 1]))
  }

  lemma {:induction false} NoWorkerNoCalls(c: Cluster, key: Key, outcomes: seq<Outcome>, n: nat, m: nat)
    requires n <= m <= |outcomes| && key !in AfterCalls(c, key, outcomes, n).workers
    ensures AfterCalls(c, key, outcomes, m) == AfterCalls(c, key, outcomes, n)
  {
    hide DoProceed, DoBegin, StoreObject, StoreConfigMap;
    if n < m { NoWorkerNoCalls(c, key, outcomes, n, m - 1); }
  }

  /** What the worker saves at the end. */
  predicate Ends(w: Worker, obj: RuleObject, failed: bool) {
    w.call.SaveStatus? && w.obj == if failed then obj.(state := Error) else obj
  }

  /** The API server and the work queue. */
  class ApiServer {
    var objects: map<Key, RuleObject>
    var configMap: Option<ConfigMap>
    var queued: set<Key>
    var nextVersion: nat
    const delay: int
    ghost var uids: set<string>
    ghost var writes: seq<int>

    constructor (delay: int)
      ensures Initial(State()) && this.delay == delay
    {
      objects, configMap, queued, nextVersion := map[], None, {}, 0;
      this.delay := delay;
      uids, writes := {}, [];
    }

    ghost function State(): Cluster
      reads this
    {
      Cluster(objects, configMap, map[], queued, nextVersion, uids, writes, delay)
    }

    /** Replaces the finalizers of the object if it is current. */
    method UpdateFinalizers(key: Key, obj: RuleObject, finalizers: set<string>, verdict: Verdict)
      returns (ok: bool, stored: RuleObject)
      modifies this
      ensures State() == if Current(old(State()), key, obj) && !verdict.Refused?
                         then StoreObject(old(State()), key, old(objects)[key].(finalizers := finalizers))
                         else old(State())
      ensures ok <==> Current(old(State()), key, obj) && verdict.Done?
      ensures ok && key in objects ==> stored == objects[key]
    {
      ok, stored := false, obj;
      if key in objects && objects[key].version == obj.version && !verdict.Refused? {
        stored := objects[key].(finalizers := finalizers);
        if stored.deleting && finalizers == {} {
          objects := objects - {key};
        } else {
          stored := stored.(version := nextVersion);
          objects := objects[key := stored];
        }
        nextVersion := nextVersion + 1;
        ok := verdict.Done?;
      }
    }

    method UpdateStatus(key: Key, obj: RuleObject, verdict: Verdict)
      modifies this
      ensures State() == if Current(old(State()), key, obj) && !verdict.Refused?
                         then StoreObject(old(State()), key,
                                          old(objects)[key].(state := obj.state, observed := obj.observed))
                         else old(State())
    {
      if key in objects && objects[key].version == obj.version && !verdict.Refused? {
        var stored := objects[key].(state := obj.state, observed := obj.observed);
        if stored.deleting && stored.finalizers == {} {
          objects := objects - {key};
        } else {
          objects := objects[key := stored.(version := nextVersion)];
        }
        nextVersion := nextVersion + 1;
      }
    }

    method StoreNewConfigMap(text: string, verdict: Verdict) returns (ok: bool)
      modifies this
      ensures State() == if old(configMap).None? && !verdict.Refused?
                         then StoreConfigMap(old(State()), text, NoStamp) else old(State())
      ensures ok <==> old(configMap).None? && verdict.Done?
    {
      ok := false;
      if configMap.None? && !verdict.Refused? {
        configMap := Some(ConfigMap(nextVersion, text, NoStamp));
        nextVersion := nextVersion + 1;
        ok := verdict.Done?;
      }
    }

    method ReplaceConfigMap(copy: ConfigMap, text: string, time: int, verdict: Verdict) returns (ok: bool)
      modifies this
      ensures var fits := old(configMap).Some? && old(configMap).value.version == copy.version;
              && (ok <==> fits && verdict.Done?)
              && State() == if fits && !verdict.Refused?
                            then StoreConfigMap(old(State()), text, At(time)).(writes := old(writes) + [time])
                            else old(State())
    {
      ok := false;
      if configMap.Some? && configMap.value.version == copy.version && !verdict.Refused? {
        configMap := Some(ConfigMap(nextVersion, text, At(time)));
        nextVersion := nextVersion + 1;
        writes := writes + [time];
        ok := verdict.Done?;
      }
    }

    /** Writes the changed rule set back, unless the last write is too recent. */
    method WriteRuleSet(key: Key, obj: RuleObject, copy: ConfigMap, state: RuleState, ruleset: RewriteRuleSet, now: int,
                        o: Outcome, ghost w0: Worker)
      returns (result: RuleObject, failed: bool, called: bool, ghost w: Worker)
      requires w0.obj == obj && w0.configMap == Some(copy)
      modifies this
      ensures var d := WriteBack(w0, copy.stamp, state, ruleset.rulesByOwner, now, delay);
              && Ends(w, result, failed)
              && (if called
                  then Next(Working(old(State()), key, d), Proceed(key, o)) == Working(State(), key, w)
                  else State() == old(State()) && d == w)
    {
      hide Print, Parse, Decide, DoBegin, StoreObject;
      result := obj.(state := state);
      if copy.stamp.Garbled? {
        return result, true, false, Fail(w0);
      }
      if copy.stamp.At? && now < copy.stamp.time + delay {
        return result, false, false, Finish(w0, state);
      }
      var text := ruleset.String();
      var stored := ReplaceConfigMap(copy, text, now, o.verdict);
      ghost var d := WriteBack(w0, copy.stamp, state, ruleset.rulesByOwner, now, delay);
      return result, !stored, true, if stored then d.(call := SaveStatus) else Fail(d);
    }

    /** The rule is live and carries the finalizer. */
    method ReconcileLive(key: Key, obj: RuleObject, copy: Option<ConfigMap>, now: int, o: Outcome, ghost w0: Worker)
      returns (result: RuleObject, failed: bool, called: bool, ghost w: Worker)
      requires w0.obj == obj && w0.configMap == copy
      modifies this
      ensures var d := DecideLive(key, w0, now, delay);
              && Ends(w, result, failed)
              && (if called
                  then Next(Working(old(State()), key, d), Proceed(key, o)) == Working(State(), key, w)
                  else State() == old(State()) && d == w)
    {
      hide Print, Parse, DecideDeleting, DoBegin, Next, NewRewriteRule, Admits, WriteBack;
      var owner := OwnerName(key, obj.uid);
      var rule := NewRewriteRule(owner, obj.from, obj.to);
      if rule.None? {
        return obj, true, false, Fail(w0);
      }
      NewRuleOwner(owner, obj.from, obj.to);
      if copy.None? {
        result, failed, w := CreateRuleSet(key, obj, rule.value, now, o, w0);
        called := true;
        return;
      }
      var added, changed, ruleset := AddToText(copy.value.text, rule.value);
      if !added {
        return obj, true, false, Fail(w0);
      }
      if changed {
        result, failed, called, w := WriteRuleSet(key, obj, copy.value, Processing, ruleset, now, o, w0);
        return;
      }
      // the record is looked up under the probe name
      CheckStep(State(), key, DecideLive(key, w0, now, delay), o);
      if o.answer.Unknown? {
        return obj, true, true, Fail(w0);
      }
      result := obj.(state := if o.answer.Active? then Ready else Processing);
      return result, false, true, Finish(w0, result.state);
    }

    /** There is no config map yet: the rule is the first of a new one. */
    method CreateRuleSet(key: Key, obj: RuleObject, rule: RewriteRule, now: int, o: Outcome, ghost w0: Worker)
      returns (result: RuleObject, failed: bool, ghost w: Worker)
      requires w0.obj == obj && w0.configMap.None?
      requires Some(rule) == NewRewriteRule(OwnerName(key, obj.uid), obj.from, obj.to)
               && rule.owner == OwnerName(key, obj.uid)
      modifies this
      ensures Ends(w, result, failed)
      ensures Next(Working(old(State()), key, DecideLive(key, w0, now, delay)), Proceed(key, o))
              == Working(State(), key, w)
    {
      hide Print, Parse, Decide, DoBegin, StoreObject, NewRewriteRule, Accepted, Admits, Consistent, WriteBack,
           OwnerName;
      var ruleset := new RewriteRuleSet();
      AdmittedByNone(rule);
      var added, _ := ruleset.AddRule(rule);
      result := obj.(state := Processing);
      var text := ruleset.String();
      assert ruleset.rulesByOwner == map[rule.owner := rule];
      var stored := StoreNewConfigMap(text, o.verdict);
      ghost var d := DecideLive(key, w0, now, delay);
      failed, w := !stored, if stored then d.(call := SaveStatus) else Fail(d);
    }

    /** Reads the rule set from the text and adds the rule to it. */
    method AddToText(text: string, rule: RewriteRule) returns (added: bool, changed: bool, ruleset: RewriteRuleSet)
      ensures var m := Parse(text);
              if m.Some? && RuleMaps.AddRule(m.value, rule).Some? then
                added && ruleset.rulesByOwner == RuleMaps.AddRule(m.value, rule).value
                && (changed <==> ruleset.rulesByOwner != m.value)
              else !added
    {
      hide Print, Parse, Consistent;
      added, changed := false, false;
      var parsed;
      parsed, ruleset := ParseRewriteRuleSet(text);
      if parsed {
        added, changed := ruleset.AddRule(rule);
      }
    }

    lemma CheckStep(c: Cluster, key: Key, w: Worker, o: Outcome)
      requires c.workers == map[] && w.call.CheckRecord?
      ensures Next(Working(c, key, w), Proceed(key, o))
              == Working(c, key, if o.answer.Unknown? then Fail(w)
                                 else Finish(w, if o.answer.Active? then Ready else Processing))
    {
      hide Decide, DoBegin, StoreObject, StoreConfigMap;
    }

    lemma NewRuleOwner(owner: string, from: string, to: string)
      ensures var r := NewRewriteRule(owner, from, to); r.Some? ==> r.value.owner == owner
    {
    }

    lemma AdmittedByNone(rule: RewriteRule)
      ensures Admits(map[], rule)
    {
    }

    /** The rule is being deleted; `skip` if the status must not be saved. */
    method ReconcileDeleting(key: Key, obj: RuleObject, copy: Option<ConfigMap>, now: int, o: Outcome, ghost w0: Worker)
      returns (result: RuleObject, failed: bool, called: bool, skip: bool, ghost w: Worker)
      requires w0.obj == obj && w0.configMap == copy
      requires key in objects && objects[key] == obj.(observed := objects[key].observed)
      modifies this
      ensures var d := DecideDeleting(key, w0, now, delay);
              if skip then
                if called then d.Some? && Next(Working(old(State()), key, d.value), Proceed(key, o)) == State()
                else d.None? && State() == old(State())
              else
                d.Some? && Ends(w, result, failed)
                && (if called
                    then Next(Working(old(State()), key, d.value), Proceed(key, o)) == Working(State(), key, w)
                    else State() == old(State()) && d.value == w)
    {
      hide Print, Parse, Decide, DoBegin, Consistent, WriteBack;
      skip := false;
      if obj.finalizers - {FINALIZER} != {} {
        return obj.(state := DeletionBlocked), false, false, false, Finish(w0, DeletionBlocked);
      }
      var owner := OwnerName(key, obj.uid);
      if copy.Some? {
        var parsed, ruleset := ParseRewriteRuleSet(copy.value.text);
        if !parsed {
          return obj, true, false, false, Fail(w0);
        }
        var changed := ruleset.RemoveRule(owner);
        RemovedIffPresent(Parse(copy.value.text).value, owner);
        if changed {
          result, failed, called, w := WriteRuleSet(key, obj, copy.value, Deleting, ruleset, now, o, w0);
          return;
        }
      }
      result, failed, called, skip, w := obj, false, false, true, w0;
      if FINALIZER in obj.finalizers {
        ghost var before := State();
        var ok, _ := UpdateFinalizers(key, obj, obj.finalizers - {FINALIZER}, o.verdict);
        called := true;
        ghost var d := w0.(call := DropFinalizer);
        DropStep(before, key, d, o);
        if !ok {
          failed, skip, w := true, false, Fail(d);
        }
      }
    }

    lemma RemovedIffPresent(m: RuleMap, owner: string)
      ensures RuleMaps.RemoveRule(m, owner) != m <==> owner in m
    {
      if owner in m { assert owner !in RuleMaps.RemoveRule(m, owner); }
    }

    lemma DropStep(c: Cluster, key: Key, d: Worker, o: Outcome)
      requires c.workers == map[] && d.call.DropFinalizer?
      ensures Next(Working(c, key, d), Proceed(key, o))
              == if Current(c, key, d.obj) && !o.verdict.Refused? then
                   var c' := StoreObject(c, key, c.objects[key].(finalizers := d.obj.finalizers - {FINALIZER}));
                   if o.verdict.Done? then c' else Working(c', key, Fail(d))
                 else Working(c, key, Fail(d))
    {
      hide Decide, DoBegin, StoreConfigMap;
    }

    lemma ReadStep(c: Cluster, key: Key, obj: RuleObject, o: Outcome)
      requires c.workers == map[]
      ensures var w0 := Worker(ReadConfigMap, obj, None);
              var d := Decide(key, w0.(configMap := c.configMap), o.now, c.delay);
              Next(Working(c, key, w0), Proceed(key, o))
              == if !o.verdict.Done? then Working(c, key, Fail(w0))
                 else if d.Some? then Working(c, key, d.value) else c
    {
      hide Decide, DoBegin, StoreConfigMap, StoreObject;
    }

    lemma AddFinalizerStep(c: Cluster, key: Key, w: Worker, o: Outcome)
      requires c.workers == map[] && w.call.AddFinalizer? && !w.obj.deleting
      requires key in c.objects && c.objects[key] == w.obj.(observed := c.objects[key].observed)
      ensures var c' := StoreObject(c, key, c.objects[key].(finalizers := w.obj.finalizers + {FINALIZER}));
              Next(Working(c, key, w), Proceed(key, o))
              == if o.verdict.Refused? then Working(c, key, Fail(w))
                 else if o.verdict.Lost? then Working(c', key, Fail(w))
                 else Working(c', key, DecideLive(key, w.(obj := c'.objects[key]), o.now, c.delay))
    {
      hide DecideLive, DecideDeleting, DoBegin, StoreConfigMap;
    }

    /** The reconciliation of a rule that has a state, up to the deferred update of the status; `calls` counts the
        API calls. */
    method ReconcileRule(key: Key, obj: RuleObject, outcomes: seq<Outcome>)
      returns (result: RuleObject, failed: bool, skip: bool, calls: nat, ghost w: Worker)
      requires |outcomes| == 4
      requires key in objects && objects[key] == obj.(observed := objects[key].observed)
      modifies this
      ensures calls <= 3
      ensures var c := AfterCalls(Working(old(State()), key, Worker(ReadConfigMap, obj, None)), key, outcomes, calls);
              if skip then c == State() else Ends(w, result, failed) && c == Working(State(), key, w)
    {
      hide Next, DecideLive, DecideDeleting, StoreObject;
      ghost var start := State();
      ghost var w0 := Worker(ReadConfigMap, obj, None);
      ghost var c := Working(start, key, w0);
      ReadStep(start, key, obj, outcomes[0]);
      FirstTwoCalls(c, key, outcomes);
      calls, skip := 1, false;
      if !outcomes[0].verdict.Done? {
        return obj, true, false, 1, Fail(w0);
      }
      var copy := configMap;
      ghost var w1 := w0.(configMap := copy);
      if obj.deleting {
        var called;
        result, failed, called, skip, w := ReconcileDeleting(key, obj, copy, outcomes[0].now, outcomes[1], w1);
        calls := if called then 2 else 1;
        return;
      }
      var current, now := obj, outcomes[0].now;
      if FINALIZER !in obj.finalizers {
        w1 := w1.(call := AddFinalizer);
        AddFinalizerStep(start, key, w1, outcomes[1]);
        var ok, stored := UpdateFinalizers(key, obj, obj.finalizers + {FINALIZER}, outcomes[1].verdict);
        calls := 2;
        if !ok {
          return obj, true, false, 2, Fail(w1);
        }
        StoredWithFinalizer(start, key, obj);
        current, now := stored, outcomes[1].now;
        w1 := w1.(obj := stored);
      }
      var called;
      result, failed, called, w := ReconcileLive(key, current, copy, now, outcomes[calls], w1);
      if called {
        calls := calls + 1;
      }
    }

    lemma FirstTwoCalls(c: Cluster, key: Key, outcomes: seq<Outcome>)
      requires |outcomes| >= 2
      ensures AfterCalls(c, key, outcomes, 1) == Next(c, Proceed(key, outcomes[0]))
      ensures AfterCalls(c, key, outcomes, 2) == Next(Next(c, Proceed(key, outcomes[0])), Proceed(key, outcomes[1]))
    {
      hide Next;
      assert AfterCalls(c, key, outcomes, 0) == c;
    }

    lemma StoredWithFinalizer(c: Cluster, key: Key, obj: RuleObject)
      requires key in c.objects
      ensures key in StoreObject(c, key, c.objects[key].(finalizers := obj.finalizers + {FINALIZER})).objects
    {
    }

    /** One reconciliation: the steps of the state machine for its API calls lead from the old state to the new one. */
    method Reconcile(key: Key, get: Verdict, outcomes: seq<Outcome>)
      requires key in queued && |outcomes| == 4
      modifies this
      ensures State() == AfterCalls(Next(old(State()), Begin(key, get)), key, outcomes, 4)
    {
      hide Decide, StoreConfigMap;
      ghost var start := State();
      ghost var begun := Next(start, Begin(key, get));
      if !get.Done? {
        NoWorkerNoCalls(begun, key, outcomes, 0, 4);
        return;
      }
      queued := queued - {key};
      if key !in objects {
        NoWorkerNoCalls(begun, key, outcomes, 0, 4);
        return;
      }
      var obj := objects[key].(observed := objects[key].generation);
      var failed, skip, calls := false, false, 0;
      ghost var w := Worker(SaveStatus, obj.(state := New), None);
      if obj.state.Unset? {
        obj := obj.(state := New);
      } else {
        obj, failed, skip, calls, w := ReconcileRule(key, obj, outcomes);
      }
      if skip {
        NoWorkerNoCalls(begun, key, outcomes, calls, 4);
        return;
      }
      // deferred: save the status; the key is scheduled again in any case
      if failed {
        obj := obj.(state := Error);
      }
      assert AfterCalls(begun, key, outcomes, calls) == Working(State(), key, w);
      ghost var before := State();
      UpdateStatus(key, obj, outcomes[calls].verdict);
      queued := queued + {key};
      SaveStep(before, key, w, outcomes[calls]);
      assert AfterCalls(begun, key, outcomes, calls + 1)
             == Next(Working(before, key, w), Proceed(key, outcomes[calls]));
      assert State() == AfterCalls(begun, key, outcomes, calls + 1);
      NoWorkerNoCalls(begun, key, outcomes, calls + 1, 4);
    }

    lemma SaveStep(c: Cluster, key: Key, w: Worker, o: Outcome)
      requires c.workers == map[] && w.call.SaveStatus?
      ensures var c' := if Current(c, key, w.obj) && !o.verdict.Refused? then
                          StoreObject(c, key, c.objects[key].(state := w.obj.state, observed := w.obj.observed))
                        else c;
              Next(Working(c, key, w), Proceed(key, o)) == c'.(queued := c.queued + {key})
    {
      hide Decide, DoBegin, StoreConfigMap;
    }
  }

  /** The sequential code makes a run of the state machine. */
  lemma CallsAreRun(c: Cluster, key: Key, get: Verdict, outcomes: seq<Outcome>, n: nat)
    requires n <= |outcomes|
    ensures AfterCalls(Next(c, Begin(key, get)), key, outcomes, n)
            == Run(c, [Begin(key, get)] + seq(n, i requires 0 <= i < n => Proceed(key, outcomes[i])))
    decreases n
  {
    hide Next;
    var steps := [Begin(key, get)] + seq(n, i requires 0 <= i < n => Proceed(key, outcomes[i]));
    if n == 0 {
      assert steps == [Begin(key, get)] && steps[..0] == [];
      assert Run(c, []) == c;
    } else {
      CallsAreRun(c, key, get, outcomes, n - 1);
      assert steps[..|steps| - 1]
             == [Begin(key, get)] + seq(n - 1, i requires 0 <= i < n - 1 => Proceed(key, outcomes[i]));
    }
  }
}
