/** What becomes of API calls that fail, and of a config map that cannot be read
    (internal/controllers/masqueradingrule_controller.go). */
module Failures {
  import opened Conventions
  import opened RewriteRules
  import opened Snippets
  import opened Clusters

  /** The stored object is another one than the worker has read, or there is none. */
  predicate ObjectHasChanged(c: Cluster, key: Key)
    requires key in c.workers
  {
    key !in c.objects || c.objects[key].version != c.workers[key].obj.version
  }

  /** The API server cannot do what the worker of `key` asks for. */
  predicate Conflicts(c: Cluster, key: Key)
    requires key in c.workers
  {
    match c.workers[key].call
    case ReadConfigMap | CheckRecord | SaveStatus => false
    case AddFinalizer | DropFinalizer => ObjectHasChanged(c, key)
    case CreateConfigMap(_) => c.configMap.Some?
    case UpdateConfigMap(_, _) =>
      var copy := c.workers[key].configMap;
      c.configMap.None? || copy.None? || c.configMap.value.version != copy.value.version
  }

  /** The worker gets an error for an answer. */
  predicate CallFails(c: Cluster, key: Key, o: Outcome)
    requires key in c.workers
  {
    match c.workers[key].call
    case CheckRecord => o.answer.Unknown?
    case SaveStatus => false
    case _ => Conflicts(c, key) || !o.verdict.Done?
  }

  /** The next call of the worker of `key`, with the outcome `save`, ends the reconciliation; if the stored object is
      still the one that the worker had read in `before`, it gets the given state. The key is scheduled again. */
  ghost predicate EndsWith(before: Cluster, c: Cluster, key: Key, state: RuleState, save: Outcome)
    requires key in before.workers
  {
    var c' := Next(c, Proceed(key, save));
    var copy := before.workers[key].obj;
    && key in c.workers && key !in c'.workers && key in c'.queued && c'.configMap == c.configMap
    && (save.verdict.Done? && key in c.objects && c.objects[key].version == copy.version
        && (c.objects[key].deleting ==> c.objects[key].finalizers != {}) ==>
          && key in c'.objects && c'.objects[key].state == state && c'.objects[key].observed == copy.observed
          && c'.objects[key].generation == c.objects[key].generation)
  }

  lemma SavingEnds(before: Cluster, c: Cluster, key: Key, state: RuleState, save: Outcome)
    requires key in before.workers && key in c.workers && c.workers[key].call.SaveStatus?
    requires c.workers[key].obj == before.workers[key].obj.(state := state)
    ensures EndsWith(before, c, key, state, save)
  {
    hide Decide, StoreConfigMap, DoBegin;
  }

  /** A call that fails, for whatever reason, is reported as an error: the reconciliation goes on with saving the state
      Error. A call that was refused or came too late has changed nothing. */
  lemma FailureIsReported(c: Cluster, key: Key, o: Outcome, save: Outcome)
    requires key in c.workers && CallFails(c, key, o)
    ensures EndsWith(c, Next(c, Proceed(key, o)), key, Error, save)
    ensures var c' := Next(c, Proceed(key, o));
            Conflicts(c, key) || o.verdict.Refused? ==>
              c'.configMap == c.configMap && c'.objects == c.objects && c'.writes == c.writes
  {
    hide Decide, DoBegin, EndsWith;
    var c' := Next(c, Proceed(key, o));
    assert key in c'.workers && c'.workers[key].call.SaveStatus?
           && c'.workers[key].obj == c.workers[key].obj.(state := Error);
    SavingEnds(c, c', key, Error, save);
  }

  /** The answer of the DNS check decides the state. */
  lemma AnswerIsReported(c: Cluster, key: Key, o: Outcome, save: Outcome)
    requires key in c.workers && c.workers[key].call.CheckRecord?
    ensures var c' := Next(c, Proceed(key, o));
            && c'.configMap == c.configMap && c'.objects == c.objects
            && EndsWith(c, c', key,
                        match o.answer case Active => Ready case Inactive => Processing case Unknown => Error,
                        save)
  {
    hide Decide, DoBegin, StoreObject, StoreConfigMap, EndsWith;
    var c' := Next(c, Proceed(key, o));
    SavingEnds(c, c', key, c'.workers[key].obj.state, save);
  }

  /** A write of the config map that succeeds stores the text and, for an update, the time of the write. */
  lemma SuccessIsReported(c: Cluster, key: Key, o: Outcome, save: Outcome)
    requires key in c.workers && !CallFails(c, key, o)
    requires c.workers[key].call.CreateConfigMap? || c.workers[key].call.UpdateConfigMap?
    ensures var c' := Next(c, Proceed(key, o));
            var call := c.workers[key].call;
            && c'.objects == c.objects && c'.configMap.Some? && c'.configMap.value.text == call.text
            && c'.configMap.value.stamp == (if call.UpdateConfigMap? then At(call.time) else NoStamp)
            && EndsWith(c, c', key, c.workers[key].obj.state, save)
  {
    hide Decide, DoBegin, StoreObject, EndsWith;
    SavingEnds(c, Next(c, Proceed(key, o)), key, c.workers[key].obj.state, save);
  }

  /** The worker has just got its copy of the config map, and the rule object needs no further change before the rule
      set is looked at. */
  predicate LooksAtRuleSet(c: Cluster, key: Key, o: Outcome)
    requires key in c.workers
  {
    && c.workers[key].call.ReadConfigMap? && o.verdict.Done?
    && var obj := c.workers[key].obj;
       if obj.deleting then obj.finalizers <= {FINALIZER} else FINALIZER in obj.finalizers
  }

  /** A config map that cannot be read is left as it is, and the rule is reported as an error. */
  lemma UnreadableIsReported(c: Cluster, key: Key, o: Outcome, save: Outcome)
    requires key in c.workers && LooksAtRuleSet(c, key, o)
    requires c.configMap.Some? && Parse(c.configMap.value.text).None?
    ensures var c' := Next(c, Proceed(key, o));
            c'.configMap == c.configMap && c'.objects == c.objects && EndsWith(c, c', key, Error, save)
  {
    hide Parse, Print, DoBegin, StoreObject, StoreConfigMap, EndsWith, NewRewriteRule, OwnerName, WriteBack;
    var obj := c.workers[key].obj;
    assert obj.deleting ==> obj.finalizers - {FINALIZER} == {};
    SavingEnds(c, Next(c, Proceed(key, o)), key, Error, save);
  }

  /** The same for a rule that is given the finalizer first. */
  lemma UnreadableAfterFinalizer(c: Cluster, key: Key, o: Outcome, save: Outcome)
    requires key in c.workers && c.workers[key].call.AddFinalizer? && !CallFails(c, key, o)
    requires !c.objects[key].deleting && save.verdict.Done?
    requires var copy := c.workers[key].configMap; copy.Some? && Parse(copy.value.text).None?
    ensures var c' := Next(Next(c, Proceed(key, o)), Proceed(key, save));
            && c'.configMap == c.configMap && key !in c'.workers && key in c'.queued
            && key in c'.objects && c'.objects == c.objects[key := c'.objects[key]]
            && c'.objects[key].finalizers == c.workers[key].obj.finalizers + {FINALIZER}
            && c'.objects[key].state == Error
  {
    hide Parse, Print, DoBegin, StoreConfigMap, NewRewriteRule, OwnerName, WriteBack;
    var w := c.workers[key];
    var c1 := Next(c, Proceed(key, o));
    assert c1 == StoreObject(c, key, c.objects[key].(finalizers := w.obj.finalizers + {FINALIZER})).(
                   workers := c.workers[key := Fail(w.(obj := c1.objects[key]))]);
  }
}
