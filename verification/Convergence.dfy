/** Where reconciliation leads when nobody interferes (internal/controllers/masqueradingrule_controller.go). */
module Convergence {
  import opened Conventions
  import opened Options
  import opened RewriteRules
  import opened RuleMaps
  import opened Snippets
  import opened Clusters
  import opened ClusterSafety

  /* ---- one undisturbed reconciliation ---- */

  /** The next API call of the worker succeeds; the DNS record is active once it is checked. */
  function Success(key: Key, now: int): Step {
    Proceed(key, Outcome(Done, now, Active))
  }

  /** A whole reconciliation of one key; no path has more than four calls behind the first one. */
  function PassSteps(key: Key, now: int): seq<Step> {
    [Begin(key, Done), Success(key, now), Success(key, now), Success(key, now), Success(key, now)]
  }

  ghost function Pass(c: Cluster, key: Key, now: int): Cluster {
    var p := Success(key, now);
    Next(Next(Next(Next(Next(c, Begin(key, Done)), p), p), p), p)
  }

  lemma RunStep(c: Cluster, steps: seq<Step>, s: Step)
    ensures Run(c, steps + [s]) == Next(Run(c, steps), s)
  {
    hide Next;
    assert (steps + [s])[..|steps|] == steps;
  }

  lemma PassIsRun(c: Cluster, key: Key, now: int)
    ensures Pass(c, key, now) == Run(c, PassSteps(key, now))
  {
    hide Next, Run;
    var b, p := Begin(key, Done), Success(key, now);
    EmptyRun(c);
    RunStep(c, [], b);
    RunStep(c, [b], p);
    RunStep(c, [b, p], p);
    RunStep(c, [b, p, p], p);
    RunStep(c, [b, p, p, p], p);
    assert [] + [b] == [b] && [b] + [p] == [b, p] && [b, p] + [p] == [b, p, p];
    assert [b, p, p] + [p] == [b, p, p, p] && [b, p, p, p] + [p] == PassSteps(key, now);
  }

  lemma EmptyRun(c: Cluster)
    ensures Run(c, []) == c
  {
  }

  lemma PassKeepsInv(c: Cluster, key: Key, now: int)
    requires Inv(c)
    ensures Inv(Pass(c, key, now))
  {
    hide Inv, Next;
    var b, p := Begin(key, Done), Success(key, now);
    var c1 := Next(c, b);
    var c2 := Next(c1, p);
    var c3 := Next(c2, p);
    var c4 := Next(c3, p);
    StepKeepsInv(c, b);
    StepKeepsInv(c1, p);
    StepKeepsInv(c2, p);
    StepKeepsInv(c3, p);
    StepKeepsInv(c4, p);
  }

  /** The cluster with one worker and the key taken from the queue. */
  function Busy(c: Cluster, key: Key, w: Worker): Cluster {
    c.(queued := c.queued - {key}, workers := map[key := w])
  }

  /** Nobody is at work; every stored object is queued. */
  ghost predicate Idle(c: Cluster) {
    Inv(c) && c.workers == map[] && forall key | key in c.objects :: key in c.queued
  }

  lemma IdleAgain(c: Cluster)
    requires Inv(c) && c.workers == map[]
    ensures Idle(c)
  {
    hide ConfigMapOk, WritesOk, ReadyIsTrue, HasHolder, WorkerOk;
    forall key | key in c.objects ensures key in c.queued {
      assert ObjectOk(c, key);
    }
  }

  /** The copy that a worker starts with. */
  function CopyOf(c: Cluster, key: Key): RuleObject
    requires key in c.objects
  {
    c.objects[key].(observed := c.objects[key].generation)
  }

  lemma NobodyProceeds(c: Cluster, key: Key, now: int)
    requires c.workers == map[]
    ensures Next(c, Success(key, now)) == c
  {
  }

  lemma AfterBegin(c: Cluster, key: Key)
    requires c.workers == map[] && key in c.queued && key in c.objects
    ensures Next(c, Begin(key, Done))
            == Busy(c, key,
                    if c.objects[key].state.Unset? then Worker(SaveStatus, CopyOf(c, key).(state := New), None)
                    else Worker(ReadConfigMap, CopyOf(c, key), None))
  {
    hide StoreObject, StoreConfigMap, DoProceed;
  }

  lemma AfterRead(c: Cluster, key: Key, obj: RuleObject, now: int)
    requires c.workers == map[]
    requires Decide(key, Worker(ReadConfigMap, obj, c.configMap), now, c.delay).Some?
    ensures Next(Busy(c, key, Worker(ReadConfigMap, obj, None)), Success(key, now))
            == Busy(c, key, Decide(key, Worker(ReadConfigMap, obj, c.configMap), now, c.delay).value)
  {
    hide StoreObject, StoreConfigMap, Decide, DoBegin;
  }

  /** The stored object with the finalizer. */
  function Finalized(c: Cluster, key: Key): Cluster
    requires key in c.objects
  {
    StoreObject(c, key, c.objects[key].(finalizers := c.objects[key].finalizers + {FINALIZER}))
  }

  lemma AfterAddFinalizer(c: Cluster, key: Key, w: Worker, now: int)
    requires c.workers == map[] && w.call.AddFinalizer? && key in c.objects
    requires w.obj.version == c.objects[key].version && w.obj.finalizers == c.objects[key].finalizers
    requires var c' := Finalized(c, key);
             key in c'.objects && Decide(key, w.(obj := c'.objects[key]), now, c.delay).Some?
    ensures var c' := Finalized(c, key);
            Next(Busy(c, key, w), Success(key, now))
            == Busy(c', key, Decide(key, w.(obj := c'.objects[key]), now, c.delay).value)
  {
    hide Decide, DoBegin, StoreConfigMap;
  }

  lemma AfterWrite(c: Cluster, key: Key, w: Worker, now: int)
    requires c.workers == map[]
    requires || (w.call.CreateConfigMap? && c.configMap.None?)
             || (w.call.UpdateConfigMap? && c.configMap.Some? && w.configMap == c.configMap)
    ensures var c' := Next(Busy(c, key, w), Success(key, now));
            c' == Busy(c.(configMap := c'.configMap, nextVersion := c.nextVersion + 1, writes := c'.writes), key,
                       w.(call := SaveStatus))
    ensures var c' := Next(Busy(c, key, w), Success(key, now));
            && c'.configMap.Some? && c'.configMap.value.text == w.call.text
            && c'.configMap.value.stamp == (if w.call.CreateConfigMap? then NoStamp else At(w.call.time))
  {
    hide Decide, DoBegin, StoreObject;
  }

  lemma AfterCheck(c: Cluster, key: Key, w: Worker, now: int)
    requires c.workers == map[] && w.call.CheckRecord?
    ensures Next(Busy(c, key, w), Success(key, now)) == Busy(c, key, Finish(w, Ready))
  {
    hide Decide, DoBegin, StoreObject, StoreConfigMap;
  }

  lemma AfterDrop(c: Cluster, key: Key, w: Worker, now: int)
    requires c.workers == map[] && w.call.DropFinalizer? && key in c.objects
    requires w.obj.version == c.objects[key].version && c.objects[key].deleting && w.obj.finalizers == {FINALIZER}
    ensures var c' := Next(Busy(c, key, w), Success(key, now));
            c' == c.(objects := c.objects - {key}, nextVersion := c.nextVersion + 1,
                     queued := c.queued - {key}, workers := map[])
  {
    hide Decide, DoBegin, StoreConfigMap;
    assert w.obj.finalizers - {FINALIZER} == {};
  }

  lemma AfterSave(c: Cluster, key: Key, w: Worker, now: int)
    requires c.workers == map[] && w.call.SaveStatus? && key in c.objects && w.obj.version == c.objects[key].version
    requires c.objects[key].deleting ==> c.objects[key].finalizers != {}
    ensures var c' := Next(Busy(c, key, w), Success(key, now));
            var obj := c.objects[key].(state := w.obj.state, observed := w.obj.observed, version := c.nextVersion);
            c' == c.(objects := c.objects[key := obj], nextVersion := c.nextVersion + 1,
                     queued := c'.queued, workers := map[])
  {
    hide Decide, DoBegin, StoreConfigMap;
  }

  /* ---- what a pass changes ---- */

  /** The object of `key` has the given status and perhaps the finalizer in addition; everything else about
      objects is as before. */
  predicate StatusSaved(c: Cluster, c': Cluster, key: Key, state: RuleState, observed: int)
    requires key in c.objects
  {
    && c'.workers == map[] && c'.delay == c.delay
    && key in c'.objects && c'.objects == c.objects[key := c'.objects[key]]
    && var obj, obj' := c.objects[key], c'.objects[key];
       && obj == obj'.(finalizers := obj.finalizers, state := obj.state, observed := obj.observed,
                       version := obj.version)
       && (obj'.finalizers == obj.finalizers || (!obj.deleting && obj'.finalizers == obj.finalizers + {FINALIZER}))
       && obj'.state == state && obj'.observed == observed
  }

  /** The last three calls of a pass from the point where the object carries the finalizer, or less. */
  lemma WriteAndSave(c: Cluster, key: Key, w: Worker, now: int)
    requires c.workers == map[] && key in c.objects && w.obj.version == c.objects[key].version
    requires c.objects[key].deleting ==> c.objects[key].finalizers != {}
    requires || (w.call.CreateConfigMap? && c.configMap.None?)
             || (w.call.UpdateConfigMap? && c.configMap.Some? && w.configMap == c.configMap)
    ensures var c' := Next(Next(Busy(c, key, w), Success(key, now)), Success(key, now));
            && StatusSaved(c, c', key, w.obj.state, w.obj.observed)
            && c'.configMap.Some? && c'.configMap.value.text == w.call.text
            && c'.configMap.value.stamp == (if w.call.CreateConfigMap? then NoStamp else At(w.call.time))
  {
    hide Next, Busy;
    AfterWrite(c, key, w, now);
    var c1 := Next(Busy(c, key, w), Success(key, now));
    var c2 := c.(configMap := c1.configMap, nextVersion := c.nextVersion + 1, writes := c1.writes);
    AfterSave(c2, key, w.(call := SaveStatus), now);
  }

  lemma CheckAndSave(c: Cluster, key: Key, w: Worker, now: int)
    requires c.workers == map[] && key in c.objects && w.obj.version == c.objects[key].version
    requires w.call.CheckRecord? && !c.objects[key].deleting
    ensures var c' := Next(Next(Busy(c, key, w), Success(key, now)), Success(key, now));
            StatusSaved(c, c', key, Ready, w.obj.observed) && c'.configMap == c.configMap
  {
    hide Next, Busy;
    AfterCheck(c, key, w, now);
    AfterSave(c, key, Finish(w, Ready), now);
  }

  /** The time of a pass is not too early for writing the config map. */
  predicate MayWrite(c: Cluster, now: int) {
    c.configMap.Some? ==> Timely(c.configMap.value.stamp, now, c.delay)
  }

  ghost predicate EntryIsCurrent(c: Cluster, key: Key)
    requires key in c.objects
  {
    EntryOf(Entries(c.configMap), OwnerName(key, c.objects[key].uid)) == Some(RuleOf(key, c.objects[key]))
  }

  /** A rule without a state gets its first one. */
  lemma FirstPass(c: Cluster, key: Key, now: int)
    requires Idle(c) && key in c.objects && c.objects[key].state.Unset?
    ensures StatusSaved(c, Pass(c, key, now), key, New, c.objects[key].generation)
    ensures Pass(c, key, now).configMap == c.configMap
  {
    hide Next, Busy, ConfigMapOk, WritesOk, ReadyIsTrue, HasHolder, WorkerOk;
    assert ObjectOk(c, key);
    AfterBegin(c, key);
    var w := Worker(SaveStatus, CopyOf(c, key).(state := New), None);
    AfterSave(c, key, w, now);
    var c2 := Next(Busy(c, key, w), Success(key, now));
    NobodyProceeds(c2, key, now);
  }

  /** The object of a live rule with the finalizer, and the worker that is about to decide. */
  predicate AboutToDecide(c: Cluster, c1: Cluster, key: Key, w: Worker)
    requires key in c.objects
  {
    && c1.workers == map[] && c1.configMap == c.configMap && c1.delay == c.delay
    && key in c1.objects && c1.objects == c.objects[key := c1.objects[key]]
    && var obj, obj' := c.objects[key], c1.objects[key];
       && obj'.(finalizers := obj.finalizers, version := obj.version) == obj
       && obj'.finalizers == obj.finalizers + {FINALIZER}
       && w.configMap == c.configMap && w.obj.uid == obj.uid && w.obj.from == obj.from && w.obj.to == obj.to
       && w.obj.version == obj'.version && !w.obj.deleting
       && (FINALIZER in obj.finalizers ==> w.obj.observed == obj.generation)
  }

  lemma LivePass(c: Cluster, key: Key, now: int) returns (c1: Cluster, w: Worker)
    requires Idle(c) && key in c.objects && !c.objects[key].deleting && !c.objects[key].state.Unset?
    ensures AboutToDecide(c, c1, key, w)
    ensures var d := DecideLive(key, w, now, c.delay);
            var c' := Next(Next(Busy(c1, key, d), Success(key, now)), Success(key, now));
            c'.workers == map[] ==> Pass(c, key, now) == c'
  {
    hide Next, Busy, ConfigMapOk, WritesOk, ReadyIsTrue, HasHolder, WorkerOk, DecideLive;
    var p := Success(key, now);
    var obj := c.objects[key];
    AfterBegin(c, key);
    AfterRead(c, key, CopyOf(c, key), now);
    if FINALIZER in obj.finalizers {
      c1, w := c, Worker(ReadConfigMap, CopyOf(c, key), c.configMap);
      assert obj.finalizers + {FINALIZER} == obj.finalizers;
      assert c.objects[key := obj] == c.objects;
      var c' := Next(Next(Busy(c1, key, DecideLive(key, w, now, c.delay)), p), p);
      if c'.workers == map[] { NobodyProceeds(c', key, now); }
    } else {
      c1 := Finalized(c, key);
      w := Worker(AddFinalizer, c1.objects[key], c.configMap);
      AfterAddFinalizer(c, key, Worker(AddFinalizer, CopyOf(c, key), c.configMap), now);
    }
  }

  lemma DecideToWrite(c: Cluster, key: Key, w: Worker, now: int)
    requires !w.obj.deleting && w.configMap == c.configMap
    requires var rule := RuleOf(key, w.obj);
             && Accepted(rule) && Admits(Entries(c.configMap), rule)
             && EntryOf(Entries(c.configMap), rule.owner) != Some(rule)
    requires ConfigMapOk(c) && MayWrite(c, now)
    ensures var d := DecideLive(key, w, now, c.delay);
            var rule := RuleOf(key, w.obj);
            && d.obj == w.obj.(state := Processing) && d.configMap == w.configMap
            && (if c.configMap.None? then d.call.CreateConfigMap? else d.call == UpdateConfigMap(d.call.text, now))
            && d.call.text == Print(Entries(c.configMap)[rule.owner := rule])
  {
    hide Parse, Print, OwnerName, NewRewriteRule, Admits;
    var m := Entries(c.configMap);
    var rule := RuleOf(key, w.obj);
    if c.configMap.Some? {
      assert rule.owner in m[rule.owner := rule];
    } else {
      assert m[rule.owner := rule] == map[rule.owner := rule];
    }
  }

  lemma DecideToCheck(c: Cluster, key: Key, w: Worker, now: int)
    requires !w.obj.deleting && w.configMap == c.configMap && ConfigMapOk(c)
    requires var rule := RuleOf(key, w.obj);
             && Accepted(rule) && Admits(Entries(c.configMap), rule)
             && EntryOf(Entries(c.configMap), rule.owner) == Some(rule)
    ensures DecideLive(key, w, now, c.delay) == w.(call := CheckRecord)
  {
    hide Parse, Print, OwnerName, NewRewriteRule, Admits;
    var m := Entries(c.configMap);
    var rule := RuleOf(key, w.obj);
    assert m[rule.owner := rule] == m;
  }

  lemma DecideToFail(c: Cluster, key: Key, w: Worker, now: int)
    requires !w.obj.deleting && w.configMap == c.configMap && ConfigMapOk(c)
    requires !Accepted(RuleOf(key, w.obj)) || !Admits(Entries(c.configMap), RuleOf(key, w.obj))
    ensures DecideLive(key, w, now, c.delay) == Fail(w)
  {
    hide Parse, Print, OwnerName, Admits, WriteBack;
    NewRuleIsRuleOf(key, w.obj);
    if c.configMap.None? { AdmitsNothing(RuleOf(key, w.obj)); }
  }

  lemma AdmitsNothing(rule: RewriteRule)
    ensures Admits(map[], rule)
  {
  }

  lemma PutEntries(c: Cluster, key: Key, obj: RuleObject, version: nat, stamp: Timestamp)
    requires ValidKey(key) && ValidUid(obj.uid)
    requires Accepted(RuleOf(key, obj)) && Admits(Entries(c.configMap), RuleOf(key, obj))
    ensures var m := Entries(c.configMap)[RuleOf(key, obj).owner := RuleOf(key, obj)];
            Entries(Some(ConfigMap(version, Print(m), stamp))) == m
  {
    hide Parse, Print, OwnerName, Admits, Entries, Accepted;
    EntriesWellFormed(c.configMap);
    WithRuleWellFormed(Entries(c.configMap), key, obj);
    PrintedEntries(Entries(c.configMap)[RuleOf(key, obj).owner := RuleOf(key, obj)], version, stamp);
  }

  /** A live rule that is missing in the config map is put there. */
  lemma WritingPass(c: Cluster, key: Key, now: int)
    requires Idle(c) && key in c.objects && !c.objects[key].deleting && !c.objects[key].state.Unset?
    requires Accepted(RuleOf(key, c.objects[key])) && Admits(Entries(c.configMap), RuleOf(key, c.objects[key]))
    requires !EntryIsCurrent(c, key) && MayWrite(c, now)
    ensures var c' := Pass(c, key, now);
            var rule := RuleOf(key, c.objects[key]);
            && key in c'.objects && StatusSaved(c, c', key, Processing, c'.objects[key].observed)
            && Entries(c'.configMap) == Entries(c.configMap)[rule.owner := rule]
            && c'.configMap.Some? && (c'.configMap.value.stamp == NoStamp || c'.configMap.value.stamp == At(now))
  {
    hide Parse, Print, Entries, OwnerName, Accepted, Admits, Next, Busy, WritesOk, ReadyIsTrue, HasHolder, WorkerOk,
         DecideLive;
    assert ObjectOk(c, key);
    var c1, w := LivePass(c, key, now);
    assert RuleOf(key, w.obj) == RuleOf(key, c.objects[key]);
    DecideToWrite(c, key, w, now);
    var d := DecideLive(key, w, now, c.delay);
    WriteAndSave(c1, key, d, now);
    var c' := Pass(c, key, now);
    PutEntries(c, key, c.objects[key], c'.configMap.value.version, c'.configMap.value.stamp);
  }

  /** A live rule that cannot be put there is reported as an error, and the config map stays as it is. */
  lemma FailingPass(c: Cluster, key: Key, now: int)
    requires Idle(c) && key in c.objects && !c.objects[key].deleting && !c.objects[key].state.Unset?
    requires !Accepted(RuleOf(key, c.objects[key])) || !Admits(Entries(c.configMap), RuleOf(key, c.objects[key]))
    ensures var c' := Pass(c, key, now);
            && key in c'.objects && StatusSaved(c, c', key, Error, c'.objects[key].observed)
            && c'.configMap == c.configMap
  {
    hide Parse, Print, Entries, OwnerName, Accepted, Admits, Next, Busy, WritesOk, ReadyIsTrue, HasHolder, WorkerOk,
         DecideLive;
    assert ObjectOk(c, key);
    var c1, w := LivePass(c, key, now);
    assert RuleOf(key, w.obj) == RuleOf(key, c.objects[key]);
    DecideToFail(c, key, w, now);
    AfterSave(c1, key, Fail(w), now);
    NobodyProceeds(Next(Busy(c1, key, Fail(w)), Success(key, now)), key, now);
  }

  lemma CurrentEntryHasFinalizer(c: Cluster, key: Key)
    requires Inv(c) && key in c.objects
    requires OwnerName(key, c.objects[key].uid) in Entries(c.configMap)
    ensures FINALIZER in c.objects[key].finalizers
  {
    hide Entries, OwnerName, ConfigMapOk, WritesOk, ReadyIsTrue, WorkerOk;
    var owner := OwnerName(key, c.objects[key].uid);
    assert HasHolder(c, owner);
    var k :| k in c.objects && OwnerName(k, c.objects[k].uid) == owner && FINALIZER in c.objects[k].finalizers;
    assert ObjectOk(c, k) && ObjectOk(c, key);
    UidHasNoSpace(c.objects[k].uid);
    UidHasNoSpace(c.objects[key].uid);
    OwnerNameInjective(k, c.objects[k].uid, key, c.objects[key].uid);
  }

  /** A live rule that is in the config map becomes ready; nothing is written to the config map. */
  lemma CheckingPass(c: Cluster, key: Key, now: int)
    requires Idle(c) && key in c.objects && !c.objects[key].deleting && !c.objects[key].state.Unset?
    requires EntryIsCurrent(c, key)
    ensures StatusSaved(c, Pass(c, key, now), key, Ready, c.objects[key].generation)
    ensures Pass(c, key, now).configMap == c.configMap
  {
    hide Parse, Print, Entries, OwnerName, Accepted, Admits, Next, Busy, WritesOk, ReadyIsTrue, HasHolder, WorkerOk,
         DecideLive, Consistent;
    assert ObjectOk(c, key);
    CurrentEntryHasFinalizer(c, key);
    EntriesWellFormed(c.configMap);
    PresentIsAdmitted(Entries(c.configMap), OwnerName(key, c.objects[key].uid));
    var c1, w := LivePass(c, key, now);
    assert RuleOf(key, w.obj) == RuleOf(key, c.objects[key]);
    DecideToCheck(c, key, w, now);
    CheckAndSave(c1, key, w.(call := CheckRecord), now);
    assert c1.objects[key].finalizers == c.objects[key].finalizers;
  }

  lemma PresentIsAdmitted(m: RuleMap, owner: string)
    requires WellFormed(m) && owner in m
    ensures Admits(m, m[owner]) && Accepted(m[owner])
  {
    hide Accepted;
    PartAdmits(m, m, owner);
    assert Printable(m[owner]);
  }

  /** The entry of a rule that is being deleted is removed. */
  lemma RemovingPass(c: Cluster, key: Key, now: int)
    requires Idle(c) && key in c.objects && c.objects[key].deleting && !c.objects[key].state.Unset?
    requires c.objects[key].finalizers <= {FINALIZER} && MayWrite(c, now)
    requires OwnerName(key, c.objects[key].uid) in Entries(c.configMap)
    ensures var c' := Pass(c, key, now);
            && key in c'.objects && StatusSaved(c, c', key, Deleting, c'.objects[key].observed)
            && Entries(c'.configMap) == RemoveRule(Entries(c.configMap), OwnerName(key, c.objects[key].uid))
            && c'.configMap.Some? && c'.configMap.value.stamp == At(now)
  {
    hide Parse, Print, OwnerName, Next, Busy, WritesOk, ReadyIsTrue, HasHolder, WorkerOk, WellFormed;
    assert ObjectOk(c, key);
    var obj := CopyOf(c, key);
    var m := RemoveRule(Entries(c.configMap), OwnerName(key, obj.uid));
    var w := Worker(UpdateConfigMap(Print(m), now), obj.(state := Deleting), c.configMap);
    AfterBegin(c, key);
    assert obj.finalizers - {FINALIZER} == {};
    assert Decide(key, Worker(ReadConfigMap, obj, c.configMap), now, c.delay) == Some(w);
    AfterRead(c, key, obj, now);
    WriteAndSave(c, key, w, now);
    var c' := Next(Next(Busy(c, key, w), Success(key, now)), Success(key, now));
    NobodyProceeds(c', key, now);
    EntriesWellFormed(c.configMap);
    WithoutRuleWellFormed(Entries(c.configMap), OwnerName(key, obj.uid));
    PrintedEntries(m, c'.configMap.value.version, At(now));
  }

  /** Once its entry is gone, a rule that is being deleted loses the finalizer and disappears. */
  lemma DroppingPass(c: Cluster, key: Key, now: int)
    requires Idle(c) && key in c.objects && c.objects[key].deleting && !c.objects[key].state.Unset?
    requires c.objects[key].finalizers <= {FINALIZER}
    requires OwnerName(key, c.objects[key].uid) !in Entries(c.configMap)
    ensures var c' := Pass(c, key, now);
            && c'.objects == c.objects - {key} && c'.workers == map[] && c'.delay == c.delay
            && c'.configMap == c.configMap
  {
    hide Parse, Print, OwnerName, Next, Busy, WritesOk, ReadyIsTrue, HasHolder, WorkerOk;
    assert ObjectOk(c, key);
    var obj := CopyOf(c, key);
    var w := Worker(DropFinalizer, obj, c.configMap);
    AfterBegin(c, key);
    assert obj.finalizers == {FINALIZER} && obj.finalizers - {FINALIZER} == {};
    assert Decide(key, Worker(ReadConfigMap, obj, c.configMap), now, c.delay) == Some(w);
    AfterRead(c, key, obj, now);
    AfterDrop(c, key, w, now);
    NobodyProceeds(Next(Busy(c, key, w), Success(key, now)), key, now);
  }

  /** Foreign finalizers hold a deletion up; the config map is not touched. */
  lemma DeletionBlockedPass(c: Cluster, key: Key, now: int)
    requires Idle(c) && key in c.objects && c.objects[key].deleting && !c.objects[key].state.Unset?
    requires c.objects[key].finalizers - {FINALIZER} != {}
    ensures StatusSaved(c, Pass(c, key, now), key, DeletionBlocked, c.objects[key].generation)
    ensures Pass(c, key, now).configMap == c.configMap
  {
    hide Parse, Print, OwnerName, Next, Busy, WritesOk, ReadyIsTrue, HasHolder, WorkerOk;
    assert ObjectOk(c, key);
    var obj := CopyOf(c, key);
    var w := Finish(Worker(ReadConfigMap, obj, c.configMap), DeletionBlocked);
    AfterBegin(c, key);
    assert Decide(key, Worker(ReadConfigMap, obj, c.configMap), now, c.delay) == Some(w);
    AfterRead(c, key, obj, now);
    AfterSave(c, key, w, now);
    NobodyProceeds(Next(Busy(c, key, w), Success(key, now)), key, now);
  }

  /** The state that is saved when the config map may not be written yet, or when its timestamp cannot be read. */
  function HeldUpState(stamp: Timestamp, state: RuleState): RuleState {
    if stamp.Garbled? then Error else state
  }

  lemma HeldUp(w: Worker, stamp: Timestamp, state: RuleState, m: RuleMap, now: int, delay: int)
    requires !Timely(stamp, now, delay)
    ensures WriteBack(w, stamp, state, m, now, delay)
            == w.(call := SaveStatus, obj := w.obj.(state := HeldUpState(stamp, state)))
  {
    hide Print;
  }

  /** Too early after the last write, neither a missing rule is put into the config map nor an entry removed; the
      status says that this is still to be done. */
  lemma HeldUpPass(c: Cluster, key: Key, now: int)
    requires Idle(c) && key in c.objects && !c.objects[key].state.Unset?
    requires c.configMap.Some? && !MayWrite(c, now)
    requires if c.objects[key].deleting then
               && c.objects[key].finalizers <= {FINALIZER}
               && OwnerName(key, c.objects[key].uid) in Entries(c.configMap)
             else
               && Accepted(RuleOf(key, c.objects[key])) && Admits(Entries(c.configMap), RuleOf(key, c.objects[key]))
               && !EntryIsCurrent(c, key)
    ensures var c' := Pass(c, key, now);
            var state := HeldUpState(c.configMap.value.stamp, if c.objects[key].deleting then Deleting else Processing);
            && key in c'.objects && StatusSaved(c, c', key, state, c'.objects[key].observed)
            && c'.configMap == c.configMap
  {
    hide Parse, Print, OwnerName, Next, Busy, WritesOk, ReadyIsTrue, HasHolder, WorkerOk, Accepted, Admits,
         NewRewriteRule, WriteBack;
    assert ObjectOk(c, key);
    var stamp, m := c.configMap.value.stamp, Entries(c.configMap);
    if c.objects[key].deleting {
      var obj := CopyOf(c, key);
      var w0 := Worker(ReadConfigMap, obj, c.configMap);
      var w := WriteBack(w0, stamp, Deleting, RemoveRule(m, OwnerName(key, obj.uid)), now, c.delay);
      HeldUp(w0, stamp, Deleting, RemoveRule(m, OwnerName(key, obj.uid)), now, c.delay);
      AfterBegin(c, key);
      assert obj.finalizers - {FINALIZER} == {};
      assert Decide(key, w0, now, c.delay) == Some(w);
      AfterRead(c, key, obj, now);
      AfterSave(c, key, w, now);
      NobodyProceeds(Next(Busy(c, key, w), Success(key, now)), key, now);
    } else {
      var c1, w := LivePass(c, key, now);
      HeldUpDecision(c, key, w, now);
      var d := DecideLive(key, w, now, c.delay);
      AfterSave(c1, key, d, now);
      NobodyProceeds(Next(Busy(c1, key, d), Success(key, now)), key, now);
    }
  }

  lemma HeldUpDecision(c: Cluster, key: Key, w: Worker, now: int)
    requires !w.obj.deleting && w.configMap == c.configMap && c.configMap.Some?
    requires var rule := RuleOf(key, w.obj);
             && Accepted(rule) && Admits(Entries(c.configMap), rule)
             && EntryOf(Entries(c.configMap), rule.owner) != Some(rule)
    requires ConfigMapOk(c) && !MayWrite(c, now)
    ensures DecideLive(key, w, now, c.delay)
            == w.(call := SaveStatus, obj := w.obj.(state := HeldUpState(c.configMap.value.stamp, Processing)))
  {
    hide Parse, Print, OwnerName, NewRewriteRule, Admits, WriteBack;
    var m := Entries(c.configMap);
    var rule := RuleOf(key, w.obj);
    assert rule.owner in m[rule.owner := rule];
    HeldUp(w, c.configMap.value.stamp, Processing, m[rule.owner := rule], now, c.delay);
  }

  /** A key without an object only leaves the queue. */
  lemma EmptyPass(c: Cluster, key: Key, now: int)
    requires Idle(c) && key !in c.objects
    ensures Pass(c, key, now) == c.(queued := c.queued - {key})
  {
    hide Inv, DoProceed;
    var c1 := Next(c, Begin(key, Done));
    assert c1 == c.(queued := c.queued - {key});
    NobodyProceeds(c1, key, now);
  }

  /* ---- convergence ---- */

  predicate Live(c: Cluster, key: Key) {
    key in c.objects && !c.objects[key].deleting
  }

  /** Live rules are valid and do not clash with each other, and no foreign finalizer holds a deletion up. */
  ghost predicate Compatible(c: Cluster) {
    && (forall k | Live(c, k) :: Accepted(RuleOf(k, c.objects[k])))
    && (forall k, l | Live(c, k) && Live(c, l) && k != l :: !Clash(RuleOf(k, c.objects[k]), RuleOf(l, c.objects[l])))
    && (forall k | k in c.objects && c.objects[k].deleting :: c.objects[k].finalizers <= {FINALIZER})
  }

  /** Nothing stands in the way: the live rules do not clash with the entries of other owners either. */
  ghost predicate Unblocked(c: Cluster) {
    Compatible(c) && forall k | Live(c, k) :: Admits(Entries(c.configMap), RuleOf(k, c.objects[k]))
  }

  /** The number of passes that a rule needs at most. */
  ghost function Rank(c: Cluster, key: Key): nat {
    if key !in c.objects then 0
    else if c.objects[key].state.Unset? then 3
    else if c.objects[key].deleting then
      if OwnerName(key, c.objects[key].uid) in Entries(c.configMap) then 2 else 1
    else if !EntryIsCurrent(c, key) then 2
    else if !ReadyForSpec(c.objects[key]) then 1
    else 0
  }

  function Less(n: nat): nat {
    if n == 0 then 0 else n - 1
  }

  /** What a pass on `key` changes at most. */
  ghost predicate Frame(c: Cluster, c': Cluster, key: Key, now: int) {
    && c'.workers == map[] && c'.delay == c.delay
    && (forall k | k != key :: k in c'.objects <==> k in c.objects)
    && (forall k | k != key && k in c.objects :: c'.objects[k] == c.objects[k])
    && (key in c'.objects ==> key in c.objects
                              && c'.objects[key].uid == c.objects[key].uid
                              && c'.objects[key].from == c.objects[key].from && c'.objects[key].to == c.objects[key].to
                              && c'.objects[key].deleting == c.objects[key].deleting
                              && c'.objects[key].generation == c.objects[key].generation
                              && (c.objects[key].deleting ==> c'.objects[key].finalizers == c.objects[key].finalizers))
    && (key in c.objects && key !in c'.objects ==>
          c.objects[key].deleting && c.objects[key].finalizers <= {FINALIZER})
    && (Entries(c'.configMap) == Entries(c.configMap)
        || (key in c.objects
            && Entries(c'.configMap)
               == if c.objects[key].deleting then RemoveRule(Entries(c.configMap), OwnerName(key, c.objects[key].uid))
                  else Entries(c.configMap)[OwnerName(key, c.objects[key].uid) := RuleOf(key, c.objects[key])]))
    && (c'.configMap == c.configMap
        || (c'.configMap.Some? && (c'.configMap.value.stamp == NoStamp || c'.configMap.value.stamp == At(now))))
  }

  lemma PassFrame(c: Cluster, key: Key, now: int)
    requires Idle(c)
    ensures Frame(c, Pass(c, key, now), key, now)
  {
    hide Parse, Print, Entries, OwnerName, Accepted, Admits, Clash, Pass, Inv;
    if key !in c.objects {
      EmptyPass(c, key, now);
    } else if c.objects[key].state.Unset? {
      FirstPass(c, key, now);
    } else if c.objects[key].deleting {
      DeletingPassFrame(c, key, now);
    } else if EntryIsCurrent(c, key) {
      CheckingPass(c, key, now);
    } else if !Accepted(RuleOf(key, c.objects[key])) || !Admits(Entries(c.configMap), RuleOf(key, c.objects[key])) {
      FailingPass(c, key, now);
    } else if MayWrite(c, now) {
      WritingPass(c, key, now);
    } else {
      HeldUpPass(c, key, now);
    }
  }

  lemma DeletingPassFrame(c: Cluster, key: Key, now: int)
    requires Idle(c) && key in c.objects && c.objects[key].deleting && !c.objects[key].state.Unset?
    ensures Frame(c, Pass(c, key, now), key, now)
  {
    hide Parse, Print, Entries, OwnerName, Pass, Inv;
    if !(c.objects[key].finalizers <= {FINALIZER}) {
      DeletionBlockedPass(c, key, now);
    } else if OwnerName(key, c.objects[key].uid) !in Entries(c.configMap) {
      DroppingPass(c, key, now);
    } else if MayWrite(c, now) {
      RemovingPass(c, key, now);
    } else {
      HeldUpPass(c, key, now);
    }
  }

  lemma PassKeepsIdle(c: Cluster, key: Key, now: int)
    requires Idle(c)
    ensures Idle(Pass(c, key, now))
  {
    hide Inv, Pass, Entries;
    PassFrame(c, key, now);
    PassKeepsInv(c, key, now);
    IdleAgain(Pass(c, key, now));
  }

  /** What a pass on `key` does, as far as convergence is concerned. */
  ghost predicate Progress(c: Cluster, c': Cluster, key: Key, now: int) {
    Frame(c, c', key, now) && Rank(c', key) <= Less(Rank(c, key))
  }

  lemma PassProgress(c: Cluster, key: Key, now: int)
    requires Idle(c) && Unblocked(c) && MayWrite(c, now)
    ensures Progress(c, Pass(c, key, now), key, now)
  {
    hide Parse, Print, Entries, OwnerName, Accepted, Admits, Clash, Pass, Inv;
    if key !in c.objects {
      EmptyPass(c, key, now);
    } else if c.objects[key].state.Unset? {
      FirstPass(c, key, now);
    } else if c.objects[key].deleting {
      if OwnerName(key, c.objects[key].uid) in Entries(c.configMap) {
        RemovingPass(c, key, now);
      } else {
        DroppingPass(c, key, now);
      }
    } else {
      assert Live(c, key);
      if EntryIsCurrent(c, key) { CheckingPass(c, key, now); } else { WritingPass(c, key, now); }
    }
  }

  /** A pass on one key does not change the entry of another one. */
  lemma OtherEntryStays(c: Cluster, c': Cluster, key: Key, now: int, k: Key)
    requires Inv(c) && Frame(c, c', key, now) && k != key && k in c.objects
    ensures var owner := OwnerName(k, c.objects[k].uid);
            EntryOf(Entries(c'.configMap), owner) == EntryOf(Entries(c.configMap), owner)
  {
    hide Parse, Entries, OwnerName, ConfigMapOk, WritesOk, ReadyIsTrue, HasHolder, WorkerOk;
    if key in c.objects { DifferentOwners(c, k, key); }
  }

  lemma DifferentOwners(c: Cluster, k: Key, l: Key)
    requires Inv(c) && k in c.objects && l in c.objects && k != l
    ensures OwnerName(k, c.objects[k].uid) != OwnerName(l, c.objects[l].uid)
  {
    hide OwnerName, ConfigMapOk, WritesOk, ReadyIsTrue, HasHolder, WorkerOk;
    assert ObjectOk(c, k) && ObjectOk(c, l);
    UidHasNoSpace(c.objects[k].uid);
    UidHasNoSpace(c.objects[l].uid);
    if OwnerName(k, c.objects[k].uid) == OwnerName(l, c.objects[l].uid) {
      OwnerNameInjective(k, c.objects[k].uid, l, c.objects[l].uid);
    }
  }

  /** A pass on one key does not change the rank of another one. */
  lemma OtherRanksStay(c: Cluster, c': Cluster, key: Key, now: int, k: Key)
    requires Inv(c) && Frame(c, c', key, now) && k != key
    ensures Rank(c', k) == Rank(c, k)
  {
    hide Inv, Entries, OwnerName;
    if k in c.objects { OtherEntryStays(c, c', key, now, k); }
  }

  lemma EntriesAfterPass(c: Cluster, c': Cluster, key: Key, now: int, owner: string)
    requires Frame(c, c', key, now) && owner in Entries(c'.configMap)
    ensures || (owner in Entries(c.configMap) && Entries(c'.configMap)[owner] == Entries(c.configMap)[owner])
            || (Live(c, key) && Entries(c'.configMap)[owner] == RuleOf(key, c.objects[key]))
  {
    hide Entries, OwnerName;
  }

  lemma StillUnblocked(c: Cluster, c': Cluster, key: Key, now: int)
    requires Unblocked(c) && Compatible(c') && Frame(c, c', key, now)
    ensures Unblocked(c')
  {
    hide Parse, Entries, OwnerName, Accepted, Clash;
    forall k | Live(c', k) ensures Admits(Entries(c'.configMap), RuleOf(k, c'.objects[k])) {
      assert Live(c, k);
      var rule := RuleOf(k, c.objects[k]);
      forall o | o in Entries(c'.configMap) && Entries(c'.configMap)[o].owner != rule.owner
        ensures !Clash(Entries(c'.configMap)[o], rule)
      {
        EntriesAfterPass(c, c', key, now, o);
      }
    }
  }

  datatype Turn = Turn(key: Key, now: int)

  /** One pass after the other. */
  ghost function Passes(c: Cluster, turns: seq<Turn>): Cluster
    decreases |turns|
  {
    if turns == [] then c
    else Pass(Passes(c, turns[..|turns| - 1]), turns[|turns| - 1].key, turns[|turns| - 1].now)
  }

  /** The steps of these passes. */
  function StepsOf(turns: seq<Turn>): seq<Step> {
    if turns == [] then []
    else StepsOf(turns[..|turns| - 1]) + PassSteps(turns[|turns| - 1].key, turns[|turns| - 1].now)
  }

  lemma {:induction false} RunOn(c: Cluster, steps: seq<Step>, more: seq<Step>)
    ensures Run(c, steps + more) == Run(Run(c, steps), more)
    decreases |more|
  {
    hide Next;
    if more == [] {
      assert steps + more == steps;
    } else {
      var init := more[..|more| - 1];
      assert (steps + more)[..|steps + more| - 1] == steps + init;
      RunOn(c, steps, init);
    }
  }

  lemma {:induction false} PassesAreRun(c: Cluster, turns: seq<Turn>)
    ensures Passes(c, turns) == Run(c, StepsOf(turns))
    ensures forall i | 0 <= i < |StepsOf(turns)| :: StepsOf(turns)[i].Begin? || StepsOf(turns)[i].Proceed?
    decreases |turns|
  {
    hide Pass, Run;
    if turns == [] {
      EmptyRun(c);
    } else {
      var init, last := turns[..|turns| - 1], turns[|turns| - 1];
      PassesAreRun(c, init);
      RunOn(c, StepsOf(init), PassSteps(last.key, last.now));
      PassIsRun(Passes(c, init), last.key, last.now);
    }
  }

  /** The passes are far enough apart for the delay, also from the last write before them. */
  predicate Spaced(c: Cluster, turns: seq<Turn>) {
    && (forall i | 0 <= i < |turns| :: MayWrite(c, turns[i].now))
    && (forall i, j | 0 <= i < j < |turns| :: turns[i].now + c.delay <= turns[j].now)
  }

  function TurnsOf(turns: seq<Turn>, key: Key): nat {
    if turns == [] then 0
    else TurnsOf(turns[..|turns| - 1], key) + if turns[|turns| - 1].key == key then 1 else 0
  }

  /** The config map carries its old timestamp, none, or the one of a turn. */
  ghost predicate StampFrom(c: Cluster, c': Cluster, turns: seq<Turn>) {
    c'.configMap.Some? ==>
      || (c.configMap.Some? && c'.configMap.value.stamp == c.configMap.value.stamp)
      || c'.configMap.value.stamp == NoStamp
      || exists i :: 0 <= i < |turns| && c'.configMap.value.stamp == At(turns[i].now)
  }

  /** No object has got another rule, and only objects that are being deleted may have disappeared. */
  ghost predicate SameRules(c: Cluster, c': Cluster) {
    && (forall k | k in c.objects && !(c.objects[k].deleting && c.objects[k].finalizers <= {FINALIZER}) ::
          k in c'.objects)
    && (forall k | k in c'.objects ::
          && k in c.objects && c'.objects[k].deleting == c.objects[k].deleting
          && RuleOf(k, c'.objects[k]) == RuleOf(k, c.objects[k])
          && (c.objects[k].deleting ==> c'.objects[k].finalizers == c.objects[k].finalizers))
  }

  lemma StillCompatible(c: Cluster, c': Cluster)
    requires Compatible(c) && SameRules(c, c')
    ensures Compatible(c')
  {
    hide Accepted, Clash, RuleOf;
    assert forall k | Live(c', k) :: Live(c, k);
  }

  lemma StampMayWrite(c: Cluster, c': Cluster, init: seq<Turn>, turns: seq<Turn>)
    requires turns != [] && init == turns[..|turns| - 1] && Spaced(c, turns)
    requires StampFrom(c, c', init) && c'.delay == c.delay
    ensures MayWrite(c', turns[|turns| - 1].now)
  {
    assert forall i | 0 <= i < |init| :: init[i] == turns[i];
  }

  lemma StampAfterPass(c: Cluster, c1: Cluster, c2: Cluster, init: seq<Turn>, turns: seq<Turn>)
    requires turns != [] && init == turns[..|turns| - 1] && StampFrom(c, c1, init)
    requires c2.configMap == c1.configMap
             || (c2.configMap.Some? && (c2.configMap.value.stamp == NoStamp
                                        || c2.configMap.value.stamp == At(turns[|turns| - 1].now)))
    ensures StampFrom(c, c2, turns)
  {
    if c2.configMap == c1.configMap && c2.configMap.Some? {
      if i :| 0 <= i < |init| && c1.configMap.value.stamp == At(init[i].now) {
        assert turns[i] == init[i];
      }
    }
  }

  lemma RulesAfterPass(c: Cluster, c1: Cluster, c2: Cluster, key: Key, now: int)
    requires SameRules(c, c1) && Frame(c1, c2, key, now)
    ensures SameRules(c, c2)
  {
    hide Entries, OwnerName;
  }

  /** What passes keep, whether or not they converge. */
  lemma {:induction false} PassesKeep(c: Cluster, turns: seq<Turn>)
    requires Idle(c)
    ensures var c' := Passes(c, turns);
            Idle(c') && c'.delay == c.delay && StampFrom(c, c', turns) && SameRules(c, c')
    decreases |turns|
  {
    hide Idle, Pass, Entries, OwnerName, RuleOf, StampFrom, SameRules;
    if turns == [] {
      NoTurns(c);
    } else {
      var init, last := turns[..|turns| - 1], turns[|turns| - 1];
      var c1, c2 := Passes(c, init), Passes(c, turns);
      PassesKeep(c, init);
      PassFrame(c1, last.key, last.now);
      PassKeepsIdle(c1, last.key, last.now);
      StampAfterPass(c, c1, c2, init, turns);
      RulesAfterPass(c, c1, c2, last.key, last.now);
    }
  }

  /** Where turns are far enough apart, each of them may write. */
  lemma LastMayWrite(c: Cluster, turns: seq<Turn>)
    requires Idle(c) && turns != [] && Spaced(c, turns)
    ensures MayWrite(Passes(c, turns[..|turns| - 1]), turns[|turns| - 1].now)
  {
    hide Idle, Pass, StampFrom, SameRules, MayWrite, Passes;
    var init := turns[..|turns| - 1];
    PassesKeep(c, init);
    StampMayWrite(c, Passes(c, init), init, turns);
  }

  /** Passes in any order take every rank down by the number of turns of its key. */
  lemma {:induction false} PassesProgress(c: Cluster, turns: seq<Turn>)
    requires Idle(c) && Unblocked(c) && Spaced(c, turns)
    ensures var c' := Passes(c, turns);
            && Idle(c') && Unblocked(c') && c'.delay == c.delay
            && StampFrom(c, c', turns) && SameRules(c, c')
            && forall k :: Rank(c', k) + TurnsOf(turns, k) <= Rank(c, k) || Rank(c', k) == 0
    decreases |turns|
  {
    hide Inv, Compatible, Rank, Pass, Entries, OwnerName, RuleOf, StampFrom, SameRules, Admits, Frame;
    PassesKeep(c, turns);
    if turns != [] {
      var init, last := turns[..|turns| - 1], turns[|turns| - 1];
      var c1, c2 := Passes(c, init), Passes(c, turns);
      PassesProgress(c, init);
      LastMayWrite(c, turns);
      PassProgress(c1, last.key, last.now);
      StillCompatible(c, c2);
      StillUnblocked(c1, c2, last.key, last.now);
      forall k ensures Rank(c2, k) + TurnsOf(turns, k) <= Rank(c, k) || Rank(c2, k) == 0 {
        if k != last.key { OtherRanksStay(c1, c2, last.key, last.now, k); }
      }
    }
  }

  lemma NoTurns(c: Cluster)
    ensures StampFrom(c, c, []) && SameRules(c, c)
  {
    hide RuleOf;
  }

  /** All live rules are ready, all other objects are gone, and the config map holds exactly the live rules. */
  ghost predicate Converged(c: Cluster, c': Cluster) {
    && (forall k :: k in c'.objects <==> Live(c, k))
    && (forall k | k in c'.objects ::
          ReadyForSpec(c'.objects[k]) && RuleOf(k, c'.objects[k]) == RuleOf(k, c.objects[k]))
    && (forall owner, rule :: EntryOf(Entries(c'.configMap), owner) == Some(rule)
                              <==> exists k :: Live(c, k) && rule == RuleOf(k, c.objects[k]) && owner == rule.owner)
  }

  /** If only live rules are left, all of them ready, then the config map holds exactly these rules. */
  lemma ReadyIsConverged(c: Cluster, c': Cluster)
    requires Inv(c') && SameRules(c, c')
    requires forall k | k in c'.objects :: Live(c', k) && EntryIsCurrent(c', k) && ReadyForSpec(c'.objects[k])
    ensures Converged(c, c')
  {
    hide Parse, OwnerName, Entries, ConfigMapOk, WritesOk, ReadyIsTrue, WorkerOk, ObjectOk;
    forall owner, rule ensures EntryOf(Entries(c'.configMap), owner) == Some(rule)
                               <==> exists k :: Live(c, k) && rule == RuleOf(k, c.objects[k]) && owner == rule.owner
    {
      if EntryOf(Entries(c'.configMap), owner) == Some(rule) {
        assert HasHolder(c', owner);
        var k :| k in c'.objects && OwnerName(k, c'.objects[k].uid) == owner && FINALIZER in c'.objects[k].finalizers;
        assert EntryIsCurrent(c', k) && Live(c, k);
      }
      if k :| Live(c, k) && rule == RuleOf(k, c.objects[k]) && owner == rule.owner {
        assert k in c'.objects && EntryIsCurrent(c', k);
      }
    }
  }

  /** Once every object has had three turns, whatever their order, all live rules are ready, all others are gone,
      and the config map holds exactly the live rules. */
  lemma Convergence(c: Cluster, turns: seq<Turn>)
    requires Idle(c) && Unblocked(c) && Spaced(c, turns)
    requires forall k | k in c.objects :: TurnsOf(turns, k) >= 3
    ensures Converged(c, Passes(c, turns))
  {
    hide Parse, Passes, OwnerName, Entries, Unblocked, Spaced, TurnsOf, StampFrom, Inv;
    var c' := Passes(c, turns);
    PassesProgress(c, turns);
    forall k | k in c'.objects ensures Live(c', k) && EntryIsCurrent(c', k) && ReadyForSpec(c'.objects[k]) {
      assert k in c.objects;
      RankBound(c, k);
    }
    ReadyIsConverged(c, c');
  }

  lemma RankBound(c: Cluster, k: Key)
    ensures Rank(c, k) <= 3
  {
  }

  /** Whenever no worker is active in a run, the cluster is idle in the sense of this module. */
  lemma ReachableIdle(c: Cluster, steps: seq<Step>)
    requires Initial(c) && Run(c, steps).workers == map[]
    ensures Idle(Run(c, steps))
  {
    hide Inv, Run;
    RunKeepsInv(c, steps);
    IdleAgain(Run(c, steps));
  }

  /* ---- when a live rule gets into the config map, and when it does not ---- */

  /** A pass brings a live rule into the config map exactly when the rule is valid and no entry of another owner
      clashes with it. */
  lemma InstalledIffAdmitted(c: Cluster, key: Key, now: int)
    requires Idle(c) && Live(c, key) && !c.objects[key].state.Unset? && MayWrite(c, now)
    ensures key in Pass(c, key, now).objects
    ensures EntryIsCurrent(Pass(c, key, now), key)
            <==> Accepted(RuleOf(key, c.objects[key])) && Admits(Entries(c.configMap), RuleOf(key, c.objects[key]))
  {
    hide Parse, Entries, OwnerName, Accepted, Admits, Pass, Inv, WellFormed;
    var rule := RuleOf(key, c.objects[key]);
    if EntryIsCurrent(c, key) {
      EntriesWellFormed(c.configMap);
      PresentIsAdmitted(Entries(c.configMap), rule.owner);
      CheckingPass(c, key, now);
    } else if Accepted(rule) && Admits(Entries(c.configMap), rule) {
      WritingPass(c, key, now);
    } else {
      FailingPass(c, key, now);
    }
  }

  /** After a pass that has written a rule, the rule is found unchanged: by `CheckingPass`, further passes over it
      write nothing to the config map. */
  lemma WritingPassInstalls(c: Cluster, key: Key, now: int)
    requires Idle(c) && Live(c, key) && !c.objects[key].state.Unset? && MayWrite(c, now)
    requires Accepted(RuleOf(key, c.objects[key])) && Admits(Entries(c.configMap), RuleOf(key, c.objects[key]))
    requires !EntryIsCurrent(c, key)
    ensures var c' := Pass(c, key, now);
            Idle(c') && Live(c', key) && c'.objects[key].state.Processing? && EntryIsCurrent(c', key)
  {
    hide Parse, Entries, OwnerName, Accepted, Admits, Pass, Inv;
    WritingPass(c, key, now);
    PassKeepsInv(c, key, now);
    IdleAgain(Pass(c, key, now));
  }
}
