/** What every step of every run keeps: no stale readiness, no orphaned entries, no lost updates
    (internal/controllers/masqueradingrule_controller.go). */
module ClusterSafety {
  import opened Conventions
  import opened Options
  import opened Text
  import opened RewriteRules
  import opened RuleMaps
  import opened Snippets
  import opened Clusters

  /* ---- owners ---- */

  lemma OwnerNameSplit(key: Key, uid: string)
    requires ' ' !in uid
    ensures Split(OwnerName(key, uid), ' ')[0] == uid
  {
    SplitHead(uid, "(" + key + ")", ' ');
    assert OwnerName(key, uid) == uid + [' '] + ("(" + key + ")");
  }

  /** Different keys or identifiers give different owners. */
  lemma OwnerNameInjective(key1: Key, uid1: string, key2: Key, uid2: string)
    requires ' ' !in uid1 && ' ' !in uid2
    requires OwnerName(key1, uid1) == OwnerName(key2, uid2)
    ensures key1 == key2 && uid1 == uid2
  {
    hide OwnerName;
    OwnerNameSplit(key1, uid1);
    OwnerNameSplit(key2, uid2);
    OwnerNameKey(key1, key2, uid1);
  }

  lemma OwnerNameKey(key1: Key, key2: Key, uid: string)
    ensures OwnerName(key1, uid) == OwnerName(key2, uid) ==> key1 == key2
  {
    var o1, o2 := OwnerName(key1, uid), OwnerName(key2, uid);
    assert key1 == o1[|uid| + 2..|o1| - 1] && key2 == o2[|uid| + 2..|o2| - 1];
  }

  lemma OwnerNamePrintable(key: Key, uid: string)
    requires ValidUid(uid) && ValidKey(key)
    ensures OwnerName(key, uid) != "" && '\n' !in OwnerName(key, uid)
  {
  }

  /* ---- the invariant ---- */

  /** The entry of one owner. */
  function EntryOf(m: RuleMap, owner: string): Option<RewriteRule> {
    if owner in m then Some(m[owner]) else None
  }

  function RuleOf(key: Key, obj: RuleObject): RewriteRule {
    RewriteRule(OwnerName(key, obj.uid), obj.from, obj.to)
  }

  /** The status says that the present specification is in effect. */
  predicate ReadyForSpec(obj: RuleObject) {
    !obj.deleting && obj.state.Ready? && obj.observed == obj.generation
  }

  ghost predicate ReadyIsTrue(c: Cluster, key: Key) {
    key in c.objects && ReadyForSpec(c.objects[key]) ==>
      EntryOf(Entries(c.configMap), OwnerName(key, c.objects[key].uid)) == Some(RuleOf(key, c.objects[key]))
  }

  /** The owner of an entry is a stored object that carries the finalizer. */
  ghost predicate HasHolder(c: Cluster, owner: string) {
    exists key :: key in c.objects && OwnerName(key, c.objects[key].uid) == owner
                  && FINALIZER in c.objects[key].finalizers
  }

  predicate ObjectOk(c: Cluster, key: Key)
    requires key in c.objects
  {
    var obj := c.objects[key];
    && ValidKey(key) && ValidUid(obj.uid) && obj.uid in c.uids
    && obj.version < c.nextVersion
    && obj.observed <= obj.generation
    && (obj.deleting ==> obj.finalizers != {})
    && (key in c.queued || key in c.workers)
  }

  ghost predicate ConfigMapOk(c: Cluster) {
    c.configMap.Some? ==>
      c.configMap.value.version < c.nextVersion && Parse(c.configMap.value.text).Some?
  }

  /** Consecutive updates are at least the delay apart, and the last one is recorded in the config map. */
  ghost predicate WritesOk(c: Cluster) {
    && (forall i | 0 < i < |c.writes| :: c.writes[i - 1] + c.delay <= c.writes[i])
    && (c.writes != [] ==> c.configMap.Some? && c.configMap.value.stamp == At(c.writes[|c.writes| - 1]))
  }

  /** How the stored object may have moved on from the copy of a worker. */
  predicate Follows(stored: RuleObject, copy: RuleObject) {
    && stored.generation >= copy.generation
    && (stored.generation == copy.generation ==>
          stored.from == copy.from && stored.to == copy.to && stored.deleting == copy.deleting)
    && (copy.deleting ==> stored.deleting)
    && stored.observed <= copy.generation
  }

  predicate CopyOk(c: Cluster, key: Key, obj: RuleObject) {
    && ValidKey(key) && ValidUid(obj.uid) && obj.uid in c.uids
    && obj.version < c.nextVersion
    && obj.observed <= obj.generation
    && (obj.deleting ==> obj.finalizers != {})
    && (key in c.objects && c.objects[key].uid == obj.uid ==> Follows(c.objects[key], obj))
    && (Current(c, key, obj) ==>
          && c.objects[key].uid == obj.uid && c.objects[key].generation == obj.generation
          && c.objects[key].finalizers == obj.finalizers)
  }

  /** The object that the worker has read is still stored and carries the finalizer. */
  predicate Holds(c: Cluster, key: Key, obj: RuleObject) {
    key in c.objects && c.objects[key].uid == obj.uid && FINALIZER in c.objects[key].finalizers
  }

  predicate Timely(stamp: Timestamp, time: int, delay: int) {
    stamp.NoStamp? || (stamp.At? && stamp.time + delay <= time)
  }

  /** The copy of the config map and what it says about the own entry. */
  ghost predicate ConfigMapCopyOk(c: Cluster, key: Key, w: Worker) {
    && (w.configMap.Some? ==>
          && c.configMap.Some? && Parse(w.configMap.value.text).Some?
          && w.configMap.value.version < c.nextVersion
          && (c.configMap.value.version == w.configMap.value.version ==> c.configMap == w.configMap))
    && var owner := OwnerName(key, w.obj.uid);
       EntryOf(Entries(c.configMap), owner) == EntryOf(Entries(w.configMap), owner)
  }

  /** What a worker knows before it makes its next call. */
  ghost predicate CallOk(c: Cluster, key: Key, w: Worker) {
    var rule := RuleOf(key, w.obj);
    match w.call
    case ReadConfigMap => FINALIZER in w.obj.finalizers ==> Holds(c, key, w.obj)
    case AddFinalizer => !w.obj.deleting && ConfigMapCopyOk(c, key, w)
    case CreateConfigMap(text) =>
      && !w.obj.deleting && ConfigMapCopyOk(c, key, w) && Holds(c, key, w.obj)
      && !w.obj.state.Ready? && w.configMap.None? && Accepted(rule) && text == Print(map[rule.owner := rule])
    case UpdateConfigMap(text, time) =>
      && !w.obj.state.Ready?
      && ConfigMapCopyOk(c, key, w) && w.configMap.Some? && Timely(w.configMap.value.stamp, time, c.delay)
      && var m := Entries(w.configMap);
         if w.obj.deleting then text == Print(RemoveRule(m, rule.owner))
         else
           && Holds(c, key, w.obj) && Accepted(rule) && Admits(m, rule)
           && text == Print(m[rule.owner := rule]) && EntryOf(m, rule.owner) != Some(rule)
    case CheckRecord =>
      && !w.obj.deleting && ConfigMapCopyOk(c, key, w)
      && EntryOf(Entries(w.configMap), rule.owner) == Some(rule)
    case DropFinalizer =>
      && w.obj.deleting && w.obj.finalizers - {FINALIZER} == {} && ConfigMapCopyOk(c, key, w)
      && EntryOf(Entries(w.configMap), rule.owner) == None
    case SaveStatus =>
      w.obj.state.Ready? ==> !w.obj.deleting && EntryOf(Entries(c.configMap), rule.owner) == Some(rule)
  }

  ghost predicate WorkerOk(c: Cluster, key: Key)
    requires key in c.workers
  {
    CopyOk(c, key, c.workers[key].obj) && CallOk(c, key, c.workers[key])
  }

  ghost predicate Inv(c: Cluster) {
    && ConfigMapOk(c) && WritesOk(c)
    && (forall key | key in c.objects :: ObjectOk(c, key) && ReadyIsTrue(c, key))
    && (forall owner | owner in Entries(c.configMap) :: HasHolder(c, owner))
    && (forall key | key in c.workers :: WorkerOk(c, key))
  }

  /* ---- entries ---- */

  lemma EntriesWellFormed(configMap: Option<ConfigMap>)
    ensures WellFormed(Entries(configMap))
  {
    hide Parse, Printable;
    if configMap.Some? && Parse(configMap.value.text).Some? { NormalForm(configMap.value.text); }
  }

  lemma PrintedEntries(m: RuleMap, version: nat, stamp: Timestamp)
    requires WellFormed(m)
    ensures Parse(Print(m)).Some? && Entries(Some(ConfigMap(version, Print(m), stamp))) == m
  {
    hide WellFormed, Print, Parse;
    ParsePrint(m);
  }

  lemma WithRuleWellFormed(m: RuleMap, key: Key, obj: RuleObject)
    requires WellFormed(m) && ValidKey(key) && ValidUid(obj.uid)
    requires Accepted(RuleOf(key, obj)) && Admits(m, RuleOf(key, obj))
    ensures WellFormed(m[RuleOf(key, obj).owner := RuleOf(key, obj)])
  {
    hide Accepted, OwnerName;
    AddKeepsConsistent(m, RuleOf(key, obj));
    OwnerNamePrintable(key, obj.uid);
  }

  lemma WithoutRuleWellFormed(m: RuleMap, owner: string)
    requires WellFormed(m)
    ensures WellFormed(RemoveRule(m, owner))
  {
    hide Printable, Clash;
  }

  /* ---- workers that a step leaves alone ---- */

  /** How an object may change while its key is not at the hands of a worker. */
  predicate ObjectMoves(c: Cluster, c': Cluster, key: Key) {
    if key !in c.objects then
      key in c'.objects ==> c'.objects[key].uid !in c.uids && c'.objects[key].version >= c.nextVersion
    else if key !in c'.objects then FINALIZER !in c.objects[key].finalizers
    else
      var obj, obj' := c.objects[key], c'.objects[key];
      obj == obj'
      || (&& obj'.uid == obj.uid && obj'.version >= c.nextVersion
          && obj'.state == obj.state && obj'.observed == obj.observed
          && (FINALIZER in obj.finalizers ==> FINALIZER in obj'.finalizers)
          && (|| obj'.generation > obj.generation
              || (obj'.generation == obj.generation && obj'.from == obj.from && obj'.to == obj.to
                  && obj'.deleting == obj.deleting))
          && (obj.deleting ==> obj'.deleting))
  }

  /** The step does not touch what the worker of `key` relies on. */
  ghost predicate Undisturbed(c: Cluster, c': Cluster, key: Key, uid: string) {
    && c.nextVersion <= c'.nextVersion && c.uids <= c'.uids && c.delay == c'.delay
    && ObjectMoves(c, c', key)
    && (c.configMap.Some? ==> c'.configMap.Some?)
    && (c'.configMap == c.configMap || (c'.configMap.Some? && c'.configMap.value.version >= c.nextVersion))
    && EntryOf(Entries(c'.configMap), OwnerName(key, uid)) == EntryOf(Entries(c.configMap), OwnerName(key, uid))
  }

  lemma CopyFrame(c: Cluster, c': Cluster, key: Key, obj: RuleObject)
    requires CopyOk(c, key, obj)
    requires c.nextVersion <= c'.nextVersion && c.uids <= c'.uids && ObjectMoves(c, c', key)
    ensures CopyOk(c', key, obj)
    ensures Holds(c, key, obj) ==> Holds(c', key, obj)
  {
    hide ValidUid, ValidKey;
  }

  lemma WorkerFrame(c: Cluster, c': Cluster, key: Key)
    requires key in c.workers && key in c'.workers && c'.workers[key] == c.workers[key]
    requires WorkerOk(c, key) && Undisturbed(c, c', key, c.workers[key].obj.uid)
    ensures WorkerOk(c', key)
  {
    hide Parse, Print, Accepted, Admits, OwnerName, ObjectMoves, CopyOk, Entries;
    var w := c.workers[key];
    CopyFrame(c, c', key, w.obj);
    if w.call.AddFinalizer? || w.call.CreateConfigMap? || w.call.UpdateConfigMap? || w.call.CheckRecord?
       || w.call.DropFinalizer? {
      assert ConfigMapCopyOk(c', key, w);
    }
  }

  /* ---- steps of users and other parties ---- */

  /** Objects move, and the config map keeps its entries and its timestamp. */
  ghost predicate Outside(c: Cluster, c': Cluster) {
    && c'.workers == c.workers && c'.writes == c.writes && c'.delay == c.delay
    && c.queued <= c'.queued && c.uids <= c'.uids && c.nextVersion <= c'.nextVersion
    && (forall key :: ObjectMoves(c, c', key))
    && (forall key | key in c'.objects :: ObjectOk(c', key))
    && (forall key | key in c'.objects && key !in c.objects :: c'.objects[key].state.Unset?)
    && ConfigMapOk(c') && Entries(c'.configMap) == Entries(c.configMap)
    && (c'.configMap == c.configMap
        || (c'.configMap.Some? && c'.configMap.value.version >= c.nextVersion
            && (c.configMap.Some? ==> c'.configMap.value.stamp == c.configMap.value.stamp)))
  }

  lemma OutsideKeepsReady(c: Cluster, c': Cluster, key: Key)
    requires Inv(c) && Outside(c, c')
    ensures ReadyIsTrue(c', key)
  {
    hide Parse, Entries, OwnerName, WorkerOk, WritesOk, HasHolder;
    assert ObjectMoves(c, c', key);
    if key in c.objects {
      assert ObjectOk(c, key) && ReadyIsTrue(c, key);
    }
  }

  lemma OutsideKeepsHolder(c: Cluster, c': Cluster, owner: string)
    requires Inv(c) && Outside(c, c') && owner in Entries(c.configMap)
    ensures HasHolder(c', owner)
  {
    hide Parse, Entries, OwnerName, WorkerOk, WritesOk;
    assert HasHolder(c, owner);
    var key :| key in c.objects && OwnerName(key, c.objects[key].uid) == owner
               && FINALIZER in c.objects[key].finalizers;
    assert ObjectMoves(c, c', key);
  }

  lemma OutsideKeepsInv(c: Cluster, c': Cluster)
    requires Inv(c) && Outside(c, c')
    ensures Inv(c')
  {
    hide Parse, Entries, OwnerName, WorkerOk, HasHolder, ObjectMoves, ReadyIsTrue, ObjectOk;
    forall key | key in c'.objects ensures ReadyIsTrue(c', key) {
      OutsideKeepsReady(c, c', key);
    }
    forall owner | owner in Entries(c'.configMap) ensures HasHolder(c', owner) {
      OutsideKeepsHolder(c, c', owner);
    }
    forall key | key in c'.workers ensures WorkerOk(c', key) {
      assert WorkerOk(c, key);
      WorkerFrame(c, c', key);
    }
  }

  lemma EditsAreOutside(c: Cluster, s: Step)
    requires Inv(c) && Enabled(c, s)
    requires s.CreateRule? || s.EditSpec? || s.EditFinalizers? || s.DeleteRule?
    ensures Outside(c, Next(c, s))
  {
    hide Parse, Entries, OwnerName, WorkerOk, HasHolder, ReadyIsTrue, WritesOk, Run, DoBegin, DoProceed,
         ValidUid, ValidKey;
    var c' := Next(c, s);
    assert s.key in c.objects ==> ObjectOk(c, s.key);
    forall key ensures ObjectMoves(c, c', key) {}
    forall key | key in c'.objects ensures ObjectOk(c', key) {
      if key != s.key { assert ObjectOk(c, key); }
    }
  }

  lemma ConfigMapTouchIsOutside(c: Cluster, s: Step)
    requires Inv(c) && Enabled(c, s) && (s.TouchConfigMap? || s.AddConfigMap?)
    ensures Outside(c, Next(c, s))
  {
    hide OwnerName, WorkerOk, HasHolder, ReadyIsTrue, WritesOk, Run, DoBegin, DoProceed;
    var c' := Next(c, s);
    forall key ensures ObjectMoves(c, c', key) {}
    forall key | key in c'.objects ensures ObjectOk(c', key) {
      assert ObjectOk(c, key);
    }
  }

  /* ---- steps of the operator ---- */

  /** What a step of the worker of `key` changes at most: its object, its own entry and its own place. */
  ghost predicate OwnStep(c: Cluster, c': Cluster, key: Key, uid: string) {
    && ' ' !in uid
    && c'.delay == c.delay && c'.uids == c.uids && c.nextVersion <= c'.nextVersion
    && (forall k | k != key :: k in c'.objects <==> k in c.objects)
    && (forall k | k != key && k in c.objects :: c'.objects[k] == c.objects[k])
    && (forall k | k != key :: k in c'.workers <==> k in c.workers)
    && (forall k | k != key && k in c.workers :: c'.workers[k] == c.workers[k])
    && (forall k | k != key :: k in c'.queued <==> k in c.queued)
    && (c.configMap.Some? ==> c'.configMap.Some?)
    && (c'.configMap == c.configMap || (c'.configMap.Some? && c'.configMap.value.version >= c.nextVersion))
    && (forall owner | owner != OwnerName(key, uid) ::
          EntryOf(Entries(c'.configMap), owner) == EntryOf(Entries(c.configMap), owner))
  }

  lemma OthersUndisturbed(c: Cluster, c': Cluster, key: Key, uid: string, k: Key, uid': string)
    requires OwnStep(c, c', key, uid) && k != key && ' ' !in uid'
    ensures Undisturbed(c, c', k, uid')
  {
    hide Parse, Entries, OwnerName;
    if OwnerName(k, uid') == OwnerName(key, uid) { OwnerNameInjective(k, uid', key, uid); }
  }

  /** An own step keeps the invariant if it keeps what concerns the own key and the config map. */
  lemma OwnStepKeepsInv(c: Cluster, c': Cluster, key: Key, uid: string)
    requires Inv(c) && OwnStep(c, c', key, uid)
    requires ConfigMapOk(c') && WritesOk(c')
    requires key in c'.objects ==> ObjectOk(c', key) && ReadyIsTrue(c', key)
    requires key in c'.workers ==> WorkerOk(c', key)
    requires forall owner | owner in Entries(c'.configMap) :: HasHolder(c', owner)
    ensures Inv(c')
  {
    hide Parse, Entries, OwnerName, WorkerOk, HasHolder, WritesOk, Undisturbed, ConfigMapOk, EntryOf;
    forall k | k in c'.objects ensures ObjectOk(c', k) && ReadyIsTrue(c', k) {
      if k != key {
        assert ObjectOk(c, k) && ReadyIsTrue(c, k);
        OthersUndisturbed(c, c', key, uid, k, c.objects[k].uid);
        UndisturbedEntry(c, c', k, c.objects[k].uid);
      }
    }
    forall k | k in c'.workers ensures WorkerOk(c', k) {
      if k != key {
        WorkerUid(c, k);
        OthersUndisturbed(c, c', key, uid, k, c.workers[k].obj.uid);
        WorkerFrame(c, c', k);
      }
    }
  }

  lemma UndisturbedEntry(c: Cluster, c': Cluster, key: Key, uid: string)
    requires Undisturbed(c, c', key, uid)
    ensures EntryOf(Entries(c'.configMap), OwnerName(key, uid)) == EntryOf(Entries(c.configMap), OwnerName(key, uid))
  {
  }

  lemma WorkerUid(c: Cluster, key: Key)
    requires Inv(c) && key in c.workers
    ensures WorkerOk(c, key) && ValidUid(c.workers[key].obj.uid) && ValidKey(key)
  {
    hide CallOk, ConfigMapOk, WritesOk, HasHolder, ReadyIsTrue;
    assert WorkerOk(c, key);
  }

  /** Copies of the same object, up to the status that is going to be saved. */
  predicate SameCopy(obj: RuleObject, obj': RuleObject) {
    obj'.(state := obj.state) == obj
  }

  lemma OnlyWorkerChanges(c: Cluster, key: Key, w': Worker)
    requires Inv(c) && key in c.workers && SameCopy(c.workers[key].obj, w'.obj)
    requires CallOk(c, key, w')
    ensures Inv(WithWorker(c, key, Some(w')))
  {
    hide Parse, Entries, OwnerName, HasHolder, ConfigMapOk, WritesOk, ValidUid, ReadyIsTrue;
    var c' := WithWorker(c, key, Some(w'));
    WorkerUid(c, key);
    UidHasNoSpace(w'.obj.uid);
    assert key in c.objects ==> ObjectOk(c, key) && ReadyIsTrue(c, key);
    SameReady(c, c', key);
    SameHolders(c, c');
    SameRest(c, c');
    CallFrame(c, c', key, w');
    OwnStepKeepsInv(c, c', key, w'.obj.uid);
  }

  lemma UidHasNoSpace(uid: string)
    requires ValidUid(uid)
    ensures ' ' !in uid
  {
  }

  lemma SameReady(c: Cluster, c': Cluster, key: Key)
    requires c.objects == c'.objects && c.configMap == c'.configMap
    ensures ReadyIsTrue(c, key) <==> ReadyIsTrue(c', key)
  {
    hide Entries;
  }

  lemma SameHolders(c: Cluster, c': Cluster)
    requires c.objects == c'.objects && c.configMap == c'.configMap
    requires forall owner | owner in Entries(c.configMap) :: HasHolder(c, owner)
    ensures forall owner | owner in Entries(c'.configMap) :: HasHolder(c', owner)
  {
    hide Entries, OwnerName;
    forall owner | owner in Entries(c'.configMap) ensures HasHolder(c', owner) {
      assert HasHolder(c, owner);
    }
  }

  lemma SameRest(c: Cluster, c': Cluster)
    requires c.configMap == c'.configMap && c.writes == c'.writes && c.delay == c'.delay
    requires c.nextVersion <= c'.nextVersion
    ensures ConfigMapOk(c) ==> ConfigMapOk(c')
    ensures WritesOk(c) ==> WritesOk(c')
  {
    hide Parse;
  }

  lemma CallFrame(c: Cluster, c': Cluster, key: Key, w: Worker)
    requires CallOk(c, key, w)
    requires c'.configMap == c.configMap && c'.delay == c.delay && c.nextVersion <= c'.nextVersion
    requires Holds(c, key, w.obj) ==> Holds(c', key, w.obj)
    ensures CallOk(c', key, w)
  {
    hide Parse, Print, Accepted, Admits, OwnerName, Entries;
  }

  lemma FailKeepsInv(c: Cluster, key: Key)
    requires Inv(c) && key in c.workers
    ensures Inv(WithWorker(c, key, Some(Fail(c.workers[key]))))
  {
    hide Inv, WithWorker;
    OnlyWorkerChanges(c, key, Fail(c.workers[key]));
  }

  /* ---- decisions ---- */

  lemma EntriesOfCopy(c: Cluster, key: Key, w: Worker)
    requires ConfigMapCopyOk(c, key, w) && w.configMap.Some?
    ensures Parse(w.configMap.value.text) == Some(Entries(w.configMap))
  {
    hide Parse;
  }

  lemma NewRuleIsRuleOf(key: Key, obj: RuleObject)
    ensures var r := NewRewriteRule(OwnerName(key, obj.uid), obj.from, obj.to);
            r.Some? ==> r.value == RuleOf(key, obj) && Accepted(r.value)
  {
    hide OwnerName;
  }

  lemma WriteBackOk(c: Cluster, key: Key, w: Worker, state: RuleState, m: RuleMap, now: int)
    requires w.configMap.Some? && !state.Ready?
    requires var w' := w.(call := UpdateConfigMap(Print(m), now), obj := w.obj.(state := state));
             Timely(w.configMap.value.stamp, now, c.delay) ==> CallOk(c, key, w')
    ensures CallOk(c, key, WriteBack(w, w.configMap.value.stamp, state, m, now, c.delay))
    ensures SameCopy(w.obj, WriteBack(w, w.configMap.value.stamp, state, m, now, c.delay).obj)
  {
    hide Print, Entries, OwnerName, Accepted, Admits, ConfigMapCopyOk;
  }

  lemma DecideLiveOk(c: Cluster, key: Key, w: Worker, now: int)
    requires !w.obj.deleting && ConfigMapCopyOk(c, key, w) && Holds(c, key, w.obj)
    ensures CallOk(c, key, DecideLive(key, w, now, c.delay))
    ensures SameCopy(w.obj, DecideLive(key, w, now, c.delay).obj)
  {
    hide Parse, Print, Entries, OwnerName, Accepted, Admits, ConfigMapCopyOk, NewRewriteRule, WriteBack;
    var rule := RuleOf(key, w.obj);
    NewRuleIsRuleOf(key, w.obj);
    if NewRewriteRule(OwnerName(key, w.obj.uid), w.obj.from, w.obj.to).Some? {
      if w.configMap.None? {
        CopyFrameOfState(c, key, w, DecideLive(key, w, now, c.delay));
      } else {
        var m := Entries(w.configMap);
        EntriesOfCopy(c, key, w);
        if Admits(m, rule) {
          CopyFrameOfState(c, key, w, w.(call := CheckRecord));
          var m' := m[rule.owner := rule];
          if m' != m {
            var w' := w.(call := UpdateConfigMap(Print(m'), now), obj := w.obj.(state := Processing));
            CopyFrameOfState(c, key, w, w');
            assert EntryOf(m, rule.owner) != Some(rule);
            WriteBackOk(c, key, w, Processing, m', now);
          } else {
            assert rule.owner in m';
          }
        }
      }
    }
  }

  lemma CopyFrameOfState(c: Cluster, key: Key, w: Worker, w': Worker)
    requires ConfigMapCopyOk(c, key, w) && w'.configMap == w.configMap && w'.obj.uid == w.obj.uid
    ensures ConfigMapCopyOk(c, key, w')
  {
  }

  lemma DecideDeletingOk(c: Cluster, key: Key, w: Worker, now: int)
    requires w.obj.deleting && w.obj.finalizers != {} && ConfigMapCopyOk(c, key, w)
    ensures var d := DecideDeleting(key, w, now, c.delay);
            d.Some? && CallOk(c, key, d.value) && SameCopy(w.obj, d.value.obj)
  {
    hide Parse, Print, Entries, OwnerName, ConfigMapCopyOk, WriteBack;
    var owner := OwnerName(key, w.obj.uid);
    CopyFrameOfState(c, key, w, w.(call := DropFinalizer));
    if w.configMap.Some? {
      var m := Entries(w.configMap);
      EntriesOfCopy(c, key, w);
      var w' := w.(call := UpdateConfigMap(Print(RemoveRule(m, owner)), now), obj := w.obj.(state := Deleting));
      CopyFrameOfState(c, key, w, w');
      WriteBackOk(c, key, w, Deleting, RemoveRule(m, owner), now);
    } else {
      NoEntries();
    }
  }

  lemma NoEntries()
    ensures Entries(None) == map[]
  {
  }

  lemma DecideOk(c: Cluster, key: Key, w: Worker, now: int)
    requires ConfigMapCopyOk(c, key, w) && (w.obj.deleting ==> w.obj.finalizers != {})
    requires !w.obj.deleting && FINALIZER in w.obj.finalizers ==> Holds(c, key, w.obj)
    ensures var d := Decide(key, w, now, c.delay);
            d.Some? && CallOk(c, key, d.value) && SameCopy(w.obj, d.value.obj)
  {
    hide Parse, Print, Entries, OwnerName, ConfigMapCopyOk, DecideLive, DecideDeleting, Holds;
    if w.obj.deleting {
      DecideDeletingOk(c, key, w, now);
    } else if FINALIZER in w.obj.finalizers {
      DecideLiveOk(c, key, w, now);
    } else {
      CopyFrameOfState(c, key, w, w.(call := AddFinalizer));
    }
  }

  /* ---- the calls ---- */

  lemma ReadConfigMapKeepsInv(c: Cluster, key: Key, o: Outcome)
    requires Inv(c) && key in c.workers && c.workers[key].call.ReadConfigMap?
    ensures Inv(ProceedReadConfigMap(c, key, c.workers[key], o))
  {
    hide Parse, Entries, OwnerName, HasHolder, WritesOk, ReadyIsTrue, Decide;
    var w := c.workers[key];
    WorkerUid(c, key);
    if o.verdict.Done? {
      var w' := w.(configMap := c.configMap);
      assert ConfigMapCopyOk(c, key, w');
      DecideOk(c, key, w', o.now);
      OnlyWorkerChanges(c, key, Decide(key, w', o.now, c.delay).value);
    } else {
      FailKeepsInv(c, key);
    }
  }

  lemma CheckRecordKeepsInv(c: Cluster, key: Key, o: Outcome)
    requires Inv(c) && key in c.workers && c.workers[key].call.CheckRecord?
    ensures Inv(ProceedCheckRecord(c, key, c.workers[key], o))
  {
    hide Parse, Entries, OwnerName, HasHolder, ConfigMapOk, WritesOk, ReadyIsTrue;
    var w := c.workers[key];
    WorkerUid(c, key);
    if o.answer.Unknown? {
      FailKeepsInv(c, key);
    } else {
      OnlyWorkerChanges(c, key, Finish(w, if o.answer.Active? then Ready else Processing));
    }
  }

  /** Storing the finalizer: every holder stays a holder, and the new copy is the stored object. */
  lemma AddFinalizerKeepsInv(c: Cluster, key: Key, o: Outcome)
    requires Inv(c) && key in c.workers && c.workers[key].call.AddFinalizer?
    ensures Inv(ProceedAddFinalizer(c, key, c.workers[key], o))
  {
    hide Inv, WithWorker, Decide, StoreObject, Parse;
    var w := c.workers[key];
    if Current(c, key, w.obj) && !o.verdict.Refused? {
      FinalizerStored(c, key);
      var c' := StoreObject(c, key, c.objects[key].(finalizers := w.obj.finalizers + {FINALIZER}));
      if o.verdict.Done? {
        var w' := w.(obj := c'.objects[key]);
        DecideOk(c', key, w', o.now);
        FreshCopy(c', key, w', Decide(key, w', o.now, c.delay).value);
      } else {
        FailKeepsInv(c', key);
      }
    } else {
      FailKeepsInv(c, key);
    }
  }

  lemma FinalizerStored(c: Cluster, key: Key)
    requires Inv(c) && key in c.workers && c.workers[key].call.AddFinalizer? && Current(c, key, c.workers[key].obj)
    ensures var w := c.workers[key];
            var c' := StoreObject(c, key, c.objects[key].(finalizers := w.obj.finalizers + {FINALIZER}));
            var w' := w.(obj := c'.objects[key]);
            && Inv(c') && c'.workers == c.workers && c'.delay == c.delay
            && key in c'.objects && c'.objects[key].uid == w.obj.uid
            && ConfigMapCopyOk(c', key, w') && Holds(c', key, w'.obj) && !w'.obj.deleting
  {
    hide Parse, Entries, OwnerName, HasHolder, ReadyIsTrue, ConfigMapOk, WritesOk, ValidUid;
    var w := c.workers[key];
    var c' := StoreObject(c, key, c.objects[key].(finalizers := w.obj.finalizers + {FINALIZER}));
    WorkerUid(c, key);
    UidHasNoSpace(w.obj.uid);
    assert ObjectOk(c, key) && ReadyIsTrue(c, key);
    StoredHolders(c, c', key);
    SameSpecReady(c, c', key);
    SameRest(c, c');
    assert ObjectMoves(c, c', key);
    assert Undisturbed(c, c', key, w.obj.uid);
    WorkerFrame(c, c', key);
    OwnStepKeepsInv(c, c', key, w.obj.uid);
    CopyFrameOfVersion(c, c', key, w, w.(obj := c'.objects[key]));
  }

  lemma CopyFrameOfVersion(c: Cluster, c': Cluster, key: Key, w: Worker, w': Worker)
    requires ConfigMapCopyOk(c, key, w) && c'.configMap == c.configMap && c.nextVersion <= c'.nextVersion
    requires w'.configMap == w.configMap && w'.obj.uid == w.obj.uid
    ensures ConfigMapCopyOk(c', key, w')
  {
    hide Parse, Entries, OwnerName;
  }

  lemma StoredHolders(c: Cluster, c': Cluster, key: Key)
    requires Inv(c) && c'.configMap == c.configMap && key in c.objects && key in c'.objects
    requires c'.objects == c.objects[key := c'.objects[key]]
    requires c'.objects[key].uid == c.objects[key].uid
    requires FINALIZER in c.objects[key].finalizers ==> FINALIZER in c'.objects[key].finalizers
    ensures forall owner | owner in Entries(c'.configMap) :: HasHolder(c', owner)
  {
    hide Entries, OwnerName, ObjectOk, ReadyIsTrue, WorkerOk, ConfigMapOk, WritesOk;
    forall owner | owner in Entries(c'.configMap) ensures HasHolder(c', owner) {
      assert HasHolder(c, owner);
      var k :| k in c.objects && OwnerName(k, c.objects[k].uid) == owner && FINALIZER in c.objects[k].finalizers;
      assert k in c'.objects;
    }
  }

  lemma SameSpecReady(c: Cluster, c': Cluster, key: Key)
    requires ReadyIsTrue(c, key) && c'.configMap == c.configMap && key in c.objects && key in c'.objects
    requires var obj, obj' := c.objects[key], c'.objects[key];
             obj'.(finalizers := obj.finalizers, version := obj.version) == obj
    ensures ReadyIsTrue(c', key)
  {
    hide Entries, OwnerName;
  }

  /** A worker whose copy has just been replaced by the stored object. */
  lemma FreshCopy(c: Cluster, key: Key, w: Worker, w': Worker)
    requires Inv(c) && key in c.workers && key in c.objects && w.obj == c.objects[key]
    requires SameCopy(w.obj, w'.obj) && CallOk(c, key, w')
    ensures Inv(WithWorker(c, key, Some(w')))
  {
    hide Parse, Entries, OwnerName, HasHolder, ConfigMapOk, WritesOk, ValidUid, ReadyIsTrue;
    var c' := WithWorker(c, key, Some(w'));
    assert ObjectOk(c, key) && ReadyIsTrue(c, key);
    UidHasNoSpace(w'.obj.uid);
    SameReady(c, c', key);
    SameHolders(c, c');
    SameRest(c, c');
    CallFrame(c, c', key, w');
    OwnStepKeepsInv(c, c', key, w'.obj.uid);
  }

  /** The rule of a worker enters the config map, whose entries were `m` up to the own one. */
  lemma PutKeepsInv(c: Cluster, c1: Cluster, key: Key, m: RuleMap)
    requires Inv(c) && key in c.workers
    requires var w := c.workers[key];
             var rule := RuleOf(key, w.obj);
             && (w.call.CreateConfigMap? || w.call.UpdateConfigMap?) && !w.obj.deleting && Holds(c, key, w.obj)
             && m == Entries(c.configMap) && EntryOf(m, rule.owner) != Some(rule)
             && Entries(c1.configMap) == m[rule.owner := rule]
    requires c1 == c.(configMap := c1.configMap, nextVersion := c.nextVersion + 1, writes := c1.writes)
    requires c1.configMap.Some? && c1.configMap.value.version == c.nextVersion && ConfigMapOk(c1) && WritesOk(c1)
    ensures ReadyIsTrue(c1, key) && ObjectOk(c1, key)
    ensures OwnStep(c, c1, key, c.workers[key].obj.uid)
    ensures forall owner | owner in Entries(c1.configMap) :: HasHolder(c1, owner)
  {
    hide Parse, Entries, OwnerName, WritesOk, ConfigMapOk, CallOk;
    var w := c.workers[key];
    WorkerUid(c, key);
    UidHasNoSpace(w.obj.uid);
    assert ObjectOk(c, key) && ReadyIsTrue(c, key);
    forall owner | owner in Entries(c1.configMap) ensures HasHolder(c1, owner) {
      if owner != OwnerName(key, w.obj.uid) {
        assert HasHolder(c, owner);
        var k :| k in c.objects && OwnerName(k, c.objects[k].uid) == owner && FINALIZER in c.objects[k].finalizers;
        assert k in c1.objects;
      } else {
        assert key in c1.objects;
      }
    }
  }

  /** The entry of a rule that is being deleted leaves the config map. */
  lemma RemoveKeepsInv(c: Cluster, c1: Cluster, key: Key, m: RuleMap)
    requires Inv(c) && key in c.workers
    requires var w := c.workers[key];
             && w.call.UpdateConfigMap? && w.obj.deleting
             && m == Entries(c.configMap)
             && Entries(c1.configMap) == RemoveRule(m, OwnerName(key, w.obj.uid))
    requires c1 == c.(configMap := c1.configMap, nextVersion := c.nextVersion + 1, writes := c1.writes)
    requires c1.configMap.Some? && c1.configMap.value.version == c.nextVersion && ConfigMapOk(c1) && WritesOk(c1)
    ensures key in c1.objects ==> ReadyIsTrue(c1, key) && ObjectOk(c1, key)
    ensures OwnStep(c, c1, key, c.workers[key].obj.uid)
    ensures forall owner | owner in Entries(c1.configMap) :: HasHolder(c1, owner)
  {
    hide Parse, Entries, OwnerName, WritesOk, ConfigMapOk, CallOk;
    var w := c.workers[key];
    WorkerUid(c, key);
    UidHasNoSpace(w.obj.uid);
    if key in c1.objects {
      assert ObjectOk(c, key) && ReadyIsTrue(c, key);
      UidHasNoSpace(c.objects[key].uid);
      if OwnerName(key, c.objects[key].uid) == OwnerName(key, w.obj.uid) {
        OwnerNameInjective(key, c.objects[key].uid, key, w.obj.uid);
      }
    }
    forall owner | owner in Entries(c1.configMap) ensures HasHolder(c1, owner) {
      assert HasHolder(c, owner);
      var k :| k in c.objects && OwnerName(k, c.objects[k].uid) == owner && FINALIZER in c.objects[k].finalizers;
      assert k in c1.objects;
    }
  }

  lemma SameObjectCopy(c: Cluster, c': Cluster, key: Key, obj: RuleObject, obj': RuleObject)
    requires CopyOk(c, key, obj) && SameCopy(obj, obj')
    requires c'.objects == c.objects && c'.uids == c.uids && c.nextVersion <= c'.nextVersion
    ensures CopyOk(c', key, obj')
  {
    hide ValidUid, ValidKey;
  }

  /** After the config map was stored, the worker saves the status, with its state or with an error. */
  lemma StoredThenStatus(c: Cluster, c1: Cluster, key: Key, w': Worker)
    requires Inv(c) && key in c.workers && OwnStep(c, c1, key, c.workers[key].obj.uid)
    requires c1 == c.(configMap := c1.configMap, nextVersion := c.nextVersion + 1, writes := c1.writes)
    requires ConfigMapOk(c1) && WritesOk(c1)
    requires key in c1.objects ==> ReadyIsTrue(c1, key) && ObjectOk(c1, key)
    requires forall owner | owner in Entries(c1.configMap) :: HasHolder(c1, owner)
    requires SameCopy(c.workers[key].obj, w'.obj) && w'.call.SaveStatus? && !w'.obj.state.Ready?
    ensures Inv(WithWorker(c1, key, Some(w')))
  {
    hide Parse, Entries, OwnerName, HasHolder, ValidUid, ReadyIsTrue, WritesOk, ConfigMapOk, CopyOk, Follows, EntryOf;
    var c' := WithWorker(c1, key, Some(w'));
    WorkerUid(c, key);
    SameReady(c1, c', key);
    SameHolders(c1, c');
    SameRest(c1, c');
    SameObjectCopy(c, c', key, c.workers[key].obj, w'.obj);
    OwnStepKeepsInv(c, c', key, w'.obj.uid);
  }

  lemma CreateConfigMapKeepsInv(c: Cluster, key: Key, o: Outcome)
    requires Inv(c) && key in c.workers && c.workers[key].call.CreateConfigMap?
    ensures Inv(ProceedCreateConfigMap(c, key, c.workers[key], o))
  {
    hide Parse, Print, Entries, OwnerName, HasHolder, ReadyIsTrue, Accepted, WellFormed, OwnStep;
    var w := c.workers[key];
    var rule := RuleOf(key, w.obj);
    WorkerUid(c, key);
    if c.configMap.None? && !o.verdict.Refused? {
      var c1 := StoreConfigMap(c, w.call.text, NoStamp);
      EntriesWellFormed(None);
      NoEntries();
      WithRuleWellFormed(map[], key, w.obj);
      PrintedEntries(map[rule.owner := rule], c.nextVersion, NoStamp);
      PutKeepsInv(c, c1, key, map[]);
      StoredThenStatus(c, c1, key, if o.verdict.Done? then w.(call := SaveStatus) else Fail(w));
    } else {
      FailKeepsInv(c, key);
    }
  }

  lemma UpdatedEntries(c: Cluster, key: Key)
    requires Inv(c) && key in c.workers && c.workers[key].call.UpdateConfigMap?
    requires c.configMap == c.workers[key].configMap
    ensures var w := c.workers[key];
            var rule := RuleOf(key, w.obj);
            var c1 := StoreConfigMap(c, w.call.text, At(w.call.time));
            && Parse(w.call.text).Some?
            && Entries(c1.configMap)
               == if w.obj.deleting then RemoveRule(Entries(c.configMap), rule.owner)
                  else Entries(c.configMap)[rule.owner := rule]
  {
    hide Parse, Print, Entries, OwnerName, HasHolder, ReadyIsTrue, Accepted, WellFormed, WritesOk, ObjectOk;
    var w := c.workers[key];
    var rule := RuleOf(key, w.obj);
    WorkerUid(c, key);
    EntriesWellFormed(c.configMap);
    if w.obj.deleting {
      WithoutRuleWellFormed(Entries(c.configMap), rule.owner);
      PrintedEntries(RemoveRule(Entries(c.configMap), rule.owner), c.nextVersion, At(w.call.time));
    } else {
      WithRuleWellFormed(Entries(c.configMap), key, w.obj);
      PrintedEntries(Entries(c.configMap)[rule.owner := rule], c.nextVersion, At(w.call.time));
    }
  }

  lemma UpdateIsSpaced(c: Cluster, c': Cluster, time: int)
    requires WritesOk(c) && c.configMap.Some? && Timely(c.configMap.value.stamp, time, c.delay)
    requires c'.writes == c.writes + [time] && c'.delay == c.delay
    requires c'.configMap.Some? && c'.configMap.value.stamp == At(time)
    ensures WritesOk(c')
  {
  }

  lemma UpdateConfigMapKeepsInv(c: Cluster, key: Key, o: Outcome)
    requires Inv(c) && key in c.workers && c.workers[key].call.UpdateConfigMap?
    ensures Inv(ProceedUpdateConfigMap(c, key, c.workers[key], o))
  {
    hide Parse, Print, Entries, OwnerName, HasHolder, ReadyIsTrue, Accepted, OwnStep, WritesOk, ObjectOk,
         WithWorker, Fail;
    var w := c.workers[key];
    var rule := RuleOf(key, w.obj);
    WorkerUid(c, key);
    if c.configMap.Some? && w.configMap.Some? && c.configMap.value.version == w.configMap.value.version
       && !o.verdict.Refused?
    {
      var c1 := StoreConfigMap(c, w.call.text, At(w.call.time)).(writes := c.writes + [w.call.time]);
      UpdatedEntries(c, key);
      UpdateIsSpaced(c, c1, w.call.time);
      if w.obj.deleting {
        RemoveKeepsInv(c, c1, key, Entries(c.configMap));
      } else {
        PutKeepsInv(c, c1, key, Entries(c.configMap));
      }
      FailedWorker(w);
      StoredThenStatus(c, c1, key, if o.verdict.Done? then w.(call := SaveStatus) else Fail(w));
    } else {
      FailKeepsInv(c, key);
    }
  }

  lemma FailedWorker(w: Worker)
    ensures SameCopy(w.obj, Fail(w).obj) && Fail(w).call.SaveStatus? && Fail(w).obj.state.Error?
  {
  }

  lemma DropFinalizerKeepsInv(c: Cluster, key: Key, o: Outcome)
    requires Inv(c) && key in c.workers && c.workers[key].call.DropFinalizer?
    ensures Inv(ProceedDropFinalizer(c, key, c.workers[key], o))
  {
    hide Parse, Entries, OwnerName, HasHolder, ReadyIsTrue, WritesOk, ConfigMapOk, ValidUid, Fail, CallOk, CopyOk,
         EntryOf, StoreObject, WorkerOk, ObjectOk;
    var w := c.workers[key];
    WorkerUid(c, key);
    UidHasNoSpace(w.obj.uid);
    if Current(c, key, w.obj) && !o.verdict.Refused? {
      var c1 := StoreObject(c, key, c.objects[key].(finalizers := w.obj.finalizers - {FINALIZER}));
      var c' := ProceedDropFinalizer(c, key, w, o);
      EntriesOfDropper(c, key);
      LastFinalizerDropped(c, key);
      DroppedHolders(c, c', key);
      SameRest(c, c');
      FailedWorker(w);
      if key in c'.workers { DroppedWorkerOk(c, c', key, Fail(w)); }
      OwnStepKeepsInv(c, c', key, w.obj.uid);
    } else {
      FailKeepsInv(c, key);
    }
  }

  lemma LastFinalizerDropped(c: Cluster, key: Key)
    requires Inv(c) && key in c.workers && c.workers[key].call.DropFinalizer? && Current(c, key, c.workers[key].obj)
    ensures var w := c.workers[key];
            && c.objects[key].uid == w.obj.uid
            && StoreObject(c, key, c.objects[key].(finalizers := w.obj.finalizers - {FINALIZER}))
               == c.(objects := c.objects - {key}, nextVersion := c.nextVersion + 1)
  {
    hide Parse, Entries, OwnerName, HasHolder, ReadyIsTrue, WritesOk, ConfigMapOk, ConfigMapCopyOk;
    WorkerUid(c, key);
  }

  /** A worker whose object is gone only saves an error. */
  lemma DroppedWorkerOk(c: Cluster, c': Cluster, key: Key, w': Worker)
    requires key in c.workers && WorkerOk(c, key) && SameCopy(c.workers[key].obj, w'.obj)
    requires w'.call.SaveStatus? && w'.obj.state.Error?
    requires key in c'.workers && c'.workers[key] == w' && key !in c'.objects
    requires c.uids <= c'.uids && c.nextVersion <= c'.nextVersion
    ensures WorkerOk(c', key)
  {
    hide ValidUid, ValidKey, Entries, Parse;
  }

  lemma EntriesOfDropper(c: Cluster, key: Key)
    requires key in c.workers && WorkerOk(c, key) && c.workers[key].call.DropFinalizer?
    ensures OwnerName(key, c.workers[key].obj.uid) !in Entries(c.configMap)
  {
    hide Entries, OwnerName, CopyOk;
  }

  lemma DroppedHolders(c: Cluster, c': Cluster, key: Key)
    requires Inv(c) && key in c.objects && c'.objects == c.objects - {key} && c'.configMap == c.configMap
    requires OwnerName(key, c.objects[key].uid) !in Entries(c.configMap)
    ensures forall owner | owner in Entries(c'.configMap) :: HasHolder(c', owner)
  {
    hide Entries, OwnerName, ObjectOk, ReadyIsTrue, WorkerOk, ConfigMapOk, WritesOk;
    forall owner | owner in Entries(c'.configMap) ensures HasHolder(c', owner) {
      assert HasHolder(c, owner);
      var k :| k in c.objects && OwnerName(k, c.objects[k].uid) == owner && FINALIZER in c.objects[k].finalizers;
      assert k in c'.objects;
    }
  }

  lemma SaveStatusKeepsInv(c: Cluster, key: Key, o: Outcome)
    requires Inv(c) && key in c.workers && c.workers[key].call.SaveStatus?
    ensures Inv(ProceedSaveStatus(c, key, c.workers[key], o))
  {
    hide Parse, Entries, OwnerName, HasHolder, WritesOk, ConfigMapOk, ValidUid;
    var w := c.workers[key];
    var c' := ProceedSaveStatus(c, key, w, o);
    WorkerUid(c, key);
    UidHasNoSpace(w.obj.uid);
    SameRest(c, c');
    if key in c.objects { assert ObjectOk(c, key) && ReadyIsTrue(c, key); }
    if Current(c, key, w.obj) && !o.verdict.Refused? {
      StoredHolders(c, c', key);
    } else {
      SameHolders(c, c');
    }
    OwnStepKeepsInv(c, c', key, w.obj.uid);
  }

  lemma FirstCallOk(c: Cluster, c': Cluster, key: Key)
    requires Inv(c) && key in c.objects && key !in c.workers && key in c'.workers && c' == DoBegin(c, key, Done)
    ensures WorkerOk(c', key)
  {
    hide Parse, Entries, OwnerName, HasHolder, WritesOk, ConfigMapOk, ReadyIsTrue, ValidUid;
    assert ObjectOk(c, key);
  }

  lemma BeginKeepsInv(c: Cluster, key: Key, verdict: Verdict)
    requires Inv(c) && key in c.queued && key !in c.workers
    ensures Inv(DoBegin(c, key, verdict))
  {
    hide Parse, Entries, OwnerName, HasHolder, WritesOk, ConfigMapOk, ValidUid, ReadyIsTrue, WorkerOk;
    var c' := DoBegin(c, key, verdict);
    SameRest(c, c');
    SameHolders(c, c');
    SameReady(c, c', key);
    if key in c.objects {
      assert ObjectOk(c, key) && ReadyIsTrue(c, key);
      UidHasNoSpace(c.objects[key].uid);
      if key in c'.workers { FirstCallOk(c, c', key); }
      OwnStepKeepsInv(c, c', key, c.objects[key].uid);
    } else {
      OwnStepKeepsInv(c, c', key, "");
    }
  }

  lemma CrashKeepsInv(c: Cluster, key: Key)
    requires Inv(c) && key in c.workers
    ensures Inv(Next(c, Crash(key)))
  {
    hide Parse, Entries, OwnerName, HasHolder, WritesOk, ConfigMapOk, ValidUid, DoBegin, DoProceed;
    var c' := Next(c, Crash(key));
    SameRest(c, c');
    SameHolders(c, c');
    if key in c.objects { assert ObjectOk(c, key) && ReadyIsTrue(c, key); }
    OwnStepKeepsInv(c, c', key, "");
  }

  lemma ProceedKeepsInv(c: Cluster, key: Key, o: Outcome)
    requires Inv(c) && key in c.workers
    ensures Inv(DoProceed(c, key, c.workers[key], o))
  {
    hide Inv, ProceedReadConfigMap, ProceedAddFinalizer, ProceedCreateConfigMap, ProceedUpdateConfigMap,
         ProceedCheckRecord, ProceedDropFinalizer, ProceedSaveStatus;
    match c.workers[key].call
    case ReadConfigMap => ReadConfigMapKeepsInv(c, key, o);
    case AddFinalizer => AddFinalizerKeepsInv(c, key, o);
    case CreateConfigMap(_) => CreateConfigMapKeepsInv(c, key, o);
    case UpdateConfigMap(_, _) => UpdateConfigMapKeepsInv(c, key, o);
    case CheckRecord => CheckRecordKeepsInv(c, key, o);
    case DropFinalizer => DropFinalizerKeepsInv(c, key, o);
    case SaveStatus => SaveStatusKeepsInv(c, key, o);
  }

  lemma StepKeepsInv(c: Cluster, s: Step)
    requires Inv(c)
    ensures Inv(Next(c, s))
  {
    hide Inv, DoBegin, DoProceed, StoreObject, StoreConfigMap, WithWorker;
    if Enabled(c, s) {
      if s.Begin? {
        BeginKeepsInv(c, s.key, s.verdict);
      } else if s.Proceed? {
        ProceedKeepsInv(c, s.key, s.outcome);
      } else if s.Crash? {
        CrashKeepsInv(c, s.key);
      } else {
        if s.TouchConfigMap? || s.AddConfigMap? { ConfigMapTouchIsOutside(c, s); } else { EditsAreOutside(c, s); }
        OutsideKeepsInv(c, Next(c, s));
      }
    }
  }

  lemma InitialInv(c: Cluster)
    requires Initial(c)
    ensures Inv(c)
  {
    hide Parse;
  }

  /** Every state of every run, with any interleaving of users and workers, satisfies the invariant. */
  lemma {:induction false} RunKeepsInv(c: Cluster, steps: seq<Step>)
    requires Initial(c)
    ensures Inv(Run(c, steps))
    decreases |steps|
  {
    hide Inv, Next, Initial;
    if steps == [] {
      InitialInv(c);
    } else {
      RunKeepsInv(c, steps[..|steps| - 1]);
      StepKeepsInv(Run(c, steps[..|steps| - 1]), steps[|steps| - 1]);
    }
  }
}
