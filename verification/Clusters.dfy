/** The reconciliation of masquerading rules as a state machine over API calls
    (internal/controllers/masqueradingrule_controller.go).

    The state is what the API server stores (rule objects and the config map of CoreDNS), the work queue, and one
    worker for each key that is being reconciled. Every step of a worker is one API call; in between, users and
    other workers may do anything that they are allowed to do. A step that is not possible changes nothing, so
    that every sequence of steps is a run. */
module Clusters {
  import opened Conventions
  import opened Options
  import opened RewriteRules
  import opened RuleMaps
  import opened Snippets

  /** Namespace and name of a rule object, as in `namespace/name`. */
  type Key = string

  datatype RuleState = Unset | New | Processing | DeletionBlocked | Deleting | Ready | Error

  datatype RuleObject = RuleObject(
    uid: string, from: string, to: string, generation: nat, version: nat, finalizers: set<string>,
    deleting: bool, state: RuleState, observed: int)

  datatype Timestamp = NoStamp | At(time: int) | Garbled

  /** The config map of CoreDNS; `text` is the value of the key of the operator, empty if there is no such key. */
  datatype ConfigMap = ConfigMap(version: nat, text: string, stamp: Timestamp)

  /** The API call that a worker makes next. */
  datatype Call =
    | ReadConfigMap
    | AddFinalizer
    | CreateConfigMap(text: string)
    | UpdateConfigMap(text: string, time: int)
    | CheckRecord
    | DropFinalizer
    | SaveStatus

  /** A reconciliation in progress, with its copies of the rule object and of the config map. */
  datatype Worker = Worker(call: Call, obj: RuleObject, configMap: Option<ConfigMap>)

  datatype Cluster = Cluster(
    objects: map<Key, RuleObject>,
    configMap: Option<ConfigMap>,
    workers: map<Key, Worker>,
    queued: set<Key>,         // keys that the work queue will hand out, now or after a delay
    nextVersion: nat,         // resource versions are never used twice
    uids: set<string>,        // the identifiers that objects have had so far
    writes: seq<int>,         // the timestamps recorded by the updates of the config map so far
    delay: int)               // CorednsConfigMapUpdateDelay

  /** What happens to an API call: it succeeds, it fails without an effect, or its effect takes place (if the
      versions match) but the caller sees an error. */
  datatype Verdict = Done | Refused | Lost

  datatype Answer = Active | Inactive | Unknown

  datatype Outcome = Outcome(verdict: Verdict, now: int, answer: Answer)

  datatype Step =
    // users and other parties
    | CreateRule(key: Key, uid: string, from: string, to: string, finalizers: set<string>)
    | EditSpec(key: Key, from: string, to: string)
    | EditFinalizers(key: Key, finalizers: set<string>)
    | DeleteRule(key: Key)
    | TouchConfigMap
    | AddConfigMap(stamp: Timestamp)
    // the operator
    | Begin(key: Key, verdict: Verdict)
    | Proceed(key: Key, outcome: Outcome)
    | Crash(key: Key)

  /* ---- names ---- */

  /** Identifiers of objects have no spaces and stay on one line. */
  predicate ValidUid(uid: string) {
    uid != "" && ' ' !in uid && '\n' !in uid
  }

  predicate ValidKey(key: Key) {
    '\n' !in key
  }

  function OwnerName(key: Key, uid: string): string {
    uid + " (" + key + ")"
  }

  /* ---- a worker between two API calls ---- */

  function Fail(w: Worker): Worker {
    w.(call := SaveStatus, obj := w.obj.(state := Error))
  }

  function Finish(w: Worker, state: RuleState): Worker {
    w.(call := SaveStatus, obj := w.obj.(state := state))
  }

  /** The rule set has changed: write it now, unless the last write is too recent. */
  ghost function WriteBack(w: Worker, stamp: Timestamp, state: RuleState, m: RuleMap, now: int, delay: int): Worker {
    if stamp.Garbled? then Fail(w)
    else if stamp.At? && now < stamp.time + delay then Finish(w, state)
    else w.(call := UpdateConfigMap(Print(m), now), obj := w.obj.(state := state))
  }

  /** What a worker does for a live rule that carries the finalizer. */
  ghost function DecideLive(key: Key, w: Worker, now: int, delay: int): Worker {
    var owner := OwnerName(key, w.obj.uid);
    match NewRewriteRule(owner, w.obj.from, w.obj.to)
    case None => Fail(w)
    case Some(rule) =>
      match w.configMap
      case None => w.(call := CreateConfigMap(Print(map[owner := rule])), obj := w.obj.(state := Processing))
      case Some(cm) =>
        match Parse(cm.text)
        case None => Fail(w)
        case Some(m) =>
          match AddRule(m, rule)
          case None => Fail(w)
          case Some(m') =>
            if m' == m then w.(call := CheckRecord) else WriteBack(w, cm.stamp, Processing, m', now, delay)
  }

  /** What a worker does for a rule that is being deleted; None if it returns without saving the status. */
  ghost function DecideDeleting(key: Key, w: Worker, now: int, delay: int): Option<Worker> {
    var owner := OwnerName(key, w.obj.uid);
    if w.obj.finalizers - {FINALIZER} != {} then Some(Finish(w, DeletionBlocked))
    else if w.configMap.Some? && Parse(w.configMap.value.text).None? then Some(Fail(w))
    else if w.configMap.Some? && owner in Parse(w.configMap.value.text).value then
      var m := RemoveRule(Parse(w.configMap.value.text).value, owner);
      Some(WriteBack(w, w.configMap.value.stamp, Deleting, m, now, delay))
    else if FINALIZER in w.obj.finalizers then Some(w.(call := DropFinalizer))
    else None
  }

  /** What a worker does once it has its copies of the rule object and of the config map. */
  ghost function Decide(key: Key, w: Worker, now: int, delay: int): Option<Worker> {
    if w.obj.deleting then DecideDeleting(key, w, now, delay)
    else if FINALIZER !in w.obj.finalizers then Some(w.(call := AddFinalizer))
    else Some(DecideLive(key, w, now, delay))
  }

  /* ---- API calls ---- */

  function WithWorker(c: Cluster, key: Key, w: Option<Worker>): Cluster {
    match w
    case Some(w') => c.(workers := c.workers[key := w'])
    case None => c.(workers := c.workers - {key})
  }

  /** The stored object is still the one that the worker has read. */
  predicate Current(c: Cluster, key: Key, obj: RuleObject) {
    key in c.objects && c.objects[key].version == obj.version
  }

  /** Stores an object under a new version; an object that is being deleted disappears with its last finalizer. */
  function StoreObject(c: Cluster, key: Key, obj: RuleObject): Cluster {
    var objects :=
      if obj.deleting && obj.finalizers == {} then c.objects - {key}
      else c.objects[key := obj.(version := c.nextVersion)];
    c.(objects := objects, nextVersion := c.nextVersion + 1)
  }

  function StoreConfigMap(c: Cluster, text: string, stamp: Timestamp): Cluster {
    c.(configMap := Some(ConfigMap(c.nextVersion, text, stamp)), nextVersion := c.nextVersion + 1)
  }

  ghost function ProceedReadConfigMap(c: Cluster, key: Key, w: Worker, o: Outcome): Cluster {
    if o.verdict.Done? then
      WithWorker(c, key, Decide(key, w.(configMap := c.configMap), o.now, c.delay))
    else WithWorker(c, key, Some(Fail(w)))
  }

  /** The response of an update replaces the copy of the object, including its status. */
  ghost function ProceedAddFinalizer(c: Cluster, key: Key, w: Worker, o: Outcome): Cluster {
    if Current(c, key, w.obj) && !o.verdict.Refused? then
      var c' := StoreObject(c, key, c.objects[key].(finalizers := w.obj.finalizers + {FINALIZER}));
      if o.verdict.Done? && key in c'.objects then
        WithWorker(c', key, Decide(key, w.(obj := c'.objects[key]), o.now, c.delay))
      else WithWorker(c', key, Some(Fail(w)))
    else WithWorker(c, key, Some(Fail(w)))
  }

  function ProceedCreateConfigMap(c: Cluster, key: Key, w: Worker, o: Outcome): Cluster
    requires w.call.CreateConfigMap?
  {
    if c.configMap.None? && !o.verdict.Refused? then
      WithWorker(StoreConfigMap(c, w.call.text, NoStamp), key,
                 Some(if o.verdict.Done? then w.(call := SaveStatus) else Fail(w)))
    else WithWorker(c, key, Some(Fail(w)))
  }

  function ProceedUpdateConfigMap(c: Cluster, key: Key, w: Worker, o: Outcome): Cluster
    requires w.call.UpdateConfigMap?
  {
    if c.configMap.Some? && w.configMap.Some? && c.configMap.value.version == w.configMap.value.version
       && !o.verdict.Refused?
    then
      WithWorker(StoreConfigMap(c, w.call.text, At(w.call.time)).(writes := c.writes + [w.call.time]), key,
                 Some(if o.verdict.Done? then w.(call := SaveStatus) else Fail(w)))
    else WithWorker(c, key, Some(Fail(w)))
  }

  function ProceedCheckRecord(c: Cluster, key: Key, w: Worker, o: Outcome): Cluster {
    WithWorker(c, key,
               Some(if o.answer.Unknown? then Fail(w) else Finish(w, if o.answer.Active? then Ready else Processing)))
  }

  /** Success ends the reconciliation; the status is not saved and nothing is scheduled. */
  function ProceedDropFinalizer(c: Cluster, key: Key, w: Worker, o: Outcome): Cluster {
    if Current(c, key, w.obj) && !o.verdict.Refused? then
      var c' := StoreObject(c, key, c.objects[key].(finalizers := w.obj.finalizers - {FINALIZER}));
      WithWorker(c', key, if o.verdict.Done? then None else Some(Fail(w)))
    else WithWorker(c, key, Some(Fail(w)))
  }

  /** Whether or not the status can be saved, the reconciliation ends and the key is scheduled again. */
  function ProceedSaveStatus(c: Cluster, key: Key, w: Worker, o: Outcome): Cluster {
    var ended := WithWorker(c.(queued := c.queued + {key}), key, None);
    if Current(c, key, w.obj) && !o.verdict.Refused? then
      StoreObject(ended, key, c.objects[key].(state := w.obj.state, observed := w.obj.observed))
    else ended
  }

  ghost function DoProceed(c: Cluster, key: Key, w: Worker, o: Outcome): Cluster {
    match w.call
    case ReadConfigMap => ProceedReadConfigMap(c, key, w, o)
    case AddFinalizer => ProceedAddFinalizer(c, key, w, o)
    case CreateConfigMap(_) => ProceedCreateConfigMap(c, key, w, o)
    case UpdateConfigMap(_, _) => ProceedUpdateConfigMap(c, key, w, o)
    case CheckRecord => ProceedCheckRecord(c, key, w, o)
    case DropFinalizer => ProceedDropFinalizer(c, key, w, o)
    case SaveStatus => ProceedSaveStatus(c, key, w, o)
  }

  /** The reconciliation of a queued key starts with reading the rule object; a rule without a state only gets its
      first one. */
  function DoBegin(c: Cluster, key: Key, verdict: Verdict): Cluster {
    if !verdict.Done? then c
    else if key !in c.objects then c.(queued := c.queued - {key})
    else
      var obj := c.objects[key].(observed := c.objects[key].generation);
      var w :=
        if obj.state.Unset? then Worker(SaveStatus, obj.(state := New), None)
        else Worker(ReadConfigMap, obj, None);
      WithWorker(c.(queued := c.queued - {key}), key, Some(w))
  }

  /* ---- steps ---- */

  /** Who may take which step. Nobody but the operator removes its finalizer or changes its key of the config map,
      and finalizers cannot be added to an object that is being deleted. */
  predicate Enabled(c: Cluster, s: Step) {
    match s
    case CreateRule(key, uid, _, _, _) => key !in c.objects && uid !in c.uids && ValidKey(key) && ValidUid(uid)
    case EditSpec(key, _, _) => key in c.objects
    case EditFinalizers(key, finalizers) =>
      && key in c.objects
      && (FINALIZER in c.objects[key].finalizers ==> FINALIZER in finalizers)
      && (c.objects[key].deleting ==> finalizers <= c.objects[key].finalizers)
    case DeleteRule(key) => key in c.objects && !c.objects[key].deleting
    case TouchConfigMap => c.configMap.Some?
    case AddConfigMap(_) => c.configMap.None?
    case Begin(key, _) => key in c.queued && key !in c.workers
    case Proceed(key, _) => key in c.workers
    case Crash(key) => key in c.workers
  }

  ghost function Next(c: Cluster, s: Step): Cluster {
    if !Enabled(c, s) then c
    else
      match s
      case CreateRule(key, uid, from, to, finalizers) =>
        var obj := RuleObject(uid, from, to, 1, 0, finalizers, false, Unset, -1);
        StoreObject(c.(queued := c.queued + {key}, uids := c.uids + {uid}), key, obj)
      case EditSpec(key, from, to) =>
        var obj := c.objects[key];
        if obj.from == from && obj.to == to then c
        else
          StoreObject(c.(queued := c.queued + {key}), key,
                      obj.(from := from, to := to, generation := obj.generation + 1))
      case EditFinalizers(key, finalizers) => StoreObject(c, key, c.objects[key].(finalizers := finalizers))
      case DeleteRule(key) =>
        var obj := c.objects[key];
        StoreObject(c.(queued := c.queued + {key}), key, obj.(deleting := true, generation := obj.generation + 1))
      case TouchConfigMap => StoreConfigMap(c, c.configMap.value.text, c.configMap.value.stamp)
      case AddConfigMap(stamp) => StoreConfigMap(c, "", stamp)
      case Begin(key, verdict) => DoBegin(c, key, verdict)
      case Proceed(key, o) => DoProceed(c, key, c.workers[key], o)
      case Crash(key) => WithWorker(c.(queued := c.queued + {key}), key, None)
  }

  ghost function Run(c: Cluster, steps: seq<Step>): Cluster
    decreases |steps|
  {
    if steps == [] then c else Next(Run(c, steps[..|steps| - 1]), steps[|steps| - 1])
  }

  /** A fresh installation: no rules yet, and no config map or one without entries. */
  ghost predicate Initial(c: Cluster) {
    && c.objects == map[] && c.workers == map[] && c.writes == []
    && (c.configMap.Some? ==>
          Parse(c.configMap.value.text) == Some(map[]) && c.configMap.value.version < c.nextVersion)
  }

  /** The map that the config map stands for. */
  ghost function Entries(configMap: Option<ConfigMap>): RuleMap {
    match configMap
    case None => map[]
    case Some(cm) => match Parse(cm.text) case Some(m) => m case None => map[]
  }
}
