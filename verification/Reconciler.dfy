/** The KfDef reconciler as a transition function on the operator's state and the API server
    (pkg/controller/kfdef/kfdef_controller.go). Everything the process cannot decide itself (results
    of API calls, writes of other clients in between, file system, Go's map iteration order) comes
    from a script; statements for all scripts are statements for all interleavings. */
module Reconciler {
  import opened Strings
  import opened ApiServer
  import opened FinalizerRemoval
  import opened OwnerKey
  import opened Wrappers

  datatype Channel = Nil | Open | Closed

  datatype Namespace = Namespace(name: string, active: bool)

  datatype Condition = IsTrue | IsFalse | IsUnknown

  datatype ApiService = ApiService(name: string, conditions: seq<Condition>)

  /** What the operator did, in order. `CsvRemoval` is a call of removeCsv, with the keys registered
      at that moment and the generated namespaces that the same call had listed. */
  datatype Event =
    | Applied(key: string)
    | DeleteAttempt(key: string)
    | NamespaceDelete(name: string)
    | CsvRemoval(registered: set<string>, listed: seq<Namespace>)

  /** `instances`, `second` and `stop` are the package globals kfdefInstances, b2ndController and stop. */
  datatype State = State(api: Api, instances: set<string>, second: bool, stop: Channel, crashed: bool, trace: seq<Event>)

  datatype Outcome = Done | Requeue | Failed | Panic

  // ----- scripts -----

  datatype Write = Write(before: seq<EnvAction>, fate: CallFate)

  datatype StatusWrite = StatusWrite(before: seq<EnvAction>, read: ReadFate, write: Write, content: string)

  datatype Reply = Accepted | Gone | Refused

  datatype Listing<T> = Listed(items: seq<T>) | ListAbsent | ListRefused {
    function Items(): seq<T> {
      if Listed? then items else []
    }
  }

  datatype UninstallScript = UninstallScript(
    namespaceDelete: Reply,
    services: Listing<ApiService>, serviceDeletes: nat -> bool,
    namespaces: Listing<Namespace>, namespaceDeletes: nat -> bool,
    csvOk: bool)

  /** `configMap` is the answer of the one hasDeleteConfigMap call a reconcile makes; `order` is the
      order in which the loop over the registered keys meets them. */
  datatype Script = Script(
    read: ReadFate, configMap: bool, directoryOk: bool, removal: nat -> Attempt,
    add: Write, order: seq<string>, deletes: nat -> Write,
    applyOk: bool, controllerOk: bool, status: StatusWrite,
    uninstall: UninstallScript)

  // ----- operatorUninstall -----

  predicate Unavailable(service: ApiService) {
    |service.conditions| >= 1 && service.conditions[|service.conditions| - 1].IsFalse?
  }

  predicate ServicesDeleted(services: seq<ApiService>, deletes: nat -> bool) {
    forall i: nat | i < |services| :: Unavailable(services[i]) ==> deletes(i)
  }

  /** The Delete calls for the active namespaces from the i-th on, up to the first refused one. */
  function DeleteActive(listed: seq<Namespace>, deletes: nat -> bool, i: nat): (r: (seq<Event>, bool))
    requires i <= |listed|
    decreases |listed| - i
  {
    if i == |listed| then ([], true)
    else if !listed[i].active then DeleteActive(listed, deletes, i + 1)
    else if !deletes(i) then ([NamespaceDelete(listed[i].name)], false)
    else
      var (rest, ok) := DeleteActive(listed, deletes, i + 1);
      ([NamespaceDelete(listed[i].name)] + rest, ok)
  }

  /** The events of one operatorUninstall call, and whether it returns nil. */
  function OperatorUninstall(instances: set<string>, namespace: string, u: UninstallScript): (r: (seq<Event>, bool)) {
    var first := [NamespaceDelete(namespace)];
    if u.namespaceDelete.Refused? || u.services.ListRefused? then (first, false)
    else if !ServicesDeleted(u.services.Items(), u.serviceDeletes) then (first, false)
    else if instances != {} then (first, false)
    else if u.namespaces.ListRefused? then (first, false)
    else
      var listed := u.namespaces.Items();
      var (sent, ok) := DeleteActive(listed, u.namespaceDeletes, 0);
      if !ok then (first + sent, false)
      else (first + sent + [CsvRemoval(instances, listed)], u.csvOk)
  }

  // ----- Reconcile -----

  /** Asks for the deletion of the KfDef with the given key; one that is gone already is fine. */
  function DeleteOne(api: Api, key: string, w: Write): (r: (Api, bool))
    requires api.Valid()
    ensures r.0.Valid()
  {
    var parts := Split(key, '.');
    if |parts| != 2 then (api, false)
    else
      var (next, error) := api.ActAll(w.before).SendDelete(NamespacedName(parts[0], parts[1]), w.fate);
      (next, error.NoError? || error.NotFound?)
  }

  /** `order` meets every key once, as Go's iteration over a map does. */
  ghost predicate Enumerates(order: seq<string>, keys: set<string>) {
    (set key | key in order) == keys && NoDuplicates(order)
  }

  /** The loop that asks for the deletion of every registered KfDef, up to the first failure. */
  function DeleteEach(api: Api, keys: seq<string>, deletes: nat -> Write, i: nat): (r: (Api, bool))
    requires api.Valid() && i <= |keys|
    ensures r.0.Valid()
    decreases |keys| - i
  {
    if i == |keys| then (api, true)
    else
      var (next, ok) := DeleteOne(api, keys[i], deletes(i));
      if ok then DeleteEach(next, keys, deletes, i + 1) else (next, false)
  }

  function WriteStatus(api: Api, id: NamespacedName, w: StatusWrite): (r: (Api, bool))
    requires api.Valid()
    ensures r.0.Valid()
  {
    var current := api.ActAll(w.before);
    match current.Read(id, w.read)
    case Found(inst) =>
      if inst.obj.content == w.content then (current, true)
      else
        var (after, error) := current.ActAll(w.write.before)
                                     .SendUpdate(inst.(obj := inst.obj.(content := w.content)), w.write.fate);
        (after, error.NoError?)
    case _ => (current, false)
  }

  function ReconcileAbsent(s: State, req: NamespacedName, script: Script): (State, Outcome) {
    if !script.configMap then (s, Done)
    else (s.(trace := s.trace + OperatorUninstall(s.instances, req.namespace, script.uninstall).0), Failed)
  }

  /** A KfDef that is being deleted and still has the finalizer. The result of kfDelete itself is only
      logged. */
  function ReconcileDeleting(s: State, inst: Instance, script: Script): (State, Outcome)
    requires s.api.Valid()
  {
    var key := Key(inst.obj.id);
    if |s.instances| == 1 && !s.stop.Open? then (s.(crashed := true), Panic)
    else
      var s1 := if |s.instances| == 1 then s.(stop := Closed, second := false) else s;
      var s2 := s1.(trace := s.trace + [DeleteAttempt(key)]);
      if !script.directoryOk then (s2, Failed)
      else
        var r := RemoveFinalizer(s.api, inst, script.removal);
        (s2.(instances := s.instances - {key}, api := r.after),
         if !r.error.NoError? then Failed else if script.configMap then Requeue else Done)
  }

  function ReconcileApplied(s: State, id: NamespacedName, script: Script): (State, Outcome)
    requires s.api.Valid()
  {
    var s1 := s.(instances := s.instances + {Key(id)}, trace := s.trace + [Applied(Key(id))]);
    if !s.second && !script.controllerOk then (s1, Done)
    else
      var s2 := if s.second then s1 else s1.(stop := Open, second := true);
      var (api, ok) := WriteStatus(s.api, id, script.status);
      (s2.(api := api), if ok then Done else Failed)
  }

  function AddFinalizer(api: Api, inst: Instance, w: Write): (r: (Api, Error))
    requires api.Valid()
    ensures r.0.Valid()
  {
    if FINALIZER in inst.obj.finalizers then (api, NoError)
    else api.ActAll(w.before)
            .SendUpdate(inst.(obj := inst.obj.(finalizers := inst.obj.finalizers + {FINALIZER})), w.fate)
  }

  function ReconcileLive(s: State, inst: Instance, script: Script): (State, Outcome)
    requires s.api.Valid()
  {
    var (added, error) := AddFinalizer(s.api, inst, script.add);
    var s1 := s.(api := added);
    if !error.NoError? || !script.directoryOk then (s1, Failed)
    else if script.configMap then
      var (api, ok) := DeleteEach(added, script.order, script.deletes, 0);
      (s1.(api := api), if ok then Requeue else Failed)
    else if script.applyOk then ReconcileApplied(s1, inst.obj.id, script)
    else (s1.(api := WriteStatus(added, inst.obj.id, script.status).0), Failed)
  }

  function Reconcile(s: State, req: NamespacedName, script: Script): (State, Outcome)
    requires s.api.Valid()
  {
    match s.api.Read(req, script.read)
    case Absent => ReconcileAbsent(s, req, script)
    case ReadError => (s, Failed)
    case Found(inst) =>
      if !inst.obj.deleting then ReconcileLive(s, inst, script)
      else if FINALIZER in inst.obj.finalizers then ReconcileDeleting(s, inst, script)
      else (s, if script.configMap then Requeue else Done)
  }

  // ----- runs -----

  /** One step of a run: a reconcile, a KfDef watch event being mapped, or other clients writing. */
  datatype Step =
    | ReconcileStep(req: NamespacedName, script: Script)
    | MapStep(event: KfDef, read: ReadFate, write: Write)
    | EnvStep(acts: seq<EnvAction>)

  function Next(s: State, step: Step): (r: State)
    requires s.api.Valid()
    ensures r.api.Valid()
  {
    if s.crashed then s
    else
      match step
      case ReconcileStep(req, script) => Reconcile(s, req, script).0
      case MapStep(event, read, w) => s.(api := MapKfDef(s.api, event, read, w.before, w.fate, FINALIZER).0)
      case EnvStep(acts) => s.(api := s.api.ActAll(acts))
  }

  function Run(s: State, steps: seq<Step>): (r: State)
    requires s.api.Valid()
    ensures r.api.Valid()
    decreases |steps|
  {
    if steps == [] then s else Run(Next(s, steps[0]), steps[1..])
  }

  /** A freshly started operator. */
  predicate Initial(s: State) {
    s.api.Valid() && s == State(s.api, {}, false, Nil, false, [])
  }

  /** The KfDef, if any, whose deletion this step carries out. */
  function Deletes(s: State, step: Step): (r: Option<NamespacedName>)
    requires s.api.Valid()
  {
    if s.crashed || !step.ReconcileStep? then None
    else
      match s.api.Read(step.req, step.script.read)
      case Found(inst) => if inst.obj.deleting && FINALIZER in inst.obj.finalizers then Some(inst.obj.id) else None
      case _ => None
  }

  /** The KfDef, if any, that this step applies successfully. */
  function Applies(s: State, step: Step): (r: Option<NamespacedName>)
    requires s.api.Valid()
  {
    if s.crashed || !step.ReconcileStep? then None
    else
      match s.api.Read(step.req, step.script.read)
      case Found(inst) =>
        if && !inst.obj.deleting && AddFinalizer(s.api, inst, step.script.add).1.NoError?
           && step.script.directoryOk && !step.script.configMap && step.script.applyOk
        then Some(inst.obj.id) else None
      case _ => None
  }
}
