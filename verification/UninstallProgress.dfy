/** While the deletion ConfigMap is there, reconciles only ever bring the operator closer to its
    removal (pkg/controller/kfdef/kfdef_controller.go:287-302, 304-346, 390-414, 616-619). */
module UninstallProgress {
  import opened Strings
  import opened ApiServer
  import opened FinalizerRemoval
  import opened OwnerKey
  import opened Wrappers
  import opened Reconciler
  import L = Lifecycle
  import UninstallSafety
  import opened Outcomes

  type Names = set<NamespacedName>

  predicate SeesConfigMap(step: Step) {
    step.ReconcileStep? ==> step.script.configMap
  }

  lemma StepRegistersNothing(s: State, step: Step)
    requires s.api.Valid() && SeesConfigMap(step)
    ensures Next(s, step).instances <= s.instances
  {
  }

  /** A run in which every reconcile sees the ConfigMap registers nothing, whatever else happens. */
  lemma {:induction false} ConfigMapStopsGrowth(s: State, steps: seq<Step>)
    requires s.api.Valid() && forall step | step in steps :: SeesConfigMap(step)
    ensures Run(s, steps).instances <= s.instances
    decreases |steps|
  {
    hide SeesConfigMap, Next;
    if steps != [] {
      StepRegistersNothing(s, steps[0]);
      ConfigMapStopsGrowth(Next(s, steps[0]), steps[1..]);
    }
  }

  // ----- the hypotheses of progress -----

  /** The registered keys are those of the dot-free KfDefs `names`. */
  ghost predicate Registers(keys: set<string>, names: Names) {
    && (forall n | n in names :: DotFree(n))
    && keys == set n | n in names :: Key(n)
  }

  /** Every one of the KfDefs exists and carries the finalizer. */
  ghost predicate Protected(api: Api, names: Names)
    requires api.Valid()
  {
    forall n | n in names :: n in api.live && FINALIZER in api.Stored(n).finalizers
  }

  /** Other clients never take the finalizer away from one of the KfDefs. */
  ghost predicate Respects(acts: seq<EnvAction>, names: Names) {
    forall act | act in acts && act.Modify? && act.id in names :: FINALIZER in act.finalizers
  }

  ghost predicate RespectfulAttempt(a: Attempt, names: Names) {
    Respects(a.beforeRead, names) && Respects(a.beforeUpdate, names)
  }

  /** The KfDefs that are registered after the step, if `names` were before it. */
  function Registered(s: State, names: Names, step: Step): Names
    requires s.api.Valid()
  {
    if Next(s, step).crashed then names
    else if Deletes(s, step).Some? then if step.script.directoryOk then names - {Deletes(s, step).value} else names
    else if Applies(s, step).Some? then names + {Applies(s, step).value}
    else names
  }

  /** Other clients respect the KfDefs registered after the step, and what the step applies has a dot-free
      name and was read freshly. Any other read may be stale, miss the object or fail, and so may every
      write and the file system. */
  ghost predicate Respectful(s: State, names: Names, step: Step)
    requires s.api.Valid()
  {
    var after := Registered(s, names, step);
    match step
    case EnvStep(acts) => Respects(acts, after)
    case MapStep(_, _, w) => Respects(w.before, after)
    case ReconcileStep(req, script) =>
      && '.' !in req.namespace
      && (Applies(s, step).Some? ==> script.read.Fresh? && DotFree(req))
      && Respects(script.add.before, after)
      && (forall i: nat :: Respects(script.deletes(i).before, after))
      && (forall i: nat :: RespectfulAttempt(script.removal(i), after))
      && Respects(script.status.before, after) && Respects(script.status.write.before, after)
  }

  /** Those of the KfDefs whose deletion has not been requested yet. */
  ghost function Unmarked(api: Api, names: Names): Names
    requires api.Valid()
  {
    set n | n in names && n in api.live && !api.Stored(n).deleting
  }

  // ----- what the API operations keep, for one KfDef at a time -----

  /** A protected KfDef stays protected, and one being deleted stays so. */
  ghost predicate Keeps(before: Api, after: Api, n: NamespacedName)
    requires before.Valid() && after.Valid()
  {
    n in before.live && FINALIZER in before.Stored(n).finalizers ==>
      && n in after.live && FINALIZER in after.Stored(n).finalizers
      && (before.Stored(n).deleting ==> after.Stored(n).deleting)
  }

  lemma {:induction false} ActAllKeeps(api: Api, acts: seq<EnvAction>, names: Names, n: NamespacedName)
    requires api.Valid() && n in names && Respects(acts, names)
    ensures Keeps(api, api.ActAll(acts), n)
    decreases |acts|
  {
    if acts != [] {
      assert Keeps(api, api.Act(acts[0]), n) by { assert acts[0] in acts; }
      ActAllKeeps(api.Act(acts[0]), acts[1..], names, n);
    }
  }

  lemma UpdateKeeps(api: Api, inst: Instance, fate: CallFate, n: NamespacedName)
    requires api.Valid() && (inst.obj.id == n ==> FINALIZER in inst.obj.finalizers)
    ensures Keeps(api, api.SendUpdate(inst, fate).0, n)
  {
  }

  lemma ActUpdateKeeps(api: Api, acts: seq<EnvAction>, inst: Instance, fate: CallFate, names: Names, n: NamespacedName)
    requires api.Valid() && n in names && Respects(acts, names)
    requires inst.obj.id == n ==> FINALIZER in inst.obj.finalizers
    ensures Keeps(api, api.ActAll(acts).SendUpdate(inst, fate).0, n)
  {
    ActAllKeeps(api, acts, names, n);
    UpdateKeeps(api.ActAll(acts), inst, fate, n);
  }

  lemma {:induction false} InterferenceRespects(script: nat -> Attempt, first: nat, last: nat, names: Names)
    requires first <= last && forall i: nat :: RespectfulAttempt(script(i), names)
    ensures Respects(Interference(script, first, last), names)
    decreases last - first
  {
    assert RespectfulAttempt(script(first), names);
    if first < last {
      assert RespectfulAttempt(script(first + 1), names);
      InterferenceRespects(script, first + 1, last, names);
    }
  }

  /** Removing the finalizer of one KfDef, with all its retries, leaves another one protected. */
  lemma RemovalKeeps(api: Api, inst: Instance, script: nat -> Attempt, names: Names, n: NamespacedName)
    requires api.Valid() && IsVersion(api, inst) && n in names && inst.obj.id != n
    requires forall i: nat :: RespectfulAttempt(script(i), names)
    ensures Keeps(api, RemoveFinalizer(api, inst, script).after, n)
  {
    var r := RemoveFinalizer(api, inst, script);
    RemovalLosesNoUpdate(api, inst, script);
    InterferenceRespects(script, 0, r.updates - 1, names);
    ActAllKeeps(api, Interference(script, 0, r.updates - 1), names, n);
    if r.after != r.before {
      RemovedMeans(r.before, r.after, inst.obj.id);
    }
  }

  lemma DeleteOneKeeps(api: Api, key: string, w: Reconciler.Write, names: Names, n: NamespacedName)
    requires api.Valid() && n in names && Respects(w.before, names)
    ensures Keeps(api, DeleteOne(api, key, w).0, n)
  {
    ActAllKeeps(api, w.before, names, n);
  }

  lemma {:induction false} DeleteEachKeeps(api: Api, order: seq<string>, deletes: nat -> Reconciler.Write, i: nat,
                                           names: Names, n: NamespacedName)
    requires api.Valid() && i <= |order| && n in names
    requires forall j: nat :: Respects(deletes(j).before, names)
    ensures Keeps(api, DeleteEach(api, order, deletes, i).0, n)
    decreases |order| - i
  {
    if i < |order| {
      DeleteOneKeeps(api, order[i], deletes(i), names, n);
      DeleteEachKeeps(DeleteOne(api, order[i], deletes(i)).0, order, deletes, i + 1, names, n);
    }
  }

  lemma MapKeeps(s: State, event: KfDef, read: ReadFate, w: Reconciler.Write, names: Names, n: NamespacedName)
    requires s.api.Valid() && n in names && Respects(w.before, names)
    ensures Keeps(s.api, MapKfDef(s.api, event, read, w.before, w.fate, FINALIZER).0, n)
  {
    if FINALIZER !in event.finalizers && s.api.Read(event.id, read).Found? {
      var inst := s.api.Read(event.id, read).inst;
      ActUpdateKeeps(s.api, w.before, inst.(obj := inst.obj.(finalizers := event.finalizers + {FINALIZER})),
                     w.fate, names, n);
    }
  }

  lemma AddKeeps(api: Api, inst: Instance, w: Reconciler.Write, names: Names, n: NamespacedName)
    requires api.Valid() && n in names && Respects(w.before, names)
    ensures Keeps(api, AddFinalizer(api, inst, w).0, n)
  {
    if FINALIZER !in inst.obj.finalizers {
      ActUpdateKeeps(api, w.before, inst.(obj := inst.obj.(finalizers := inst.obj.finalizers + {FINALIZER})),
                     w.fate, names, n);
    }
  }

  /** A status write keeps the finalizers that it has read, and is refused if they are not current. */
  lemma StatusKeeps(api: Api, id: NamespacedName, w: StatusWrite, names: Names, n: NamespacedName)
    requires api.Valid() && n in names && Respects(w.before, names) && Respects(w.write.before, names)
    ensures Keeps(api, WriteStatus(api, id, w).0, n)
  {
    var current := api.ActAll(w.before);
    ActAllKeeps(api, w.before, names, n);
    if current.Read(id, w.read).Found? {
      var inst := current.Read(id, w.read).inst;
      var later := current.ActAll(w.write.before);
      ActAllKeeps(current, w.write.before, names, n);
      ActAllExtends(current, w.write.before);
      assert IsVersion(current, inst) && IsVersion(later, inst);
      VersionUpdateKeeps(later, inst, w.content, w.write.fate, n);
    }
    hide Api.ActAll, Respects, Api.SendUpdate;
  }

  lemma VersionUpdateKeeps(api: Api, inst: Instance, content: string, fate: CallFate, n: NamespacedName)
    requires api.Valid() && IsVersion(api, inst)
    ensures Keeps(api, api.SendUpdate(inst.(obj := inst.obj.(content := content)), fate).0, n)
  {
  }

  // ----- the deletion loop marks every registered KfDef -----

  lemma DeleteOneSucceeds(api: Api, n: NamespacedName, w: Reconciler.Write)
    requires api.Valid() && DotFree(n) && w.fate.Delivered?
    ensures var (next, ok) := DeleteOne(api, Key(n), w);
            ok && (n in next.live ==> next.Stored(n).deleting)
  {
    SplitOfKey(n);
  }

  lemma {:induction false} DeleteEachSucceeds(api: Api, order: seq<string>, deletes: nat -> Reconciler.Write, i: nat,
                                              names: Names)
    requires api.Valid() && i <= |order|
    requires forall key | key in order :: exists n :: n in names && DotFree(n) && Key(n) == key
    requires forall j: nat :: deletes(j).fate.Delivered?
    ensures DeleteEach(api, order, deletes, i).1
    decreases |order| - i
  {
    hide DeleteOne, Key;
    if i < |order| {
      assert order[i] in order;
      var n :| n in names && DotFree(n) && Key(n) == order[i];
      DeleteOneSucceeds(api, n, deletes(i));
      DeleteEachSucceeds(DeleteOne(api, order[i], deletes(i)).0, order, deletes, i + 1, names);
    }
  }

  /** With every call getting through, the loop over the registered keys succeeds if and only if the
      names and namespaces of all registered KfDefs are dot-free; a dotted one blocks the uninstall. */
  lemma {:induction false} DottedNamesBlockUninstall(api: Api, listed: seq<NamespacedName>, order: seq<string>,
                                                     deletes: nat -> Reconciler.Write, i: nat)
    requires api.Valid() && i <= |order| == |listed|
    requires forall j | 0 <= j < |order| :: order[j] == Key(listed[j])
    requires forall j: nat :: deletes(j).fate.Delivered?
    ensures DeleteEach(api, order, deletes, i).1 <==> forall j | i <= j < |listed| :: DotFree(listed[j])
    decreases |order| - i
  {
    hide Split, Api.SendDelete;
    if i < |order| {
      KeyHasTwoPartsIff(listed[i]);
      if DotFree(listed[i]) {
        DeleteOneSucceeds(api, listed[i], deletes(i));
      }
      DottedNamesBlockUninstall(DeleteOne(api, order[i], deletes(i)).0, listed, order, deletes, i + 1);
    }
  }

  /** Once the loop passes the key of `n`, `n` is being deleted, and it stays so. */
  lemma {:induction false} DeleteEachMarks(api: Api, order: seq<string>, deletes: nat -> Reconciler.Write, i: nat,
                                           names: Names, n: NamespacedName)
    requires api.Valid() && i <= |order| && n in names && DotFree(n) && Key(n) in order[i..]
    requires n in api.live && FINALIZER in api.Stored(n).finalizers
    requires forall j: nat :: deletes(j).fate.Delivered? && Respects(deletes(j).before, names)
    requires DeleteEach(api, order, deletes, i).1
    ensures var after := DeleteEach(api, order, deletes, i).0;
            n in after.live && after.Stored(n).deleting
    decreases |order| - i
  {
    var next := DeleteOne(api, order[i], deletes(i)).0;
    DeleteOneKeeps(api, order[i], deletes(i), names, n);
    if order[i] == Key(n) {
      DeleteOneSucceeds(api, n, deletes(i));
      DeleteEachKeeps(next, order, deletes, i + 1, names, n);
    } else {
      DeleteEachMarks(next, order, deletes, i + 1, names, n);
    }
  }

  function Target(act: EnvAction): NamespacedName {
    match act
    case Create(obj) => obj.id
    case Modify(id, _, _) => id
    case Remove(id) => id
  }

  /** None of the writes is to the object `n`. */
  ghost predicate Elsewhere(acts: seq<EnvAction>, n: NamespacedName) {
    forall act | act in acts :: Target(act) != n
  }

  ghost predicate SameObject(before: Api, after: Api, n: NamespacedName)
    requires before.Valid() && after.Valid()
  {
    && (n in before.live <==> n in after.live)
    && (n in before.live ==> after.Stored(n) == before.Stored(n))
  }

  lemma {:induction false} ActAllElsewhere(api: Api, acts: seq<EnvAction>, n: NamespacedName)
    requires api.Valid() && Elsewhere(acts, n)
    ensures SameObject(api, api.ActAll(acts), n)
    decreases |acts|
  {
    if acts != [] {
      assert Target(acts[0]) != n && SameObject(api, api.Act(acts[0]), n);
      ActAllElsewhere(api.Act(acts[0]), acts[1..], n);
    }
  }

  /** The loop over the registered keys touches no KfDef other than the registered ones. */
  lemma {:induction false} DeleteEachSparesOthers(api: Api, order: seq<string>, deletes: nat -> Reconciler.Write,
                                                  i: nat,
                                                  names: Names, n: NamespacedName)
    requires api.Valid() && i <= |order| && n !in names
    requires forall key | key in order :: exists m :: m in names && DotFree(m) && Key(m) == key
    requires forall j: nat :: Elsewhere(deletes(j).before, n)
    ensures SameObject(api, DeleteEach(api, order, deletes, i).0, n)
    decreases |order| - i
  {
    if i < |order| {
      assert order[i] in order;
      var m :| m in names && DotFree(m) && Key(m) == order[i];
      DeleteOneSpares(api, m, deletes(i), n);
      DeleteEachSparesOthers(DeleteOne(api, order[i], deletes(i)).0, order, deletes, i + 1, names, n);
    }
  }

  lemma DeleteOneSpares(api: Api, m: NamespacedName, w: Reconciler.Write, n: NamespacedName)
    requires api.Valid() && DotFree(m) && m != n && Elsewhere(w.before, n)
    ensures SameObject(api, DeleteOne(api, Key(m), w).0, n)
  {
    SplitOfKey(m);
    ActAllElsewhere(api, w.before, n);
  }

  /** None of the other clients' writes during the reconcile is to `n`. */
  ghost predicate LeavesAlone(script: Script, n: NamespacedName) {
    && Elsewhere(script.add.before, n)
    && Elsewhere(script.status.before, n) && Elsewhere(script.status.write.before, n)
    && forall i: nat :: Elsewhere(script.removal(i).beforeRead, n) && Elsewhere(script.removal(i).beforeUpdate, n)
  }

  /** The object is there and its deletion has not been requested. */
  ghost predicate Standing(api: Api, n: NamespacedName)
    requires api.Valid()
  {
    n in api.live && !api.Stored(n).deleting
  }

  lemma {:induction false} InterferenceElsewhere(script: nat -> Attempt, first: nat, last: nat, n: NamespacedName)
    requires first <= last
    requires forall i: nat :: Elsewhere(script(i).beforeRead, n) && Elsewhere(script(i).beforeUpdate, n)
    ensures Elsewhere(Interference(script, first, last), n)
    decreases last - first
  {
    if first < last {
      InterferenceElsewhere(script, first + 1, last, n);
    }
  }

  lemma UpdateLeavesStanding(api: Api, inst: Instance, fate: CallFate, n: NamespacedName)
    requires api.Valid() && Standing(api, n)
    ensures Standing(api.SendUpdate(inst, fate).0, n)
  {
  }

  lemma ActsLeaveStanding(api: Api, acts: seq<EnvAction>, n: NamespacedName)
    requires api.Valid() && Standing(api, n) && Elsewhere(acts, n)
    ensures Standing(api.ActAll(acts), n)
  {
    ActAllElsewhere(api, acts, n);
  }

  lemma AddingLeavesStanding(api: Api, inst: Instance, w: Reconciler.Write, n: NamespacedName)
    requires api.Valid() && Standing(api, n) && Elsewhere(w.before, n)
    ensures Standing(AddFinalizer(api, inst, w).0, n)
  {
    ActsLeaveStanding(api, w.before, n);
    UpdateLeavesStanding(api.ActAll(w.before), inst.(obj := inst.obj.(finalizers := inst.obj.finalizers + {FINALIZER})),
                         w.fate, n);
    hide Elsewhere, Standing, Api.ActAll, Api.SendUpdate;
  }

  lemma StatusLeavesStanding(api: Api, id: NamespacedName, w: StatusWrite, n: NamespacedName)
    requires api.Valid() && Standing(api, n) && Elsewhere(w.before, n) && Elsewhere(w.write.before, n)
    ensures Standing(WriteStatus(api, id, w).0, n)
  {
    var current := api.ActAll(w.before);
    ActsLeaveStanding(api, w.before, n);
    ActsLeaveStanding(current, w.write.before, n);
    if current.Read(id, w.read).Found? {
      var inst := current.Read(id, w.read).inst;
      UpdateLeavesStanding(current.ActAll(w.write.before), inst.(obj := inst.obj.(content := w.content)),
                           w.write.fate, n);
    }
    hide Elsewhere, Standing, Api.ActAll, Api.SendUpdate;
  }

  lemma RemovalLeavesStanding(api: Api, inst: Instance, script: nat -> Attempt, n: NamespacedName)
    requires api.Valid() && IsVersion(api, inst) && Standing(api, n)
    requires forall i: nat :: Elsewhere(script(i).beforeRead, n) && Elsewhere(script(i).beforeUpdate, n)
    ensures Standing(RemoveFinalizer(api, inst, script).after, n)
  {
    var r := RemoveFinalizer(api, inst, script);
    RemovalLosesNoUpdate(api, inst, script);
    InterferenceElsewhere(script, 0, r.updates - 1, n);
    ActsLeaveStanding(api, Interference(script, 0, r.updates - 1), n);
    if r.after != r.before {
      RemovedMeans(r.before, r.after, inst.obj.id);
    }
    hide Elsewhere, RemoveFinalizer, Interference;
  }

  /** Without the ConfigMap a reconcile requests no deletion: whatever it reads, a KfDef that nobody else touches and
      that is not being deleted is still so afterwards. */
  lemma OnlyUninstallDeletes(s: State, req: NamespacedName, script: Script, n: NamespacedName)
    requires s.api.Valid() && Standing(s.api, n) && !script.configMap && LeavesAlone(script, n)
    ensures Standing(Next(s, ReconcileStep(req, script)).api, n)
  {
    match s.api.Read(req, script.read) {
      case Found(inst) =>
        var added := AddFinalizer(s.api, inst, script.add).0;
        AddingLeavesStanding(s.api, inst, script.add, n);
        StatusLeavesStanding(added, inst.obj.id, script.status, n);
        RemovalLeavesStanding(s.api, inst, script.removal, n);
      case _ =>
    }
    hide Standing, LeavesAlone, AddFinalizer, WriteStatus, RemoveFinalizer, DeleteEach, OperatorUninstall;
  }

  // ----- one step -----

  /** The step reconciles a live KfDef that has, or is given, the finalizer, sees the ConfigMap, and its
      Deletes for the registered keys get through. */
  ghost predicate AsksForAll(s: State, step: Step)
    requires s.api.Valid()
  {
    && !s.crashed && step.ReconcileStep? && step.script.configMap && step.script.directoryOk
    && Enumerates(step.script.order, s.instances)
    && (forall i: nat :: step.script.deletes(i).fate.Delivered?)
    && var read := s.api.Read(step.req, step.script.read);
       read.Found? && !read.inst.obj.deleting && AddFinalizer(s.api, read.inst, step.script.add).1.NoError?
  }

  /** A reconcile of a live KfDef keeps the registered ones, and can request the deletion of all of them. */
  lemma LiveKeeps(s: State, inst: Instance, script: Script, names: Names, n: NamespacedName)
    requires s.api.Valid() && n in names
    requires Respects(script.add.before, names) && forall i: nat :: Respects(script.deletes(i).before, names)
    requires Respects(script.status.before, names) && Respects(script.status.write.before, names)
    ensures Keeps(s.api, ReconcileLive(s, inst, script).0.api, n)
  {
    var added := AddFinalizer(s.api, inst, script.add).0;
    AddKeeps(s.api, inst, script.add, names, n);
    DeleteEachKeeps(added, script.order, script.deletes, 0, names, n);
    StatusKeeps(added, inst.obj.id, script.status, names, n);
    hide AddFinalizer, DeleteEach, WriteStatus, Respects;
  }

  lemma LiveMarks(s: State, step: Step, names: Names, n: NamespacedName)
    requires s.api.Valid() && Registers(s.instances, names) && n in names && AsksForAll(s, step)
    requires Respects(step.script.add.before, names)
    requires forall i: nat :: Respects(step.script.deletes(i).before, names)
    requires n in s.api.live && FINALIZER in s.api.Stored(n).finalizers
    ensures var r := Next(s, step);
            n in r.api.live && r.api.Stored(n).deleting
  {
    var script := step.script;
    var inst := s.api.Read(step.req, script.read).inst;
    var added := AddFinalizer(s.api, inst, script.add).0;
    AddKeeps(s.api, inst, script.add, names, n);
    forall key | key in script.order ensures exists m :: m in names && DotFree(m) && Key(m) == key {
      assert key in s.instances;
    }
    DeleteEachSucceeds(added, script.order, script.deletes, 0, names);
    assert script.order[0..] == script.order;
    assert Key(n) in s.instances;
    DeleteEachMarks(added, script.order, script.deletes, 0, names, n);
    hide AddFinalizer, DeleteEach, Respects, Key, DotFree;
  }

  /** What one step does to a KfDef that stays registered. */
  lemma RespectfulKeeps(s: State, step: Step, names: Names, n: NamespacedName)
    requires s.api.Valid() && Respectful(s, names, step) && n in Registered(s, names, step)
    ensures Keeps(s.api, Next(s, step).api, n)
  {
    var after := Registered(s, names, step);
    if s.crashed {
    } else if step.EnvStep? {
      ActAllKeeps(s.api, step.acts, after, n);
    } else if step.MapStep? {
      MapKeeps(s, step.event, step.read, step.write, after, n);
    } else {
      match s.api.Read(step.req, step.script.read) {
        case Found(inst) =>
          if !inst.obj.deleting {
            LiveKeeps(s, inst, step.script, after, n);
          } else if FINALIZER in inst.obj.finalizers && inst.obj.id != n {
            RemovalKeeps(s.api, inst, step.script.removal, after, n);
          }
        case _ =>
      }
    }
  }

  lemma InstancesAfter(s: State, step: Step)
    requires s.api.Valid()
    ensures var r, d, a := Next(s, step), Deletes(s, step), Applies(s, step);
            r.instances == if d.Some? then if step.script.directoryOk && !r.crashed then s.instances - {Key(d.value)}
                                           else s.instances
                           else if a.Some? then s.instances + {Key(a.value)}
                           else s.instances
  {
  }

  /** A KfDef is applied with the finalizer in place. */
  lemma AppliedIsProtected(s: State, step: Step, names: Names)
    requires s.api.Valid() && Respectful(s, names, step) && Applies(s, step).Some?
    ensures var n, r := Applies(s, step).value, Next(s, step);
            n == step.req && n in r.api.live && FINALIZER in r.api.Stored(n).finalizers
  {
    var inst, script := s.api.Read(step.req, step.script.read).inst, step.script;
    var (added, error) := AddFinalizer(s.api, inst, script.add);
    assert error.NoError? && Registered(s, names, step) == names + {step.req};
    assert step.req in added.live && FINALIZER in added.Stored(step.req).finalizers;
    StatusKeeps(added, step.req, script.status, names + {step.req}, step.req);
    hide AddFinalizer, WriteStatus, Respects, Respectful;
  }

  /** Unregistering a key takes exactly its KfDef out. */
  lemma RegistersLess(keys: set<string>, names: Names, n: NamespacedName)
    requires Registers(keys, names) && '.' !in n.namespace
    ensures Registers(keys - {Key(n)}, names - {n})
    ensures Key(n) in keys <==> n in names
  {
    forall m | m in names && Key(m) == Key(n) ensures m == n {
      KeyIsInjective(m, n);
    }
    var less := names - {n};
    assert keys - {Key(n)} == set m | m in less :: Key(m);
  }

  /** A respectful step keeps account of the registered KfDefs, and all of them keep the finalizer. */
  lemma StepKeepsAccount(s: State, step: Step, names: Names)
    requires s.api.Valid() && Protected(s.api, names) && Registers(s.instances, names) && Respectful(s, names, step)
    ensures var r, after := Next(s, step), Registered(s, names, step);
            Registers(r.instances, after) && Protected(r.api, after)
  {
    var r, after := Next(s, step), Registered(s, names, step);
    InstancesAfter(s, step);
    forall n | n in after ensures n in r.api.live && FINALIZER in r.api.Stored(n).finalizers {
      if n in names {
        RespectfulKeeps(s, step, names, n);
      } else {
        AppliedIsProtected(s, step, names);
      }
    }
    if Deletes(s, step).Some? {
      DeletesItsRequest(s, step);
      RegistersLess(s.instances, names, Deletes(s, step).value);
    } else if Applies(s, step).Some? {
      AppliedIsProtected(s, step, names);
      RegistersMore(s.instances, names, Applies(s, step).value);
    }
    hide Next, Deletes, Applies, Respectful;
  }

  lemma DeletesItsRequest(s: State, step: Step)
    requires s.api.Valid() && Deletes(s, step).Some?
    ensures step.ReconcileStep? && Deletes(s, step).value == step.req
  {
  }

  lemma RegistersMore(keys: set<string>, names: Names, n: NamespacedName)
    requires Registers(keys, names) && DotFree(n)
    ensures Registers(keys + {Key(n)}, names + {n})
  {
    var more := names + {n};
    assert keys + {Key(n)} == set m | m in more :: Key(m);
  }

  /** Progress of one step that sees the ConfigMap: no KfDef is registered, no deletion request is taken
      back, a reconcile that deletes a registered KfDef unregisters that one and no other, and one that
      asks for all deletions leaves none unmarked. So the pair (registered, registered and unmarked)
      never grows, and every deleting reconcile of a registered KfDef makes it smaller. */
  lemma StepProgress(s: State, step: Step, names: Names)
    requires s.api.Valid() && Protected(s.api, names) && Registers(s.instances, names) && Respectful(s, names, step)
    requires SeesConfigMap(step)
    ensures var r, left := Next(s, step), Registered(s, names, step);
            && Registers(r.instances, left) && Protected(r.api, left)
            && left <= names && Unmarked(r.api, left) <= Unmarked(s.api, names)
            && (AsksForAll(s, step) ==> left == names && Unmarked(r.api, left) == {})
            && (Unregisters(s, step) ==>
                  && Deletes(s, step).value in names
                  && left == names - {Deletes(s, step).value} && |left| == |names| - 1)
            && (!Unregisters(s, step) ==> left == names)
  {
    var r, left := Next(s, step), Registered(s, names, step);
    StepKeepsAccount(s, step, names);
    assert Applies(s, step).None?;
    forall n | n in left
      ensures Keeps(s.api, r.api, n) && n in r.api.live && (AsksForAll(s, step) ==> r.api.Stored(n).deleting)
    {
      RespectfulKeeps(s, step, names, n);
      if AsksForAll(s, step) {
        LiveMarks(s, step, names, n);
      }
    }
    if Deletes(s, step).Some? {
      DeletesItsRequest(s, step);
      RegistersLess(s.instances, names, Deletes(s, step).value);
    }
    hide Next, Registers, Respectful, Protected;
  }

  /** The step deletes a KfDef that is registered, and gets as far as unregistering it. */
  ghost predicate Unregisters(s: State, step: Step)
    requires s.api.Valid()
  {
    && Deletes(s, step).Some? && step.script.directoryOk && !Next(s, step).crashed
    && Key(Deletes(s, step).value) in s.instances
  }

  // ----- whole runs -----

  ghost predicate RespectfulRun(s: State, names: Names, steps: seq<Step>)
    requires s.api.Valid()
    decreases |steps|
  {
    steps != [] ==>
      Respectful(s, names, steps[0]) && RespectfulRun(Next(s, steps[0]), Registered(s, names, steps[0]), steps[1..])
  }

  /** The KfDefs that are registered after the run. */
  ghost function RegisteredAfter(s: State, names: Names, steps: seq<Step>): Names
    requires s.api.Valid()
    decreases |steps|
  {
    if steps == [] then names
    else RegisteredAfter(Next(s, steps[0]), Registered(s, names, steps[0]), steps[1..])
  }

  lemma {:induction false} RunKeepsAccount(s: State, steps: seq<Step>, names: Names)
    requires s.api.Valid() && Protected(s.api, names) && Registers(s.instances, names)
    requires RespectfulRun(s, names, steps)
    ensures var r, after := Run(s, steps), RegisteredAfter(s, names, steps);
            Registers(r.instances, after) && Protected(r.api, after)
    decreases |steps|
  {
    if steps != [] {
      hide Registers, Protected, Respectful, Registered, Next;
      StepKeepsAccount(s, steps[0], names);
      RunKeepsAccount(Next(s, steps[0]), steps[1..], Registered(s, names, steps[0]));
    }
  }

  /** In a respectful run of a freshly started operator the registered keys are at all times those of the
      KfDefs it has applied and not deleted since, and all of these exist and carry the finalizer. */
  lemma FreshRunKeepsAccount(s: State, steps: seq<Step>)
    requires Initial(s) && RespectfulRun(s, {}, steps)
    ensures var r, names := Run(s, steps), RegisteredAfter(s, {}, steps);
            Registers(r.instances, names) && Protected(r.api, names)
  {
    RunKeepsAccount(s, steps, {});
  }

  /** Applying what a stale read has found registers a KfDef that may be gone. */
  lemma StaleReadRegistersTheDead(obj: KfDef, script: Script, names: Names)
    requires !obj.deleting && FINALIZER in obj.finalizers
    requires script.read == Stale(0) && !script.configMap && script.directoryOk && script.applyOk
    requires script.status.before == [] && script.status.write.before == []
    ensures var s := State(Api([obj], map[]), {}, false, Nil, false, []);
            var r := Next(s, ReconcileStep(obj.id, script));
            && Initial(s) && r.instances == {Key(obj.id)}
            && !(Registers(r.instances, names) && Protected(r.api, names))
  {
    var s := State(Api([obj], map[]), {}, false, Nil, false, []);
    NothingHappens(s.api);
    assert Next(s, ReconcileStep(obj.id, script)).api == s.api;
    if Registers({Key(obj.id)}, names) {
      assert Key(obj.id) in {Key(obj.id)};
    }
  }

  /** How many steps of the run unregister a KfDef. */
  ghost function Deletions(s: State, steps: seq<Step>): nat
    requires s.api.Valid()
    decreases |steps|
  {
    if steps == [] then 0
    else (if Unregisters(s, steps[0]) then 1 else 0)
         + Deletions(Next(s, steps[0]), steps[1..])
  }

  ghost predicate SeeConfigMap(steps: seq<Step>) {
    forall step | step in steps :: SeesConfigMap(step)
  }

  lemma {:induction false} Conserved(s: State, steps: seq<Step>, names: Names)
    requires s.api.Valid() && Protected(s.api, names) && Registers(s.instances, names)
    requires RespectfulRun(s, names, steps) && SeeConfigMap(steps)
    ensures var r, left := Run(s, steps), RegisteredAfter(s, names, steps);
            && left <= names && |left| + Deletions(s, steps) == |names|
            && Unmarked(r.api, left) <= Unmarked(s.api, names)
    decreases |steps|
  {
    if steps != [] {
      var next := Next(s, steps[0]);
      assert SeesConfigMap(steps[0]) && forall step | step in steps[1..] :: step in steps;
      StepProgress(s, steps[0], names);
      Conserved(next, steps[1..], Registered(s, names, steps[0]));
      hide Next, Registers, Protected, Respectful, Registered, Unregisters, AsksForAll, Unmarked, SeesConfigMap;
    }
  }

  /** Over a run that sees the ConfigMap every registered KfDef is accounted for: it is still registered, or
      one deleting reconcile has unregistered it. The uninstall therefore stops waiting after exactly as
      many of those as KfDefs were registered. If the run starts in step and has no mishap, the process
      does not panic. */
  lemma RegistrationsAreConserved(s: State, steps: seq<Step>, names: Names)
    requires s.api.Valid() && Protected(s.api, names) && Registers(s.instances, names)
    requires RespectfulRun(s, names, steps) && SeeConfigMap(steps)
    ensures var r, left := Run(s, steps), RegisteredAfter(s, names, steps);
            && left <= names && Registers(r.instances, left) && Protected(r.api, left)
            && |left| + Deletions(s, steps) == |names|
            && Unmarked(r.api, left) <= Unmarked(s.api, names)
            && (r.instances == {} <==> Deletions(s, steps) == |names|)
            && (L.InStep(s) && L.FreeOfMishaps(s, steps) ==> L.InStep(r))
  {
    if L.InStep(s) && L.FreeOfMishaps(s, steps) {
      L.InStepRun(s, steps);
    }
    RunKeepsAccount(s, steps, names);
    Conserved(s, steps, names);
    NoneRegistered(Run(s, steps).instances, RegisteredAfter(s, names, steps));
    hide *;
  }

  lemma NoneRegistered(keys: set<string>, names: Names)
    requires Registers(keys, names)
    ensures keys == {} <==> |names| == 0
  {
    if n :| n in names {
      assert Key(n) in keys;
    }
  }

  /** The uninstall comes to its end: once such a run has unregistered every KfDef, a reconcile that finds
      its KfDef gone, and whose calls get through, ends with the removal of the operator. */
  lemma UninstallCompletes(s: State, steps: seq<Step>, names: Names, req: NamespacedName, script: Script)
    requires s.api.Valid() && Protected(s.api, names) && Registers(s.instances, names)
    requires RespectfulRun(s, names, steps) && SeeConfigMap(steps) && Deletions(s, steps) == |names|
    requires L.InStep(s) && L.FreeOfMishaps(s, steps)
    requires Run(s, steps).api.Read(req, script.read).Absent? && script.configMap
    requires GetsThrough(script.uninstall)
    ensures var trace := Next(Run(s, steps), ReconcileStep(req, script)).trace;
            trace != [] && trace[|trace| - 1] == CsvRemoval({}, script.uninstall.namespaces.Items())
  {
    RegistrationsAreConserved(s, steps, names);
    var r := Run(s, steps);
    assert r.instances == {} && !r.crashed;
    hide Run, RespectfulRun, Deletions, L.FreeOfMishaps, Protected, Registers, L.InStep, SeeConfigMap;
    RemovalIsLast(req.namespace, script.uninstall);
    hide OperatorUninstall, GetsThrough;
  }

  /** From start to end: whatever KfDefs a fresh operator has applied in a run without mishaps, as soon as
      as many reconciles that see the ConfigMap have unregistered one, the next such reconcile that finds
      its KfDef gone ends with the removal of the operator. */
  lemma UninstallFromStart(s: State, setup: seq<Step>, steps: seq<Step>, req: NamespacedName, script: Script)
    requires Initial(s) && RespectfulRun(s, {}, setup) && L.FreeOfMishaps(s, setup)
    requires RespectfulRun(Run(s, setup), RegisteredAfter(s, {}, setup), steps) && SeeConfigMap(steps)
    requires L.FreeOfMishaps(Run(s, setup), steps)
    requires Deletions(Run(s, setup), steps) == |Run(s, setup).instances|
    requires Run(Run(s, setup), steps).api.Read(req, script.read).Absent? && script.configMap
    requires GetsThrough(script.uninstall)
    ensures var trace := Next(Run(Run(s, setup), steps), ReconcileStep(req, script)).trace;
            trace != [] && trace[|trace| - 1] == CsvRemoval({}, script.uninstall.namespaces.Items())
  {
    FreshRunKeepsAccount(s, setup);
    L.InStepRun(s, setup);
    var names := RegisteredAfter(s, {}, setup);
    SameNumber(Run(s, setup).instances, names);
    hide *;
    UninstallCompletes(Run(s, setup), steps, names, req, script);
  }

  /** There are as many keys as KfDefs. */
  lemma {:induction false} SameNumber(keys: set<string>, names: Names)
    requires Registers(keys, names)
    ensures |keys| == |names|
    decreases |names|
  {
    NoneRegistered(keys, names);
    if n :| n in names {
      RegistersLess(keys, names, n);
      SameNumber(keys - {Key(n)}, names - {n});
    }
  }

  // ----- the last reconcile is delivered -----

  /** While reconciles see the ConfigMap, a request that waits is never dropped. */
  lemma {:induction false} RequestsStay(s: State, steps: seq<Step>, queues: seq<Queue>)
    requires s.api.Valid() && |queues| == |steps| + 1 && Served(s, steps, queues) && SeeConfigMap(steps)
    requires !Run(s, steps).crashed
    ensures queues[0] <= queues[|steps|]
    decreases |steps|
  {
    if steps != [] {
      var next := Next(s, steps[0]);
      assert SeesConfigMap(steps[0]) && forall step | step in steps[1..] :: step in steps;
      if next.crashed {
        L.CrashedStays(next, steps[1..]);
      }
      RequestStays(s, queues[0], steps[0]);
      RequestsStay(next, steps[1..], queues[1..]);
      hide Next, Waiting;
    }
  }

  /** A KfDef that the run has unregistered was requested, and this request waits again at the end. */
  lemma {:induction false} UnregisteredWaits(s: State, steps: seq<Step>, queues: seq<Queue>, names: Names)
    returns (n: NamespacedName)
    requires s.api.Valid() && Protected(s.api, names) && Registers(s.instances, names)
    requires RespectfulRun(s, names, steps) && SeeConfigMap(steps) && Deletions(s, steps) > 0
    requires |queues| == |steps| + 1 && Served(s, steps, queues) && !Run(s, steps).crashed
    ensures n in names && n in queues[|steps|]
    decreases |steps|
  {
    var next := Next(s, steps[0]);
    assert SeesConfigMap(steps[0]) && forall step | step in steps[1..] :: step in steps;
    StepProgress(s, steps[0], names);
    if next.crashed {
      L.CrashedStays(next, steps[1..]);
    }
    if Unregisters(s, steps[0]) {
      DeletesItsRequest(s, steps[0]);
      n := steps[0].req;
      RequestStays(s, queues[0], steps[0]);
      RequestsStay(next, steps[1..], queues[1..]);
    } else {
      n := UnregisteredWaits(next, steps[1..], queues[1..], names);
    }
    hide Next, Waiting, Registers, Protected, Respectful, Registered, AsksForAll, Unmarked;
  }

  /** So the uninstall needs nobody to ask for its last reconcile: a queue that delivers requests again after
      errors and when asked to still holds the request for one of the KfDefs once all are unregistered, and as soon as
      it is delivered with that KfDef gone, and the calls get through, the operator is removed. */
  lemma RemovalIsDelivered(s: State, steps: seq<Step>, queues: seq<Queue>, names: Names) returns (req: NamespacedName)
    requires s.api.Valid() && Protected(s.api, names) && Registers(s.instances, names) && names != {}
    requires RespectfulRun(s, names, steps) && SeeConfigMap(steps) && Deletions(s, steps) == |names|
    requires L.InStep(s) && L.FreeOfMishaps(s, steps)
    requires |queues| == |steps| + 1 && Served(s, steps, queues)
    ensures req in names && req in queues[|steps|]
    ensures forall script: Script | Run(s, steps).api.Read(req, script.read).Absent? && script.configMap
                                    && GetsThrough(script.uninstall) ::
              var trace := Next(Run(s, steps), ReconcileStep(req, script)).trace;
              trace != [] && trace[|trace| - 1] == CsvRemoval({}, script.uninstall.namespaces.Items())
  {
    RegistrationsAreConserved(s, steps, names);
    assert |names| > 0;
    req := UnregisteredWaits(s, steps, queues, names);
    hide Run, Next, RespectfulRun, Deletions, L.FreeOfMishaps, Protected, Registers, L.InStep, SeeConfigMap, Served,
         GetsThrough;
    forall script: Script | Run(s, steps).api.Read(req, script.read).Absent? && script.configMap
                            && GetsThrough(script.uninstall)
      ensures var trace := Next(Run(s, steps), ReconcileStep(req, script)).trace;
              trace != [] && trace[|trace| - 1] == CsvRemoval({}, script.uninstall.namespaces.Items())
    {
      UninstallCompletes(s, steps, names, req, script);
    }
  }

  /** No call of an uninstall is refused. */
  ghost predicate GetsThrough(u: UninstallScript) {
    && !u.namespaceDelete.Refused? && !u.services.ListRefused? && !u.namespaces.ListRefused?
    && ServicesDeleted(u.services.Items(), u.serviceDeletes)
    && UninstallSafety.NamespacesDeleted(u.namespaces.Items(), u.namespaceDeletes, 0)
  }

  lemma RemovalIsLast(namespace: string, u: UninstallScript)
    requires GetsThrough(u)
    ensures var events := OperatorUninstall({}, namespace, u).0;
            events != [] && events[|events| - 1] == CsvRemoval({}, u.namespaces.Items())
  {
    UninstallSafety.DeleteActiveSucceedsIff(u.namespaces.Items(), u.namespaceDeletes, 0);
    hide DeleteActive, ServicesDeleted, UninstallSafety.NamespacesDeleted;
  }
}
