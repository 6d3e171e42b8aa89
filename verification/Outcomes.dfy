/** What a reconcile answers, from the situation and the calls alone, and what the controller's work queue makes of
    it (pkg/controller/kfdef/kfdef_controller.go:281-457). */
module Outcomes {
  import opened Strings
  import opened ApiServer
  import opened FinalizerRemoval
  import opened OwnerKey
  import opened Wrappers
  import opened Reconciler

  // ----- the calls -----

  /** An Update gets through: it is delivered, and the instance is the current version of a live object. */
  predicate Accepted(api: Api, inst: Instance, fate: CallFate) {
    fate.Delivered? && inst.obj.id in api.live && api.live[inst.obj.id] == inst.version
  }

  predicate AddingFails(api: Api, inst: Instance, w: Reconciler.Write)
    requires api.Valid()
  {
    FINALIZER !in inst.obj.finalizers && !Accepted(api.ActAll(w.before), inst, w.fate)
  }

  /** Some key does not have two parts, or its Delete does not get through. */
  predicate DeletingFails(order: seq<string>, deletes: nat -> Reconciler.Write) {
    exists i: nat | i < |order| :: |Split(order[i], '.')| != 2 || !deletes(i).fate.Delivered?
  }

  /** The object cannot be read, or its status is another one and the Update does not get through. */
  predicate StatusFails(api: Api, id: NamespacedName, w: StatusWrite)
    requires api.Valid()
  {
    var current := api.ActAll(w.before);
    var read := current.Read(id, w.read);
    || !read.Found?
    || (read.inst.obj.content != w.content && !Accepted(current.ActAll(w.write.before), read.inst, w.write.fate))
  }

  lemma {:induction false} DeletingFailsIff(api: Api, order: seq<string>, deletes: nat -> Reconciler.Write, i: nat)
    requires api.Valid() && i <= |order|
    ensures DeleteEach(api, order, deletes, i).1
            <==> forall j: nat | i <= j < |order| :: |Split(order[j], '.')| == 2 && deletes(j).fate.Delivered?
    decreases |order| - i
  {
    hide *;
    DeleteEachStep(api, order, deletes, i);
    if i < |order| {
      DeleteOneIff(api, order[i], deletes(i));
      DeletingFailsIff(DeleteOne(api, order[i], deletes(i)).0, order, deletes, i + 1);
    }
  }

  lemma DeleteEachStep(api: Api, order: seq<string>, deletes: nat -> Reconciler.Write, i: nat)
    requires api.Valid() && i <= |order|
    ensures DeleteEach(api, order, deletes, i).1
         == (i == |order| || (&& DeleteOne(api, order[i], deletes(i)).1
                              && DeleteEach(DeleteOne(api, order[i], deletes(i)).0, order, deletes, i + 1).1))
  {
    hide DeleteOne;
  }

  lemma DeleteOneIff(api: Api, key: string, w: Reconciler.Write)
    requires api.Valid()
    ensures DeleteOne(api, key, w).1 <==> |Split(key, '.')| == 2 && w.fate.Delivered?
  {
    hide Split, Api.ActAll;
  }

  /** The first Delete that fails is the last one that is sent. */
  lemma {:induction false} DeletesStopAtFailure(api: Api, order: seq<string>, deletes: nat -> Reconciler.Write,
                                                i: nat, k: nat)
    requires api.Valid() && i <= k < |order| && !DeleteEach(api, order[..k + 1], deletes, i).1
    ensures DeleteEach(api, order, deletes, i) == DeleteEach(api, order[..k + 1], deletes, i)
    decreases |order| - i
  {
    hide DeleteOne;
    var (next, ok) := DeleteOne(api, order[i], deletes(i));
    if ok && i < k {
      DeletesStopAtFailure(next, order, deletes, i + 1, k);
    }
  }

  /** Adding the finalizer keeps what every other client has written: an accepted Update stores the object as it
      was then, with the KfDef finalizer on top; without the need for one nothing is written. */
  lemma AddingMeans(api: Api, inst: Instance, w: Reconciler.Write)
    requires api.Valid() && IsVersion(api, inst)
    ensures var (after, error) := AddFinalizer(api, inst, w);
            && (error.NoError? <==> !AddingFails(api, inst, w))
            && (FINALIZER in inst.obj.finalizers ==> after == api)
            && (FINALIZER !in inst.obj.finalizers && error.NoError? ==>
                  && var before, n := api.ActAll(w.before), inst.obj.id;
                     && n in before.live && n in after.live
                     && after.Stored(n) == before.Stored(n).(finalizers := before.Stored(n).finalizers + {FINALIZER})
                     && forall m | m != n ::
                          (m in after.live <==> m in before.live)
                          && (m in before.live ==> after.Stored(m) == before.Stored(m)))
  {
    ActAllExtends(api, w.before);
    hide Api.ActAll;
  }

  /** Writing the status stores it, on top of the object as it was then, whenever it differs from the one read and
      the Update gets through; a status that is the one read is not written. */
  lemma StatusMeans(api: Api, id: NamespacedName, w: StatusWrite)
    requires api.Valid()
    ensures var (after, ok) := WriteStatus(api, id, w);
            var current := api.ActAll(w.before);
            var later, read := current.ActAll(w.write.before), current.Read(id, w.read);
            && (ok <==> !StatusFails(api, id, w))
            && (read.Found? && read.inst.obj.content == w.content ==> after == current)
            && (read.Found? && read.inst.obj.content != w.content && ok ==>
                  && id in later.live
                  && after == later.Write(later.Stored(id).(content := w.content))
                  && (id in after.live ==> after.Stored(id) == later.Stored(id).(content := w.content)))
  {
    var current := api.ActAll(w.before);
    ActAllExtends(current, w.write.before);
    hide Api.ActAll;
  }

  // ----- the outcome -----

  /** A reconcile that finds a live KfDef fails: adding the finalizer, the directory, and then either one of the
      Deletes, or applying or the status write. A second controller that cannot be created ends it without one. */
  predicate LiveFails(s: State, inst: Instance, script: Script)
    requires s.api.Valid()
  {
    || AddingFails(s.api, inst, script.add)
    || !script.directoryOk
    || (script.configMap && DeletingFails(script.order, script.deletes))
    || (!script.configMap && !script.applyOk)
    || (!script.configMap && (s.second || script.controllerOk)
        && StatusFails(AddFinalizer(s.api, inst, script.add).0, inst.obj.id, script.status))
  }

  predicate DeletionFails(s: State, inst: Instance, script: Script)
    requires s.api.Valid()
  {
    !script.directoryOk || !RemoveFinalizer(s.api, inst, script.removal).error.NoError?
  }

  /** The one registered KfDef goes while the channel is not open. */
  predicate Panics(s: State, req: NamespacedName, script: Script)
    requires s.api.Valid()
  {
    var read := s.api.Read(req, script.read);
    && read.Found? && read.inst.obj.deleting && FINALIZER in read.inst.obj.finalizers
    && |s.instances| == 1 && !s.stop.Open?
  }

  /** One of the calls fails, or the KfDef is gone during an uninstall, which the code always reports as an error. */
  predicate Fails(s: State, req: NamespacedName, script: Script)
    requires s.api.Valid()
  {
    match s.api.Read(req, script.read)
    case ReadError => true
    case Absent => script.configMap
    case Found(inst) =>
      if !inst.obj.deleting then LiveFails(s, inst, script)
      else FINALIZER in inst.obj.finalizers && DeletionFails(s, inst, script)
  }

  lemma LiveOutcome(s: State, inst: Instance, script: Script)
    requires s.api.Valid() && IsVersion(s.api, inst)
    ensures ReconcileLive(s, inst, script).1
         == if LiveFails(s, inst, script) then Failed else if script.configMap then Requeue else Done
  {
    AddingMeans(s.api, inst, script.add);
    var added := AddFinalizer(s.api, inst, script.add).0;
    DeletingFailsIff(added, script.order, script.deletes, 0);
    StatusMeans(added, inst.obj.id, script.status);
    hide AddFinalizer, AddingFails, StatusFails, DeleteEach, WriteStatus;
  }

  /** The answer of a reconcile: a panic for closing a channel that is not open; an error exactly if a call fails;
      a request to come back exactly if a KfDef was found and handled without failure while the ConfigMap is
      there; and done exactly if none of these. So with the ConfigMap the answer is never done. */
  lemma OutcomeMeans(s: State, req: NamespacedName, script: Script)
    requires s.api.Valid()
    ensures var out, found := Reconcile(s, req, script).1, s.api.Read(req, script.read).Found?;
            && (out.Panic? <==> Panics(s, req, script))
            && (out.Failed? <==> !Panics(s, req, script) && Fails(s, req, script))
            && (out.Requeue? <==> && found && script.configMap
                                  && !Panics(s, req, script) && !Fails(s, req, script))
            && (out.Done? <==> && !script.configMap && !s.api.Read(req, script.read).ReadError?
                               && !Panics(s, req, script) && !Fails(s, req, script))
  {
    match s.api.Read(req, script.read) {
      case Found(inst) =>
        LiveOutcome(s, inst, script);
      case _ =>
    }
    hide LiveFails, ReconcileLive;
  }

  // ----- the work queue -----

  /** The requests that wait to be reconciled. */
  type Queue = set<NamespacedName>

  /** A request is delivered again after an error and when it asks for that. */
  predicate Redelivers(out: Outcome) {
    out.Failed? || out.Requeue?
  }

  /** What waits after a step at the least; watches may add more at any time. */
  function Waiting(s: State, queue: Queue, step: Step): Queue
    requires s.api.Valid()
  {
    if s.crashed then queue
    else
      match step
      case ReconcileStep(req, script) =>
        if Redelivers(Reconcile(s, req, script).1) then queue else queue - {req}
      case MapStep(event, read, w) =>
        queue + set n | n in MapKfDef(s.api, event, read, w.before, w.fate, FINALIZER).2
      case EnvStep(_) => queue
  }

  /** Every reconcile of the run takes a request that waits; `queues` are the requests waiting before every step and
      at the end. */
  ghost predicate Served(s: State, steps: seq<Step>, queues: seq<Queue>)
    requires s.api.Valid() && |queues| == |steps| + 1
    decreases |steps|
  {
    steps != [] ==>
      && (steps[0].ReconcileStep? ==> steps[0].req in queues[0])
      && Waiting(s, queues[0], steps[0]) <= queues[1]
      && Served(Next(s, steps[0]), steps[1..], queues[1..])
  }

  /** As long as reconciles see the ConfigMap, a request that waits, or is being worked on, waits again afterwards. */
  lemma RequestStays(s: State, queue: Queue, step: Step)
    requires s.api.Valid() && !Next(s, step).crashed && (step.ReconcileStep? ==> step.script.configMap)
    ensures queue <= Waiting(s, queue, step)
  {
    if !s.crashed && step.ReconcileStep? {
      OutcomeMeans(s, step.req, step.script);
      PanicsIff(s, step.req, step.script);
      hide Reconcile, Panics, Fails;
    }
  }

  lemma PanicsIff(s: State, req: NamespacedName, script: Script)
    requires s.api.Valid() && !s.crashed
    ensures Next(s, ReconcileStep(req, script)).crashed <==> Reconcile(s, req, script).1.Panic?
  {
    hide AddFinalizer, DeleteEach, WriteStatus, RemoveFinalizer, OperatorUninstall;
  }
}
