/** The operator process itself: package globals updated in place by Reconcile. Each method is proved
    against the transition function of module Reconciler. */
module OperatorProcess {
  import opened ApiServer
  import opened FinalizerRemoval
  import opened OwnerKey
  import R = Reconciler

  class Operator {
    var api: Api
    var kfdefInstances: set<string>
    var b2ndController: bool
    var stop: R.Channel
    var crashed: bool
    var trace: seq<R.Event>

    function Value(): R.State
      reads this
    {
      R.State(api, kfdefInstances, b2ndController, stop, crashed, trace)
    }

    constructor (api: Api)
      requires api.Valid()
      ensures R.Initial(Value()) && this.api == api
    {
      this.api := api;
      kfdefInstances, b2ndController, stop, crashed, trace := {}, false, R.Nil, false, [];
    }

    /** The Update with its retry loop. */
    method RemoveFinalizer(inst: Instance, script: nat -> Attempt) returns (error: Error, updates: nat)
      requires api.Valid()
      modifies this`api
      ensures var r := FinalizerRemoval.RemoveFinalizer(old(api), inst, script);
              api == r.after && error == r.error && updates == r.updates
      ensures api.Valid()
    {
      var instance := Withdraw(inst);
      api := api.ActAll(script(0).beforeUpdate);
      ghost var before := api;
      var (sent, finalizerError) := api.SendUpdate(instance, script(0).fate);
      api := sent;
      var retryCount: nat := 0;
      while finalizerError.Conflict? && retryCount < FINALIZER_MAX_RETRIES
        invariant retryCount <= FINALIZER_MAX_RETRIES && before.Valid() && api.Valid()
        invariant FinalizerRemoval.RemoveFinalizer(old(api), inst, script)
               == Continue(before, api, finalizerError, instance, script, retryCount)
        decreases FINALIZER_MAX_RETRIES - retryCount
      {
        retryCount := retryCount + 1;
        api := api.ActAll(script(retryCount).beforeRead);
        instance := Withdraw(Reread(api, instance, script(retryCount).read));
        api := api.ActAll(script(retryCount).beforeUpdate);
        before := api;
        var (again, outcome) := api.SendUpdate(instance, script(retryCount).fate);
        api, finalizerError := again, outcome;
      }
      return finalizerError, retryCount + 1;
    }

    /** Asks for the deletion of every registered KfDef, in whatever order the map yields them; that order
        is returned as well. */
    method DeleteInstances(deletes: nat -> R.Write) returns (ok: bool, ghost order: seq<string>)
      requires api.Valid()
      modifies this`api
      ensures R.Enumerates(order, kfdefInstances)
      ensures (api, ok) == R.DeleteEach(old(api), order, deletes, 0)
      ensures api.Valid()
    {
      var rest := kfdefInstances;
      var i: nat := 0;
      order := [];
      hide R.DeleteEach, R.DeleteOne;
      while rest != {}
        invariant rest <= kfdefInstances && R.Enumerates(order, kfdefInstances - rest)
        invariant i == |order| && api.Valid() && Passed(old(api), order, deletes, api)
        decreases |rest|
      {
        var key :| key in rest;
        var (next, success) := R.DeleteOne(api, key, deletes(i));
        PassedSnoc(old(api), order, deletes, api, key);
        EnumeratesSnoc(order, kfdefInstances - rest, key);
        api := next;
        order, rest, i := order + [key], rest - {key}, i + 1;
        assert kfdefInstances - rest == kfdefInstances - (rest + {key}) + {key};
        if !success {
          var more := AnOrder(rest);
          EnumeratesConcat(order, kfdefInstances - rest, more, rest);
          assert kfdefInstances - rest + rest == kfdefInstances;
          order := order + more;
          return false, order;
        }
      }
      assert kfdefInstances - {} == kfdefInstances;
      PassedAll(old(api), order, deletes, api);
      ok := true;
    }

    method OperatorUninstall(namespace: string, u: R.UninstallScript) returns (ok: bool)
      modifies this`trace
      ensures var (events, success) := R.OperatorUninstall(kfdefInstances, namespace, u);
              trace == old(trace) + events && ok == success
    {
      trace := trace + [R.NamespaceDelete(namespace)];
      if u.namespaceDelete.Refused? || u.services.ListRefused? {
        return false;
      }
      var services := u.services.Items();
      var i := 0;
      while i < |services|
        invariant 0 <= i <= |services|
        invariant forall j: nat | j < i :: R.Unavailable(services[j]) ==> u.serviceDeletes(j)
      {
        if R.Unavailable(services[i]) && !u.serviceDeletes(i) {
          return false;
        }
        i := i + 1;
      }
      if kfdefInstances != {} || u.namespaces.ListRefused? {
        return false;
      }
      var listed := u.namespaces.Items();
      ghost var first := trace;
      ghost var (all, good) := R.DeleteActive(listed, u.namespaceDeletes, 0);
      assert first + all == old(trace) + ([R.NamespaceDelete(namespace)] + all);
      i := 0;
      while i < |listed|
        invariant 0 <= i <= |listed|
        invariant first + all == trace + R.DeleteActive(listed, u.namespaceDeletes, i).0
        invariant good == R.DeleteActive(listed, u.namespaceDeletes, i).1
      {
        if listed[i].active {
          trace := trace + [R.NamespaceDelete(listed[i].name)];
          if !u.namespaceDeletes(i) {
            return false;
          }
        }
        i := i + 1;
      }
      ghost var removal := R.CsvRemoval(kfdefInstances, listed);
      assert first + all + [removal] == old(trace) + ([R.NamespaceDelete(namespace)] + all + [removal]);
      trace := trace + [R.CsvRemoval(kfdefInstances, listed)];
      ok := u.csvOk;
    }

    method WriteStatus(id: NamespacedName, w: R.StatusWrite) returns (ok: bool)
      requires api.Valid()
      modifies this`api
      ensures (api, ok) == R.WriteStatus(old(api), id, w)
      ensures api.Valid()
    {
      api := api.ActAll(w.before);
      match api.Read(id, w.read) {
        case Found(inst) =>
          if inst.obj.content == w.content {
            return true;
          }
          var (after, error) := api.ActAll(w.write.before)
                                   .SendUpdate(inst.(obj := inst.obj.(content := w.content)), w.write.fate);
          api := after;
          ok := error.NoError?;
        case _ =>
          ok := false;
      }
    }

    /** The branch for a KfDef that is being deleted and still carries the finalizer. */
    method ReconcileDeleting(inst: Instance, script: R.Script) returns (outcome: R.Outcome)
      requires api.Valid() && !crashed
      modifies this
      ensures (Value(), outcome) == R.ReconcileDeleting(old(Value()), inst, script)
      ensures api.Valid()
    {
      if |kfdefInstances| == 1 {
        if !stop.Open? {
          crashed := true;
          return R.Panic;
        }
        stop := R.Closed;
        b2ndController := false;
      }
      trace := trace + [R.DeleteAttempt(Key(inst.obj.id))];
      if !script.directoryOk {
        return R.Failed;
      }
      kfdefInstances := kfdefInstances - {Key(inst.obj.id)};
      var error, _ := RemoveFinalizer(inst, script.removal);
      if !error.NoError? {
        return R.Failed;
      }
      outcome := if script.configMap then R.Requeue else R.Done;
    }

    /** The branch for a KfDef that is not being deleted. */
    method ReconcileLive(inst: Instance, script: R.Script) returns (outcome: R.Outcome, ghost order: seq<string>)
      requires api.Valid()
      modifies this
      ensures R.Enumerates(order, old(kfdefInstances))
      ensures (Value(), outcome) == R.ReconcileLive(old(Value()), inst, script.(order := order))
      ensures api.Valid()
    {
      order := AnOrder(kfdefInstances);
      if FINALIZER !in inst.obj.finalizers {
        var (added, error) := api.ActAll(script.add.before)
                                 .SendUpdate(inst.(obj := inst.obj.(finalizers := inst.obj.finalizers + {FINALIZER})),
                                             script.add.fate);
        api := added;
        if !error.NoError? {
          return R.Failed, order;
        }
      }
      if !script.directoryOk {
        return R.Failed, order;
      }
      if script.configMap {
        var ok;
        ok, order := DeleteInstances(script.deletes);
        return if ok then R.Requeue else R.Failed, order;
      }
      if script.applyOk {
        trace := trace + [R.Applied(Key(inst.obj.id))];
        kfdefInstances := kfdefInstances + {Key(inst.obj.id)};
        if !b2ndController {
          if !script.controllerOk {
            return R.Done, order;
          }
          stop := R.Open;
          b2ndController := true;
        }
      }
      var ok := WriteStatus(inst.obj.id, script.status);
      outcome := if ok && script.applyOk then R.Done else R.Failed;
    }

    /** The whole reconcile; `order` is the order in which the registered keys are met. */
    method Reconcile(req: NamespacedName, script: R.Script) returns (outcome: R.Outcome, ghost order: seq<string>)
      requires api.Valid() && !crashed
      modifies this
      ensures R.Enumerates(order, old(kfdefInstances))
      ensures (Value(), outcome) == R.Reconcile(old(Value()), req, script.(order := order))
      ensures api.Valid()
    {
      order := AnOrder(kfdefInstances);
      match api.Read(req, script.read) {
        case Absent =>
          if !script.configMap {
            return R.Done, order;
          }
          var _ := OperatorUninstall(req.namespace, script.uninstall);
          outcome := R.Failed;
        case ReadError =>
          outcome := R.Failed;
        case Found(inst) =>
          if !inst.obj.deleting {
            outcome, order := ReconcileLive(inst, script);
          } else if FINALIZER in inst.obj.finalizers {
            outcome := ReconcileDeleting(inst, script);
          } else {
            outcome := if script.configMap then R.Requeue else R.Done;
          }
      }
    }
  }

  /** The loop over the keys has got through those of `order`, and the API server is `now`. */
  ghost predicate Passed(was: Api, order: seq<string>, deletes: nat -> R.Write, now: Api)
    requires was.Valid() && now.Valid()
  {
    forall more: seq<string> ::
      R.DeleteEach(was, order + more, deletes, 0) == R.DeleteEach(now, order + more, deletes, |order|)
  }

  lemma PassedSnoc(was: Api, order: seq<string>, deletes: nat -> R.Write, now: Api, key: string)
    requires was.Valid() && now.Valid() && Passed(was, order, deletes, now)
    ensures var (next, ok) := R.DeleteOne(now, key, deletes(|order|));
            && (ok ==> Passed(was, order + [key], deletes, next))
            && (!ok ==> forall more: seq<string> :: R.DeleteEach(was, order + [key] + more, deletes, 0) == (next, false))
  {
    hide R.DeleteOne;
    var (next, ok) := R.DeleteOne(now, key, deletes(|order|));
    forall more: seq<string>
      ensures R.DeleteEach(was, order + [key] + more, deletes, 0)
           == if ok then R.DeleteEach(next, order + [key] + more, deletes, |order + [key]|) else (next, false)
    {
      var all := order + [key] + more;
      assert all == order + ([key] + more) && all[|order|] == key;
    }
  }

  lemma PassedAll(was: Api, order: seq<string>, deletes: nat -> R.Write, now: Api)
    requires was.Valid() && now.Valid() && Passed(was, order, deletes, now)
    ensures R.DeleteEach(was, order, deletes, 0) == (now, true)
  {
    assert order + [] == order;
  }

  lemma EnumeratesSnoc(order: seq<string>, keys: set<string>, key: string)
    requires R.Enumerates(order, keys) && key !in keys
    ensures R.Enumerates(order + [key], keys + {key})
  {
    assert (set k | k in order + [key]) == (set k | k in order) + {key};
    assert forall k | k in order :: k in keys;
  }

  lemma EnumeratesConcat(order: seq<string>, keys: set<string>, more: seq<string>, others: set<string>)
    requires R.Enumerates(order, keys) && R.Enumerates(more, others) && keys !! others
    ensures R.Enumerates(order + more, keys + others)
  {
    assert (set k | k in order + more) == (set k | k in order) + (set k | k in more);
    var all := order + more;
    forall i, j | 0 <= i < j < |all| ensures all[i] != all[j] {
      if j < |order| {
        assert order[i] != order[j];
      } else if |order| <= i {
        assert more[i - |order|] != more[j - |order|];
      } else {
        assert order[i] in order && more[j - |order|] in more;
        assert order[i] in (set k | k in order) && more[j - |order|] in (set k | k in more);
        assert order[i] in keys && more[j - |order|] in others;
      }
    }
  }

  lemma {:induction false} AnOrder(keys: set<string>) returns (order: seq<string>)
    ensures R.Enumerates(order, keys)
  {
    order := [];
    if keys != {} {
      var key :| key in keys;
      order := AnOrder(keys - {key});
      EnumeratesSnoc(order, keys - {key}, key);
      order := order + [key];
      assert keys - {key} + {key} == keys;
    }
  }
}
