/** What holds whenever the operator removes its own ClusterServiceVersion
    (pkg/controller/kfdef/kfdef_controller.go:316-346, 416-425, 577-644). */
module UninstallSafety {
  import opened ApiServer
  import opened FinalizerRemoval
  import opened OwnerKey
  import opened Wrappers
  import opened Reconciler

  /** The KfDef with this key was applied, and no deletion of it has been attempted since. */
  ghost predicate Outstanding(trace: seq<Event>, key: string) {
    exists i | 0 <= i < |trace| :: trace[i] == Applied(key) && DeleteAttempt(key) !in trace[i + 1..]
  }

  /** The Delete calls for all active namespaces of a listing, in its order. */
  function ActiveDeletes(listed: seq<Namespace>): seq<Event> {
    if listed == [] then []
    else (if listed[0].active then [NamespaceDelete(listed[0].name)] else []) + ActiveDeletes(listed[1..])
  }

  lemma {:induction false} ActiveDeletesCover(listed: seq<Namespace>, name: string)
    ensures NamespaceDelete(name) in ActiveDeletes(listed) <==> Namespace(name, true) in listed
  {
    if listed != [] {
      ActiveDeletesCover(listed[1..], name);
      assert listed == [listed[0]] + listed[1..];
      assert listed[0].active && listed[0].name == name <==> listed[0] == Namespace(name, true);
    }
  }

  /** If the i-th event removes the operator, then nothing was registered, no applied KfDef was left
      without a deletion attempt, and the call had just sent a Delete for every active generated
      namespace it listed. */
  ghost predicate SafeAt(trace: seq<Event>, i: nat)
    requires i < |trace|
  {
    trace[i].CsvRemoval? ==>
      && trace[i].registered == {}
      && (forall key :: !Outstanding(trace[..i], key))
      && var sent := ActiveDeletes(trace[i].listed);
         |sent| <= i && trace[i - |sent|..i] == sent
  }

  ghost predicate Safe(trace: seq<Event>) {
    forall i: nat | i < |trace| :: SafeAt(trace, i)
  }

  /** The invariant of every run. */
  ghost predicate Inv(s: State) {
    && Safe(s.trace)
    && forall key | Outstanding(s.trace, key) :: key in s.instances
  }

  lemma OutstandingAfter(trace: seq<Event>, e: Event, key: string)
    ensures Outstanding(trace + [e], key)
            <==> e == Applied(key) || (Outstanding(trace, key) && e != DeleteAttempt(key))
  {
    hide Key;
    var t := trace + [e];
    forall i | 0 <= i < |trace|
      ensures t[i] == trace[i]
      ensures DeleteAttempt(key) in t[i + 1..] <==> DeleteAttempt(key) in trace[i + 1..] || e == DeleteAttempt(key)
    {
      assert t[i + 1..] == trace[i + 1..] + [e];
    }
    assert t[|trace|] == e && t[|trace| + 1..] == [];
  }

  /** Namespace deletions change nothing about what is outstanding. */
  lemma {:induction false} OutstandingAfterDeletes(trace: seq<Event>, sent: seq<Event>, key: string)
    requires forall e | e in sent :: e.NamespaceDelete?
    ensures Outstanding(trace + sent, key) <==> Outstanding(trace, key)
    decreases |sent|
  {
    if sent == [] {
      assert trace + sent == trace;
    } else {
      var n := |sent| - 1;
      assert sent[n] in sent;
      OutstandingAfterDeletes(trace, sent[..n], key);
      OutstandingAfter(trace + sent[..n], sent[n], key);
      assert trace + sent == trace + sent[..n] + [sent[n]];
    }
  }

  lemma SafeAfter(trace: seq<Event>, more: seq<Event>)
    requires Safe(trace) && forall e | e in more :: !e.CsvRemoval?
    ensures Safe(trace + more)
  {
    var t := trace + more;
    forall i: nat | i < |t| ensures SafeAt(t, i) {
      if i < |trace| {
        SafePrefix(trace, more, i);
      } else {
        assert t[i] in more;
      }
    }
  }

  lemma SafePrefix(trace: seq<Event>, more: seq<Event>, i: nat)
    requires i < |trace| && SafeAt(trace, i)
    ensures SafeAt(trace + more, i)
  {
    var t := trace + more;
    assert t[..i] == trace[..i];
    if trace[i].CsvRemoval? {
      var n := |ActiveDeletes(trace[i].listed)|;
      assert t[i - n..i] == trace[i - n..i];
    }
  }

  lemma {:induction false} DeleteActiveSends(listed: seq<Namespace>, deletes: nat -> bool, i: nat)
    requires i <= |listed|
    ensures var (sent, ok) := DeleteActive(listed, deletes, i);
            && (forall e | e in sent :: e.NamespaceDelete?)
            && (ok ==> sent == ActiveDeletes(listed[i..]))
    decreases |listed| - i
  {
    if i < |listed| {
      DeleteActiveSends(listed, deletes, i + 1);
      assert listed[i..][1..] == listed[i + 1..];
    }
  }

  /** The Delete calls for the active namespaces from the i-th on all succeed. */
  ghost predicate NamespacesDeleted(listed: seq<Namespace>, deletes: nat -> bool, i: nat) {
    forall j: nat | i <= j < |listed| && listed[j].active :: deletes(j)
  }

  lemma {:induction false} DeleteActiveSucceedsIff(listed: seq<Namespace>, deletes: nat -> bool, i: nat)
    requires i <= |listed|
    ensures DeleteActive(listed, deletes, i).1 <==> NamespacesDeleted(listed, deletes, i)
    decreases |listed| - i
  {
    if i < |listed| {
      DeleteActiveSucceedsIff(listed, deletes, i + 1);
    }
  }

  /** A call that fails over the active namespaces has sent the Deletes up to and with the first refused one. */
  lemma {:induction false} DeleteActiveStops(listed: seq<Namespace>, deletes: nat -> bool, i: nat)
    requires i <= |listed| && !DeleteActive(listed, deletes, i).1
    ensures exists k: nat :: && i <= k < |listed| && listed[k].active && !deletes(k)
                             && NamespacesDeleted(listed[..k], deletes, i)
                             && DeleteActive(listed, deletes, i).0 == ActiveDeletes(listed[i..k + 1])
    decreases |listed| - i
  {
    if listed[i].active && !deletes(i) {
      assert listed[i..i + 1] == [listed[i]] && [listed[i]][1..] == [];
      assert ActiveDeletes(listed[i..i + 1]) == [NamespaceDelete(listed[i].name)] + ActiveDeletes([]);
      assert NamespacesDeleted(listed[..i], deletes, i);
    } else {
      DeleteActiveStops(listed, deletes, i + 1);
      var k: nat :| && i + 1 <= k < |listed| && listed[k].active && !deletes(k)
                    && NamespacesDeleted(listed[..k], deletes, i + 1)
                    && DeleteActive(listed, deletes, i + 1).0 == ActiveDeletes(listed[i + 1..k + 1]);
      assert listed[i..k + 1][1..] == listed[i + 1..k + 1];
      assert NamespacesDeleted(listed[..k], deletes, i);
    }
  }

  lemma RemovalIsLast(first: seq<Event>, last: Event)
    requires forall e | e in first :: !e.CsvRemoval?
    ensures (exists e | e in first + [last] :: e.CsvRemoval?) <==> last.CsvRemoval?
  {
    assert last in first + [last];
  }

  /** There is a condition, and the last one is false. */
  predicate LastlyFalse(conditions: seq<Condition>) {
    conditions != [] && conditions[|conditions| - 1] == IsFalse
  }

  lemma UnavailableServices(services: seq<ApiService>, deletes: nat -> bool)
    ensures ServicesDeleted(services, deletes)
            <==> forall i: nat | i < |services| && LastlyFalse(services[i].conditions) :: deletes(i)
  {
  }

  /** Every uninstall call begins with deleting the namespace of the request, and succeeds if and only if it gets as
      far as removing the operator and that works. */
  lemma UninstallCallMeans(instances: set<string>, namespace: string, u: UninstallScript)
    ensures var (events, ok) := OperatorUninstall(instances, namespace, u);
            && events != [] && events[0] == NamespaceDelete(namespace)
            && (ok <==> (exists e | e in events :: e.CsvRemoval?) && u.csvOk)
  {
    var listed := u.namespaces.Items();
    DeleteActiveSends(listed, u.namespaceDeletes, 0);
    var (sent, _) := DeleteActive(listed, u.namespaceDeletes, 0);
    hide DeleteActive, ServicesDeleted, ActiveDeletes;
    RemovalIsLast([], NamespaceDelete(namespace));
    assert [] + [NamespaceDelete(namespace)] == [NamespaceDelete(namespace)];
    RemovalIsLast([NamespaceDelete(namespace)] + sent, CsvRemoval(instances, listed));
  }

  /** An uninstall call gets as far as removing the operator if and only if nothing is registered and
      every call before that point succeeded: namespace, unavailable API services, listings, active
      generated namespaces. */
  lemma RemovesOperatorIff(instances: set<string>, namespace: string, u: UninstallScript)
    ensures (exists e | e in OperatorUninstall(instances, namespace, u).0 :: e.CsvRemoval?)
            <==>
            && instances == {}
            && !u.namespaceDelete.Refused? && !u.services.ListRefused? && !u.namespaces.ListRefused?
            && (forall i: nat | i < |u.services.Items()| && LastlyFalse(u.services.Items()[i].conditions) ::
                  u.serviceDeletes(i))
            && NamespacesDeleted(u.namespaces.Items(), u.namespaceDeletes, 0)
  {
    var listed := u.namespaces.Items();
    DeleteActiveSends(listed, u.namespaceDeletes, 0);
    DeleteActiveSucceedsIff(listed, u.namespaceDeletes, 0);
    UnavailableServices(u.services.Items(), u.serviceDeletes);
    hide DeleteActive, ServicesDeleted, NamespacesDeleted, ActiveDeletes;
    var (sent, _) := DeleteActive(listed, u.namespaceDeletes, 0);
    RemovalIsLast([], NamespaceDelete(namespace));
    assert [] + [NamespaceDelete(namespace)] == [NamespaceDelete(namespace)];
    RemovalIsLast([NamespaceDelete(namespace)] + sent, CsvRemoval(instances, listed));
  }

  /** A step removes the operator if and only if it is a reconcile that finds its KfDef gone while the ConfigMap is
      there, and the uninstall call gets that far. */
  lemma RemovesIff(s: State, step: Step)
    requires s.api.Valid()
    ensures Next(s, step).trace != s.trace ==>
              exists more: seq<Event> :: more != [] && Next(s, step).trace == s.trace + more
    ensures (exists e | e in Next(s, step).trace[|s.trace|..] :: e.CsvRemoval?)
            <==> && !s.crashed && step.ReconcileStep? && s.api.Read(step.req, step.script.read).Absent?
                 && step.script.configMap
                 && exists e | e in OperatorUninstall(s.instances, step.req.namespace, step.script.uninstall).0 ::
                      e.CsvRemoval?
  {
    if step.ReconcileStep? && !s.crashed && s.api.Read(step.req, step.script.read).Absent? {
      var events := OperatorUninstall(s.instances, step.req.namespace, step.script.uninstall).0;
      assert (s.trace + events)[|s.trace|..] == events;
    } else {
      OneEvent(s, step);
    }
    hide OperatorUninstall, DeleteEach, WriteStatus, RemoveFinalizer, MapKfDef, AddFinalizer;
  }

  lemma OneEvent(s: State, step: Step)
    requires s.api.Valid()
    requires !(step.ReconcileStep? && !s.crashed && s.api.Read(step.req, step.script.read).Absent?)
    ensures var t := Next(s, step).trace;
            t == s.trace || exists e: Event :: !e.CsvRemoval? && t == s.trace + [e]
    ensures s.trace <= Next(s, step).trace
    ensures forall e | e in Next(s, step).trace[|s.trace|..] :: !e.CsvRemoval?
  {
    hide OperatorUninstall, DeleteEach, WriteStatus, RemoveFinalizer, MapKfDef, AddFinalizer;
    if step.ReconcileStep? && !s.crashed && s.api.Read(step.req, step.script.read).Found? {
      var inst := s.api.Read(step.req, step.script.read).inst;
      assert forall e: Event :: (s.trace + [e])[|s.trace|..] == [e];
    }
  }

  lemma UninstallKeepsInv(s: State, namespace: string, u: UninstallScript)
    requires Inv(s)
    ensures Inv(s.(trace := s.trace + OperatorUninstall(s.instances, namespace, u).0))
  {
    var first := [NamespaceDelete(namespace)];
    var (events, _) := OperatorUninstall(s.instances, namespace, u);
    var listed := u.namespaces.Items();
    var (sent, ok) := DeleteActive(listed, u.namespaceDeletes, 0);
    DeleteActiveSends(listed, u.namespaceDeletes, 0);
    assert listed[0..] == listed;
    var deletes := if events == first then first else first + sent;
    SafeAfter(s.trace, deletes);
    forall key { OutstandingAfterDeletes(s.trace, deletes, key); }
    if events != deletes {
      RemovalKeepsInv(s, deletes, sent, listed);
      assert s.trace + events == s.trace + deletes + [CsvRemoval(s.instances, listed)];
    }
  }

  lemma RemovalKeepsInv(s: State, deletes: seq<Event>, sent: seq<Event>, listed: seq<Namespace>)
    requires s.instances == {} && sent == ActiveDeletes(listed)
    requires |sent| <= |deletes| && deletes[|deletes| - |sent|..] == sent
    requires Safe(s.trace + deletes) && forall key :: !Outstanding(s.trace + deletes, key)
    ensures Inv(s.(trace := s.trace + deletes + [CsvRemoval(s.instances, listed)]))
  {
    var t := s.trace + deletes;
    var e := CsvRemoval(s.instances, listed);
    forall i: nat | i < |t + [e]| ensures SafeAt(t + [e], i) {
      if i < |t| {
        SafePrefix(t, [e], i);
      } else {
        assert (t + [e])[..i] == t && (t + [e])[i - |sent|..i] == sent;
      }
    }
    forall key { OutstandingAfter(t, e, key); }
  }

  /** A step other than an uninstall call adds at most one event and keeps the keys in line with it. */
  lemma StepEvents(s: State, step: Step)
    requires s.api.Valid()
    ensures var r := Next(s, step);
            || (r.trace == s.trace && r.instances == s.instances)
            || (&& Deletes(s, step).Some? && r.trace == s.trace + [DeleteAttempt(Key(Deletes(s, step).value))]
                && s.instances - {Key(Deletes(s, step).value)} <= r.instances <= s.instances)
            || (&& Applies(s, step).Some? && r.trace == s.trace + [Applied(Key(Applies(s, step).value))]
                && r.instances == s.instances + {Key(Applies(s, step).value)})
            || (&& step.ReconcileStep? && r.instances == s.instances
                && r.trace == s.trace + OperatorUninstall(s.instances, step.req.namespace, step.script.uninstall).0)
  {
    hide OperatorUninstall, DeleteEach, WriteStatus, RemoveFinalizer, MapKfDef;
  }

  lemma InvStep(s: State, step: Step)
    requires s.api.Valid() && Inv(s)
    ensures Inv(Next(s, step))
  {
    StepEvents(s, step);
    var r := Next(s, step);
    if step.ReconcileStep? {
      UninstallKeepsInv(s, step.req.namespace, step.script.uninstall);
    }
    if Deletes(s, step).Some? {
      var e := DeleteAttempt(Key(Deletes(s, step).value));
      SafeAfter(s.trace, [e]);
      forall key { OutstandingAfter(s.trace, e, key); }
    }
    if Applies(s, step).Some? {
      var e := Applied(Key(Applies(s, step).value));
      SafeAfter(s.trace, [e]);
      forall key { OutstandingAfter(s.trace, e, key); }
    }
  }

  lemma {:induction false} InvRun(s: State, steps: seq<Step>)
    requires s.api.Valid() && Inv(s)
    ensures Inv(Run(s, steps))
    decreases |steps|
  {
    if steps != [] {
      InvStep(s, steps[0]);
      InvRun(Next(s, steps[0]), steps[1..]);
    }
  }

  /** In every run of a freshly started operator, every removal of the operator is safe. */
  lemma UninstallIsSafe(s: State, steps: seq<Step>)
    requires Initial(s)
    ensures Safe(Run(s, steps).trace)
  {
    InvRun(s, steps);
  }
}
