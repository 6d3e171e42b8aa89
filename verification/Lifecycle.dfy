/** The life of the second controller: it is started with the first applied KfDef and stopped, by
    closing `stop`, with the last deleted one (pkg/controller/kfdef/kfdef_controller.go:317-346, 416-446). */
module Lifecycle {
  import opened ApiServer
  import opened FinalizerRemoval
  import opened OwnerKey
  import opened Wrappers
  import opened Reconciler

  /** Holds in every run: the controller runs exactly while `stop` is open, and only for registered KfDefs. */
  ghost predicate Sound(s: State) {
    (s.second <==> s.stop.Open?) && (s.second ==> s.instances != {})
  }

  /** What the code intends on top: the controller runs whenever a KfDef is registered. */
  ghost predicate InStep(s: State) {
    && !s.crashed
    && (s.second <==> s.stop.Open?)
    && (s.second <==> s.instances != {})
  }

  lemma SizeOne<T>(a: set<T>, x: T)
    ensures |a| == 1 && x in a ==> a - {x} == {}
    ensures |a| == 1 && x !in a ==> a - {x} == a
    ensures |a| > 1 ==> a - {x} != {}
  {
    if x in a {
      assert a == (a - {x}) + {x};
      assert |a| == |a - {x}| + 1;
    } else {
      assert a - {x} == a;
    }
  }

  lemma SoundStep(s: State, step: Step)
    requires s.api.Valid() && Sound(s)
    ensures Sound(Next(s, step))
  {
    var d := Deletes(s, step);
    if d.Some? {
      SizeOne(s.instances, Key(d.value));
    }
  }

  lemma {:induction false} SoundRun(s: State, steps: seq<Step>)
    requires s.api.Valid() && Sound(s)
    ensures Sound(Run(s, steps))
    decreases |steps|
  {
    if steps != [] {
      SoundStep(s, steps[0]);
      SoundRun(Next(s, steps[0]), steps[1..]);
    }
  }

  /** In every run of a freshly started operator the second controller is on only while `stop` is open
      and some KfDef is registered. */
  lemma SecondControllerSound(s: State, steps: seq<Step>)
    requires Initial(s)
    ensures var r := Run(s, steps);
            r.second ==> r.stop.Open? && r.instances != {}
  {
    SoundRun(s, steps);
  }

  /** A deletion with one KfDef registered while the second controller is off. */
  ghost predicate ClosesTwice(s: State, step: Step)
    requires s.api.Valid()
  {
    Deletes(s, step).Some? && |s.instances| == 1 && !s.second
  }

  lemma StepCrashesIff(s: State, step: Step)
    requires s.api.Valid() && Sound(s) && !s.crashed
    ensures Next(s, step).crashed <==> ClosesTwice(s, step)
  {
  }

  /** Some step of the run is such a deletion. */
  ghost predicate ClosesTwiceIn(s: State, steps: seq<Step>)
    requires s.api.Valid()
    decreases |steps|
  {
    steps != [] && (ClosesTwice(s, steps[0]) || ClosesTwiceIn(Next(s, steps[0]), steps[1..]))
  }

  lemma {:induction false} CrashedStays(s: State, steps: seq<Step>)
    requires s.api.Valid() && s.crashed
    ensures Run(s, steps) == s
    decreases |steps|
  {
    if steps != [] {
      CrashedStays(s, steps[1..]);
    }
  }

  lemma {:induction false} SoundCrashesIff(s: State, steps: seq<Step>)
    requires s.api.Valid() && Sound(s) && !s.crashed
    ensures Run(s, steps).crashed <==> ClosesTwiceIn(s, steps)
    decreases |steps|
  {
    if steps != [] {
      StepCrashesIff(s, steps[0]);
      SoundStep(s, steps[0]);
      if Next(s, steps[0]).crashed {
        CrashedStays(Next(s, steps[0]), steps[1..]);
      } else {
        SoundCrashesIff(Next(s, steps[0]), steps[1..]);
      }
      hide Next, Sound, ClosesTwice;
    }
  }

  /** A run of a freshly started operator panics, by closing a channel that is not open, if and only if
      some deletion meets a single registered KfDef while the second controller is off. */
  lemma CrashesIff(s: State, steps: seq<Step>)
    requires Initial(s)
    ensures Run(s, steps).crashed <==> ClosesTwiceIn(s, steps)
  {
    SoundCrashesIff(s, steps);
  }

  /** The three ways a step can break the intent: the only registered KfDef is not the one being
      deleted, its directory cannot be removed, or the second controller cannot be created. */
  ghost predicate Mishap(s: State, step: Step)
    requires s.api.Valid()
  {
    || (&& Deletes(s, step).Some? && |s.instances| == 1
        && (Key(Deletes(s, step).value) !in s.instances || !step.script.directoryOk))
    || (Applies(s, step).Some? && !s.second && !step.script.controllerOk)
  }

  /** A step keeps the second controller in step with the registered KfDefs, without closing a channel
      that is not open, if and only if it is none of the mishaps. */
  lemma InStepIff(s: State, step: Step)
    requires s.api.Valid() && InStep(s)
    ensures InStep(Next(s, step)) <==> !Mishap(s, step)
  {
    var d := Deletes(s, step);
    if d.Some? {
      SizeOne(s.instances, Key(d.value));
    }
  }

  ghost predicate FreeOfMishaps(s: State, steps: seq<Step>)
    requires s.api.Valid()
    decreases |steps|
  {
    steps != [] ==> !Mishap(s, steps[0]) && FreeOfMishaps(Next(s, steps[0]), steps[1..])
  }

  /** Over a whole run: without mishaps the second controller is on exactly while a KfDef is
      registered, and the process never panics. */
  lemma {:induction false} InStepRun(s: State, steps: seq<Step>)
    requires s.api.Valid() && InStep(s) && FreeOfMishaps(s, steps)
    ensures InStep(Run(s, steps))
    decreases |steps|
  {
    if steps != [] {
      InStepIff(s, steps[0]);
      InStepRun(Next(s, steps[0]), steps[1..]);
    }
  }

  // ----- the registration condition is needed -----

  function CalmAttempt(i: nat): Attempt {
    Attempt([], Fresh, [], Delivered)
  }

  function CalmWrite(i: nat): Reconciler.Write {
    Reconciler.Write([], Delivered)
  }

  function Always(i: nat): bool {
    true
  }

  /** A script in which nobody interferes, no call fails and no ConfigMap asks for an uninstall. */
  function CalmScript(applyOk: bool): Script {
    Script(Fresh, false, true, CalmAttempt, CalmWrite(0), [], CalmWrite,
           applyOk, true, StatusWrite([], Fresh, CalmWrite(0), ""),
           UninstallScript(Accepted, Listed([]), Always, Listed([]), Always, true))
  }

  const A := NamespacedName("a", "n")
  const B := NamespacedName("b", "n")

  /** Operator just started; KfDef A is live, and KfDef B, never applied by this process, is being deleted. */
  function Start(): State {
    State(Api([KfDef(A, {FINALIZER}, false, ""), KfDef(B, {FINALIZER}, true, "")], map[A := 0, B := 1]),
          {}, false, Nil, false, [])
  }

  lemma AfterApplyOfA()
    ensures var s := Next(Start(), ReconcileStep(A, CalmScript(true)));
            s == Start().(instances := {Key(A)}, second := true, stop := Open, trace := [Applied(Key(A))])
  {
  }

  lemma AfterDeletionOfB(s: State)
    requires s == Start().(instances := {Key(A)}, second := true, stop := Open, trace := [Applied(Key(A))])
    ensures var t := Next(s, ReconcileStep(B, CalmScript(true)));
            && !t.crashed && t.instances == {Key(A)} && !t.second && t.stop.Closed?
            && A in t.api.live && t.api.Stored(A) == KfDef(A, {FINALIZER}, false, "")
  {
    assert Key(B)[0] != Key(A)[0];
    var inst := Instance(s.api.Stored(B), 1);
    RemovalLosesNoUpdate(s.api, inst, CalmAttempt);
    CalmInterference(0, RemoveFinalizer(s.api, inst, CalmAttempt).updates - 1);
  }

  lemma {:induction false} CalmInterference(first: nat, last: nat)
    requires first <= last
    ensures Interference(CalmAttempt, first, last) == []
    decreases last - first
  {
    if first < last {
      CalmInterference(first + 1, last);
    }
  }

  lemma AfterRequestForA(t: State)
    requires t.api.Valid() && !t.crashed && t.instances == {Key(A)} && !t.second && t.stop.Closed?
    requires A in t.api.live && t.api.Stored(A) == KfDef(A, {FINALIZER}, false, "")
    ensures Next(Next(t, EnvStep([Remove(A)])), ReconcileStep(A, CalmScript(true))).crashed
  {
    assert t.api.ActAll([Remove(A)]) == t.api.Delete(A).0;
  }

  /** A is applied, the unregistered B is deleted, then A is to be deleted. No API or directory call
      fails, yet after the second step A is registered with the second controller off, and the last
      step panics. */
  lemma RegistrationIsNeeded()
    ensures var s1 := Next(Start(), ReconcileStep(A, CalmScript(true)));
            var s2 := Next(s1, ReconcileStep(B, CalmScript(true)));
            && Initial(Start())
            && s2.instances != {} && !s2.second && !s2.crashed
            && Next(Next(s2, EnvStep([Remove(A)])), ReconcileStep(A, CalmScript(true))).crashed
  {
    AfterApplyOfA();
    var s1 := Next(Start(), ReconcileStep(A, CalmScript(true)));
    AfterDeletionOfB(s1);
    AfterRequestForA(Next(s1, ReconcileStep(B, CalmScript(true))));
  }
}
