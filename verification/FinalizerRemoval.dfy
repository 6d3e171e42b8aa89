/** Removing the KfDef finalizer under optimistic concurrency
    (pkg/controller/kfdef/kfdef_controller.go:348-365). */
module FinalizerRemoval {
  import opened ApiServer

  const FINALIZER := "kfdef-finalizer.kfdef.apps.kubeflow.org"
  const FINALIZER_MAX_RETRIES: nat := 10

  /** What happens around one Update attempt: other clients write, the object is re-read (retries
      only), other clients write again, and the Update meets its fate. */
  datatype Attempt = Attempt(beforeRead: seq<EnvAction>, read: ReadFate, beforeUpdate: seq<EnvAction>, fate: CallFate)

  /** `before` is the API server just ahead of the last Update, `after` just behind it. */
  datatype Result = Result(before: Api, after: Api, error: Error, updates: nat)

  function Withdraw(inst: Instance): Instance {
    inst.(obj := inst.obj.(finalizers := inst.obj.finalizers - {FINALIZER}))
  }

  /** The instance after `_ = Get(...)`: a failed read leaves it as it was. */
  function Reread(api: Api, inst: Instance, fate: ReadFate): Instance
    requires api.Valid()
  {
    match api.Read(inst.obj.id, fate)
    case Found(current) => current
    case _ => inst
  }

  /** One Update attempt and whatever follows it. */
  function Retry(api: Api, inst: Instance, script: nat -> Attempt, tries: nat): (r: Result)
    requires api.Valid() && tries <= FINALIZER_MAX_RETRIES
    ensures r.before.Valid() && r.after.Valid()
    decreases FINALIZER_MAX_RETRIES - tries, 1
  {
    var before := api.ActAll(script(tries).beforeUpdate);
    var (after, error) := before.SendUpdate(inst, script(tries).fate);
    Continue(before, after, error, inst, script, tries)
  }

  /** Retries on a conflict while retries are left; any other answer ends the loop. */
  function Continue(before: Api, after: Api, error: Error, inst: Instance, script: nat -> Attempt,
                    tries: nat): (r: Result)
    requires before.Valid() && after.Valid() && tries <= FINALIZER_MAX_RETRIES
    ensures r.before.Valid() && r.after.Valid()
    decreases FINALIZER_MAX_RETRIES - tries, 0
  {
    if error.Conflict? && tries < FINALIZER_MAX_RETRIES then
      var between := after.ActAll(script(tries + 1).beforeRead);
      Retry(between, Withdraw(Reread(between, inst, script(tries + 1).read)), script, tries + 1)
    else
      Result(before, after, error, tries + 1)
  }

  /** The loop as a whole: the first attempt uses the instance that Reconcile read. */
  function RemoveFinalizer(api: Api, inst: Instance, script: nat -> Attempt): (r: Result)
    requires api.Valid()
    ensures r.before.Valid() && r.after.Valid()
  {
    Retry(api, Withdraw(inst), script, 0)
  }

  /** Everything other clients wrote up to the Update of attempt `last`, from attempt `first` on. */
  function Interference(script: nat -> Attempt, first: nat, last: nat): seq<EnvAction>
    requires first <= last
    decreases last - first
  {
    if first == last then script(first).beforeUpdate
    else script(first).beforeUpdate + script(first + 1).beforeRead + Interference(script, first + 1, last)
  }

  /** `after` is `before` with one more write: the stored object without the KfDef finalizer. */
  ghost predicate Removed(before: Api, after: Api, n: NamespacedName)
    requires before.Valid()
  {
    && n in before.live
    && var was := before.Stored(n);
       after == before.Write(was.(finalizers := was.finalizers - {FINALIZER}))
  }

  /** `inst` is some version of an object that the API server once stored. */
  ghost predicate IsVersion(api: Api, inst: Instance) {
    inst.version < |api.log| && api.log[inst.version] == inst.obj
  }

  /** `inst` is such a version after Withdraw. */
  ghost predicate IsWithdrawn(api: Api, inst: Instance) {
    inst.version < |api.log| && inst == Withdraw(Instance(api.log[inst.version], inst.version))
  }

  lemma UpdateOfWithdrawn(api: Api, inst: Instance, fate: CallFate)
    requires api.Valid() && IsWithdrawn(api, inst)
    ensures var (after, error) := api.SendUpdate(inst, fate);
            && (after == api || Removed(api, after, inst.obj.id))
            && (error.NoError? ==> Removed(api, after, inst.obj.id))
            && (error.Conflict? ==> after == api)
  {
  }

  /** The promise about a run of the loop from attempt `tries` on, for the object named `n`. */
  ghost predicate LosesNothing(api: Api, n: NamespacedName, script: nat -> Attempt, tries: nat, r: Result)
    requires api.Valid()
  {
    && r.before.Valid()
    && tries < r.updates <= 1 + FINALIZER_MAX_RETRIES
    && r.before == api.ActAll(Interference(script, tries, r.updates - 1))
    && (r.after == r.before || Removed(r.before, r.after, n))
    && (r.error.NoError? ==> Removed(r.before, r.after, n))
    && (r.error.Conflict? ==> r.updates == 1 + FINALIZER_MAX_RETRIES)
  }

  lemma InterferenceStep(api: Api, script: nat -> Attempt, tries: nat, last: nat)
    requires api.Valid() && tries < last
    ensures api.ActAll(script(tries).beforeUpdate).ActAll(script(tries + 1).beforeRead)
              .ActAll(Interference(script, tries + 1, last))
         == api.ActAll(Interference(script, tries, last))
  {
    var a, b := script(tries).beforeUpdate, script(tries + 1).beforeRead;
    ActAllConcat(api, a, b);
    ActAllConcat(api, a + b, Interference(script, tries + 1, last));
  }

  lemma LosesNothingEarlier(api: Api, n: NamespacedName, script: nat -> Attempt, tries: nat, between: Api, r: Result)
    requires api.Valid() && between.Valid()
    requires between == api.ActAll(script(tries).beforeUpdate).ActAll(script(tries + 1).beforeRead)
    requires LosesNothing(between, n, script, tries + 1, r)
    ensures LosesNothing(api, n, script, tries, r)
  {
    hide Interference, Removed;
    InterferenceStep(api, script, tries, r.updates - 1);
  }

  lemma LosesNothingNow(api: Api, inst: Instance, script: nat -> Attempt, tries: nat, before: Api)
    requires api.Valid() && before.Valid() && tries <= FINALIZER_MAX_RETRIES
    requires before == api.ActAll(script(tries).beforeUpdate) && IsWithdrawn(before, inst)
    ensures var (after, error) := before.SendUpdate(inst, script(tries).fate);
            (error.Conflict? ==> after == before) &&
            (!error.Conflict? || tries == FINALIZER_MAX_RETRIES ==>
               LosesNothing(api, inst.obj.id, script, tries, Result(before, after, error, tries + 1)))
  {
    UpdateOfWithdrawn(before, inst, script(tries).fate);
  }

  lemma NextIsWithdrawn(between: Api, inst: Instance, fate: ReadFate)
    requires between.Valid() && IsWithdrawn(between, inst)
    ensures var next := Withdraw(Reread(between, inst, fate));
            IsWithdrawn(between, next) && next.obj.id == inst.obj.id
  {
  }

  lemma {:induction false} RetryLosesNothing(api: Api, inst: Instance, script: nat -> Attempt, tries: nat)
    requires api.Valid() && tries <= FINALIZER_MAX_RETRIES && IsWithdrawn(api, inst)
    ensures LosesNothing(api, inst.obj.id, script, tries, Retry(api, inst, script, tries))
    decreases FINALIZER_MAX_RETRIES - tries
  {
    var before := api.ActAll(script(tries).beforeUpdate);
    ActAllExtends(api, script(tries).beforeUpdate);
    LosesNothingNow(api, inst, script, tries, before);
    var (after, error) := before.SendUpdate(inst, script(tries).fate);
    if error.Conflict? && tries < FINALIZER_MAX_RETRIES {
      var between := before.ActAll(script(tries + 1).beforeRead);
      ActAllExtends(before, script(tries + 1).beforeRead);
      NextIsWithdrawn(between, inst, script(tries + 1).read);
      var next := Withdraw(Reread(between, inst, script(tries + 1).read));
      RetryLosesNothing(between, next, script, tries + 1);
      LosesNothingEarlier(api, inst.obj.id, script, tries, between, Retry(between, next, script, tries + 1));
    }
  }

  /** Finalizer removal loses no concurrent update, whatever other clients write in between and
      however stale or failed the re-reads are. The only effect of the whole loop on top of the other
      clients' writes, all of which are kept in order, is at most one write, and that write is the
      then stored object minus the KfDef finalizer. It takes at most 1 + FINALIZER_MAX_RETRIES
      Updates, gives up on a conflict only after all of them, and reports success only for an
      accepted Update. */
  lemma RemovalLosesNoUpdate(api: Api, inst: Instance, script: nat -> Attempt)
    requires api.Valid() && IsVersion(api, inst)
    ensures LosesNothing(api, inst.obj.id, script, 0, RemoveFinalizer(api, inst, script))
    ensures 1 <= RemoveFinalizer(api, inst, script).updates <= 11
  {
    RetryLosesNothing(api, Withdraw(inst), script, 0);
  }

  /** Up to attempt `last`, all Updates are delivered and find the object there. */
  ghost predicate Reaches(api: Api, n: NamespacedName, script: nat -> Attempt, first: nat, last: nat)
    requires api.Valid()
  {
    forall i | first <= i <= last ::
      script(i).fate.Delivered? && n in api.ActAll(Interference(script, first, i)).live
  }

  lemma ReachesLater(api: Api, n: NamespacedName, script: nat -> Attempt, tries: nat, last: nat, between: Api)
    requires api.Valid() && between.Valid() && tries < last && Reaches(api, n, script, tries, last)
    requires between == api.ActAll(script(tries).beforeUpdate).ActAll(script(tries + 1).beforeRead)
    ensures Reaches(between, n, script, tries + 1, last)
  {
    hide Interference;
    forall i | tries + 1 <= i <= last
      ensures script(i).fate.Delivered? && n in between.ActAll(Interference(script, tries + 1, i)).live
    {
      InterferenceStep(api, script, tries, i);
    }
  }

  /** An Update that is delivered and finds the object ends the loop if the instance is current; otherwise
      the next attempt starts from the same state. */
  lemma DeliveredAttempt(api: Api, inst: Instance, script: nat -> Attempt, tries: nat)
    requires api.Valid() && tries <= FINALIZER_MAX_RETRIES && script(tries).fate.Delivered?
    requires inst.obj.id in api.ActAll(script(tries).beforeUpdate).live
    ensures var before := api.ActAll(script(tries).beforeUpdate);
            var r := Retry(api, inst, script, tries);
            if inst.version == before.live[inst.obj.id] then r.error.NoError?
            else tries < FINALIZER_MAX_RETRIES ==>
                   var between := before.ActAll(script(tries + 1).beforeRead);
                   r == Retry(between, Withdraw(Reread(between, inst, script(tries + 1).read)), script, tries + 1)
  {
    hide Withdraw, Reread;
  }

  /** Rereading keeps to the object, and a fresh reread gives its current version. */
  lemma RereadMeans(api: Api, inst: Instance, fate: ReadFate)
    requires api.Valid()
    ensures var next := Withdraw(Reread(api, inst, fate));
            && next.obj.id == inst.obj.id
            && (fate.Fresh? && inst.obj.id in api.live ==> next.version == api.live[inst.obj.id])
  {
  }

  /** The loop succeeds as soon as one attempt has nobody interfering: as long as Updates are delivered and
      find the object, an attempt with a current instance and no write ahead of its Update is enough,
      whatever happened in the attempts before and whatever would come later. */
  lemma {:induction false} QuietAttemptSucceeds(api: Api, inst: Instance, script: nat -> Attempt, tries: nat,
                                                quiet: nat)
    requires api.Valid() && tries <= quiet <= FINALIZER_MAX_RETRIES
    requires Reaches(api, inst.obj.id, script, tries, quiet) && script(quiet).beforeUpdate == []
    requires if quiet == tries then inst.obj.id in api.live ==> inst.version == api.live[inst.obj.id]
             else script(quiet).read.Fresh?
    ensures Retry(api, inst, script, tries).error.NoError?
    decreases quiet - tries
  {
    hide *;
    ReachesNow(api, inst.obj.id, script, tries, quiet);
    DeliveredAttempt(api, inst, script, tries);
    var before := api.ActAll(script(tries).beforeUpdate);
    if quiet == tries {
      NothingHappens(api);
    } else if inst.version != before.live[inst.obj.id] {
      var between := before.ActAll(script(tries + 1).beforeRead);
      var next := Withdraw(Reread(between, inst, script(tries + 1).read));
      RereadMeans(between, inst, script(tries + 1).read);
      ReachesLater(api, inst.obj.id, script, tries, quiet, between);
      QuietAttemptSucceeds(between, next, script, tries + 1, quiet);
    }
  }

  lemma NothingHappens(api: Api)
    requires api.Valid()
    ensures api.ActAll([]) == api
  {
  }

  lemma ReachesNow(api: Api, n: NamespacedName, script: nat -> Attempt, tries: nat, last: nat)
    requires api.Valid() && tries <= last && Reaches(api, n, script, tries, last)
    ensures script(tries).fate.Delivered? && n in api.ActAll(script(tries).beforeUpdate).live
  {
    assert n in api.ActAll(Interference(script, tries, tries)).live;
  }

  /** So the loop fails to remove the finalizer only if an Update or the object is lost, or if at every
      retry somebody writes or the re-read is not fresh. */
  lemma RemovalSucceeds(api: Api, inst: Instance, script: nat -> Attempt, quiet: nat)
    requires api.Valid() && IsVersion(api, inst) && 0 < quiet <= FINALIZER_MAX_RETRIES
    requires Reaches(api, inst.obj.id, script, 0, quiet)
    requires script(quiet).read.Fresh? && script(quiet).beforeUpdate == []
    ensures var r := RemoveFinalizer(api, inst, script);
            r.error.NoError? && Removed(r.before, r.after, inst.obj.id)
  {
    hide Reaches;
    RemovalLosesNoUpdate(api, inst, script);
    QuietAttemptSucceeds(api, Withdraw(inst), script, 0, quiet);
  }

  /** What Removed means for a reader of the API server: the object's finalizer set has lost exactly
      the KfDef finalizer, its other fields are the same, no other object has moved, and an object
      being deleted is gone if and only if no finalizer of anybody else is left. */
  lemma RemovedMeans(before: Api, after: Api, n: NamespacedName)
    requires before.Valid() && Removed(before, after, n)
    ensures after.Valid()
    ensures forall m | m != n :: m in after.live <==> m in before.live
    ensures forall m | m != n && m in before.live :: after.Stored(m) == before.Stored(m)
    ensures var was := before.Stored(n);
            && (n !in after.live <==> was.deleting && was.finalizers <= {FINALIZER})
            && (n in after.live ==>
                  && after.Stored(n).finalizers == was.finalizers - {FINALIZER}
                  && after.Stored(n).content == was.content
                  && after.Stored(n).deleting == was.deleting)
  {
  }
}
