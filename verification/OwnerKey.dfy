/** The `name.namespace` key that ties a resource to its KfDef: how it is written on resources, read
    back from watch events, and used to register instances. */
module OwnerKey {
  import opened Strings
  import opened ApiServer
  import opened Wrappers

  const ANNOTATION := "kfctl.kubeflow.io/kfdef-instance"

  function Key(n: NamespacedName): string {
    n.name + ['.'] + n.namespace
  }

  predicate DotFree(n: NamespacedName) {
    '.' !in n.name && '.' !in n.namespace
  }

  /** The key splits back into exactly the pair if and only if neither part contains a dot. */
  lemma SplitOfKey(n: NamespacedName)
    ensures Split(Key(n), '.') == [n.name, n.namespace] <==> DotFree(n)
  {
    if DotFree(n) {
      SplitConcat(n.name, '.', n.namespace);
      SplitWhole(n.name, '.');
      SplitWhole(n.namespace, '.');
    }
    SplitPartsAreFree(Key(n), '.');
    if Split(Key(n), '.') == [n.name, n.namespace] {
      assert n.name in Split(Key(n), '.') && n.namespace in Split(Key(n), '.');
    }
  }

  /** The check that the uninstall loop makes, two parts, accepts exactly the dot-free KfDefs. */
  lemma KeyHasTwoPartsIff(n: NamespacedName)
    ensures |Split(Key(n), '.')| == 2 <==> DotFree(n)
  {
    SplitOfKey(n);
    SplitConcat(n.name, '.', n.namespace);
    OnePart(n.name);
    OnePart(n.namespace);
  }

  lemma {:induction false} OnePart(s: string)
    ensures |Split(s, '.')| == 1 ==> '.' !in s
  {
    if s != "" {
      OnePart(s[1..]);
      assert s == [s[0]] + s[1..];
    }
  }

  /** A namespace is a DNS label and has no dot. Among such KfDefs the key is injective, whatever dots
      their names contain: the last dot is the one between name and namespace. */
  lemma KeyIsInjective(a: NamespacedName, b: NamespacedName)
    requires '.' !in a.namespace && '.' !in b.namespace && Key(a) == Key(b)
    ensures a == b
  {
    LastDot(a);
    LastDot(b);
    KeyParts(a);
    KeyParts(b);
    hide Key;
    assert |a.name| == |b.name|;
  }

  lemma LastDot(n: NamespacedName)
    requires '.' !in n.namespace
    ensures |n.name| < |Key(n)| && Key(n)[|n.name|] == '.'
    ensures forall i | |n.name| < i < |Key(n)| :: Key(n)[i] != '.'
  {
    assert forall i | |n.name| < i < |Key(n)| :: Key(n)[i] in n.namespace;
  }

  lemma KeyParts(n: NamespacedName)
    ensures Key(n)[..|n.name|] == n.name && Key(n)[|n.name| + 1..] == n.namespace
  {
  }

  /** The key alone identifies a pair if and only if that pair is dot-free. */
  lemma KeyIdentifiesIff(n: NamespacedName)
    ensures (forall m | Key(m) == Key(n) :: m == n) <==> DotFree(n)
  {
    if DotFree(n) {
      forall m | Key(m) == Key(n) ensures m == n {
        OnlyDot(n, |m.name|);
        assert Key(m)[..|m.name|] == m.name && Key(n)[..|n.name|] == n.name;
        assert Key(m)[|m.name| + 1..] == m.namespace && Key(n)[|n.name| + 1..] == n.namespace;
      }
    } else if '.' in n.name {
      var i :| 0 <= i < |n.name| && n.name[i] == '.';
      var m := NamespacedName(n.name[..i], n.name[i + 1..] + ['.'] + n.namespace);
      assert Key(m) == Key(n) && |m.name| < |n.name|;
    } else {
      var i :| 0 <= i < |n.namespace| && n.namespace[i] == '.';
      var m := NamespacedName(n.name + ['.'] + n.namespace[..i], n.namespace[i + 1..]);
      assert Key(m) == Key(n) && |m.name| > |n.name|;
    }
  }

  lemma OnlyDot(n: NamespacedName, i: nat)
    requires DotFree(n) && i < |Key(n)| && Key(n)[i] == '.'
    ensures i == |n.name|
  {
    assert forall j | 0 <= j < |n.name| :: Key(n)[j] in n.name;
    assert forall j | |n.name| < j < |Key(n)| :: Key(n)[j] in n.namespace;
  }

  // ----- watch events of owned resources -----

  /** `OutOfRange` is the index panic on an annotation without a dot. */
  datatype Mapped = Requests(requests: seq<NamespacedName>) | OutOfRange

  function ParseOwner(key: string): Option<NamespacedName> {
    var parts := Split(key, '.');
    if |parts| < 2 then None else Some(NamespacedName(parts[0], parts[1]))
  }

  /** Reading a key back gives its pair if and only if that is dot-free, and some pair in any case. */
  lemma ParseOwnerIff(n: NamespacedName)
    ensures ParseOwner(Key(n)).Some?
    ensures ParseOwner(Key(n)) == Some(n) <==> DotFree(n)
  {
    SplitOfKey(n);
    SplitConcat(n.name, '.', n.namespace);
    SplitPartsAreFree(Key(n), '.');
    var parts := Split(Key(n), '.');
    assert parts[0] in parts && parts[1] in parts;
  }

  /** The map function of watchKubeflowResources. `read` answers its Get of the owner, and `picked` is
      the registered key that Go's map iteration happens to deliver first. */
  function MapOwned(annotations: map<string, string>, kind: string, deleteLabel: Option<string>,
                    instances: set<string>, picked: string, read: ReadResult): Mapped
  {
    if ANNOTATION in annotations then
      match ParseOwner(annotations[ANNOTATION])
      case None => OutOfRange
      case Some(owner) =>
        match read
        case Absent => Requests([])
        case Found(inst) => Requests(if inst.obj.deleting then [] else [owner])
        case ReadError => Requests([owner])
    else if kind == "ConfigMap" && deleteLabel == Some("true") && instances != {} then
      match ParseOwner(picked)
      case None => OutOfRange
      case Some(owner) => Requests([owner])
    else
      Requests([])
  }

  /** An event on a resource that carries the key of a KfDef enqueues nothing if the owner it reads is
      gone or being deleted. Otherwise it enqueues exactly one KfDef, which is the owner if and only if
      the owner is dot-free; likewise for the deletion ConfigMap and a registered key. */
  lemma EventsReachTheirOwnerIff(annotations: map<string, string>, kind: string, deleteLabel: Option<string>,
                                 instances: set<string>, picked: string, read: ReadResult, owner: NamespacedName)
    ensures ANNOTATION in annotations && annotations[ANNOTATION] == Key(owner) ==>
              var mapped := MapOwned(annotations, kind, deleteLabel, instances, picked, read);
              if read.Absent? || (read.Found? && read.inst.obj.deleting) then mapped == Requests([])
              else && mapped.Requests? && |mapped.requests| == 1
                   && (mapped == Requests([owner]) <==> DotFree(owner))
    ensures ANNOTATION !in annotations && kind == "ConfigMap" && deleteLabel == Some("true")
            && picked in instances && picked == Key(owner) ==>
              var mapped := MapOwned(annotations, kind, deleteLabel, instances, picked, read);
              && mapped.Requests? && |mapped.requests| == 1
              && (mapped == Requests([owner]) <==> DotFree(owner))
  {
    ParseOwnerIff(owner);
    hide Split;
  }

  /** An event on any other resource enqueues nothing, unless it is the deletion ConfigMap and some KfDef is
      registered; an annotation without a dot is an index out of range, and so is a key without one. */
  lemma OtherEventsEnqueueNothing(annotations: map<string, string>, kind: string, deleteLabel: Option<string>,
                                  instances: set<string>, picked: string, read: ReadResult)
    ensures var mapped := MapOwned(annotations, kind, deleteLabel, instances, picked, read);
            && (ANNOTATION !in annotations && (kind != "ConfigMap" || deleteLabel != Some("true") || instances == {})
                ==> mapped == Requests([]))
            && (ANNOTATION in annotations ==> (mapped.OutOfRange? <==> '.' !in annotations[ANNOTATION]))
            && (ANNOTATION !in annotations && kind == "ConfigMap" && deleteLabel == Some("true") && instances != {}
                ==> (mapped.OutOfRange? <==> '.' !in picked))
  {
    if ANNOTATION in annotations {
      ParsesIff(annotations[ANNOTATION]);
    }
    ParsesIff(picked);
    hide ParseOwner;
  }

  lemma ParsesIff(key: string)
    ensures ParseOwner(key).Some? <==> '.' in key
  {
    if '.' in key {
      var i :| 0 <= i < |key| && key[i] == '.';
      assert key == key[..i] + ['.'] + key[i + 1..];
      SplitConcat(key[..i], '.', key[i + 1..]);
    } else {
      SplitWhole(key, '.');
    }
    hide Split;
  }

  /** Events of the KfDef "a.b" in namespace "ns", a legal name, enqueue the KfDef "a" in namespace "b". */
  lemma DottedNameMisdirects(kind: string, deleteLabel: Option<string>, instances: set<string>, picked: string)
    ensures MapOwned(map[ANNOTATION := Key(NamespacedName("a.b", "ns"))], kind, deleteLabel, instances, picked,
                     ReadError)
         == Requests([NamespacedName("a", "b")])
  {
    var key := Key(NamespacedName("a.b", "ns"));
    assert key == "a" + ['.'] + ("b" + ['.'] + "ns");
    SplitConcat("a", '.', "b" + ['.'] + "ns");
    SplitConcat("b", '.', "ns");
    SplitWhole("a", '.');
    SplitWhole("b", '.');
    hide Split;
  }

  // ----- watch events of KfDefs -----

  /** The map function of the primary watch: it adds the finalizer on the first sight of an object.
      The finalizer list it writes is the event's, while the object it writes is a re-read one. */
  function MapKfDef(api: Api, event: KfDef, read: ReadFate, between: seq<EnvAction>, fate: CallFate, finalizer: string)
    : (r: (Api, Error, seq<NamespacedName>))
    requires api.Valid()
    ensures r.0.Valid()
  {
    if finalizer in event.finalizers then (api, NoError, [event.id])
    else
      match api.Read(event.id, read)
      case Found(inst) =>
        var (after, error) := api.ActAll(between)
                                 .SendUpdate(inst.(obj := inst.obj.(finalizers := event.finalizers + {finalizer})), fate);
        (after, error, [])
      case _ => (api, Other, [])
  }

  /** Adding the finalizer, unlike removing it, can lose a concurrent update: an accepted write keeps
      every finalizer of the stored object if and only if the event had seen them all. */
  lemma AddingKeepsFinalizersIff(api: Api, event: KfDef, read: ReadFate, between: seq<EnvAction>, fate: CallFate,
                                 finalizer: string)
    requires api.Valid() && finalizer !in event.finalizers
    ensures var before := api.ActAll(between);
            var (after, error, _) := MapKfDef(api, event, read, between, fate, finalizer);
            error.NoError? ==>
              && event.id in before.live && event.id in after.live
              && var was, now := before.Stored(event.id), after.Stored(event.id);
                 && now == was.(finalizers := now.finalizers)
                 && finalizer in now.finalizers
                 && (was.finalizers <= now.finalizers <==> was.finalizers <= event.finalizers + {finalizer})
  {
    ActAllExtends(api, between);
  }

  /** The primary watch enqueues the KfDef of an event if and only if the event shows the finalizer, and then
      leaves the API server alone; otherwise it attempts one Update, provided that it can read the object. */
  lemma WatchEnqueuesIff(api: Api, event: KfDef, read: ReadFate, between: seq<EnvAction>, fate: CallFate,
                         finalizer: string)
    requires api.Valid()
    ensures var (after, error, requests) := MapKfDef(api, event, read, between, fate, finalizer);
            && (if finalizer in event.finalizers then requests == [event.id] && after == api else requests == [])
            && (finalizer !in event.finalizers && !api.Read(event.id, read).Found? ==> after == api)
  {
  }

  lemma AddingCanLoseAFinalizer()
    ensures exists api: Api, event: KfDef ::
              && api.Valid() && event.id in api.live && "f" !in event.finalizers
              && var (after, error, _) := MapKfDef(api, event, Fresh, [], Delivered, "f");
                 error.NoError? && event.id in after.live
                 && !(api.Stored(event.id).finalizers <= after.Stored(event.id).finalizers)
  {
    var n := NamespacedName("kf", "ns");
    var stale, stored := KfDef(n, {}, false, ""), KfDef(n, {"other"}, false, "");
    var api := Api([stale, stored], map[n := 1]);
    assert api.ActAll([]) == api;
    var after := MapKfDef(api, stale, Fresh, [], Delivered, "f").0;
    assert after.Stored(n) == stored.(finalizers := {"f"});
    assert "other" in stored.finalizers && "other" !in after.Stored(n).finalizers;
  }
}
