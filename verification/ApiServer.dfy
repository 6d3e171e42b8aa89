/** The Kubernetes API server as the KfDef controller sees it: versioned objects, optimistic
    concurrency, finalizers, and a caching client whose reads may be stale or fail. */
module ApiServer {

  datatype NamespacedName = NamespacedName(name: string, namespace: string)

  /** A KfDef object. `content` stands for every field other than the identity, the finalizer set
      and whether a deletion timestamp is set. */
  datatype KfDef = KfDef(id: NamespacedName, finalizers: set<string>, deleting: bool, content: string)

  /** An object as a client holds it, with the resourceVersion it was read at. */
  datatype Instance = Instance(obj: KfDef, version: nat)

  datatype Error = NoError | NotFound | Conflict | Other

  /** How a read is answered. `Stale(v)` is any version the cache may still hold. */
  datatype ReadFate = Fresh | Stale(version: nat) | Missing | Failing

  datatype ReadResult = Found(inst: Instance) | Absent | ReadError

  /** How a write is answered: processed, lost on the way, or processed with the reply lost. */
  datatype CallFate = Delivered | Dropped | ReplyLost

  /** A write by some other client. */
  datatype EnvAction =
    | Create(obj: KfDef)
    | Modify(id: NamespacedName, finalizers: set<string>, content: string)
    | Remove(id: NamespacedName)

  /** Every version ever written, in order; the resourceVersion of a live object is its place in the log. */
  datatype Api = Api(log: seq<KfDef>, live: map<NamespacedName, nat>) {

    predicate Valid() {
      forall n | n in live :: live[n] < |log| && log[live[n]].id == n
    }

    function Stored(n: NamespacedName): KfDef
      requires Valid() && n in live
    {
      log[live[n]]
    }

    /** Stores a new version; an object being deleted disappears with its last finalizer. */
    function Write(obj: KfDef): (a: Api)
      requires Valid()
      ensures a.Valid()
    {
      Api(log + [obj],
          if obj.deleting && obj.finalizers == {} then live - {obj.id} else live[obj.id := |log|])
    }

    function Update(inst: Instance): (r: (Api, Error))
      requires Valid()
      ensures r.0.Valid()
    {
      var n := inst.obj.id;
      if n !in live then (this, NotFound)
      else if live[n] != inst.version then (this, Conflict)
      else (Write(inst.obj.(deleting := Stored(n).deleting)), NoError)
    }

    function Delete(n: NamespacedName): (r: (Api, Error))
      requires Valid()
      ensures r.0.Valid()
    {
      if n !in live then (this, NotFound)
      else if Stored(n).deleting then (this, NoError)
      else (Write(Stored(n).(deleting := true)), NoError)
    }

    function Read(n: NamespacedName, fate: ReadFate): ReadResult
      requires Valid()
    {
      match fate
      case Fresh => if n in live then Found(Instance(Stored(n), live[n])) else Absent
      case Stale(v) => if v < |log| && log[v].id == n then Found(Instance(log[v], v)) else Absent
      case Missing => Absent
      case Failing => ReadError
    }

    function SendUpdate(inst: Instance, fate: CallFate): (r: (Api, Error))
      requires Valid()
      ensures r.0.Valid()
    {
      match fate
      case Delivered => Update(inst)
      case Dropped => (this, Other)
      case ReplyLost => (Update(inst).0, Other)
    }

    function SendDelete(n: NamespacedName, fate: CallFate): (r: (Api, Error))
      requires Valid()
      ensures r.0.Valid()
    {
      match fate
      case Delivered => Delete(n)
      case Dropped => (this, Other)
      case ReplyLost => (Delete(n).0, Other)
    }

    function Act(act: EnvAction): (a: Api)
      requires Valid()
      ensures a.Valid()
    {
      match act
      case Create(obj) => if obj.id in live then this else Write(obj.(deleting := false))
      case Modify(n, finalizers, content) =>
        if n !in live then this else Write(Stored(n).(finalizers := finalizers, content := content))
      case Remove(n) => Delete(n).0
    }

    function ActAll(acts: seq<EnvAction>): (a: Api)
      requires Valid()
      ensures a.Valid()
      decreases |acts|
    {
      if acts == [] then this else Act(acts[0]).ActAll(acts[1..])
    }
  }

  lemma {:induction false} ActAllConcat(api: Api, a: seq<EnvAction>, b: seq<EnvAction>)
    requires api.Valid()
    ensures api.ActAll(a + b) == api.ActAll(a).ActAll(b)
    decreases |a|
  {
    if a == [] {
      assert a + b == b;
    } else {
      assert (a + b)[1..] == a[1..] + b;
      ActAllConcat(api.Act(a[0]), a[1..], b);
    }
  }

  /** The log only grows: a version, once written, never changes. */
  lemma {:induction false} ActAllExtends(api: Api, acts: seq<EnvAction>)
    requires api.Valid()
    ensures api.log <= api.ActAll(acts).log
    decreases |acts|
  {
    if acts != [] {
      ActAllExtends(api.Act(acts[0]), acts[1..]);
    }
  }
}
