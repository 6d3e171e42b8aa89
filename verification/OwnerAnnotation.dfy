/** Writing the owner key on the resources of a KfDef (GenerateYamlWithOperatorAnnotation,
    pkg/kfapp/kustomize/kustomize.go:1392-1464). */
module OwnerAnnotation {
  import opened ApiServer
  import opened OwnerKey
  import opened Wrappers

  /** `existing` says whether the cluster already has a namespace of this name. */
  datatype Resource = Resource(kind: string, name: string, existing: bool, annotations: map<string, string>)

  predicate Carries(r: Resource, key: string) {
    ANNOTATION in r.annotations && r.annotations[ANNOTATION] == key
  }

  /** Resources that must not be tied to the KfDef: foreign namespaces and the profiles CRD. */
  predicate Withheld(r: Resource, key: string) {
    if r.kind == "Namespace" then r.existing && !Carries(r, key)
    else r.kind == "CustomResourceDefinition" && r.name == "profiles.kubeflow.org"
  }

  function Annotate(r: Resource, key: string): Resource {
    r.(annotations := r.annotations[ANNOTATION := key])
  }

  predicate WithheldUpTo(rs: seq<Resource>, key: string, i: nat)
    requires i < |rs|
  {
    exists j | 0 <= j <= i :: Withheld(rs[j], key)
  }

  /** The flag that stops the annotation is never set back: from the first withheld resource on,
      nothing is annotated any more. */
  method AnnotateResources(rs: seq<Resource>, owner: NamespacedName) returns (out: seq<Resource>)
    ensures |out| == |rs|
    ensures forall i | 0 <= i < |rs| ::
              out[i] == if WithheldUpTo(rs, Key(owner), i) then rs[i] else Annotate(rs[i], Key(owner))
  {
    var addAnnotation := true;
    var kfdefCr := Key(owner);
    out := [];
    for i := 0 to |rs|
      invariant |out| == i
      invariant addAnnotation <==> forall j | 0 <= j < i :: !Withheld(rs[j], kfdefCr)
      invariant forall j | 0 <= j < i ::
                  out[j] == if WithheldUpTo(rs, kfdefCr, j) then rs[j] else Annotate(rs[j], kfdefCr)
    {
      var m := rs[i];
      if m.kind == "Namespace" {
        if m.existing && !Carries(m, kfdefCr) {
          addAnnotation := false;
        }
      } else if m.kind == "CustomResourceDefinition" && m.name == "profiles.kubeflow.org" {
        addAnnotation := false;
      }
      if addAnnotation {
        m := Annotate(m, kfdefCr);
      }
      out := out + [m];
    }
  }

  /** A resource that is not itself withheld ends up carrying the key if and only if it did before or
      no withheld resource stands ahead of it; so a foreign namespace or the profiles CRD cuts the
      rest of the manifests off from their KfDef. */
  lemma CarriesIff(rs: seq<Resource>, key: string, i: nat)
    requires i < |rs| && !Withheld(rs[i], key)
    ensures var out := if WithheldUpTo(rs, key, i) then rs[i] else Annotate(rs[i], key);
            Carries(out, key) <==> Carries(rs[i], key) || forall j | 0 <= j < i :: !Withheld(rs[j], key)
  {
  }

  lemma NamespaceCutsOffTheRest()
    ensures exists rs: seq<Resource>, key: string ::
              && |rs| == 2 && !Withheld(rs[1], key) && rs[1].kind == "Deployment"
              && WithheldUpTo(rs, key, 1) && !Carries(rs[1], key)
  {
    var rs := [Resource("Namespace", "shared", true, map[]), Resource("Deployment", "d", false, map[])];
    assert Withheld(rs[0], "kf.ns");
    assert WithheldUpTo(rs, "kf.ns", 1);
  }

  /** Annotating sets the owner key and changes nothing else. */
  lemma AnnotatingKeepsTheRest(r: Resource, key: string)
    ensures var after := Annotate(r, key);
            && Carries(after, key) && after == r.(annotations := after.annotations)
            && after.annotations.Keys == r.annotations.Keys + {ANNOTATION}
            && forall k | k in r.annotations && k != ANNOTATION :: after.annotations[k] == r.annotations[k]
  {
  }

  /** What is withheld: an existing namespace that does not carry the key, and the profiles CRD. */
  lemma WithheldIff(r: Resource, key: string)
    ensures Withheld(r, key)
            <==> || (r.kind == "Namespace" && r.existing
                     && (ANNOTATION in r.annotations ==> r.annotations[ANNOTATION] != key))
                 || (r.kind == "CustomResourceDefinition" && r.name == "profiles.kubeflow.org")
  {
  }

  /** Round trip: a watch event on a resource that was annotated for a KfDef comes back to that KfDef if
      and only if it is dot-free. */
  lemma AnnotatedEventsReturnIff(r: Resource, owner: NamespacedName, instances: set<string>, picked: string,
                                 read: ReadResult)
    requires read.ReadError? || (read.Found? && !read.inst.obj.deleting)
    ensures MapOwned(Annotate(r, Key(owner)).annotations, r.kind, None, instances, picked, read) == Requests([owner])
            <==> DotFree(owner)
  {
    EventsReachTheirOwnerIff(Annotate(r, Key(owner)).annotations, r.kind, None, instances, picked, read, owner);
  }
}
