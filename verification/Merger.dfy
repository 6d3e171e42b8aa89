/** The kustomization merge engine: one parent and its index maps, updated in place by every file that
    is folded in (pkg/kfapp/kustomize/kustomize.go:840-1146, 1375-1389). */
module Merging {
  import opened Wrappers
  import opened Paths
  import opened FirstOccurrence
  import opened Kustomizations
  import opened PatchGroups

  /** Copies labels or annotations over; Go visits them in any order. */
  method CopyEach(values: map<string, string>, more: map<string, string>) returns (merged: map<string, string>)
    ensures merged == values + more
  {
    merged := values;
    var rest := more.Keys;
    while rest != {}
      invariant rest <= more.Keys
      invariant merged == values + (more - rest)
      decreases |rest|
    {
      var k :| k in rest;
      CopiedOne(values, more, rest, k);
      merged, rest := merged[k := more[k]], rest - {k};
    }
    assert more - {} == more;
  }

  lemma CopiedOne(values: map<string, string>, more: map<string, string>, rest: set<string>, k: string)
    requires k in rest && k in more
    ensures values + (more - (rest - {k})) == (values + (more - rest))[k := more[k]]
  {
    assert more - (rest - {k}) == (more - rest)[k := more[k]];
  }

  method OverrideEach(l: Labels, more: map<string, string>) returns (r: Labels)
    ensures r == Override(l, more)
  {
    var merged := CopyEach(l.values, more);
    r := Labels(merged, l.index + more.Keys);
  }

  method RewritePaths(compDir: string, dir: string, values: seq<string>) returns (paths: seq<string>)
    requires AllFit(compDir, dir, values)
    ensures paths == RewriteAll(compDir, dir, values)
  {
    hide PathJoin, HasSuffix, ExtractSuffix;
    paths := [];
    for i := 0 to |values|
      invariant |paths| == i && forall j | 0 <= j < i :: paths[j] == Rewritten(compDir, dir, values[j])
    {
      assert values[i] in values;
      paths := paths + [ExtractSuffix(compDir, PathJoin(dir, values[i]))];
    }
  }

  method AddListedBases(b: Bases, own: string, paths: seq<string>) returns (r: Bases)
    ensures r == AskAll(b, Asking(own, paths))
  {
    r := b;
    for i := 0 to |paths|
      invariant r == AskAll(b, Asking(own, paths)[..i])
    {
      assert Asking(own, paths)[..i + 1][..i] == Asking(own, paths)[..i];
      if paths[i] !in r.index {
        r := Bases(r.list + [paths[i]], r.index + {paths[i]});
      } else {
        r := Bases(r.list, r.index + {own});
      }
    }
    assert Asking(own, paths)[..|paths|] == Asking(own, paths);
  }

  method MergeSettingsOf(compDir: string, parent: Parent, src: Source) returns (p: Parent)
    requires CanRewrite(compDir, src) && src.child.bases.Some?
    ensures p == MergeSettings(compDir, parent, src)
  {
    var child := src.child;
    var paths := RewritePaths(compDir, src.dir, child.bases.value);
    var bases := AddListedBases(parent.bases, ExtractSuffix(compDir, src.dir), paths);
    p := parent.(bases := bases);
    if child.namePrefix != "" && p.namePrefix == "" {
      p := p.(namePrefix := child.namePrefix);
    }
    if child.nameSuffix != "" && p.nameSuffix == "" {
      p := p.(nameSuffix := child.nameSuffix);
    }
    var labels := OverrideEach(p.commonLabels, child.commonLabels);
    var annotations := OverrideEach(p.commonAnnotations, child.commonAnnotations);
    p := p.(commonLabels := labels, commonAnnotations := annotations);
    if child.generatorOptions.Some? && p.generatorOptions.None? {
      p := p.(generatorOptions := child.generatorOptions);
    }
  }

  method UpdateGeneratorArgs(compDir: string, dir: string, parentArgs: GeneratorArgs, childArgs: GeneratorArgs)
    returns (r: GeneratorArgs)
    requires ArgsFit(compDir, dir, childArgs)
    ensures r == RewriteArgs(compDir, dir, parentArgs, childArgs)
  {
    hide PathJoin, HasSuffix, ExtractSuffix;
    r := parentArgs;
    if childArgs.envSources != [] {
      var envSources := RewritePaths(compDir, dir, childArgs.envSources);
      r := r.(envSources := envSources);
    }
    if childArgs.envSource != "" {
      r := r.(envSource := ExtractSuffix(compDir, PathJoin(dir, childArgs.envSource)));
    }
    if childArgs.fileSources != [] {
      var fileSources := RewritePaths(compDir, dir, childArgs.fileSources);
      r := r.(fileSources := [], envSource := fileSources[|fileSources| - 1]);
    }
    if childArgs.literalSources != [] {
      r := r.(literalSources := childArgs.literalSources);
    }
  }

  method ConfigMaps(compDir: string, src: Source) returns (r: seq<Generator>)
    requires forall g | g in src.child.configMapGenerator :: ArgsFit(compDir, src.dir, g.args)
    ensures r == ConfigMapsOf(compDir)(src)
  {
    hide ArgsFit, RewriteArgs;
    var gens := src.child.configMapGenerator;
    r := [];
    for i := 0 to |gens|
      invariant |r| == i && forall j | 0 <= j < i :: r[j] == RewriteConfigMap(compDir, src.dir, gens[j])
    {
      assert gens[i] in gens;
      var args := UpdateGeneratorArgs(compDir, src.dir, NO_ARGS, gens[i].args);
      r := r + [Generator(gens[i].name, gens[i].namespace,
                          if gens[i].behavior == "create" then "" else Behavior(gens[i].behavior), args)];
    }
  }

  method Secrets(compDir: string, src: Source) returns (r: seq<Generator>)
    requires forall g | g in src.child.secretGenerator :: ArgsFit(compDir, src.dir, g.args)
    ensures r == SecretsOf(compDir)(src)
  {
    hide ArgsFit, RewriteArgs;
    var gens := src.child.secretGenerator;
    r := [];
    for i := 0 to |gens|
      invariant |r| == i && forall j | 0 <= j < i :: r[j] == RewriteSecret(compDir, src.dir, gens[j])
    {
      assert gens[i] in gens;
      var args := UpdateGeneratorArgs(compDir, src.dir, gens[i].args, gens[i].args);
      r := r + [gens[i].(behavior := Behavior(gens[i].behavior), args := args)];
    }
  }

  method JsonPatches(compDir: string, src: Source) returns (r: seq<JsonPatch>)
    requires forall p | p in src.child.patchesJson6902 :: HasSuffix(compDir, PathJoin(src.dir, p.path))
    ensures r == PatchesOf(compDir)(src)
  {
    hide PathJoin, HasSuffix;
    var patches := src.child.patchesJson6902;
    r := [];
    for i := 0 to |patches|
      invariant |r| == i && forall j | 0 <= j < i :: r[j] == RewritePatch(compDir, src.dir, patches[j])
    {
      assert patches[i] in patches;
      r := r + [JsonPatch(ExtractSuffix(compDir, PathJoin(src.dir, patches[i].path)), patches[i].target)];
    }
  }

  method MergeListsOf(compDir: string, parent: Parent, src: Source) returns (p: Parent)
    requires CanRewrite(compDir, src) && src.child.bases.Some?
    ensures p == MergeLists(compDir, parent, src)
  {
    var child := src.child;
    p := parent;
    var paths := RewritePaths(compDir, src.dir, child.resources);
    assert paths == ResourcesOf(compDir)(src);
    var resources := PutEach(p.resources, paths, Self, Always);
    var images := PutEach(p.images, child.images, ImageName, Always);
    var crds := PutEach(p.crds, child.crds, Self, Always);
    p := p.(resources := resources, images := images, crds := crds);
    var generators := ConfigMaps(compDir, src);
    var configMaps := PutEach(p.configMapGenerator, generators, GeneratorName, CreatesConfigMap);
    generators := Secrets(compDir, src);
    var secrets := PutEach(p.secretGenerator, generators, GeneratorName, CreatesSecret);
    var vars := PutEach(p.vars, child.vars, VarName, Always);
    p := p.(configMapGenerator := configMaps, secretGenerator := secrets, vars := vars);
    paths := RewritePaths(compDir, src.dir, child.patchesStrategicMerge);
    assert paths == StrategicOf(compDir)(src);
    var strategic := PutEach(p.patchesStrategicMerge, paths, Self, Always);
    var jsonPatches := JsonPatches(compDir, src);
    var patches := PutEach(p.patchesJson6902, jsonPatches, PatchKey, Always);
    paths := RewritePaths(compDir, src.dir, child.configurations);
    assert paths == ConfigurationsOf(compDir)(src);
    var configurations := PutEach(p.configurations, paths, Self, Always);
    p := p.(patchesStrategicMerge := strategic, patchesJson6902 := patches, configurations := configurations);
  }

  /** The directories of a component that matter to the merge. */
  datatype Location = Base | Component | Overlay(name: string)

  /** What is found there: the kustomization, if the file can be read. */
  datatype Directory = Directory(kustomization: Option<Kustomization>)

  datatype Outcome = Merged | AsIs(kustomization: Kustomization) | NoOverlay(overlay: string)

  /** The merge in progress. `parent` holds the parent kustomization, each list with its index map, and
      is replaced as a whole: its fields live and change together. */
  class Merger {
    const compDir: string
    var parent: Parent
    var namespace: string

    constructor (compDir: string)
      ensures parent == NEW_PARENT && this.compDir == compDir && namespace == ""
    {
      this.compDir, parent, namespace := compDir, NEW_PARENT, "";
    }

    /** Folds one file into the parent. */
    method MergeKustomization(src: Source)
      requires CanRewrite(compDir, src)
      modifies this`parent
      ensures parent == MergeFile(compDir, old(parent), src)
    {
      var own := ExtractSuffix(compDir, src.dir);
      if src.child.bases.None? {
        AskOne(parent.bases, Request(own, own, false));
        if own !in parent.bases.index {
          parent := parent.(bases := Bases(parent.bases.list + [own], parent.bases.index + {own}));
        }
      } else {
        parent := MergeSettingsOf(compDir, parent, src);
        parent := MergeListsOf(compDir, parent, src);
      }
    }

    /** Base first, then the overlays in order. Without a base, a kustomization of the component itself
        is taken as it is; the first overlay without a directory ends the merge with an error. An overlay
        directory that exists must hold a kustomization, since the merge reads through it. */
    method MergeOverlays(disk: map<Location, Directory>, overlays: seq<string>, params: seq<(string, string)>)
      returns (outcome: Outcome)
      requires parent == NEW_PARENT && namespace == ""
      requires Readable(compDir, disk, overlays)
      modifies this
      ensures outcome.AsIs? <==> At(disk, Base).None? && At(disk, Component).Some?
      ensures outcome.AsIs? ==> At(disk, Component) == Some(outcome.kustomization)
      ensures outcome.NoOverlay? ==> FirstMissing(disk, overlays) == Some(outcome.overlay)
      ensures outcome.Merged? ==> FirstMissing(disk, overlays).None?
      ensures outcome.Merged? ==> parent == Merge(compDir, Sources(compDir, disk, overlays))
      ensures outcome.Merged? ==> namespace == LastNamespace(params)
    {
      hide MergeFile, CanRewrite, BaseDir, OverlayDir;
      var base := At(disk, Base);
      if base.None? && At(disk, Component).Some? {
        return AsIs(At(disk, Component).value);
      }
      ghost var done: seq<string> := [];
      ghost var srcs := Sources(compDir, disk, done);
      if base.Some? {
        MergeKustomization(Source(BaseDir(compDir), base.value));
        MergeSnoc(compDir, [], Source(BaseDir(compDir), base.value), NEW_PARENT, parent);
        assert srcs == [] + [Source(BaseDir(compDir), base.value)];
      }
      namespace := NamespaceParam(params);
      for i := 0 to |overlays|
        invariant done == overlays[..i] && srcs == Sources(compDir, disk, done)
        invariant FirstMissing(disk, done).None?
        invariant parent == Merge(compDir, srcs) && namespace == LastNamespace(params)
      {
        if !Present(disk, overlays[i]) {
          MissingAt(disk, overlays, i);
          return NoOverlay(overlays[i]);
        }
        assert Legible(compDir, disk, overlays[i]);
        var src := Source(OverlayDir(compDir, overlays[i]), At(disk, Overlay(overlays[i])).value);
        ghost var was := parent;
        MergeKustomization(src);
        MergeSnoc(compDir, srcs, src, was, parent);
        MissingSnoc(disk, done, overlays[i]);
        SourcesSnoc(compDir, disk, done, overlays[i]);
        done, srcs := done + [overlays[i]], srcs + [src];
      }
      assert done == overlays;
      return Merged;
    }

    /** The whole merge: the files are folded, then the JSON patches are regrouped into files, in some
        order of their keys. Only the patches of the parent change in the second half, and no patch file
        is written unless the first half succeeds. */
    method MergeKustomizations(disk: map<Location, Directory>, overlays: seq<string>, params: seq<(string, string)>,
                               patchFiles: Disk) returns (outcome: Outcome, ghost order: seq<string>)
      requires parent == NEW_PARENT && namespace == ""
      requires Readable(compDir, disk, overlays)
      modifies this, patchFiles
      ensures outcome.AsIs? <==> At(disk, Base).None? && At(disk, Component).Some?
      ensures outcome.AsIs? ==> At(disk, Component) == Some(outcome.kustomization)
      ensures !outcome.AsIs? ==> (outcome.NoOverlay? <==> FirstMissing(disk, overlays).Some?)
      ensures outcome.NoOverlay? ==> FirstMissing(disk, overlays) == Some(outcome.overlay)
      ensures !outcome.Merged? ==> patchFiles.files == old(patchFiles.files)
      ensures outcome.Merged? ==> namespace == LastNamespace(params)
      ensures outcome.Merged? ==>
                var folded := Merge(compDir, Sources(compDir, disk, overlays));
                var patches := folded.patchesJson6902.list;
                && IsOrder(order, Keys(patches, GroupKey))
                && patchFiles.files == AppendGroups(compDir, old(patchFiles.files), patches, order)
                && Aggregated(patches, order, parent.patchesJson6902.list)
                && parent == folded.(patchesJson6902 := parent.patchesJson6902)
    {
      outcome := MergeOverlays(disk, overlays, params);
      order := [];
      if outcome.Merged? {
        hide *;
        var merged;
        merged, order := patchFiles.Regroup(compDir, parent.patchesJson6902.list);
        parent := parent.(patchesJson6902 := Table(merged, parent.patchesJson6902.index));
      }
    }
  }

  /** An overlay directory, if there is one, holds a kustomization whose paths can be rewritten. */
  predicate Legible(compDir: string, disk: map<Location, Directory>, overlay: string) {
    Present(disk, overlay) ==>
      var k := At(disk, Overlay(overlay));
      k.Some? && CanRewrite(compDir, Source(OverlayDir(compDir, overlay), k.value))
  }

  predicate Readable(compDir: string, disk: map<Location, Directory>, overlays: seq<string>) {
    && (At(disk, Base).Some? ==> CanRewrite(compDir, Source(BaseDir(compDir), At(disk, Base).value)))
    && forall o | o in overlays :: Legible(compDir, disk, o)
  }

  /** The first overlay without a directory. */
  function FirstMissing(disk: map<Location, Directory>, overlays: seq<string>): Option<string> {
    if overlays == [] then None
    else
      var last := overlays[|overlays| - 1];
      match FirstMissing(disk, overlays[..|overlays| - 1])
      case Some(o) => Some(o)
      case None => if Present(disk, last) then None else Some(last)
  }

  lemma MissingSnoc(disk: map<Location, Directory>, some: seq<string>, overlay: string)
    requires FirstMissing(disk, some).None?
    ensures FirstMissing(disk, some + [overlay]) == if Present(disk, overlay) then None else Some(overlay)
  {
    assert (some + [overlay])[..|some + [overlay]| - 1] == some;
  }

  lemma MissingAt(disk: map<Location, Directory>, overlays: seq<string>, i: nat)
    requires i < |overlays| && FirstMissing(disk, overlays[..i]).None? && !Present(disk, overlays[i])
    ensures FirstMissing(disk, overlays) == Some(overlays[i])
  {
    MissingSnoc(disk, overlays[..i], overlays[i]);
    MissingStays(disk, overlays[..i] + [overlays[i]], overlays[i + 1..]);
    assert overlays == overlays[..i] + [overlays[i]] + overlays[i + 1..];
  }

  lemma {:induction false} MissingStays(disk: map<Location, Directory>, some: seq<string>, more: seq<string>)
    requires FirstMissing(disk, some).Some?
    ensures FirstMissing(disk, some + more) == FirstMissing(disk, some)
    decreases |more|
  {
    if more == [] {
      assert some + more == some;
    } else {
      assert (some + more)[..|some + more| - 1] == some + more[..|more| - 1];
      MissingStays(disk, some, more[..|more| - 1]);
    }
  }

  method NamespaceParam(params: seq<(string, string)>) returns (namespace: string)
    ensures namespace == LastNamespace(params)
  {
    namespace := "";
    for i := 0 to |params|
      invariant namespace == LastNamespace(params[..i])
    {
      assert params[..i + 1][..i] == params[..i];
      if params[i].0 == "namespace" {
        namespace := params[i].1;
      }
    }
    assert params[..|params|] == params;
  }

  function BaseDir(compDir: string): string {
    PathJoin(compDir, "base")
  }

  function OverlayDir(compDir: string, overlay: string): string {
    PathJoin(PathJoin(compDir, "overlays"), overlay)
  }

  predicate Present(disk: map<Location, Directory>, overlay: string) {
    Overlay(overlay) in disk
  }

  /** GetKustomization: nothing if the directory or a readable file is missing. */
  function At(disk: map<Location, Directory>, l: Location): Option<Kustomization> {
    if l in disk then disk[l].kustomization else None
  }

  /** The files that are merged, in order. */
  function Sources(compDir: string, disk: map<Location, Directory>, overlays: seq<string>): seq<Source> {
    if overlays == [] then
      if At(disk, Base).None? then [] else [Source(BaseDir(compDir), At(disk, Base).value)]
    else
      var last := overlays[|overlays| - 1];
      var k := At(disk, Overlay(last));
      Sources(compDir, disk, overlays[..|overlays| - 1])
      + (if k.None? then [] else [Source(OverlayDir(compDir, last), k.value)])
  }

  lemma SourcesSnoc(compDir: string, disk: map<Location, Directory>, before: seq<string>, overlay: string)
    requires At(disk, Overlay(overlay)).Some?
    ensures Sources(compDir, disk, before + [overlay])
         == Sources(compDir, disk, before) + [Source(OverlayDir(compDir, overlay), At(disk, Overlay(overlay)).value)]
  {
    assert (before + [overlay])[..|before + [overlay]| - 1] == before;
  }

  lemma MergeSnoc(compDir: string, srcs: seq<Source>, src: Source, was: Parent, now: Parent)
    requires was == Merge(compDir, srcs) && now == MergeFile(compDir, was, src)
    ensures now == Merge(compDir, srcs + [src])
  {
    assert (srcs + [src])[..|srcs + [src]| - 1] == srcs;
  }

  /** The value of the last parameter called "namespace". */
  function LastNamespace(params: seq<(string, string)>): string {
    if params == [] then ""
    else if params[|params| - 1].0 == "namespace" then params[|params| - 1].1
    else LastNamespace(params[..|params| - 1])
  }

  // ----- where the files come from -----

  lemma DirsMean(compDir: string, overlay: string)
    requires CleanDir(compDir) && SingleSegment(overlay)
    ensures BaseDir(compDir) == compDir + "/" + "base"
    ensures OverlayDir(compDir, overlay) == compDir + "/" + "overlays" + "/" + overlay
  {
    ChildIsClean(compDir, "base");
    ChildIsClean(compDir, "overlays");
    hide PathJoin, CleanDir, SingleSegment;
    ChildIsClean(PathJoin(compDir, "overlays"), overlay);
  }

  lemma {:induction false} SourcesAt(compDir: string, disk: map<Location, Directory>, overlays: seq<string>, i: nat)
    requires forall o | o in overlays :: At(disk, Overlay(o)).Some?
    ensures var srcs, first := Sources(compDir, disk, overlays), if At(disk, Base).Some? then 1 else 0;
            && |srcs| == first + |overlays|
            && (At(disk, Base).Some? ==> srcs[0] == Source(BaseDir(compDir), At(disk, Base).value))
            && (i < |overlays| ==>
                  && At(disk, Overlay(overlays[i])).Some?
                  && srcs[first + i] == Source(OverlayDir(compDir, overlays[i]), At(disk, Overlay(overlays[i])).value))
  {
    hide At, BaseDir, OverlayDir;
    if overlays != [] {
      var n := |overlays| - 1;
      assert overlays[n] in overlays && forall o | o in overlays[..n] :: o in overlays;
      SourcesAt(compDir, disk, overlays[..n], i);
    }
  }

  /** With all overlays there, the files are the one of compDir/base, if there is one, and then for every overlay in
      order the one of compDir/overlays/overlay. */
  lemma SourcesMean(compDir: string, disk: map<Location, Directory>, overlays: seq<string>, i: nat)
    requires CleanDir(compDir) && forall o | o in overlays :: At(disk, Overlay(o)).Some? && SingleSegment(o)
    requires i < |overlays|
    ensures var srcs, first := Sources(compDir, disk, overlays), if At(disk, Base).Some? then 1 else 0;
            && |srcs| == first + |overlays| && At(disk, Overlay(overlays[i])).Some?
            && (At(disk, Base).Some? ==> srcs[0] == Source(compDir + "/" + "base", At(disk, Base).value))
            && srcs[first + i] == Source(compDir + "/" + "overlays" + "/" + overlays[i],
                                         At(disk, Overlay(overlays[i])).value)
  {
    hide At, BaseDir, OverlayDir, Sources, CleanDir, SingleSegment;
    SourcesAt(compDir, disk, overlays, i);
    DirsMean(compDir, overlays[i]);
  }

  /** The merge ends with an error if and only if some overlay has no directory, and names the first such one. */
  lemma {:induction false} FirstMissingMeans(disk: map<Location, Directory>, overlays: seq<string>)
    ensures match FirstMissing(disk, overlays)
            case None => forall o | o in overlays :: Overlay(o) in disk
            case Some(o) => exists i :: 0 <= i < |overlays| && overlays[i] == o && Overlay(o) !in disk
                                        && forall j | 0 <= j < i :: Overlay(overlays[j]) in disk
  {
    if overlays != [] {
      var n := |overlays| - 1;
      FirstMissingMeans(disk, overlays[..n]);
      assert overlays == overlays[..n] + [overlays[n]];
      if FirstMissing(disk, overlays[..n]).Some? {
        var o := FirstMissing(disk, overlays[..n]).value;
        var i :| 0 <= i < n && overlays[..n][i] == o && Overlay(o) !in disk
                 && forall j | 0 <= j < i :: Overlay(overlays[..n][j]) in disk;
        assert overlays[i] == o && forall j | 0 <= j < i :: overlays[j] == overlays[..n][j];
      } else {
        assert forall j | 0 <= j < n :: overlays[j] in overlays[..n];
      }
    }
  }

  /** The last parameter called "namespace" counts. */
  lemma {:induction false} LastNamespaceMeans(params: seq<(string, string)>, i: nat)
    ensures (forall p | p in params :: p.0 != "namespace") ==> LastNamespace(params) == ""
    ensures && i < |params| && params[i].0 == "namespace"
            && (forall j | i < j < |params| :: params[j].0 != "namespace") ==>
              LastNamespace(params) == params[i].1
  {
    if params != [] {
      var n := |params| - 1;
      assert params == params[..n] + [params[n]];
      LastNamespaceMeans(params[..n], i);
    }
  }
}
