/** What the merged kustomization refers to: every path, generator, image, label and setting of the merged files,
    read off the files themselves (pkg/kfapp/kustomize/kustomize.go:844-1078). */
module MergedMeaning {
  import opened Strings
  import opened Wrappers
  import opened Paths
  import opened FirstOccurrence
  import opened Kustomizations

  /** From the component directory, `path` names the file that `value` names from `dir`. */
  predicate SameFile(compDir: string, path: string, dir: string, value: string) {
    PathJoin(compDir, path) == PathJoin(dir, value)
  }

  /** The file is strictly below the component directory, so that rewriting keeps its meaning. */
  predicate Inside(compDir: string, dir: string, value: string) {
    dir != "" && StrictlyBelow(compDir, PathJoin(dir, value))
  }

  // ----- lists of several files -----

  lemma {:induction false} FlatMeans<T>(srcs: seq<Source>, f: Source -> seq<T>, x: T)
    ensures x in Flat(srcs, f) <==> exists s :: s in srcs && s.child.bases.Some? && x in f(s)
  {
    if srcs != [] {
      var init, last := srcs[..|srcs| - 1], srcs[|srcs| - 1];
      FlatMeans(init, f, x);
      assert srcs == init + [last];
    }
  }

  lemma {:induction false} FlatConcat<T>(srcs: seq<Source>, more: seq<Source>, f: Source -> seq<T>)
    ensures Flat(srcs + more, f) == Flat(srcs, f) + Flat(more, f)
    decreases |more|
  {
    if more == [] {
      assert srcs + more == srcs && Flat(srcs, f) + [] == Flat(srcs, f);
    } else {
      var n := |more| - 1;
      assert (srcs + more)[..|srcs + more| - 1] == srcs + more[..n];
      FlatConcat(srcs, more[..n], f);
    }
  }

  /** Nothing is made up, nothing loses its key, and what need not occur once is kept. */
  lemma {:induction false} FirstsKeep<T>(xs: seq<T>, key: T -> string, once: T -> bool, x: T)
    ensures x in Firsts(xs, key, once) ==> x in xs
    ensures x in xs ==> exists y :: y in Firsts(xs, key, once) && key(y) == key(x)
    ensures x in xs && !once(x) ==> x in Firsts(xs, key, once)
  {
    if xs != [] {
      var init, last := xs[..|xs| - 1], xs[|xs| - 1];
      assert xs == init + [last];
      FirstsKeep(init, key, once, x);
      FirstsSnoc(init, last, key, once);
      if once(last) && key(last) in Keys(init, key) {
        var z :| z in init && key(z) == key(last);
        FirstsKeep(init, key, once, z);
      }
    }
  }

  // ----- paths -----

  /** The paths of `list` are those of the files with a bases list, rewritten, and each of those files' paths that
      lies inside the component directory is still named by one of them. */
  ghost predicate Carries(list: seq<string>, compDir: string, srcs: seq<Source>, paths: Kustomization -> seq<string>) {
    && (forall s, v | s in srcs && s.child.bases.Some? && v in paths(s.child) && Inside(compDir, s.dir, v) ::
          exists r :: r in list && SameFile(compDir, r, s.dir, v))
    && (forall r | r in list ::
          exists s, v :: s in srcs && s.child.bases.Some? && v in paths(s.child)
                         && (Inside(compDir, s.dir, v) ==> SameFile(compDir, r, s.dir, v)))
  }

  lemma InsideIsKept(compDir: string, dir: string, value: string)
    requires CleanDir(compDir) && Inside(compDir, dir, value)
    ensures SameFile(compDir, Rewritten(compDir, dir, value), dir, value)
  {
    BelowMeans(compDir, dir, value);
  }

  lemma FirstsCarry(compDir: string, srcs: seq<Source>, f: Source -> seq<string>, paths: Kustomization -> seq<string>)
    requires CleanDir(compDir)
    requires forall s :: f(s) == RewriteAll(compDir, s.dir, paths(s.child))
    ensures Carries(Firsts(Flat(srcs, f), Self, Always), compDir, srcs, paths)
  {
    var list := Firsts(Flat(srcs, f), Self, Always);
    FirstsOfSelf(Flat(srcs, f));
    hide CleanDir, Inside, SameFile, Rewritten, Firsts;
    forall s, v | s in srcs && s.child.bases.Some? && v in paths(s.child) && Inside(compDir, s.dir, v)
      ensures exists r :: r in list && SameFile(compDir, r, s.dir, v)
    {
      var r := Rewritten(compDir, s.dir, v);
      InsideIsKept(compDir, s.dir, v);
      InRewritten(compDir, s.dir, paths(s.child), v);
      FlatMeans(srcs, f, r);
      assert r in list && SameFile(compDir, r, s.dir, v);
    }
    forall r | r in list
      ensures exists s, v :: s in srcs && s.child.bases.Some? && v in paths(s.child)
                             && (Inside(compDir, s.dir, v) ==> SameFile(compDir, r, s.dir, v))
    {
      FlatMeans(srcs, f, r);
      var s :| s in srcs && s.child.bases.Some? && r in f(s);
      var v := OfRewritten(compDir, s.dir, paths(s.child), r);
      if Inside(compDir, s.dir, v) {
        InsideIsKept(compDir, s.dir, v);
      }
    }
  }

  lemma InRewritten(compDir: string, dir: string, values: seq<string>, v: string)
    requires v in values
    ensures Rewritten(compDir, dir, v) in RewriteAll(compDir, dir, values)
  {
    hide Rewritten;
    var i :| 0 <= i < |values| && values[i] == v;
    assert RewriteAll(compDir, dir, values)[i] == Rewritten(compDir, dir, v);
  }

  lemma OfRewritten(compDir: string, dir: string, values: seq<string>, r: string) returns (v: string)
    requires r in RewriteAll(compDir, dir, values)
    ensures v in values && Rewritten(compDir, dir, v) == r
  {
    hide Rewritten;
    var i :| 0 <= i < |values| && RewriteAll(compDir, dir, values)[i] == r;
    v := values[i];
  }

  /** Resources, strategic merge patches and configurations: the merged file names, from the component directory,
      the files that the merged files named from theirs, and no others. */
  lemma MergeCarriesPaths(compDir: string, srcs: seq<Source>)
    requires CleanDir(compDir)
    ensures var p := Merge(compDir, srcs);
            && Carries(p.resources.list, compDir, srcs, (k: Kustomization) => k.resources)
            && Carries(p.patchesStrategicMerge.list, compDir, srcs, (k: Kustomization) => k.patchesStrategicMerge)
            && Carries(p.configurations.list, compDir, srcs, (k: Kustomization) => k.configurations)
  {
    MergeRefinesLists(compDir, srcs);
    FirstsCarry(compDir, srcs, ResourcesOf(compDir), (k: Kustomization) => k.resources);
    FirstsCarry(compDir, srcs, StrategicOf(compDir), (k: Kustomization) => k.patchesStrategicMerge);
    FirstsCarry(compDir, srcs, ConfigurationsOf(compDir), (k: Kustomization) => k.configurations);
    hide Merge, Carries, CleanDir, Flat;
  }

  /** The own path of a file names its directory. */
  lemma OwnPathMeans(compDir: string, src: Source)
    requires CleanDir(compDir) && Clean(src.dir) == src.dir && StrictlyBelow(compDir, src.dir)
    ensures PathJoin(compDir, OwnPath(compDir, src)) == src.dir
  {
    BelowKeepsPath(compDir, src.dir);
    hide PathJoin, Clean, CleanDir;
  }

  /** The file asks for this base: itself without a bases list, else one of its bases, rewritten. */
  predicate AsksFor(compDir: string, src: Source, path: string) {
    if src.child.bases.None? then path == OwnPath(compDir, src)
    else exists v | v in src.child.bases.value :: path == Rewritten(compDir, src.dir, v)
  }

  ghost predicate SomeAskFor(compDir: string, srcs: seq<Source>, path: string) {
    exists s :: s in srcs && AsksFor(compDir, s, path)
  }

  /** A path is wanted if and only if some file asks for it. */
  lemma {:induction false} WantedIff(compDir: string, srcs: seq<Source>, path: string)
    ensures path in Wanted(AllRequests(compDir, srcs)) <==> SomeAskFor(compDir, srcs, path)
  {
    hide RequestsOf, AsksFor, Wanted;
    if srcs != [] {
      var init, last := srcs[..|srcs| - 1], srcs[|srcs| - 1];
      WantedIff(compDir, init, path);
      WantedOfOne(compDir, last, path);
      WantedConcat(AllRequests(compDir, init), RequestsOf(compDir, last));
      assert srcs == init + [last];
    }
  }

  lemma WantedConcat(rs: seq<Request>, more: seq<Request>)
    ensures Wanted(rs + more) == Wanted(rs) + Wanted(more)
  {
  }

  lemma WantedOfOne(compDir: string, src: Source, path: string)
    ensures path in Wanted(RequestsOf(compDir, src)) <==> AsksFor(compDir, src, path)
  {
    hide OwnPath, Rewritten;
    if src.child.bases.Some? {
      var values := src.child.bases.value;
      assert Wanted(RequestsOf(compDir, src)) == RewriteAll(compDir, src.dir, values);
      hide Wanted, RequestsOf;
      if v :| v in values && path == Rewritten(compDir, src.dir, v) {
        InRewritten(compDir, src.dir, values, v);
      }
      if path in RewriteAll(compDir, src.dir, values) {
        var v := OfRewritten(compDir, src.dir, values, path);
      }
    } else {
      assert Wanted(RequestsOf(compDir, src)) == [OwnPath(compDir, src)];
    }
  }

  lemma WantedIsIndexed(compDir: string, srcs: seq<Source>, path: string)
    requires path in Wanted(AllRequests(compDir, srcs))
    ensures path in Merge(compDir, srcs).bases.index
    ensures Clear(AllRequests(compDir, srcs)) ==> path in Merge(compDir, srcs).bases.list
  {
    BasesAreIndexed(compDir, srcs);
    BasesAreFirstsIff(compDir, srcs);
    FirstsOfSelf(Wanted(AllRequests(compDir, srcs)));
    hide Merge, AllRequests, Wanted, Clear, Firsts;
  }

  /** Every base that a file asks for, and that lies inside the component directory, is indexed under a path that
      names it, and without repeaters listed, too. */
  lemma BasesAreCarried(compDir: string, srcs: seq<Source>, src: Source, value: string)
    requires CleanDir(compDir) && src in srcs && src.child.bases.Some? && value in src.child.bases.value
    requires Inside(compDir, src.dir, value)
    ensures var b := Merge(compDir, srcs).bases;
            exists path :: && SameFile(compDir, path, src.dir, value) && path in b.index
                           && (Clear(AllRequests(compDir, srcs)) ==> path in b.list)
  {
    var path := Rewritten(compDir, src.dir, value);
    InsideIsKept(compDir, src.dir, value);
    WantedIff(compDir, srcs, path);
    assert AsksFor(compDir, src, path) && SomeAskFor(compDir, srcs, path);
    hide *;
    WantedIsIndexed(compDir, srcs, path);
  }

  // ----- images, resource definitions and variables -----

  /** Some file with a bases list has the element. */
  ghost predicate InFiles<T>(srcs: seq<Source>, items: Kustomization -> seq<T>, x: T) {
    exists s :: s in srcs && s.child.bases.Some? && x in items(s.child)
  }

  ghost predicate HasKeyOf<T>(list: seq<T>, key: T -> string, x: T) {
    exists y :: y in list && key(y) == key(x)
  }

  /** The list holds elements of the files only, and for each of theirs one of the same key. */
  ghost predicate Covers<T(!new)>(list: seq<T>, srcs: seq<Source>, items: Kustomization -> seq<T>, key: T -> string) {
    && (forall x | x in list :: InFiles(srcs, items, x))
    && (forall x | InFiles(srcs, items, x) :: HasKeyOf(list, key, x))
  }

  lemma FirstsCover<T(!new)>(srcs: seq<Source>, f: Source -> seq<T>, items: Kustomization -> seq<T>, key: T -> string,
                       sameKey: T -> string)
    requires (forall s :: f(s) == items(s.child)) && forall x :: sameKey(x) == key(x)
    ensures Covers(Firsts(Flat(srcs, f), key, Always), srcs, items, sameKey)
  {
    var list := Firsts(Flat(srcs, f), key, Always);
    forall x
      ensures (x in list ==> InFiles(srcs, items, x)) && (InFiles(srcs, items, x) ==> HasKeyOf(list, sameKey, x))
    {
      FlatMeans(srcs, f, x);
      FirstsKeep(Flat(srcs, f), key, Always, x);
      hide Flat, Firsts;
    }
  }

  /** Images and variables by name, and resource definitions. */
  lemma MergeCoversItems(compDir: string, srcs: seq<Source>)
    ensures var p := Merge(compDir, srcs);
            && Covers(p.images.list, srcs, (k: Kustomization) => k.images, (x: Image) => x.name)
            && Covers(p.vars.list, srcs, (k: Kustomization) => k.vars, (x: Var) => x.name)
            && Covers(p.crds.list, srcs, (k: Kustomization) => k.crds, (x: string) => x)
  {
    MergeRefinesLists(compDir, srcs);
    FirstsCover(srcs, ImagesOf, (k: Kustomization) => k.images, ImageName, (x: Image) => x.name);
    FirstsCover(srcs, VarsOf, (k: Kustomization) => k.vars, VarName, (x: Var) => x.name);
    FirstsCover(srcs, CrdsOf, (k: Kustomization) => k.crds, Self, (x: string) => x);
    hide Merge, Flat, Firsts, Covers, Keys;
  }

  lemma FlatAround<T>(before: seq<Source>, src: Source, behind: seq<Source>, f: Source -> seq<T>)
    requires src.child.bases.Some?
    ensures Flat(before + [src] + behind, f) == Flat(before, f) + f(src) + Flat(behind, f)
  {
    FlatConcat(before, [src], f);
    FlatConcat(before + [src], behind, f);
    assert [src][..0] == [] && Flat([src], f) == [] + f(src) == f(src);
  }

  lemma FreshIsKept<T>(init: seq<T>, x: T, rest: seq<T>, key: T -> string)
    requires forall y | y in init :: key(y) != key(x)
    ensures x in Firsts(init + [x] + rest, key, Always)
  {
    FirstsSnoc(init, x, key, Always);
    FirstsPrefix(init + [x], rest, key, Always);
    assert key(x) !in Keys(init, key);
    hide Firsts, Keys;
    assert x in Firsts(init + [x], key, Always);
  }

  lemma FirstInMiddle<T>(earlier: seq<T>, own: seq<T>, later: seq<T>, key: T -> string, j: nat)
    requires j < |own| && forall y | y in earlier :: key(y) != key(own[j])
    requires forall i | 0 <= i < j :: key(own[i]) != key(own[j])
    ensures own[j] in Firsts(earlier + own + later, key, Always)
  {
    hide Firsts;
    var init, x, rest := earlier + own[..j], own[j], own[j + 1..] + later;
    assert own == own[..j] + [x] + own[j + 1..];
    assert earlier + own + later == init + [x] + rest;
    FreshIsKept(init, x, rest, key);
  }

  lemma FirstOfFiles<T>(before: seq<Source>, src: Source, behind: seq<Source>, f: Source -> seq<T>, key: T -> string,
                        j: nat)
    requires src.child.bases.Some? && j < |f(src)|
    requires forall s, y | s in before && s.child.bases.Some? && y in f(s) :: key(y) != key(f(src)[j])
    requires forall i | 0 <= i < j :: key(f(src)[i]) != key(f(src)[j])
    ensures f(src)[j] in Firsts(Flat(before + [src] + behind, f), key, Always)
  {
    FlatAround(before, src, behind, f);
    forall y | y in Flat(before, f) ensures key(y) != key(f(src)[j]) { FlatMeans(before, f, y); }
    hide Flat;
    FirstInMiddle(Flat(before, f), f(src), Flat(behind, f), key, j);
  }

  /** Of several images with one name the first file's first one wins, which may be the base's. */
  lemma FirstImageWins(compDir: string, before: seq<Source>, src: Source, behind: seq<Source>, j: nat)
    requires src.child.bases.Some? && j < |src.child.images|
    requires forall s, y | s in before && s.child.bases.Some? && y in s.child.images ::
               y.name != src.child.images[j].name
    requires forall i | 0 <= i < j :: src.child.images[i].name != src.child.images[j].name
    ensures src.child.images[j] in Merge(compDir, before + [src] + behind).images.list
  {
    MergeRefinesLists(compDir, before + [src] + behind);
    FirstOfFiles(before, src, behind, ImagesOf, ImageName, j);
    hide Merge, Flat, Firsts;
  }

  /** So it is for variables. */
  lemma FirstVarWins(compDir: string, before: seq<Source>, src: Source, behind: seq<Source>, j: nat)
    requires src.child.bases.Some? && j < |src.child.vars|
    requires forall s, y | s in before && s.child.bases.Some? && y in s.child.vars :: y.name != src.child.vars[j].name
    requires forall i | 0 <= i < j :: src.child.vars[i].name != src.child.vars[j].name
    ensures src.child.vars[j] in Merge(compDir, before + [src] + behind).vars.list
  {
    MergeRefinesLists(compDir, before + [src] + behind);
    FirstOfFiles(before, src, behind, VarsOf, VarName, j);
    hide Merge, Flat, Firsts;
  }

  lemma FlatPrefix<T>(srcs: seq<Source>, more: seq<Source>, f: Source -> seq<T>, key: T -> string, once: T -> bool)
    ensures Firsts(Flat(srcs, f), key, once) <= Firsts(Flat(srcs + more, f), key, once)
  {
    FlatConcat(srcs, more, f);
    FirstsPrefix(Flat(srcs, f), Flat(more, f), key, once);
  }

  /** Folding in more files only adds at the end of every list. */
  lemma EarlierListsStay(compDir: string, srcs: seq<Source>, more: seq<Source>)
    ensures var p, q := Merge(compDir, srcs), Merge(compDir, srcs + more);
            && p.resources.list <= q.resources.list && p.images.list <= q.images.list && p.crds.list <= q.crds.list
            && p.configMapGenerator.list <= q.configMapGenerator.list
            && p.secretGenerator.list <= q.secretGenerator.list && p.vars.list <= q.vars.list
            && p.patchesStrategicMerge.list <= q.patchesStrategicMerge.list
            && p.patchesJson6902.list <= q.patchesJson6902.list && p.configurations.list <= q.configurations.list
  {
    MergeRefinesLists(compDir, srcs);
    MergeRefinesLists(compDir, srcs + more);
    hide Merge, Flat, Firsts, Keys;
    FlatPrefix(srcs, more, ResourcesOf(compDir), Self, Always);
    FlatPrefix(srcs, more, ImagesOf, ImageName, Always);
    FlatPrefix(srcs, more, CrdsOf, Self, Always);
    FlatPrefix(srcs, more, ConfigMapsOf(compDir), GeneratorName, CreatesConfigMap);
    FlatPrefix(srcs, more, SecretsOf(compDir), GeneratorName, CreatesSecret);
    FlatPrefix(srcs, more, VarsOf, VarName, Always);
    FlatPrefix(srcs, more, StrategicOf(compDir), Self, Always);
    FlatPrefix(srcs, more, PatchesOf(compDir), PatchKey, Always);
    FlatPrefix(srcs, more, ConfigurationsOf(compDir), Self, Always);
  }

  // ----- JSON patches -----

  /** Keys tell patches apart if the names of the targets have no dash. */
  lemma PatchKeyIsInjective(p: JsonPatch, q: JsonPatch)
    requires '-' !in p.target.name && '-' !in q.target.name
    ensures PatchKey(p) == PatchKey(q) <==> p.path == q.path && p.target.name == q.target.name
  {
    if PatchKey(p) == PatchKey(q) {
      var s, m, n := PatchKey(p), |p.path|, |q.path|;
      assert s == PatchKey(q) && s[m] == '-' && s[n] == '-';
      assert forall i | m < i < |s| :: s[i] in p.target.name;
      assert forall i | n < i < |s| :: s[i] in q.target.name;
      assert m == n;
      assert s[..m] == p.path && s[..n] == q.path && s[m + 1..] == p.target.name && s[n + 1..] == q.target.name;
    }
  }

  /** A patch of a file and the merged patch for it. */
  predicate SamePatch(compDir: string, dir: string, r: JsonPatch, q: JsonPatch) {
    r.target == q.target && (Inside(compDir, dir, q.path) ==> SameFile(compDir, r.path, dir, q.path))
  }

  /** Every merged patch is one of a file, with its target, naming the same patch file. A patch of a file has a merged
      one for the same file and target name, if the names of targets have no dash. */
  lemma MergeCarriesPatches(compDir: string, srcs: seq<Source>, src: Source, q: JsonPatch, r: JsonPatch)
    requires CleanDir(compDir)
    ensures r in Merge(compDir, srcs).patchesJson6902.list ==>
              exists s, o :: && s in srcs && s.child.bases.Some? && o in s.child.patchesJson6902
                             && SamePatch(compDir, s.dir, r, o)
    ensures && src in srcs && src.child.bases.Some? && q in src.child.patchesJson6902
            && Inside(compDir, src.dir, q.path)
            && (forall s, o | s in srcs && o in s.child.patchesJson6902 :: '-' !in o.target.name) ==>
              exists m :: && m in Merge(compDir, srcs).patchesJson6902.list && m.target.name == q.target.name
                          && SameFile(compDir, m.path, src.dir, q.path)
  {
    MergeRefinesLists(compDir, srcs);
    var all := Flat(srcs, PatchesOf(compDir));
    hide Merge, Firsts, CleanDir, Rewritten, Inside, SameFile, Flat, PatchKey;
    if r in Merge(compDir, srcs).patchesJson6902.list {
      FirstsKeep(all, PatchKey, Always, r);
      var s, o := PatchOrigin(compDir, srcs, r);
    }
    if && src in srcs && src.child.bases.Some? && q in src.child.patchesJson6902 && Inside(compDir, src.dir, q.path)
       && (forall s, o | s in srcs && o in s.child.patchesJson6902 :: '-' !in o.target.name)
    {
      var x := RewritePatch(compDir, src.dir, q);
      InsideIsKept(compDir, src.dir, q.path);
      PatchIsThere(compDir, src, q);
      FlatMeans(srcs, PatchesOf(compDir), x);
      FirstsKeep(all, PatchKey, Always, x);
      var m :| m in Firsts(all, PatchKey, Always) && PatchKey(m) == PatchKey(x);
      FirstsKeep(all, PatchKey, Always, m);
      var s, o := PatchOrigin(compDir, srcs, m);
      PatchKeyIsInjective(m, x);
    }
  }

  lemma PatchIsThere(compDir: string, src: Source, q: JsonPatch)
    requires q in src.child.patchesJson6902
    ensures RewritePatch(compDir, src.dir, q) in PatchesOf(compDir)(src)
  {
    hide RewritePatch;
    var i :| 0 <= i < |src.child.patchesJson6902| && src.child.patchesJson6902[i] == q;
    assert PatchesOf(compDir)(src)[i] == RewritePatch(compDir, src.dir, q);
  }

  lemma PatchOrigin(compDir: string, srcs: seq<Source>, r: JsonPatch) returns (s: Source, o: JsonPatch)
    requires CleanDir(compDir) && r in Flat(srcs, PatchesOf(compDir))
    ensures s in srcs && s.child.bases.Some? && o in s.child.patchesJson6902 && SamePatch(compDir, s.dir, r, o)
  {
    FlatMeans(srcs, PatchesOf(compDir), r);
    hide CleanDir, Rewritten, Inside, SameFile;
    s :| s in srcs && s.child.bases.Some? && r in PatchesOf(compDir)(s);
    var i :| 0 <= i < |PatchesOf(compDir)(s)| && PatchesOf(compDir)(s)[i] == r;
    o := s.child.patchesJson6902[i];
    if Inside(compDir, s.dir, o.path) {
      InsideIsKept(compDir, s.dir, o.path);
    }
  }

  // ----- generators -----

  /** What the arguments of a generator become. File sources are dropped, and the last of them becomes the env source;
      otherwise env sources name the same files as before, and literals stay in order. What a generator does not have
      it takes from `parent`. */
  lemma GeneratorArgsMean(compDir: string, dir: string, parent: GeneratorArgs, child: GeneratorArgs, i: nat)
    requires CleanDir(compDir)
    ensures var out, files := RewriteArgs(compDir, dir, parent, child), child.fileSources;
            && (files == [] && child.envSource != "" && Inside(compDir, dir, child.envSource) ==>
                  SameFile(compDir, out.envSource, dir, child.envSource))
            && (files == [] && child.envSource == "" ==> out.envSource == parent.envSource)
            && (files != [] && Inside(compDir, dir, files[|files| - 1]) ==>
                  SameFile(compDir, out.envSource, dir, files[|files| - 1]))
            && out.fileSources == (if files != [] then [] else parent.fileSources)
            && (child.envSources == [] ==> out.envSources == parent.envSources)
            && (child.envSources != [] ==>
                  && |out.envSources| == |child.envSources|
                  && (i < |child.envSources| && Inside(compDir, dir, child.envSources[i]) ==>
                        SameFile(compDir, out.envSources[i], dir, child.envSources[i])))
            && out.literalSources
               == (if child.literalSources == [] then parent.literalSources else child.literalSources)
  {
    hide CleanDir, Inside, SameFile, Rewritten;
    if child.fileSources != [] {
      var last := child.fileSources[|child.fileSources| - 1];
      if Inside(compDir, dir, last) {
        InsideIsKept(compDir, dir, last);
      }
    } else if Inside(compDir, dir, child.envSource) {
      InsideIsKept(compDir, dir, child.envSource);
    }
    if i < |child.envSources| && Inside(compDir, dir, child.envSources[i]) {
      InsideIsKept(compDir, dir, child.envSources[i]);
    }
  }

  /** The sources of a merged generator: literals as they were, the same env files, no file sources, and the last of
      those as the env source. */
  predicate SameSources(compDir: string, dir: string, out: GeneratorArgs, args: GeneratorArgs) {
    && out.literalSources == args.literalSources && out.fileSources == []
    && |out.envSources| == |args.envSources|
    && (forall i | 0 <= i < |args.envSources| && Inside(compDir, dir, args.envSources[i]) ::
          SameFile(compDir, out.envSources[i], dir, args.envSources[i]))
    && if args.fileSources != [] then
         var last := args.fileSources[|args.fileSources| - 1];
         Inside(compDir, dir, last) ==> SameFile(compDir, out.envSource, dir, last)
       else if args.envSource != "" then
         Inside(compDir, dir, args.envSource) ==> SameFile(compDir, out.envSource, dir, args.envSource)
       else out.envSource == ""
  }

  lemma SourcesStay(compDir: string, dir: string, parent: GeneratorArgs, args: GeneratorArgs)
    requires CleanDir(compDir) && (parent == NO_ARGS || parent == args)
    ensures SameSources(compDir, dir, RewriteArgs(compDir, dir, parent, args), args)
  {
    GeneratorArgsMean(compDir, dir, parent, args, 0);
    forall i | 0 <= i < |args.envSources| && Inside(compDir, dir, args.envSources[i])
      ensures SameFile(compDir, RewriteArgs(compDir, dir, parent, args).envSources[i], dir, args.envSources[i])
    {
      GeneratorArgsMean(compDir, dir, parent, args, i);
    }
    hide RewriteArgs, Inside, SameFile, CleanDir;
  }

  /** A config map generator keeps name, namespace and sources; "merge" and "replace" stay as they are written,
      "create" is left out, and anything else reads "unspecified". */
  lemma ConfigMapMeans(compDir: string, dir: string, g: Generator)
    requires CleanDir(compDir)
    ensures var out := RewriteConfigMap(compDir, dir, g);
            && out.name == g.name && out.namespace == g.namespace && SameSources(compDir, dir, out.args, g.args)
            && (g.behavior == "merge" || g.behavior == "replace" ==> out.behavior == g.behavior)
            && (g.behavior == "create" <==> out.behavior == "")
            && (g.behavior !in {"create", "merge", "replace"} ==> out.behavior == "unspecified")
  {
    SourcesStay(compDir, dir, NO_ARGS, g.args);
    hide RewriteArgs, SameSources;
  }

  /** So does a secret generator, for which "create" stays, too. */
  lemma SecretMeans(compDir: string, dir: string, g: Generator)
    requires CleanDir(compDir)
    ensures var out := RewriteSecret(compDir, dir, g);
            && out.name == g.name && out.namespace == g.namespace && SameSources(compDir, dir, out.args, g.args)
            && (g.behavior in {"create", "merge", "replace"} ==> out.behavior == g.behavior)
            && (g.behavior !in {"create", "merge", "replace"} ==> out.behavior == "unspecified")
  {
    SourcesStay(compDir, dir, g.args, g.args);
    hide RewriteArgs, SameSources;
  }

  lemma GeneratorsKept(srcs: seq<Source>, f: Source -> seq<Generator>, once: Generator -> bool, src: Source,
                       x: Generator)
    requires src in srcs && src.child.bases.Some? && x in f(src)
    ensures var list := Firsts(Flat(srcs, f), GeneratorName, once);
            && (!once(x) ==> x in list)
            && exists y :: y in list && y.name == x.name
  {
    FlatMeans(srcs, f, x);
    FirstsKeep(Flat(srcs, f), GeneratorName, once, x);
    hide Flat, Firsts;
    var y :| y in Firsts(Flat(srcs, f), GeneratorName, once) && GeneratorName(y) == GeneratorName(x);
  }

  /** The merged generators are the rewritten ones of the files; those that do not create are all kept, and of those
      that do there is one of the name. */
  lemma MergeCarriesGenerators(compDir: string, srcs: seq<Source>, src: Source, i: nat, x: Generator)
    requires CleanDir(compDir) && src in srcs && src.child.bases.Some?
    ensures var list := Merge(compDir, srcs).configMapGenerator.list;
            && (i < |src.child.configMapGenerator| ==>
                  var g := src.child.configMapGenerator[i];
                  && (g.behavior != "create" ==> RewriteConfigMap(compDir, src.dir, g) in list)
                  && exists y :: y in list && y.name == g.name)
            && (x in list ==> exists s, g :: s in srcs && s.child.bases.Some? && g in s.child.configMapGenerator
                                             && x == RewriteConfigMap(compDir, s.dir, g))
    ensures var list := Merge(compDir, srcs).secretGenerator.list;
            && (i < |src.child.secretGenerator| ==>
                  var g := src.child.secretGenerator[i];
                  && (g.behavior != "create" ==> RewriteSecret(compDir, src.dir, g) in list)
                  && exists y :: y in list && y.name == g.name)
            && (x in list ==> exists s, g :: s in srcs && s.child.bases.Some? && g in s.child.secretGenerator
                                             && x == RewriteSecret(compDir, s.dir, g))
  {
    MergeRefinesLists(compDir, srcs);
    ConfigMapsCarried(compDir, srcs, src, i, x);
    SecretsCarried(compDir, srcs, src, i, x);
    hide Merge, Flat, Firsts, RewriteConfigMap, RewriteSecret, CleanDir;
  }

  lemma ConfigMapsCarried(compDir: string, srcs: seq<Source>, src: Source, i: nat, x: Generator)
    requires CleanDir(compDir) && src in srcs && src.child.bases.Some?
    ensures var list := Firsts(Flat(srcs, ConfigMapsOf(compDir)), GeneratorName, CreatesConfigMap);
            && (i < |src.child.configMapGenerator| ==>
                  var g := src.child.configMapGenerator[i];
                  && (g.behavior != "create" ==> RewriteConfigMap(compDir, src.dir, g) in list)
                  && exists y :: y in list && y.name == g.name)
            && (x in list ==> exists s, g :: s in srcs && s.child.bases.Some? && g in s.child.configMapGenerator
                                             && x == RewriteConfigMap(compDir, s.dir, g))
  {
    var all := Flat(srcs, ConfigMapsOf(compDir));
    if i < |src.child.configMapGenerator| {
      var g := src.child.configMapGenerator[i];
      ConfigMapMeans(compDir, src.dir, g);
      hide RewriteConfigMap, SameSources, CleanDir;
      assert ConfigMapsOf(compDir)(src)[i] == RewriteConfigMap(compDir, src.dir, g);
      GeneratorsKept(srcs, ConfigMapsOf(compDir), CreatesConfigMap, src, RewriteConfigMap(compDir, src.dir, g));
    }
    FirstsKeep(all, GeneratorName, CreatesConfigMap, x);
    FlatMeans(srcs, ConfigMapsOf(compDir), x);
    hide RewriteConfigMap, Flat, Firsts;
    if x in all {
      var s :| s in srcs && s.child.bases.Some? && x in ConfigMapsOf(compDir)(s);
      var j :| 0 <= j < |ConfigMapsOf(compDir)(s)| && ConfigMapsOf(compDir)(s)[j] == x;
      assert s.child.configMapGenerator[j] in s.child.configMapGenerator;
    }
  }

  lemma SecretsCarried(compDir: string, srcs: seq<Source>, src: Source, i: nat, x: Generator)
    requires CleanDir(compDir) && src in srcs && src.child.bases.Some?
    ensures var list := Firsts(Flat(srcs, SecretsOf(compDir)), GeneratorName, CreatesSecret);
            && (i < |src.child.secretGenerator| ==>
                  var g := src.child.secretGenerator[i];
                  && (g.behavior != "create" ==> RewriteSecret(compDir, src.dir, g) in list)
                  && exists y :: y in list && y.name == g.name)
            && (x in list ==> exists s, g :: s in srcs && s.child.bases.Some? && g in s.child.secretGenerator
                                             && x == RewriteSecret(compDir, s.dir, g))
  {
    var all := Flat(srcs, SecretsOf(compDir));
    if i < |src.child.secretGenerator| {
      var g := src.child.secretGenerator[i];
      SecretMeans(compDir, src.dir, g);
      hide RewriteSecret, SameSources, CleanDir;
      assert SecretsOf(compDir)(src)[i] == RewriteSecret(compDir, src.dir, g);
      GeneratorsKept(srcs, SecretsOf(compDir), CreatesSecret, src, RewriteSecret(compDir, src.dir, g));
    }
    FirstsKeep(all, GeneratorName, CreatesSecret, x);
    FlatMeans(srcs, SecretsOf(compDir), x);
    hide RewriteSecret, Flat, Firsts;
    if x in all {
      var s :| s in srcs && s.child.bases.Some? && x in SecretsOf(compDir)(s);
      var j :| 0 <= j < |SecretsOf(compDir)(s)| && SecretsOf(compDir)(s)[j] == x;
      assert s.child.secretGenerator[j] in s.child.secretGenerator;
    }
  }

  // ----- settings -----

  /** Only labels of files with a bases list are merged; the last file that has a label decides its value. */
  lemma {:induction false} LabelsMean(compDir: string, srcs: seq<Source>, k: string, i: nat)
    ensures var values := Merge(compDir, srcs).commonLabels.values;
            && (k in values <==> exists s :: s in srcs && s.child.bases.Some? && k in s.child.commonLabels)
            && (&& i < |srcs| && srcs[i].child.bases.Some? && k in srcs[i].child.commonLabels
                && (forall j | i < j < |srcs| :: srcs[j].child.bases.None? || k !in srcs[j].child.commonLabels)
                ==> k in values && values[k] == srcs[i].child.commonLabels[k])
  {
    MergeRefinesLabels(compDir, srcs);
    LabelsAre(srcs, k, i);
    hide Merge, LabelsOf;
  }

  lemma {:induction false} LabelsAre(srcs: seq<Source>, k: string, i: nat)
    ensures k in LabelsOf(srcs) <==> exists s :: s in srcs && s.child.bases.Some? && k in s.child.commonLabels
    ensures && i < |srcs| && srcs[i].child.bases.Some? && k in srcs[i].child.commonLabels
            && (forall j | i < j < |srcs| :: srcs[j].child.bases.None? || k !in srcs[j].child.commonLabels)
            ==> k in LabelsOf(srcs) && LabelsOf(srcs)[k] == srcs[i].child.commonLabels[k]
  {
    if srcs != [] {
      var init, last := srcs[..|srcs| - 1], srcs[|srcs| - 1];
      assert srcs == init + [last];
      LabelsAre(init, k, i);
    }
  }

  /** The same for annotations. */
  lemma AnnotationsMean(compDir: string, srcs: seq<Source>, k: string, i: nat)
    ensures var values := Merge(compDir, srcs).commonAnnotations.values;
            && (k in values <==> exists s :: s in srcs && s.child.bases.Some? && k in s.child.commonAnnotations)
            && (&& i < |srcs| && srcs[i].child.bases.Some? && k in srcs[i].child.commonAnnotations
                && (forall j | i < j < |srcs| :: srcs[j].child.bases.None? || k !in srcs[j].child.commonAnnotations)
                ==> k in values && values[k] == srcs[i].child.commonAnnotations[k])
  {
    MergeRefinesAnnotations(compDir, srcs);
    AnnotationsAre(srcs, k, i);
    hide Merge, AnnotationsOf;
  }

  lemma {:induction false} AnnotationsAre(srcs: seq<Source>, k: string, i: nat)
    ensures k in AnnotationsOf(srcs) <==> exists s :: s in srcs && s.child.bases.Some? && k in s.child.commonAnnotations
    ensures && i < |srcs| && srcs[i].child.bases.Some? && k in srcs[i].child.commonAnnotations
            && (forall j | i < j < |srcs| :: srcs[j].child.bases.None? || k !in srcs[j].child.commonAnnotations)
            ==> k in AnnotationsOf(srcs) && AnnotationsOf(srcs)[k] == srcs[i].child.commonAnnotations[k]
  {
    if srcs != [] {
      var init, last := srcs[..|srcs| - 1], srcs[|srcs| - 1];
      assert srcs == init + [last];
      AnnotationsAre(init, k, i);
    }
  }

  /** The i-th file is the first one with a bases list that sets the field. */
  ghost predicate SetsFirst(srcs: seq<Source>, i: nat, sets: Kustomization -> bool)
    requires i < |srcs|
  {
    && srcs[i].child.bases.Some? && sets(srcs[i].child)
    && forall j | 0 <= j < i :: srcs[j].child.bases.None? || !sets(srcs[j].child)
  }

  lemma {:induction false} FlatOfNothing(srcs: seq<Source>, f: Source -> seq<string>)
    requires forall s | s in srcs :: s.child.bases.None? || f(s) == []
    ensures Flat(srcs, f) == []
  {
    if srcs != [] {
      var n := |srcs| - 1;
      assert srcs[n] in srcs && forall s | s in srcs[..n] :: s in srcs;
      FlatOfNothing(srcs[..n], f);
    }
  }

  lemma HeadOfFirst(srcs: seq<Source>, f: Source -> seq<string>, sets: Kustomization -> bool, i: nat)
    requires i < |srcs| && SetsFirst(srcs, i, sets) && f(srcs[i]) != []
    requires forall s: Source :: !sets(s.child) ==> f(s) == []
    ensures Head(Flat(srcs, f)) == Some(f(srcs[i])[0])
  {
    hide Flat, Head;
    forall s | s in srcs[..i] ensures s.child.bases.None? || f(s) == [] {
      var j :| 0 <= j < i && srcs[j] == s;
    }
    FlatOfNothing(srcs[..i], f);
    hide SetsFirst;
    assert srcs == srcs[..i] + [srcs[i]] + srcs[i + 1..];
    HeadAround(srcs[..i], srcs[i], srcs[i + 1..], f);
  }

  lemma HeadAround(before: seq<Source>, src: Source, behind: seq<Source>, f: Source -> seq<string>)
    requires Flat(before, f) == [] && src.child.bases.Some? && f(src) != []
    ensures Head(Flat(before + [src] + behind, f)) == Some(f(src)[0])
  {
    hide Flat, Head;
    FlatAround(before, src, behind, f);
    HeadOfSome(f(src), Flat(behind, f));
  }

  lemma HeadOfSome(xs: seq<string>, more: seq<string>)
    requires xs != []
    ensures Head([] + xs + more) == Some(xs[0])
  {
  }

  /** Name prefix, name suffix and generator options come from the first file that sets them. */
  lemma FirstSettingWins(compDir: string, srcs: seq<Source>, i: nat)
    requires i < |srcs|
    ensures var p := Merge(compDir, srcs);
            && (SetsFirst(srcs, i, (k: Kustomization) => k.namePrefix != "") ==>
                  p.namePrefix == srcs[i].child.namePrefix)
            && (SetsFirst(srcs, i, (k: Kustomization) => k.nameSuffix != "") ==>
                  p.nameSuffix == srcs[i].child.nameSuffix)
            && (SetsFirst(srcs, i, (k: Kustomization) => k.generatorOptions.Some?) ==>
                  p.generatorOptions == srcs[i].child.generatorOptions)
  {
    MergeRefinesScalars(compDir, srcs);
    hide Merge, Flat;
    if SetsFirst(srcs, i, (k: Kustomization) => k.namePrefix != "") {
      HeadOfFirst(srcs, PrefixOf, (k: Kustomization) => k.namePrefix != "", i);
    }
    if SetsFirst(srcs, i, (k: Kustomization) => k.nameSuffix != "") {
      HeadOfFirst(srcs, SuffixOf, (k: Kustomization) => k.nameSuffix != "", i);
    }
    if SetsFirst(srcs, i, (k: Kustomization) => k.generatorOptions.Some?) {
      HeadOfFirst(srcs, OptionsOf, (k: Kustomization) => k.generatorOptions.Some?, i);
    }
  }

  /** Fields that no file with a bases list sets stay empty. */
  lemma UnsetStaysEmpty(compDir: string, srcs: seq<Source>)
    ensures var p := Merge(compDir, srcs);
            && ((forall s | s in srcs :: s.child.bases.None? || s.child.namePrefix == "") ==> p.namePrefix == "")
            && ((forall s | s in srcs :: s.child.bases.None? || s.child.nameSuffix == "") ==> p.nameSuffix == "")
            && ((forall s | s in srcs :: s.child.bases.None? || s.child.generatorOptions.None?) ==>
                  p.generatorOptions == None)
  {
    MergeRefinesScalars(compDir, srcs);
    hide Merge, Flat;
    if forall s | s in srcs :: s.child.bases.None? || s.child.namePrefix == "" {
      FlatOfNothing(srcs, PrefixOf);
    }
    if forall s | s in srcs :: s.child.bases.None? || s.child.nameSuffix == "" {
      FlatOfNothing(srcs, SuffixOf);
    }
    if forall s | s in srcs :: s.child.bases.None? || s.child.generatorOptions.None? {
      FlatOfNothing(srcs, OptionsOf);
    }
  }
}
