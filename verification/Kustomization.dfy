/** Kustomization files and what merging a list of them into one should give
    (pkg/kfapp/kustomize/kustomize.go:927-1078). */
module Kustomizations {
  import opened Wrappers
  import opened Paths
  import opened FirstOccurrence

  datatype Target = Target(name: string, namespace: string, group: string, version: string, kind: string, gvk: string)
  datatype JsonPatch = JsonPatch(path: string, target: Target)
  datatype Image = Image(name: string, newName: string, newTag: string, digest: string)
  datatype Var = Var(name: string, body: string)
  datatype GeneratorArgs = GeneratorArgs(envSources: seq<string>, envSource: string,
                                         fileSources: seq<string>, literalSources: seq<string>)

  /** A config map or secret generator. */
  datatype Generator = Generator(name: string, namespace: string, behavior: string, args: GeneratorArgs)

  /** `bases` is None for a file without a bases list (nil in Go). */
  datatype Kustomization = Kustomization(
    bases: Option<seq<string>>, namePrefix: string, nameSuffix: string, namespace: string,
    commonLabels: map<string, string>, commonAnnotations: map<string, string>, generatorOptions: Option<string>,
    resources: seq<string>, images: seq<Image>, crds: seq<string>,
    configMapGenerator: seq<Generator>, secretGenerator: seq<Generator>, vars: seq<Var>,
    patchesStrategicMerge: seq<string>, patchesJson6902: seq<JsonPatch>, configurations: seq<string>)

  /** A kustomization and the directory it lies in. */
  datatype Source = Source(dir: string, child: Kustomization)

  // ----- rewriting -----

  function RewriteAll(compDir: string, dir: string, values: seq<string>): (r: seq<string>)
    ensures |r| == |values| && forall i | 0 <= i < |values| :: r[i] == Rewritten(compDir, dir, values[i])
  {
    seq(|values|, i requires 0 <= i < |values| => Rewritten(compDir, dir, values[i]))
  }

  function RewritePatch(compDir: string, dir: string, p: JsonPatch): JsonPatch {
    p.(path := Rewritten(compDir, dir, p.path))
  }

  /** updateGeneratorArgs. File sources are dropped, and the last of them ends up as the env source. */
  function RewriteArgs(compDir: string, dir: string, parent: GeneratorArgs, child: GeneratorArgs): GeneratorArgs {
    GeneratorArgs(
      if child.envSources != [] then RewriteAll(compDir, dir, child.envSources) else parent.envSources,
      if child.fileSources != [] then Rewritten(compDir, dir, child.fileSources[|child.fileSources| - 1])
      else if child.envSource != "" then Rewritten(compDir, dir, child.envSource)
      else parent.envSource,
      if child.fileSources != [] then [] else parent.fileSources,
      if child.literalSources != [] then child.literalSources else parent.literalSources)
  }

  /** types.NewGenerationBehavior followed by String. */
  function Behavior(s: string): string {
    if s == "create" || s == "merge" || s == "replace" then s else "unspecified"
  }

  const NO_ARGS := GeneratorArgs([], "", [], [])

  /** A config map generator that creates loses its behaviour, any other one has it spelled out. */
  function RewriteConfigMap(compDir: string, dir: string, g: Generator): Generator {
    Generator(g.name, g.namespace, if g.behavior == "create" then "" else Behavior(g.behavior),
              RewriteArgs(compDir, dir, NO_ARGS, g.args))
  }

  function RewriteSecret(compDir: string, dir: string, g: Generator): Generator {
    Generator(g.name, g.namespace, Behavior(g.behavior), RewriteArgs(compDir, dir, g.args, g.args))
  }

  /** extractSuffix does not slice beyond the string for any of the paths: none is compDir itself. */
  predicate AllFit(compDir: string, dir: string, values: seq<string>) {
    forall v | v in values :: HasSuffix(compDir, PathJoin(dir, v))
  }

  predicate ArgsFit(compDir: string, dir: string, args: GeneratorArgs) {
    && AllFit(compDir, dir, args.envSources) && AllFit(compDir, dir, args.fileSources)
    && (args.envSource != "" ==> HasSuffix(compDir, PathJoin(dir, args.envSource)))
  }

  /** All paths the merge of this file rewrites. */
  predicate CanRewrite(compDir: string, src: Source) {
    var c := src.child;
    && HasSuffix(compDir, src.dir)
    && (c.bases.Some? ==>
          && AllFit(compDir, src.dir, c.bases.value) && AllFit(compDir, src.dir, c.resources)
          && AllFit(compDir, src.dir, c.patchesStrategicMerge) && AllFit(compDir, src.dir, c.configurations)
          && (forall p | p in c.patchesJson6902 :: HasSuffix(compDir, PathJoin(src.dir, p.path)))
          && (forall g | g in c.configMapGenerator :: ArgsFit(compDir, src.dir, g.args))
          && (forall g | g in c.secretGenerator :: ArgsFit(compDir, src.dir, g.args)))
  }

  // ----- keys -----

  function Self(x: string): string { x }
  function ImageName(x: Image): string { x.name }
  function VarName(x: Var): string { x.name }
  function GeneratorName(x: Generator): string { x.name }
  function PatchKey(x: JsonPatch): string { x.path + "-" + x.target.name }
  function CreatesConfigMap(x: Generator): bool { x.behavior == "" }
  function CreatesSecret(x: Generator): bool { x.behavior == "create" }

  // ----- the lists of one file, after rewriting -----

  function ResourcesOf(compDir: string): Source -> seq<string> {
    (s: Source) => RewriteAll(compDir, s.dir, s.child.resources)
  }
  function StrategicOf(compDir: string): Source -> seq<string> {
    (s: Source) => RewriteAll(compDir, s.dir, s.child.patchesStrategicMerge)
  }
  function ConfigurationsOf(compDir: string): Source -> seq<string> {
    (s: Source) => RewriteAll(compDir, s.dir, s.child.configurations)
  }
  function PatchesOf(compDir: string): Source -> seq<JsonPatch> {
    (s: Source) => seq(|s.child.patchesJson6902|, i requires 0 <= i < |s.child.patchesJson6902| =>
                         RewritePatch(compDir, s.dir, s.child.patchesJson6902[i]))
  }
  function ConfigMapsOf(compDir: string): Source -> seq<Generator> {
    (s: Source) => seq(|s.child.configMapGenerator|, i requires 0 <= i < |s.child.configMapGenerator| =>
                         RewriteConfigMap(compDir, s.dir, s.child.configMapGenerator[i]))
  }
  function SecretsOf(compDir: string): Source -> seq<Generator> {
    (s: Source) => seq(|s.child.secretGenerator|, i requires 0 <= i < |s.child.secretGenerator| =>
                         RewriteSecret(compDir, s.dir, s.child.secretGenerator[i]))
  }
  function ImagesOf(s: Source): seq<Image> { s.child.images }
  function CrdsOf(s: Source): seq<string> { s.child.crds }
  function VarsOf(s: Source): seq<Var> { s.child.vars }

  // ----- the lists of several files -----

  /** The files' lists one after the other; a file without a bases list contributes nothing. */
  function Flat<T>(srcs: seq<Source>, f: Source -> seq<T>): seq<T> {
    if srcs == [] then []
    else
      var last := srcs[|srcs| - 1];
      Flat(srcs[..|srcs| - 1], f) + (if last.child.bases.None? then [] else f(last))
  }

  /** Labels, later files winning. */
  function LabelsOf(srcs: seq<Source>): map<string, string> {
    if srcs == [] then map[]
    else
      var last := srcs[|srcs| - 1];
      LabelsOf(srcs[..|srcs| - 1]) + (if last.child.bases.None? then map[] else last.child.commonLabels)
  }

  function AnnotationsOf(srcs: seq<Source>): map<string, string> {
    if srcs == [] then map[]
    else
      var last := srcs[|srcs| - 1];
      AnnotationsOf(srcs[..|srcs| - 1]) + (if last.child.bases.None? then map[] else last.child.commonAnnotations)
  }

  function PrefixOf(s: Source): seq<string> { if s.child.namePrefix == "" then [] else [s.child.namePrefix] }
  function SuffixOf(s: Source): seq<string> { if s.child.nameSuffix == "" then [] else [s.child.nameSuffix] }
  function OptionsOf(s: Source): seq<string> {
    if s.child.generatorOptions.None? then [] else [s.child.generatorOptions.value]
  }

  /** The first element, for fields where the first file that sets them wins. */
  function Head(xs: seq<string>): Option<string> {
    if xs == [] then None else Some(xs[0])
  }

  // ----- bases -----

  /** The list of bases together with its index, which also holds markers of some files' own paths. */
  datatype Bases = Bases(list: seq<string>, index: set<string>)

  /** A file with the path `own` asks for the base `path`; if it `marks`, its own path is indexed when the
      base is there already. */
  datatype Request = Request(path: string, own: string, marks: bool)

  function Ask(b: Bases, r: Request): Bases {
    if r.path !in b.index then Bases(b.list + [r.path], b.index + {r.path})
    else if r.marks then Bases(b.list, b.index + {r.own})
    else b
  }

  function AskAll(b: Bases, rs: seq<Request>): Bases {
    if rs == [] then b else Ask(AskAll(b, rs[..|rs| - 1]), rs[|rs| - 1])
  }

  function OwnPath(compDir: string, src: Source): string {
    if HasSuffix(compDir, src.dir) then ExtractSuffix(compDir, src.dir) else ""
  }

  function Asking(own: string, paths: seq<string>): (rs: seq<Request>)
    ensures |rs| == |paths| && forall i | 0 <= i < |paths| :: rs[i] == Request(paths[i], own, true)
  {
    seq(|paths|, i requires 0 <= i < |paths| => Request(paths[i], own, true))
  }

  /** Without a bases list a file asks for itself, and marks nothing. */
  function RequestsOf(compDir: string, src: Source): seq<Request> {
    var own := OwnPath(compDir, src);
    match src.child.bases
    case None => [Request(own, own, false)]
    case Some(values) => Asking(own, RewriteAll(compDir, src.dir, values))
  }

  function AllRequests(compDir: string, srcs: seq<Source>): seq<Request> {
    if srcs == [] then []
    else AllRequests(compDir, srcs[..|srcs| - 1]) + RequestsOf(compDir, srcs[|srcs| - 1])
  }

  function BasesAfter(compDir: string, b: Bases, src: Source): Bases {
    AskAll(b, RequestsOf(compDir, src))
  }

  function BasesOf(compDir: string, srcs: seq<Source>): Bases {
    if srcs == [] then Bases([], {})
    else BasesAfter(compDir, BasesOf(compDir, srcs[..|srcs| - 1]), srcs[|srcs| - 1])
  }

  lemma AskOne(b: Bases, r: Request)
    ensures AskAll(b, [r]) == Ask(b, r)
  {
    assert [r][..0] == [];
  }

  lemma {:induction false} AskAllConcat(b: Bases, rs: seq<Request>, more: seq<Request>)
    ensures AskAll(b, rs + more) == AskAll(AskAll(b, rs), more)
    decreases |more|
  {
    if more == [] {
      assert rs + more == rs;
    } else {
      assert (rs + more)[..|rs + more| - 1] == rs + more[..|more| - 1];
      AskAllConcat(b, rs, more[..|more| - 1]);
    }
  }

  lemma {:induction false} BasesAreAsked(compDir: string, srcs: seq<Source>)
    ensures BasesOf(compDir, srcs) == AskAll(Bases([], {}), AllRequests(compDir, srcs))
  {
    hide RequestsOf;
    if srcs != [] {
      var init, last := srcs[..|srcs| - 1], srcs[|srcs| - 1];
      BasesAreAsked(compDir, init);
      AskAllConcat(Bases([], {}), AllRequests(compDir, init), RequestsOf(compDir, last));
      hide AskAll;
    }
  }

  /** The base paths the files ask for, in order. */
  function Wanted(rs: seq<Request>): (ps: seq<string>)
    ensures |ps| == |rs| && forall i | 0 <= i < |rs| :: ps[i] == rs[i].path
  {
    seq(|rs|, i requires 0 <= i < |rs| => rs[i].path)
  }

  /** The own paths of files with a bases list that have asked for a path wanted before. */
  function Repeaters(rs: seq<Request>): set<string> {
    set i | 0 <= i < |rs| && rs[i].marks && rs[i].path in Wanted(rs[..i]) :: rs[i].own
  }

  /** No path that is wanted for the first time is the own path of a file with a bases list that has by
      then asked for a path wanted before. */
  predicate Clear(rs: seq<Request>) {
    forall i | 0 <= i < |rs| :: rs[i].path in Wanted(rs[..i]) || rs[i].path !in Repeaters(rs[..i])
  }

  lemma RequestsSnoc(rs: seq<Request>, r: Request)
    ensures Wanted(rs + [r]) == Wanted(rs) + [r.path]
    ensures Repeaters(rs + [r]) == Repeaters(rs) + (if r.marks && r.path in Wanted(rs) then {r.own} else {})
    ensures Clear(rs + [r]) <==> Clear(rs) && (r.path in Wanted(rs) || r.path !in Repeaters(rs))
    ensures AskAll(Bases([], {}), rs + [r]) == Ask(AskAll(Bases([], {}), rs), r)
  {
    var all := rs + [r];
    assert all[..|rs|] == rs && all[..|all| - 1] == rs;
    forall i | 0 <= i < |rs| ensures all[..i] == rs[..i] && all[i] == rs[i] { }
    hide Wanted, Ask;
    forall own ensures own in Repeaters(all)
                       <==> own in Repeaters(rs) || (r.marks && r.path in Wanted(rs) && own == r.own)
    {
      if own in Repeaters(rs) {
        var i :| 0 <= i < |rs| && rs[i].marks && rs[i].path in Wanted(rs[..i]) && rs[i].own == own;
        assert all[i].own in Repeaters(all);
      }
    }
    assert Clear(all) ==> all[|rs|].path in Wanted(all[..|rs|]) || all[|rs|].path !in Repeaters(all[..|rs|]);
  }

  /** The list has the first wanted paths, and the index those and the repeaters. */
  ghost predicate BasesMatch(b: Bases, rs: seq<Request>) {
    b.list == Firsts(Wanted(rs), Self, Always) && b.index == Keys(Wanted(rs), Self) + Repeaters(rs)
  }

  /** Some wanted path is indexed without being listed, so it can never be listed. */
  ghost predicate Lost(b: Bases, rs: seq<Request>) {
    exists p :: p in Wanted(rs) && p in b.index && p !in b.list
  }

  lemma MatchGoesOn(b: Bases, rs: seq<Request>, r: Request)
    requires BasesMatch(b, rs) && (r.path in Wanted(rs) || r.path !in Repeaters(rs))
    ensures BasesMatch(Ask(b, r), rs + [r])
  {
    RequestsSnoc(rs, r);
    FirstsSnoc(Wanted(rs), r.path, Self, Always);
    KeysSnoc(Wanted(rs), r.path, Self);
    KeysOfSelf(Wanted(rs));
    hide Firsts, Keys, Repeaters, Wanted, Clear, AskAll;
  }

  lemma MatchIsLost(b: Bases, rs: seq<Request>, r: Request)
    requires BasesMatch(b, rs) && r.path !in Wanted(rs) && r.path in Repeaters(rs)
    ensures Lost(Ask(b, r), rs + [r])
  {
    RequestsSnoc(rs, r);
    FirstsOfSelf(Wanted(rs));
    hide Firsts, Keys, Repeaters, Wanted, Clear, AskAll;
    assert r.path in Wanted(rs + [r]) && r.path in Ask(b, r).index && r.path !in Ask(b, r).list;
  }

  lemma LostStaysLost(b: Bases, rs: seq<Request>, r: Request)
    requires Lost(b, rs)
    ensures Lost(Ask(b, r), rs + [r])
  {
    RequestsSnoc(rs, r);
    hide Repeaters, Wanted, Clear, AskAll;
    var p :| p in Wanted(rs) && p in b.index && p !in b.list;
    assert p in Wanted(rs + [r]) && p in Ask(b, r).index && p !in Ask(b, r).list;
  }

  lemma {:induction false} AskedBases(rs: seq<Request>)
    ensures if Clear(rs) then BasesMatch(AskAll(Bases([], {}), rs), rs) else Lost(AskAll(Bases([], {}), rs), rs)
  {
    if rs != [] {
      var init, last := rs[..|rs| - 1], rs[|rs| - 1];
      assert rs == init + [last];
      AskedBases(init);
      RequestsSnoc(init, last);
      hide *;
      var b := AskAll(Bases([], {}), init);
      if !Clear(init) {
        LostStaysLost(b, init, last);
      } else if Clear(rs) {
        MatchGoesOn(b, init, last);
      } else {
        MatchIsLost(b, init, last);
      }
    }
  }

  lemma KeysOfSelf(xs: seq<string>)
    ensures forall x :: x in Keys(xs, Self) <==> x in xs
  {
  }

  lemma FirstsOfSelf(xs: seq<string>)
    ensures forall x :: x in Firsts(xs, Self, Always) <==> x in xs
  {
    FirstsHaveAllKeys(xs, Self, Always);
    KeysOfSelf(xs);
    KeysOfSelf(Firsts(xs, Self, Always));
  }

  /** The merged bases are the first occurrences of the wanted ones if and only if no path wanted for the
      first time is the own path of a file that has repeated a base by then. */
  lemma BasesAreFirstsIff(compDir: string, srcs: seq<Source>)
    ensures Merge(compDir, srcs).bases.list == Firsts(Wanted(AllRequests(compDir, srcs)), Self, Always)
            <==> Clear(AllRequests(compDir, srcs))
  {
    var rs := AllRequests(compDir, srcs);
    MergeRefinesBases(compDir, srcs);
    BasesAreAsked(compDir, srcs);
    AskedBases(rs);
    FirstsOfSelf(Wanted(rs));
    hide Merge, Clear, Firsts, AskAll, AllRequests;
  }

  /** In particular they are if no file with a bases list repeats a base. */
  lemma UnrepeatedIsClear(rs: seq<Request>)
    requires forall i | 0 <= i < |rs| && rs[i].marks :: rs[i].path !in Wanted(rs[..i])
    ensures Clear(rs)
  {
    forall i, j | 0 <= i < j < |rs| ensures rs[..j][..i] == rs[..i] && rs[..j][i] == rs[i] { }
  }

  /** The own paths of files with a bases list. */
  function Markers(rs: seq<Request>): set<string> {
    set i | 0 <= i < |rs| && rs[i].marks :: rs[i].own
  }

  lemma MarkersSnoc(rs: seq<Request>, r: Request)
    ensures Markers(rs + [r]) == Markers(rs) + (if r.marks then {r.own} else {})
  {
    var all := rs + [r];
    forall own ensures own in Markers(all) <==> own in Markers(rs) || (r.marks && own == r.own) {
      if own in Markers(rs) {
        var i :| 0 <= i < |rs| && rs[i].marks && rs[i].own == own;
        assert all[i].own in Markers(all);
      }
      assert r.marks ==> all[|rs|].own in Markers(all);
    }
  }

  /** No base is listed twice, every base was asked for, and the index holds all paths asked for and,
      besides the bases, only own paths of files with a bases list. */
  ghost predicate BasesIndexed(b: Bases, rs: seq<Request>) {
    && UniqueKeys(b.list, Self)
    && (forall x | x in b.list :: x in b.index && x in Wanted(rs))
    && (forall x | x in Wanted(rs) :: x in b.index)
    && (forall x | x in b.index :: x in b.list || x in Markers(rs))
  }

  lemma AskIndexed(b: Bases, rs: seq<Request>, r: Request)
    requires BasesIndexed(b, rs)
    ensures BasesIndexed(Ask(b, r), rs + [r])
  {
    RequestsSnoc(rs, r);
    MarkersSnoc(rs, r);
    hide AskAll, Wanted, Clear, Markers, Repeaters;
  }

  lemma {:induction false} AskedAreIndexed(rs: seq<Request>)
    ensures BasesIndexed(AskAll(Bases([], {}), rs), rs)
  {
    if rs != [] {
      var init, last := rs[..|rs| - 1], rs[|rs| - 1];
      assert rs == init + [last];
      AskedAreIndexed(init);
      AskIndexed(AskAll(Bases([], {}), init), init, last);
      hide BasesIndexed, Ask;
    }
  }

  lemma BasesAreIndexed(compDir: string, srcs: seq<Source>)
    ensures BasesIndexed(Merge(compDir, srcs).bases, AllRequests(compDir, srcs))
  {
    MergeRefinesBases(compDir, srcs);
    BasesAreAsked(compDir, srcs);
    AskedAreIndexed(AllRequests(compDir, srcs));
    hide *;
  }

  /** A kustomization with nothing but a bases list. */
  function OnlyBases(bases: Option<seq<string>>): Kustomization {
    Kustomization(bases, "", "", "", map[], map[], None, [], [], [], [], [], [], [], [], [])
  }

  const BASE := "base"
  const OVERLAYS := "overlays"

  /** A base without a bases list, an overlay x of it, and an overlay y of x. */
  function Stacked(compDir: string, x: string, y: string): seq<Source> {
    [Source(compDir + "/" + BASE, OnlyBases(None)),
     Source(compDir + "/" + (OVERLAYS + "/" + x), OnlyBases(Some([".." + "/" + ".." + "/" + BASE]))),
     Source(compDir + "/" + (OVERLAYS + "/" + y), OnlyBases(Some([".." + "/" + x])))]
  }

  /** From an overlay, two levels up to a base, and one level up to another overlay. */
  lemma OverlayPaths(compDir: string, overlays: string, x: string, y: string, base: string)
    requires CleanDir(compDir) && SingleSegment(overlays) && SingleSegment(x) && SingleSegment(y) && SingleSegment(base)
    ensures Rewritten(compDir, compDir + "/" + (overlays + "/" + x), ".." + "/" + ".." + "/" + base) == base
    ensures Rewritten(compDir, compDir + "/" + (overlays + "/" + y), ".." + "/" + x) == overlays + "/" + x
  {
    UpTwo(overlays, x, base);
    UpOne(overlays, y, x);
    GlueTwo(overlays, x);
    hide Inner, Glue;
    BelowIsRewritten(compDir, overlays + "/" + x, ".." + "/" + ".." + "/" + base);
    BelowIsRewritten(compDir, overlays + "/" + y, ".." + "/" + x);
  }

  lemma RequestsOfOne(compDir: string, src: Source, own: string, value: string, path: string)
    requires src.dir == compDir + "/" + own && src.child.bases == Some([value])
    requires Rewritten(compDir, src.dir, value) == path
    ensures RequestsOf(compDir, src) == [Request(path, own, true)]
  {
    hide Rewritten;
    assert src.dir[|compDir| + 1..] == own;
  }

  lemma RequestsOfSelf(compDir: string, src: Source, own: string)
    requires src.dir == compDir + "/" + own && src.child.bases == None
    ensures RequestsOf(compDir, src) == [Request(own, own, false)]
  {
    assert src.dir[|compDir| + 1..] == own;
  }

  lemma StackedRequests(compDir: string, x: string, y: string)
    requires CleanDir(compDir) && SingleSegment(x) && SingleSegment(y)
    ensures var own, next := OVERLAYS + "/" + x, OVERLAYS + "/" + y;
            AllRequests(compDir, Stacked(compDir, x, y))
            == [Request(BASE, BASE, false), Request(BASE, own, true), Request(own, next, true)]
  {
    var srcs, own, next := Stacked(compDir, x, y), OVERLAYS + "/" + x, OVERLAYS + "/" + y;
    OverlayPaths(compDir, OVERLAYS, x, y, BASE);
    hide Rewritten, RequestsOf, CleanDir;
    RequestsOfSelf(compDir, srcs[0], BASE);
    RequestsOfOne(compDir, srcs[1], own, ".." + "/" + ".." + "/" + BASE, BASE);
    RequestsOfOne(compDir, srcs[2], next, ".." + "/" + x, own);
    assert srcs[..2][..1] == srcs[..1] && srcs[..1][..0] == [];
    assert AllRequests(compDir, srcs[..1]) == AllRequests(compDir, []) + RequestsOf(compDir, srcs[0]);
    assert AllRequests(compDir, srcs[..2]) == AllRequests(compDir, srcs[..1]) + RequestsOf(compDir, srcs[1]);
  }

  lemma FirstsOfThree(a: string, b: string)
    requires a != b
    ensures Firsts([a, a, b], Self, Always) == [a, b]
  {
    FirstsSnoc([], a, Self, Always);
    FirstsSnoc([a], a, Self, Always);
    FirstsSnoc([a, a], b, Self, Always);
    KeysOfSelf([a]);
    KeysOfSelf([a, a]);
    KeysOfSelf([]);
    assert Firsts([], Self, Always) == [];
    hide Firsts, Keys;
    assert [] + [a] == [a] && [a] + [a] == [a, a] && [a, a] + [b] == [a, a, b] && [a] + [b] == [a, b];
  }

  /** A file that repeats a base marks its own path, so that the next file cannot add it. */
  lemma RepeaterHidesItself(r: Request, s: Request, t: Request)
    requires r.path == s.path && s.own == t.path && s.marks && s.own != s.path
    ensures AskAll(Bases([], {}), [r, s, t]).list == [r.path]
    ensures Firsts(Wanted([r, s, t]), Self, Always) == [r.path, s.own]
  {
    AskOne(Bases([], {}), r);
    AskAllConcat(Bases([], {}), [r], [s]);
    AskAllConcat(Bases([], {}), [r] + [s], [t]);
    AskOne(Ask(Bases([], {}), r), s);
    AskOne(Ask(Ask(Bases([], {}), r), s), t);
    FirstsOfThree(r.path, s.own);
    hide AskAll, Firsts;
    assert [r] + [s] + [t] == [r, s, t] && Wanted([r, s, t]) == [r.path, r.path, s.own];
  }

  /** So with a base, an overlay of it and an overlay of that overlay, the second base is lost. */
  lemma StackedOverlayIsLost(compDir: string, x: string, y: string)
    requires CleanDir(compDir) && SingleSegment(x) && SingleSegment(y)
    ensures Merge(compDir, Stacked(compDir, x, y)).bases.list == [BASE]
    ensures Firsts(Wanted(AllRequests(compDir, Stacked(compDir, x, y))), Self, Always) == [BASE, OVERLAYS + "/" + x]
  {
    StackedRequests(compDir, x, y);
    MergeRefinesBases(compDir, Stacked(compDir, x, y));
    BasesAreAsked(compDir, Stacked(compDir, x, y));
    assert (OVERLAYS + "/" + x)[0] != BASE[0];
    var own, next := OVERLAYS + "/" + x, OVERLAYS + "/" + y;
    RepeaterHidesItself(Request(BASE, BASE, false), Request(BASE, own, true), Request(own, next, true));
    hide *;
  }

  // ----- the parent and one step of the merge -----

  /** A map of the parent together with its index map. */
  datatype Labels = Labels(values: map<string, string>, index: set<string>)

  function Override(l: Labels, more: map<string, string>): Labels {
    Labels(l.values + more, l.index + more.Keys)
  }

  /** The parent kustomization with the index map of every list. */
  datatype Parent = Parent(
    bases: Bases, namePrefix: string, nameSuffix: string, generatorOptions: Option<string>,
    commonLabels: Labels, commonAnnotations: Labels,
    resources: Table<string>, images: Table<Image>, crds: Table<string>,
    configMapGenerator: Table<Generator>, secretGenerator: Table<Generator>, vars: Table<Var>,
    patchesStrategicMerge: Table<string>, patchesJson6902: Table<JsonPatch>, configurations: Table<string>)

  function Empty<T>(): Table<T> { Table([], {}) }

  const NEW_PARENT := Parent(Bases([], {}), "", "", None, Labels(map[], {}), Labels(map[], {}),
                             Empty(), Empty(), Empty(), Empty(), Empty(), Empty(), Empty(), Empty(), Empty())

  /** The first non-empty value wins. */
  function Prefer(current: string, more: string): string {
    if current == "" then more else current
  }

  function MergeSettings(compDir: string, p: Parent, src: Source): Parent {
    p.(bases := BasesAfter(compDir, p.bases, src),
       namePrefix := Prefer(p.namePrefix, src.child.namePrefix),
       nameSuffix := Prefer(p.nameSuffix, src.child.nameSuffix),
       generatorOptions := if p.generatorOptions.None? then src.child.generatorOptions else p.generatorOptions,
       commonLabels := Override(p.commonLabels, src.child.commonLabels),
       commonAnnotations := Override(p.commonAnnotations, src.child.commonAnnotations))
  }

  function MergeLists(compDir: string, p: Parent, src: Source): Parent {
    p.(resources := PutAll(p.resources, ResourcesOf(compDir)(src), Self, Always),
       images := PutAll(p.images, ImagesOf(src), ImageName, Always),
       crds := PutAll(p.crds, CrdsOf(src), Self, Always),
       configMapGenerator := PutAll(p.configMapGenerator, ConfigMapsOf(compDir)(src), GeneratorName, CreatesConfigMap),
       secretGenerator := PutAll(p.secretGenerator, SecretsOf(compDir)(src), GeneratorName, CreatesSecret),
       vars := PutAll(p.vars, VarsOf(src), VarName, Always),
       patchesStrategicMerge := PutAll(p.patchesStrategicMerge, StrategicOf(compDir)(src), Self, Always),
       patchesJson6902 := PutAll(p.patchesJson6902, PatchesOf(compDir)(src), PatchKey, Always),
       configurations := PutAll(p.configurations, ConfigurationsOf(compDir)(src), Self, Always))
  }

  /** One file folded in; without a bases list only the bases can change. */
  function MergeFile(compDir: string, p: Parent, src: Source): Parent {
    if src.child.bases.None? then p.(bases := BasesAfter(compDir, p.bases, src))
    else MergeLists(compDir, MergeSettings(compDir, p, src), src)
  }

  /** Files folded into a new parent, one after the other. */
  function Merge(compDir: string, srcs: seq<Source>): Parent {
    if srcs == [] then NEW_PARENT
    else MergeFile(compDir, Merge(compDir, srcs[..|srcs| - 1]), srcs[|srcs| - 1])
  }

  // ----- the merge refines the list specification -----

  /** One table of the parent, folded on its own. */
  function Fold<T>(srcs: seq<Source>, f: Source -> seq<T>, key: T -> string, once: T -> bool): Table<T> {
    if srcs == [] then Empty()
    else
      var init, last := srcs[..|srcs| - 1], srcs[|srcs| - 1];
      if last.child.bases.None? then Fold(init, f, key, once) else PutAll(Fold(init, f, key, once), f(last), key, once)
  }

  lemma {:induction false} FoldRefines<T>(srcs: seq<Source>, f: Source -> seq<T>, key: T -> string, once: T -> bool)
    ensures Fold(srcs, f, key, once) == FirstTable(Flat(srcs, f), key, once)
  {
    if srcs != [] {
      var init, last := srcs[..|srcs| - 1], srcs[|srcs| - 1];
      FoldRefines(init, f, key, once);
      if last.child.bases.None? {
        assert Flat(init, f) + [] == Flat(init, f);
      } else {
        PutAllExtends(Flat(init, f), f(last), key, once);
      }
    }
  }

  lemma {:induction false} MergeIsFold(compDir: string, srcs: seq<Source>)
    ensures var p := Merge(compDir, srcs);
            && p.resources == Fold(srcs, ResourcesOf(compDir), Self, Always)
            && p.images == Fold(srcs, ImagesOf, ImageName, Always)
            && p.crds == Fold(srcs, CrdsOf, Self, Always)
            && p.configMapGenerator == Fold(srcs, ConfigMapsOf(compDir), GeneratorName, CreatesConfigMap)
            && p.secretGenerator == Fold(srcs, SecretsOf(compDir), GeneratorName, CreatesSecret)
            && p.vars == Fold(srcs, VarsOf, VarName, Always)
            && p.patchesStrategicMerge == Fold(srcs, StrategicOf(compDir), Self, Always)
            && p.patchesJson6902 == Fold(srcs, PatchesOf(compDir), PatchKey, Always)
            && p.configurations == Fold(srcs, ConfigurationsOf(compDir), Self, Always)
  {
    if srcs != [] {
      MergeIsFold(compDir, srcs[..|srcs| - 1]);
    }
  }

  /** The merge refines the list specification. After folding any files, base first, every list of the
      parent is the first occurrences of the files' rewritten lists one after the other, by path, name,
      or path and target name; generators are dropped only if they create what exists. Every index
      holds exactly the keys of its list. */
  lemma MergeRefinesLists(compDir: string, srcs: seq<Source>)
    ensures var p := Merge(compDir, srcs);
            && p.resources == FirstTable(Flat(srcs, ResourcesOf(compDir)), Self, Always)
            && p.images == FirstTable(Flat(srcs, ImagesOf), ImageName, Always)
            && p.crds == FirstTable(Flat(srcs, CrdsOf), Self, Always)
            && p.configMapGenerator == FirstTable(Flat(srcs, ConfigMapsOf(compDir)), GeneratorName, CreatesConfigMap)
            && p.secretGenerator == FirstTable(Flat(srcs, SecretsOf(compDir)), GeneratorName, CreatesSecret)
            && p.vars == FirstTable(Flat(srcs, VarsOf), VarName, Always)
            && p.patchesStrategicMerge == FirstTable(Flat(srcs, StrategicOf(compDir)), Self, Always)
            && p.patchesJson6902 == FirstTable(Flat(srcs, PatchesOf(compDir)), PatchKey, Always)
            && p.configurations == FirstTable(Flat(srcs, ConfigurationsOf(compDir)), Self, Always)
  {
    MergeIsFold(compDir, srcs);
    FoldRefines(srcs, ResourcesOf(compDir), Self, Always);
    FoldRefines(srcs, ImagesOf, ImageName, Always);
    FoldRefines(srcs, CrdsOf, Self, Always);
    FoldRefines(srcs, ConfigMapsOf(compDir), GeneratorName, CreatesConfigMap);
    FoldRefines(srcs, SecretsOf(compDir), GeneratorName, CreatesSecret);
    FoldRefines(srcs, VarsOf, VarName, Always);
    FoldRefines(srcs, StrategicOf(compDir), Self, Always);
    FoldRefines(srcs, PatchesOf(compDir), PatchKey, Always);
    FoldRefines(srcs, ConfigurationsOf(compDir), Self, Always);
  }

  /** The index holds exactly the keys of the list, which repeats none. */
  ghost predicate Agrees<T>(t: Table<T>, key: T -> string) {
    t.index == Keys(t.list, key) && UniqueKeys(t.list, key)
  }

  /** The index of a table of first occurrences agrees with its list, and if every element is to occur
      once, the list has no duplicate keys. */
  lemma TableAgrees<T>(xs: seq<T>, key: T -> string, once: T -> bool)
    ensures var t := FirstTable(xs, key, once);
            t.index == Keys(t.list, key) && (once == Always ==> Agrees(t, key))
  {
    FirstsHaveAllKeys(xs, key, once);
    FirstsAreUnique(xs, key);
  }

  /** After every file that is folded in, each index map holds exactly the keys of its list, and no list
      but those of generators repeats a key. */
  lemma IndexesAgree(compDir: string, srcs: seq<Source>)
    ensures var p := Merge(compDir, srcs);
            && Agrees(p.resources, Self) && Agrees(p.images, ImageName) && Agrees(p.crds, Self) && Agrees(p.vars, VarName)
            && Agrees(p.patchesStrategicMerge, Self) && Agrees(p.patchesJson6902, PatchKey)
            && Agrees(p.configurations, Self)
            && p.configMapGenerator.index == Keys(p.configMapGenerator.list, GeneratorName)
            && p.secretGenerator.index == Keys(p.secretGenerator.list, GeneratorName)
  {
    MergeRefinesLists(compDir, srcs);
    hide *;
    TableAgrees(Flat(srcs, ResourcesOf(compDir)), Self, Always);
    TableAgrees(Flat(srcs, ImagesOf), ImageName, Always);
    TableAgrees(Flat(srcs, CrdsOf), Self, Always);
    TableAgrees(Flat(srcs, VarsOf), VarName, Always);
    TableAgrees(Flat(srcs, StrategicOf(compDir)), Self, Always);
    TableAgrees(Flat(srcs, PatchesOf(compDir)), PatchKey, Always);
    TableAgrees(Flat(srcs, ConfigurationsOf(compDir)), Self, Always);
    TableAgrees(Flat(srcs, ConfigMapsOf(compDir)), GeneratorName, CreatesConfigMap);
    TableAgrees(Flat(srcs, SecretsOf(compDir)), GeneratorName, CreatesSecret);
  }

  /** What one file does to the fields that are not lists. */
  lemma MergeFileScalars(compDir: string, p: Parent, src: Source)
    ensures var r, c := MergeFile(compDir, p, src), src.child;
            && r.bases == BasesAfter(compDir, p.bases, src)
            && (c.bases.None? ==> r == p.(bases := r.bases))
            && (c.bases.Some? ==>
                  && r.commonLabels == Override(p.commonLabels, c.commonLabels)
                  && r.commonAnnotations == Override(p.commonAnnotations, c.commonAnnotations)
                  && r.namePrefix == Prefer(p.namePrefix, c.namePrefix)
                  && r.nameSuffix == Prefer(p.nameSuffix, c.nameSuffix)
                  && r.generatorOptions == if p.generatorOptions.None? then c.generatorOptions else p.generatorOptions)
  {
    hide BasesAfter, Override, Prefer, PutAll;
  }

  lemma {:induction false} MergeRefinesLabels(compDir: string, srcs: seq<Source>)
    ensures Merge(compDir, srcs).commonLabels == Labels(LabelsOf(srcs), LabelsOf(srcs).Keys)
  {
    if srcs != [] {
      var init, last := srcs[..|srcs| - 1], srcs[|srcs| - 1];
      MergeRefinesLabels(compDir, init);
      MergeFileScalars(compDir, Merge(compDir, init), last);
      hide MergeFile, BasesAfter, Prefer;
      assert LabelsOf(init) + map[] == LabelsOf(init);
    }
  }

  lemma {:induction false} MergeRefinesAnnotations(compDir: string, srcs: seq<Source>)
    ensures Merge(compDir, srcs).commonAnnotations == Labels(AnnotationsOf(srcs), AnnotationsOf(srcs).Keys)
  {
    if srcs != [] {
      var init, last := srcs[..|srcs| - 1], srcs[|srcs| - 1];
      MergeRefinesAnnotations(compDir, init);
      MergeFileScalars(compDir, Merge(compDir, init), last);
      hide MergeFile, BasesAfter, Prefer;
      assert AnnotationsOf(init) + map[] == AnnotationsOf(init);
    }
  }

  lemma {:induction false} MergeRefinesBases(compDir: string, srcs: seq<Source>)
    ensures Merge(compDir, srcs).bases == BasesOf(compDir, srcs)
  {
    if srcs != [] {
      var init, last := srcs[..|srcs| - 1], srcs[|srcs| - 1];
      MergeRefinesBases(compDir, init);
      MergeFileScalars(compDir, Merge(compDir, init), last);
      hide MergeFile, BasesAfter, Prefer, Override;
    }
  }

  lemma HeadSnoc(init: seq<string>, more: seq<string>)
    requires "" !in init
    ensures Head(init + more).GetOr("") == Prefer(Head(init).GetOr(""), Head(more).GetOr(""))
  {
  }

  /** A scalar field of the parent, folded on its own: the first file that sets it wins. */
  function FoldFirst(srcs: seq<Source>, f: Source -> seq<string>): string {
    if srcs == [] then ""
    else
      var init, last := srcs[..|srcs| - 1], srcs[|srcs| - 1];
      if last.child.bases.None? then FoldFirst(init, f) else Prefer(FoldFirst(init, f), Head(f(last)).GetOr(""))
  }

  lemma {:induction false} FoldFirstIsHead(srcs: seq<Source>, f: Source -> seq<string>)
    requires forall s :: "" !in f(s)
    ensures FoldFirst(srcs, f) == Head(Flat(srcs, f)).GetOr("")
  {
    if srcs != [] {
      var init, last := srcs[..|srcs| - 1], srcs[|srcs| - 1];
      FoldFirstIsHead(init, f);
      NonEmptyHead(init, f);
      if last.child.bases.None? {
        assert Flat(init, f) + [] == Flat(init, f);
      } else {
        HeadSnoc(Flat(init, f), f(last));
      }
    }
  }

  lemma {:induction false} MergeIsFoldFirst(compDir: string, srcs: seq<Source>)
    ensures Merge(compDir, srcs).namePrefix == FoldFirst(srcs, PrefixOf)
    ensures Merge(compDir, srcs).nameSuffix == FoldFirst(srcs, SuffixOf)
  {
    if srcs != [] {
      var init, last := srcs[..|srcs| - 1], srcs[|srcs| - 1];
      MergeIsFoldFirst(compDir, init);
      MergeFileScalars(compDir, Merge(compDir, init), last);
      hide MergeFile, BasesAfter, Override;
    }
  }

  lemma {:induction false} MergeRefinesOptions(compDir: string, srcs: seq<Source>)
    ensures Merge(compDir, srcs).generatorOptions == Head(Flat(srcs, OptionsOf))
  {
    if srcs != [] {
      var init, last := srcs[..|srcs| - 1], srcs[|srcs| - 1];
      MergeRefinesOptions(compDir, init);
      MergeFileScalars(compDir, Merge(compDir, init), last);
      hide MergeFile, BasesAfter, Override, Prefer;
      assert Flat(init, OptionsOf) + [] == Flat(init, OptionsOf);
    }
  }

  /** Labels and annotations are the right-biased merge of the files' maps, and their indexes hold the
      keys; name prefix, name suffix and generator options are the first that any file sets. */
  lemma MergeRefinesScalars(compDir: string, srcs: seq<Source>)
    ensures var p := Merge(compDir, srcs);
            && p.commonLabels == Labels(LabelsOf(srcs), LabelsOf(srcs).Keys)
            && p.commonAnnotations == Labels(AnnotationsOf(srcs), AnnotationsOf(srcs).Keys)
            && p.namePrefix == Head(Flat(srcs, PrefixOf)).GetOr("")
            && p.nameSuffix == Head(Flat(srcs, SuffixOf)).GetOr("")
            && p.generatorOptions == Head(Flat(srcs, OptionsOf))
  {
    MergeRefinesLabels(compDir, srcs);
    MergeRefinesAnnotations(compDir, srcs);
    MergeIsFoldFirst(compDir, srcs);
    FoldFirstIsHead(srcs, PrefixOf);
    FoldFirstIsHead(srcs, SuffixOf);
    MergeRefinesOptions(compDir, srcs);
  }

  /** Prefixes and suffixes that are listed are not empty. */
  lemma {:induction false} NonEmptyHead(srcs: seq<Source>, f: Source -> seq<string>)
    requires forall s :: "" !in f(s)
    ensures "" !in Flat(srcs, f)
  {
    if srcs != [] {
      NonEmptyHead(srcs[..|srcs| - 1], f);
    }
  }

  /** A file without a bases list contributes at most its own path, to the bases. */
  lemma NilBasesContributeNothing(compDir: string, p: Parent, src: Source)
    requires src.child.bases.None?
    ensures var own, after := OwnPath(compDir, src), MergeFile(compDir, p, src);
            && after == p.(bases := after.bases)
            && (if own in p.bases.index then after.bases == p.bases
                else after.bases.list == p.bases.list + [own] && after.bases.index == p.bases.index + {own})
  {
    AskOne(p.bases, RequestsOf(compDir, src)[0]);
  }
}
