/** Carrying plugin specs and parameter values over to a new KfConfig on upgrade
    (pkg/kfupgrade/kfupgrade.go:218-257, pkg/kfconfig/types.go:230-316). */
module Upgrade {
  import opened Wrappers
  import opened Applications
  import Loader

  /** The first same-named old value that differs from the new one, else the new one. */
  function MergedValue(olds: seq<NameValue>, param: NameValue): string {
    if olds == [] then param.value
    else if olds[0].name == param.name && olds[0].value != param.value then olds[0].value
    else MergedValue(olds[1..], param)
  }

  function MergeParams(news: seq<NameValue>, olds: seq<NameValue>): (r: seq<NameValue>)
    ensures |r| == |news|
    ensures forall i | 0 <= i < |news| :: r[i] == NameValue(news[i].name, MergedValue(olds, news[i]))
  {
    seq(|news|, i requires 0 <= i < |news| => NameValue(news[i].name, MergedValue(olds, news[i])))
  }

  /** What the code dereferences: for a new application with a namesake among the old ones, its own
      config, and the namesake's if there is a parameter to merge. */
  predicate MergeSafe(app: Application, olds: seq<Application>) {
    var i := First(AppNames(olds), app.name);
    i >= 0 ==> app.config.Some? && (app.config.value.parameters != [] ==> olds[i].config.Some?)
  }

  /** The parameters of the first same-named old application. */
  function OldParams(app: Application, olds: seq<Application>): seq<NameValue> {
    var i := First(AppNames(olds), app.name);
    if i >= 0 && olds[i].config.Some? then olds[i].config.value.parameters else []
  }

  function MergeApp(app: Application, olds: seq<Application>): Application {
    if app.config.None? then app
    else app.(config := Some(app.config.value.(parameters :=
           MergeParams(app.config.value.parameters, OldParams(app, olds)))))
  }

  function MergeApps(news: seq<Application>, olds: seq<Application>): (r: seq<Application>)
    ensures |r| == |news| && forall i | 0 <= i < |news| :: r[i] == MergeApp(news[i], olds)
  {
    seq(|news|, i requires 0 <= i < |news| => MergeApp(news[i], olds))
  }

  // ----- what merging means -----

  /** All values the old parameters give to this name are equal. */
  ghost predicate SingleValued(olds: seq<NameValue>, name: string) {
    forall i, j | 0 <= i < |olds| && 0 <= j < |olds| && olds[i].name == name && olds[j].name == name ::
      olds[i].value == olds[j].value
  }

  lemma {:induction false} MergedValueMeans(olds: seq<NameValue>, param: NameValue)
    ensures var v := MergedValue(olds, param);
            && (v != param.value ==> NameValue(param.name, v) in olds)
            && (v == param.value ==> forall o | o in olds && o.name == param.name :: o.value == v)
  {
    if olds != [] {
      assert olds == [olds[0]] + olds[1..];
      MergedValueMeans(olds[1..], param);
    }
  }

  /** If the old application gives the name a single value, a parameter takes that value; a parameter
      the old application does not have keeps its own. */
  lemma MergeTakesOldValue(olds: seq<NameValue>, param: NameValue)
    requires SingleValued(olds, param.name)
    ensures MergedValue(olds, param) == match GetParam(olds, param.name) case Some(v) => v case None => param.value
  {
  }

  /** Of several old values the first one that differs from the new value is taken. */
  lemma {:induction false} FirstDifferentValue(olds: seq<NameValue>, param: NameValue, i: nat)
    requires i < |olds| && olds[i].name == param.name && olds[i].value != param.value
    requires forall j | 0 <= j < i :: olds[j].name != param.name || olds[j].value == param.value
    ensures MergedValue(olds, param) == olds[i].value
  {
    if i > 0 {
      FirstDifferentValue(olds[1..], param, i - 1);
    }
  }

  lemma UniqueIsSingleValued(olds: seq<NameValue>, name: string)
    requires NoDuplicates(ParamNames(olds))
    ensures SingleValued(olds, name)
  {
  }

  /** Merging one parameter a second time changes nothing if and only if the old application gives its
      name a single value, whatever the new value is. */
  lemma ValueIdempotentIff(olds: seq<NameValue>, param: NameValue)
    ensures var once := NameValue(param.name, MergedValue(olds, param));
            MergedValue(olds, once) == once.value <==> SingleValued(olds, param.name)
  {
    var once := NameValue(param.name, MergedValue(olds, param));
    MergedValueMeans(olds, param);
    MergedValueMeans(olds, once);
    if SingleValued(olds, param.name) {
      MergeTakesOldValue(olds, param);
      MergeTakesOldValue(olds, once);
    } else if MergedValue(olds, once) == once.value {
      forall i, j | 0 <= i < |olds| && 0 <= j < |olds| && olds[i].name == param.name && olds[j].name == param.name
        ensures olds[i].value == olds[j].value
      {
        assert olds[i] in olds && olds[j] in olds;
      }
    }
  }

  /** Every parameter of the new applications meets a single old value. */
  ghost predicate AllSingleValued(news: seq<Application>, olds: seq<Application>) {
    forall i, p | 0 <= i < |news| && news[i].config.Some? && p in news[i].config.value.parameters ::
      SingleValued(OldParams(news[i], olds), p.name)
  }

  lemma ParamsIdempotentIff(news: seq<NameValue>, olds: seq<NameValue>)
    ensures MergeParams(MergeParams(news, olds), olds) == MergeParams(news, olds)
            <==> forall p | p in news :: SingleValued(olds, p.name)
  {
    var once := MergeParams(news, olds);
    var twice := MergeParams(once, olds);
    forall i | 0 <= i < |news| ensures twice[i] == once[i] <==> SingleValued(olds, news[i].name) {
      ValueIdempotentIff(olds, news[i]);
    }
    if twice == once {
      forall p | p in news ensures SingleValued(olds, p.name) {
        var i :| 0 <= i < |news| && news[i] == p;
      }
    }
  }

  /** The merge is idempotent if and only if every parameter meets a single old value; in particular
      it is when no old application repeats a parameter name. */
  lemma MergeIdempotentIff(news: seq<Application>, olds: seq<Application>)
    ensures MergeApps(MergeApps(news, olds), olds) == MergeApps(news, olds) <==> AllSingleValued(news, olds)
  {
    var once := MergeApps(news, olds);
    var twice := MergeApps(once, olds);
    forall i | 0 <= i < |news|
      ensures twice[i] == once[i] <==>
              (news[i].config.Some? ==> forall p | p in news[i].config.value.parameters ::
                 SingleValued(OldParams(news[i], olds), p.name))
    {
      if news[i].config.Some? {
        ParamsIdempotentIff(news[i].config.value.parameters, OldParams(news[i], olds));
      }
    }
  }

  lemma UniqueOldNamesSuffice(news: seq<Application>, olds: seq<Application>)
    requires forall a | a in olds && a.config.Some? :: NoDuplicates(ParamNames(a.config.value.parameters))
    ensures AllSingleValued(news, olds)
  {
    forall i, p | 0 <= i < |news| && news[i].config.Some? && p in news[i].config.value.parameters
      ensures SingleValued(OldParams(news[i], olds), p.name)
    {
      var previous := OldParams(news[i], olds);
      if previous != [] {
        UniqueIsSingleValued(previous, p.name);
      }
    }
  }

  /** The merge touches parameter values only. */
  lemma MergeKeepsTheRest(news: seq<Application>, olds: seq<Application>, i: nat)
    requires i < |news|
    ensures AppNames(MergeApps(news, olds)) == AppNames(news)
    ensures var a, b := news[i], MergeApps(news, olds)[i];
            && (a.config.Some? <==> b.config.Some?)
            && (a.config.Some? ==> a.config.value.overlays == b.config.value.overlays
                                   && a.config.value.repoRef == b.config.value.repoRef
                                   && ParamNames(a.config.value.parameters) == ParamNames(b.config.value.parameters))
  {
  }

  /** An old application that repeats a name gives a parameter two values in turn. */
  lemma RepeatedNameAlternates(news: seq<Application>, olds: seq<Application>)
    requires news == [Application("a", Some(KustomizeConfig(None, [], [NameValue("p", "1")])))]
    requires olds == [Application("a", Some(KustomizeConfig(None, [], [NameValue("p", "1"), NameValue("p", "2")])))]
    ensures MergeApps(MergeApps(news, olds), olds) != MergeApps(news, olds)
  {
    var ps := olds[0].config.value.parameters;
    assert AppNames(olds) == ["a"] && First(["a"], "a") == 0;
    assert OldParams(news[0], olds) == ps && ps[0].value != ps[1].value;
    assert NameValue("p", "1") in news[0].config.value.parameters;
    MergeIdempotentIff(news, olds);
  }

  // ----- plugins -----

  type Plugins = seq<Loader.Plugin>

  /** GetPluginSpec: the spec of the first plugin of the kind. */
  function FirstSpec(ps: Plugins, kind: string): Option<Loader.RawSpec> {
    if ps == [] then None
    else if ps[0].kind == kind then Some(ps[0].spec)
    else FirstSpec(ps[1..], kind)
  }

  /** SetPluginSpec: the first plugin of the kind gets the spec, or a new one is appended. */
  function SetSpec(ps: Plugins, kind: string, spec: Loader.RawSpec): Plugins {
    if ps == [] then [Loader.Plugin(kind, "", kind, spec)]
    else if ps[0].kind == kind then [ps[0].(spec := spec)] + ps[1..]
    else [ps[0]] + SetSpec(ps[1..], kind, spec)
  }

  /** What the new config gets for a kind: the old spec, read into the GCP plugin type whatever the kind,
      and written again; `recode` is that passage, and nothing is set if it fails. */
  function Carried(olds: Plugins, kind: string,
                   recode: Loader.RawSpec -> Option<Loader.RawSpec>): Option<Loader.RawSpec> {
    match FirstSpec(olds, kind)
    case None => None
    case Some(spec) => recode(spec)
  }

  function MergeKinds(news: Plugins, olds: Plugins, kinds: seq<string>,
                      recode: Loader.RawSpec -> Option<Loader.RawSpec>): Plugins {
    if kinds == [] then news
    else
      var n := |kinds| - 1;
      var before := MergeKinds(news, olds, kinds[..n], recode);
      match Carried(olds, kinds[n], recode)
      case None => before
      case Some(spec) => SetSpec(before, kinds[n], spec)
  }

  const MERGED_KINDS := [Loader.AWS_PLUGIN_KIND, Loader.GCP_PLUGIN_KIND, Loader.MINIKUBE_PLUGIN_KIND,
                         Loader.EXISTING_ARRIKTO_PLUGIN_KIND]

  lemma {:induction false} FirstAfterSet(ps: Plugins, kind: string, spec: Loader.RawSpec, other: string)
    ensures FirstSpec(SetSpec(ps, kind, spec), other) == if other == kind then Some(spec) else FirstSpec(ps, other)
    ensures FirstSpec(ps, kind) == Some(spec) ==> SetSpec(ps, kind, spec) == ps
  {
    if ps != [] {
      FirstAfterSet(ps[1..], kind, spec, other);
      assert ps == [ps[0]] + ps[1..];
    }
  }

  /** For every kind that is merged the new config has the carried spec, if there is one, and for every
      other kind its own. */
  lemma {:induction false} MergeKindsMeans(news: Plugins, olds: Plugins, kinds: seq<string>,
                                           recode: Loader.RawSpec -> Option<Loader.RawSpec>, kind: string)
    ensures FirstSpec(MergeKinds(news, olds, kinds, recode), kind)
         == if kind in kinds && Carried(olds, kind, recode).Some? then Carried(olds, kind, recode)
            else FirstSpec(news, kind)
  {
    hide Carried;
    if kinds != [] {
      var init, last := kinds[..|kinds| - 1], kinds[|kinds| - 1];
      assert kinds == init + [last];
      MergeKindsMeans(news, olds, init, recode, kind);
      if Carried(olds, last, recode).Some? {
        FirstAfterSet(MergeKinds(news, olds, init, recode), last, Carried(olds, last, recode).value, kind);
      }
      hide FirstSpec, SetSpec;
    }
  }

  lemma {:induction false} CarriedStays(ps: Plugins, olds: Plugins, kinds: seq<string>,
                                        recode: Loader.RawSpec -> Option<Loader.RawSpec>)
    requires forall kind | kind in kinds && Carried(olds, kind, recode).Some? ::
               FirstSpec(ps, kind) == Carried(olds, kind, recode)
    ensures MergeKinds(ps, olds, kinds, recode) == ps
  {
    hide Carried;
    if kinds != [] {
      var init, last := kinds[..|kinds| - 1], kinds[|kinds| - 1];
      assert last in kinds && forall kind | kind in init :: kind in kinds;
      CarriedStays(ps, olds, init, recode);
      if Carried(olds, last, recode).Some? {
        FirstAfterSet(ps, last, Carried(olds, last, recode).value, last);
      }
      hide FirstSpec, SetSpec;
    }
  }

  /** Merging the plugins again changes nothing. */
  lemma MergeKindsIdempotent(news: Plugins, olds: Plugins, kinds: seq<string>,
                             recode: Loader.RawSpec -> Option<Loader.RawSpec>)
    ensures var once := MergeKinds(news, olds, kinds, recode);
            MergeKinds(once, olds, kinds, recode) == once
  {
    hide Carried, FirstSpec, MergeKinds;
    forall kind | kind in kinds && Carried(olds, kind, recode).Some?
      ensures FirstSpec(MergeKinds(news, olds, kinds, recode), kind) == Carried(olds, kind, recode)
    {
      MergeKindsMeans(news, olds, kinds, recode, kind);
    }
    CarriedStays(MergeKinds(news, olds, kinds, recode), olds, kinds, recode);
  }

  /** The plugins of the new config keep their places, names, namespaces and kinds; at most a spec
      changes, and new plugins come last. */
  lemma {:induction false} MergeKindsKeepsPlaces(news: Plugins, olds: Plugins, kinds: seq<string>,
                                                 recode: Loader.RawSpec -> Option<Loader.RawSpec>, i: nat)
    requires i < |news|
    ensures var after := MergeKinds(news, olds, kinds, recode);
            i < |after| && after[i] == news[i].(spec := after[i].spec)
  {
    hide Carried;
    if kinds != [] {
      var n := |kinds| - 1;
      MergeKindsKeepsPlaces(news, olds, kinds[..n], recode, i);
      if Carried(olds, kinds[n], recode).Some? {
        SetSpecKeepsPlaces(MergeKinds(news, olds, kinds[..n], recode), kinds[n],
                           Carried(olds, kinds[n], recode).value, i);
      }
      hide SetSpec;
    }
  }

  lemma {:induction false} SetSpecKeepsPlaces(ps: Plugins, kind: string, spec: Loader.RawSpec, i: nat)
    requires i < |ps|
    ensures var after := SetSpec(ps, kind, spec);
            i < |after| && after[i] == ps[i].(spec := after[i].spec)
  {
    if i > 0 && ps[0].kind != kind {
      SetSpecKeepsPlaces(ps[1..], kind, spec, i - 1);
    }
  }

  /** The spec that is found is that of the first plugin of the kind. */
  lemma {:induction false} FirstSpecMeans(ps: Plugins, kind: string)
    ensures FirstSpec(ps, kind).None? <==> forall p | p in ps :: p.kind != kind
    ensures FirstSpec(ps, kind).Some? ==>
              exists i | 0 <= i < |ps| :: && ps[i].kind == kind && FirstSpec(ps, kind) == Some(ps[i].spec)
                                          && forall j | 0 <= j < i :: ps[j].kind != kind
  {
    if ps != [] {
      FirstSpecMeans(ps[1..], kind);
      assert ps == [ps[0]] + ps[1..];
      if ps[0].kind != kind && FirstSpec(ps, kind).Some? {
        var i :| 0 <= i < |ps| - 1 && ps[1..][i].kind == kind && FirstSpec(ps, kind) == Some(ps[1..][i].spec)
                 && forall j | 0 <= j < i :: ps[1..][j].kind != kind;
        assert ps[i + 1].kind == kind && forall j | 0 < j < i + 1 :: ps[j] == ps[1..][j - 1];
      }
    }
  }

  /** The upgrade carries over the specs of the AWS, GCP, Minikube and existing Arrikto plugins that the old
      config has and that can be recoded; every other kind keeps what the new config says. */
  lemma CarriedKinds(news: Plugins, olds: Plugins, recode: Loader.RawSpec -> Option<Loader.RawSpec>, kind: string)
    ensures var found, after := FirstSpec(olds, kind), FirstSpec(MergeKinds(news, olds, MERGED_KINDS, recode), kind);
            after == if && kind in {"KfAwsPlugin", "KfGcpPlugin", "KfMinikubePlugin", "KfExistingArriktoPlugin"}
                        && found.Some? && recode(found.value).Some?
                     then recode(found.value) else FirstSpec(news, kind)
  {
    MergeKindsMeans(news, olds, MERGED_KINDS, recode, kind);
    hide MergeKinds, FirstSpec;
  }

  /** An application takes its values from the first old one of its name: a parameter that this gives a
      single value ends up with it, and one it does not have keeps its own. Without one nothing changes. */
  lemma MergedAppMeans(news: seq<Application>, olds: seq<Application>, k: nat, i: nat, j: nat)
    requires k < |news| && news[k].config.Some? && j < |news[k].config.value.parameters|
    requires i <= |olds| && forall m | 0 <= m < i :: olds[m].name != news[k].name
    requires i < |olds| ==> olds[i].name == news[k].name && olds[i].config.Some?
    ensures var was, after := news[k].config.value.parameters[j], MergeApps(news, olds)[k];
            && after.config.Some? && j < |after.config.value.parameters|
            && var now := after.config.value.parameters[j];
               && now.name == was.name
               && (i == |olds| ==> now == was)
               && (i < |olds| ==>
                     && var ps := olds[i].config.value.parameters;
                        && (was.name !in ParamNames(ps) ==> now == was)
                        && (SingleValued(ps, was.name) ==> forall o | o in ps && o.name == was.name :: now == o))
  {
    var app := news[k];
    var was := app.config.value.parameters[j];
    hide Last;
    if i < |olds| {
      FirstIn(AppNames(olds), app.name, i);
      var ps := olds[i].config.value.parameters;
      MergedValueMeans(ps, was);
      if SingleValued(ps, was.name) {
        MergeTakesOldValue(ps, was);
      }
      if was.name !in ParamNames(ps) {
        NoneOfThatName(ps, was.name);
      }
    } else {
      assert app.name !in AppNames(olds);
    }
    hide First, SingleValued, MergedValue;
  }

  lemma NoneOfThatName(ps: seq<NameValue>, name: string)
    requires name !in ParamNames(ps)
    ensures forall p | p in ps :: p.name != name
  {
    forall p | p in ps ensures p.name != name {
      var i :| 0 <= i < |ps| && ps[i] == p;
      assert ParamNames(ps)[i] == p.name;
    }
  }
}
