/** Conversion between the KfDef of API version v1 and the internal KfConfig
    (pkg/kfconfig/loaders/v1.go, pkg/kfconfig/loaders/utils.go). */
module Loader {
  import opened Wrappers
  import opened Conditions
  import opened Applications
  import opened CacheSync

  /** The spec of a plugin, opaque to the conversion except for GCP's. */
  type RawSpec = string

  /** The GCP fields a KfConfig takes from the plugin. */
  datatype Gcp = Gcp(project: string, email: string, ipName: string, hostname: string,
                     skipInitProject: bool, zone: string, deleteStorage: bool)

  const NO_GCP := Gcp("", "", "", "", false, "", false)

  /** Metadata both kinds of object carry; `others` stands for all metadata the conversion does not list. */
  datatype Meta = Meta(name: string, namespace: string, apiVersion: string, kind: string,
                       labels: map<string, string>, annotations: map<string, string>, clusterName: string,
                       others: string)

  datatype DefPlugin = DefPlugin(name: string, kind: string, apiVersion: string, others: string, spec: RawSpec)
  datatype DefSource = DefSource(literal: Option<string>, env: Option<string>)
  datatype DefSecret = DefSecret(name: string, source: Option<DefSource>)

  datatype KfDef = KfDef(meta: Meta, version: string, applications: seq<Application>, plugins: seq<DefPlugin>,
                         secrets: seq<DefSecret>, repos: seq<Repo>, conditions: seq<Condition>, caches: seq<Cache>)

  datatype Plugin = Plugin(name: string, namespace: string, kind: string, spec: RawSpec)
  datatype SecretSource = SecretSource(literal: Option<string>, hashed: Option<string>, env: Option<string>)
  datatype Secret = Secret(name: string, source: Option<SecretSource>)

  datatype Config = Config(meta: Meta, version: string, useBasicAuth: bool, platform: string, gcp: Gcp,
                           applications: seq<Application>, plugins: seq<Plugin>, secrets: seq<Secret>,
                           repos: seq<Repo>, conditions: seq<Condition>, caches: seq<Cache>)

  const GCP_PLUGIN_KIND := "KfGcpPlugin"
  const AWS_PLUGIN_KIND := "KfAwsPlugin"
  const MINIKUBE_PLUGIN_KIND := "KfMinikubePlugin"
  const EXISTING_ARRIKTO_PLUGIN_KIND := "KfExistingArriktoPlugin"
  const BASIC_AUTH_PATH := "common/basic-auth"

  function MaybeGetPlatform(pluginKind: string): string {
    if pluginKind == AWS_PLUGIN_KIND then "aws"
    else if pluginKind == GCP_PLUGIN_KIND then "gcp"
    else if pluginKind == EXISTING_ARRIKTO_PLUGIN_KIND then "existing_arrikto"
    else ""
  }

  function Each<A, B>(f: A -> B, xs: seq<A>): (r: seq<B>)
    ensures |r| == |xs| && forall i | 0 <= i < |xs| :: r[i] == f(xs[i])
  {
    seq(|xs|, i requires 0 <= i < |xs| => f(xs[i]))
  }

  // ----- what the conversions give -----

  predicate UsesBasicAuth(app: Application) {
    app.config.Some? && app.config.value.repoRef.Some? && app.config.value.repoRef.value.path == BASIC_AUTH_PATH
  }

  predicate AnyBasicAuth(apps: seq<Application>) {
    exists a | a in apps :: UsesBasicAuth(a)
  }

  predicate HasKind(ps: seq<DefPlugin>, kind: string) {
    exists p | p in ps :: p.kind == kind
  }

  /** The spec of the first plugin of a kind. */
  function SpecOf(ps: seq<DefPlugin>, kind: string): RawSpec
    requires HasKind(ps, kind)
  {
    assert ps == [ps[0]] + ps[1..];
    if ps[0].kind == kind then ps[0].spec else SpecOf(ps[1..], kind)
  }

  /** The platform of the last plugin that stands for one. */
  function PlatformOf(ps: seq<DefPlugin>): string {
    if ps == [] then ""
    else
      var p := MaybeGetPlatform(ps[|ps| - 1].kind);
      if p != "" then p else PlatformOf(ps[..|ps| - 1])
  }

  /** GCP fields come from the first GCP plugin; `decode` fails if its spec cannot be marshalled. */
  function GcpOf(ps: seq<DefPlugin>, decode: RawSpec -> Option<Gcp>): Option<Gcp> {
    if HasKind(ps, GCP_PLUGIN_KIND) then decode(SpecOf(ps, GCP_PLUGIN_KIND)) else Some(NO_GCP)
  }

  function LoadPlugin(namespace: string): DefPlugin -> Plugin {
    (p: DefPlugin) => Plugin(p.name, namespace, p.kind, p.spec)
  }

  function LoadSecret(s: DefSecret): Secret {
    match s.source
    case None => Secret(s.name, None)
    case Some(src) => Secret(s.name, Some(SecretSource(src.literal, None, src.env)))
  }

  function LoadMeta(m: Meta): Meta {
    m.(kind := "KfConfig", others := "")
  }

  function Load(def: KfDef, decode: RawSpec -> Option<Gcp>): Option<Config> {
    match GcpOf(def.plugins, decode)
    case None => None
    case Some(gcp) =>
      Some(Config(LoadMeta(def.meta), def.version, AnyBasicAuth(def.applications),
                  PlatformOf(def.plugins), gcp, def.applications,
                  Each(LoadPlugin(def.meta.namespace), def.plugins), Each(LoadSecret, def.secrets),
                  def.repos, def.conditions, def.caches))
  }

  function SavePlugin(p: Plugin): DefPlugin {
    DefPlugin(p.name, p.kind, "", "", p.spec)
  }

  /** Literal and hashed secrets are not written back. */
  function SaveSecret(s: Secret): DefSecret {
    match s.source
    case None => DefSecret(s.name, None)
    case Some(src) => DefSecret(s.name, Some(DefSource(None, src.env)))
  }

  function Save(config: Config): KfDef {
    KfDef(config.meta.(kind := "KfDef", others := ""), config.version, config.applications,
          Each(SavePlugin, config.plugins), Each(SaveSecret, config.secrets),
          config.repos, config.conditions, config.caches)
  }

  // ----- loading and saving as the code does it -----

  method CopyConfig(c: KustomizeConfig) returns (r: KustomizeConfig)
    ensures r == c
  {
    r := KustomizeConfig(None, c.overlays, []);
    if c.repoRef.Some? {
      r := r.(repoRef := Some(RepoRef(c.repoRef.value.name, c.repoRef.value.path)));
    }
    for i := 0 to |c.parameters|
      invariant r == KustomizeConfig(c.repoRef, c.overlays, c.parameters[..i])
    {
      r := r.(parameters := r.parameters + [NameValue(c.parameters[i].name, c.parameters[i].value)]);
    }
  }

  lemma AnyBasicAuthSnoc(apps: seq<Application>, app: Application)
    ensures AnyBasicAuth(apps + [app]) <==> AnyBasicAuth(apps) || UsesBasicAuth(app)
  {
  }

  lemma HasKindSnoc(ps: seq<DefPlugin>, p: DefPlugin, kind: string)
    ensures HasKind(ps + [p], kind) <==> HasKind(ps, kind) || p.kind == kind
  {
  }

  /** Copies the applications and infers from them whether basic authentication is used. */
  method CopyApplications(applications: seq<Application>) returns (r: seq<Application>, useBasicAuth: bool)
    ensures r == applications
    ensures useBasicAuth == AnyBasicAuth(applications)
  {
    r, useBasicAuth := [], false;
    for i := 0 to |applications|
      invariant r == applications[..i]
      invariant useBasicAuth == AnyBasicAuth(applications[..i])
    {
      AnyBasicAuthSnoc(applications[..i], applications[i]);
      assert applications[..i + 1] == applications[..i] + [applications[i]];
      var app := Application(applications[i].name, None);
      if applications[i].config.Some? {
        var c := applications[i].config.value;
        if c.repoRef.Some? && c.repoRef.value.path == BASIC_AUTH_PATH {
          useBasicAuth := true;
        }
        var copied := CopyConfig(c);
        app := app.(config := Some(copied));
      }
      r := r + [app];
    }
  }

  method CopyRepos(repos: seq<Repo>) returns (r: seq<Repo>)
    ensures r == repos
  {
    r := [];
    for i := 0 to |repos|
      invariant r == repos[..i]
    {
      r := r + [Repo(repos[i].name, repos[i].uri)];
    }
  }

  method CopyConditions(conditions: seq<Condition>) returns (r: seq<Condition>)
    ensures r == conditions
  {
    r := [];
    for i := 0 to |conditions|
      invariant r == conditions[..i]
    {
      var c := conditions[i];
      r := r + [Condition(c.kind, c.status, c.lastUpdate, c.lastTransition, c.reason, c.message)];
    }
  }

  method CopyCaches(caches: seq<Cache>) returns (r: seq<Cache>)
    ensures r == caches
  {
    r := [];
    for i := 0 to |caches|
      invariant r == caches[..i]
    {
      r := r + [Cache(caches[i].name, caches[i].localPath)];
    }
  }

  method GetPluginSpec(ps: seq<DefPlugin>, kind: string) returns (spec: Option<RawSpec>)
    ensures spec == if HasKind(ps, kind) then Some(SpecOf(ps, kind)) else None
  {
    for i := 0 to |ps|
      invariant HasKind(ps, kind) <==> HasKind(ps[i..], kind)
      invariant HasKind(ps, kind) ==> SpecOf(ps, kind) == SpecOf(ps[i..], kind)
    {
      assert ps[i..] == [ps[i]] + ps[i + 1..];
      if ps[i].kind == kind {
        return Some(ps[i].spec);
      }
    }
    return None;
  }

  /** What the plugin loop has gathered. */
  datatype Gathered = Gathered(plugins: seq<Plugin>, platform: string, gcp: Gcp)

  /** What it should have gathered after a number of plugins; GCP fields come from the first GCP plugin. */
  function GatheredAfter(namespace: string, ps: seq<DefPlugin>, n: nat,
                         decode: RawSpec -> Option<Gcp>): Option<Gathered>
    requires n <= |ps|
  {
    var gcp := if HasKind(ps[..n], GCP_PLUGIN_KIND) then GcpOf(ps, decode) else Some(NO_GCP);
    if gcp.None? then None
    else Some(Gathered(Each(LoadPlugin(namespace), ps[..n]), PlatformOf(ps[..n]), gcp.value))
  }

  /** One turn of the plugin loop. */
  method LoadOne(namespace: string, ps: seq<DefPlugin>, i: nat, decode: RawSpec -> Option<Gcp>, g: Gathered)
    returns (r: Option<Gathered>)
    requires i < |ps| && Some(g) == GatheredAfter(namespace, ps, i, decode)
    ensures r == GatheredAfter(namespace, ps, i + 1, decode)
    ensures r.None? ==> GcpOf(ps, decode).None?
  {
    hide SpecOf;
    var plugin := ps[i];
    assert ps[..i + 1] == ps[..i] + [plugin] && ps[..i + 1][..i] == ps[..i];
    HasKindSnoc(ps[..i], plugin, GCP_PLUGIN_KIND);
    assert Each(LoadPlugin(namespace), ps[..i + 1])
        == Each(LoadPlugin(namespace), ps[..i]) + [Plugin(plugin.name, namespace, plugin.kind, plugin.spec)];
    var gcp := g.gcp;
    if plugin.kind == GCP_PLUGIN_KIND {
      assert HasKind(ps, GCP_PLUGIN_KIND);
      var spec := GetPluginSpec(ps, GCP_PLUGIN_KIND);
      var decoded := decode(spec.value);
      if decoded.None? {
        return None;
      }
      gcp := decoded.value;
    }
    var platform := MaybeGetPlatform(plugin.kind);
    return Some(Gathered(g.plugins + [Plugin(plugin.name, namespace, plugin.kind, plugin.spec)],
                         if platform != "" then platform else g.platform, gcp));
  }

  method LoadPlugins(namespace: string, ps: seq<DefPlugin>,
                     decode: RawSpec -> Option<Gcp>) returns (r: Option<Gathered>)
    ensures r.Some? <==> GcpOf(ps, decode).Some?
    ensures r.Some? ==> r == GatheredAfter(namespace, ps, |ps|, decode)
  {
    GatheredStarts(namespace, ps, decode);
    hide *;
    r := Some(Gathered([], "", NO_GCP));
    for i := 0 to |ps|
      invariant r.Some? && r == GatheredAfter(namespace, ps, i, decode)
    {
      r := LoadOne(namespace, ps, i, decode, r.value);
      if r.None? {
        return;
      }
    }
  }

  lemma GatheredStarts(namespace: string, ps: seq<DefPlugin>, decode: RawSpec -> Option<Gcp>)
    ensures GatheredAfter(namespace, ps, 0, decode) == Some(Gathered([], "", NO_GCP))
    ensures GatheredAfter(namespace, ps, |ps|, decode)
         == match GcpOf(ps, decode)
            case None => None
            case Some(gcp) => Some(Gathered(Each(LoadPlugin(namespace), ps), PlatformOf(ps), gcp))
  {
    assert ps[..0] == [] && ps[..|ps|] == ps;
  }

  method LoadSecrets(secrets: seq<DefSecret>) returns (r: seq<Secret>)
    requires forall s | s in secrets :: s.source.Some?
    ensures r == Each(LoadSecret, secrets)
  {
    r := [];
    for i := 0 to |secrets|
      invariant r == Each(LoadSecret, secrets[..i])
    {
      var secret := secrets[i];
      assert secret in secrets;
      var src := SecretSource(None, None, None);
      if secret.source.value.literal.Some? {
        src := src.(literal := Some(secret.source.value.literal.value));
      }
      if secret.source.value.env.Some? {
        src := src.(env := Some(secret.source.value.env.value));
      }
      r := r + [Secret(secret.name, Some(src))];
    }
    assert secrets[..|secrets|] == secrets;
  }

  /** The source dereferences the source of every secret. */
  method LoadKfConfig(def: KfDef, decode: RawSpec -> Option<Gcp>) returns (config: Option<Config>)
    requires forall s | s in def.secrets :: s.source.Some?
    ensures config == Load(def, decode)
  {
    var m := def.meta;
    var meta := Meta(m.name, m.namespace, m.apiVersion, "KfConfig", m.labels, m.annotations, m.clusterName, "");
    var applications, useBasicAuth := CopyApplications(def.applications);
    var gathered := LoadPlugins(def.meta.namespace, def.plugins, decode);
    if gathered.None? {
      return None;
    }
    GatheredStarts(def.meta.namespace, def.plugins, decode);
    var Gathered(plugins, platform, gcp) := gathered.value;
    var secrets := LoadSecrets(def.secrets);
    var repos := CopyRepos(def.repos);
    var conditions := CopyConditions(def.conditions);
    var caches := CopyCaches(def.caches);
    return Some(Config(meta, def.version, useBasicAuth, platform, gcp, applications, plugins, secrets,
                       repos, conditions, caches));
  }

  method LoadKfDef(config: Config) returns (def: KfDef)
    ensures def == Save(config)
  {
    var m := config.meta;
    var meta := Meta(m.name, m.namespace, m.apiVersion, "KfDef", m.labels, m.annotations, m.clusterName, "");
    var applications, _ := CopyApplications(config.applications);
    var plugins: seq<DefPlugin> := [];
    for i := 0 to |config.plugins|
      invariant plugins == Each(SavePlugin, config.plugins[..i])
    {
      var p := config.plugins[i];
      plugins := plugins + [DefPlugin(p.name, p.kind, "", "", p.spec)];
    }
    assert config.plugins[..|config.plugins|] == config.plugins;
    var secrets: seq<DefSecret> := [];
    for i := 0 to |config.secrets|
      invariant secrets == Each(SaveSecret, config.secrets[..i])
    {
      var secret := config.secrets[i];
      var s := DefSecret(secret.name, None);
      if secret.source.Some? {
        s := s.(source := Some(DefSource(None, None)));
        if secret.source.value.env.Some? {
          s := s.(source := Some(DefSource(None, Some(secret.source.value.env.value))));
        }
      }
      secrets := secrets + [s];
    }
    assert config.secrets[..|config.secrets|] == config.secrets;
    var repos := CopyRepos(config.repos);
    var conditions := CopyConditions(config.conditions);
    var caches := CopyCaches(config.caches);
    return KfDef(meta, config.version, applications, plugins, secrets, repos, conditions, caches);
  }

  // ----- what is inferred -----

  /** The plugin kinds that stand for a platform. */
  predicate IsPlatformKind(kind: string) {
    kind in {"KfAwsPlugin", "KfGcpPlugin", "KfExistingArriktoPlugin"}
  }

  /** The platform is that of the last plugin of the AWS, GCP or existing Arrikto kind. */
  lemma {:induction false} PlatformMeans(ps: seq<DefPlugin>, i: nat)
    ensures (forall p | p in ps :: !IsPlatformKind(p.kind)) ==> PlatformOf(ps) == ""
    ensures i < |ps| && (forall j | i < j < |ps| :: !IsPlatformKind(ps[j].kind)) ==>
              && (ps[i].kind == "KfAwsPlugin" ==> PlatformOf(ps) == "aws")
              && (ps[i].kind == "KfGcpPlugin" ==> PlatformOf(ps) == "gcp")
              && (ps[i].kind == "KfExistingArriktoPlugin" ==> PlatformOf(ps) == "existing_arrikto")
  {
    if ps != [] {
      var n := |ps| - 1;
      assert ps == ps[..n] + [ps[n]];
      PlatformMeans(ps[..n], i);
      PlatformKinds(ps[n].kind);
      hide IsPlatformKind, MaybeGetPlatform;
    }
  }

  lemma PlatformKinds(kind: string)
    ensures IsPlatformKind(kind) <==> MaybeGetPlatform(kind) != ""
    ensures kind == "KfAwsPlugin" ==> IsPlatformKind(kind) && MaybeGetPlatform(kind) == "aws"
    ensures kind == "KfGcpPlugin" ==> IsPlatformKind(kind) && MaybeGetPlatform(kind) == "gcp"
    ensures kind == "KfExistingArriktoPlugin" ==>
              IsPlatformKind(kind) && MaybeGetPlatform(kind) == "existing_arrikto"
  {
  }

  lemma {:induction false} SpecIsFirst(ps: seq<DefPlugin>, kind: string, i: nat)
    requires i < |ps| && ps[i].kind == kind && forall j | 0 <= j < i :: ps[j].kind != kind
    ensures HasKind(ps, kind) && SpecOf(ps, kind) == ps[i].spec
  {
    assert ps[i] in ps;
    if i > 0 {
      SpecIsFirst(ps[1..], kind, i - 1);
    }
  }

  /** GCP fields come from the first plugin of the GCP kind, and loading fails if and only if its spec cannot
      be read; without one they are empty. */
  lemma GcpFieldsMean(def: KfDef, decode: RawSpec -> Option<Gcp>, i: nat)
    requires i <= |def.plugins| && forall j | 0 <= j < i :: def.plugins[j].kind != "KfGcpPlugin"
    requires i < |def.plugins| ==> def.plugins[i].kind == "KfGcpPlugin"
    ensures var config := Load(def, decode);
            if i < |def.plugins|
            then && (config.None? <==> decode(def.plugins[i].spec).None?)
                 && (config.Some? ==> decode(def.plugins[i].spec) == Some(config.value.gcp))
            else config.Some? && config.value.gcp == Gcp("", "", "", "", false, "", false)
  {
    if i < |def.plugins| {
      SpecIsFirst(def.plugins, GCP_PLUGIN_KIND, i);
    }
    hide SpecOf, PlatformOf, Each;
  }

  /** What a loaded config says beyond what saving brings back: basic authentication exactly if some
      application comes from common/basic-auth, the platform, the namespace of the KfDef for every plugin,
      and literal secrets. */
  lemma LoadedMeans(def: KfDef, decode: RawSpec -> Option<Gcp>, i: nat)
    requires Load(def, decode).Some?
    ensures var config := Load(def, decode).value;
            && (config.useBasicAuth
                <==> exists a | a in def.applications ::
                       && a.config.Some? && a.config.value.repoRef.Some?
                       && a.config.value.repoRef.value.path == "common/basic-auth")
            && config.platform == PlatformOf(def.plugins)
            && config.meta.kind == "KfConfig" && config.meta.name == def.meta.name
            && |config.plugins| == |def.plugins| && |config.secrets| == |def.secrets|
            && (i < |def.plugins| ==>
                  var p := def.plugins[i];
                  config.plugins[i] == Plugin(p.name, def.meta.namespace, p.kind, p.spec))
            && (i < |def.secrets| ==>
                  && config.secrets[i].name == def.secrets[i].name
                  && match def.secrets[i].source
                     case None => config.secrets[i].source.None?
                     case Some(src) => config.secrets[i].source == Some(SecretSource(src.literal, None, src.env)))
  {
  }

  // ----- round trips -----

  /** What is left of a KfDef after loading and saving it: everything in its order, but without the
      literals of secrets, API versions and other metadata of plugins, and unlisted metadata. */
  function Projected(def: KfDef): KfDef {
    def.(meta := def.meta.(kind := "KfDef", others := ""),
         plugins := Each((p: DefPlugin) => p.(apiVersion := "", others := ""), def.plugins),
         secrets := Each((s: DefSecret) =>
                           if s.source.None? then s else s.(source := Some(s.source.value.(literal := None))), def.secrets))
  }

  /** Loading and then saving is that projection. */
  lemma LoadThenSaveProjects(def: KfDef, decode: RawSpec -> Option<Gcp>)
    requires Load(def, decode).Some?
    ensures Save(Load(def, decode).value) == Projected(def)
  {
  }

  lemma ProjectedIsIdempotent(def: KfDef)
    ensures Projected(Projected(def)) == Projected(def)
  {
  }

  lemma HasKindCons(ps: seq<DefPlugin>, kind: string)
    requires ps != []
    ensures HasKind(ps, kind) <==> ps[0].kind == kind || HasKind(ps[1..], kind)
  {
  }

  /** The inferences read only kinds and specs. */
  lemma {:induction false} InferencesAgree(ps: seq<DefPlugin>, qs: seq<DefPlugin>, kind: string)
    requires |ps| == |qs| && forall i | 0 <= i < |ps| :: ps[i].kind == qs[i].kind && ps[i].spec == qs[i].spec
    ensures HasKind(ps, kind) == HasKind(qs, kind)
    ensures HasKind(ps, kind) ==> SpecOf(ps, kind) == SpecOf(qs, kind)
  {
    if ps != [] {
      InferencesAgree(ps[1..], qs[1..], kind);
      HasKindCons(ps, kind);
      HasKindCons(qs, kind);
      hide HasKind;
    }
  }

  lemma {:induction false} PlatformsAgree(ps: seq<DefPlugin>, qs: seq<DefPlugin>)
    requires |ps| == |qs| && forall i | 0 <= i < |ps| :: ps[i].kind == qs[i].kind
    ensures PlatformOf(ps) == PlatformOf(qs)
  {
    if ps != [] {
      PlatformsAgree(ps[..|ps| - 1], qs[..|qs| - 1]);
    }
  }

  /** Loading the projection gives the loaded config without its literals. */
  lemma LoadOfProjected(def: KfDef, decode: RawSpec -> Option<Gcp>)
    requires Load(def, decode).Some?
    ensures var config := Load(def, decode).value;
            Load(Projected(def), decode) == Some(config.(secrets := Each(LoadSecret, Projected(def).secrets)))
  {
    var ps, qs := def.plugins, Projected(def).plugins;
    InferencesAgree(ps, qs, GCP_PLUGIN_KIND);
    PlatformsAgree(ps, qs);
    assert Each(LoadPlugin(def.meta.namespace), qs) == Each(LoadPlugin(def.meta.namespace), ps);
  }

  ghost predicate NoLiterals(secrets: seq<DefSecret>) {
    forall s | s in secrets && s.source.Some? :: s.source.value.literal.None?
  }

  lemma SecretsSurviveIff(def: KfDef)
    ensures Each(LoadSecret, Projected(def).secrets) == Each(LoadSecret, def.secrets) <==> NoLiterals(def.secrets)
  {
  }

  /** A loaded config is a fixed point of saving and loading again, with the inferred platform, basic
      authentication and GCP fields, if and only if the KfDef had no literal secret; saving the reloaded
      config always gives the same KfDef. */
  lemma LoadedIsFixedIff(def: KfDef, decode: RawSpec -> Option<Gcp>)
    requires Load(def, decode).Some?
    ensures var config := Load(def, decode).value;
            && Load(Save(config), decode).Some?
            && (Load(Save(config), decode) == Some(config) <==> NoLiterals(def.secrets))
            && Save(Load(Save(config), decode).value) == Save(config)
  {
    var config := Load(def, decode).value;
    LoadThenSaveProjects(def, decode);
    LoadOfProjected(def, decode);
    SecretsSurviveIff(def);
    LoadThenSaveProjects(Projected(def), decode);
    ProjectedIsIdempotent(def);
    assert config.secrets == Each(LoadSecret, def.secrets);
  }
}
