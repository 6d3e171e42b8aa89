/** The KfConfig object and its in-place editors (pkg/kfconfig/types.go), and the upgrade that carries
    values from one config over to another (pkg/kfupgrade/kfupgrade.go:218-257). */
module KfConfigs {
  import opened Wrappers
  import opened Conditions
  import opened Applications
  import opened CacheSync
  import opened Upgrade
  import Loader

  /** SetParameter of a parameter list: the last match is overwritten, or a new one appended. */
  method SetParameter(parameters: seq<NameValue>, paramName: string, value: string) returns (r: seq<NameValue>)
    ensures r == SetParam(parameters, paramName, value)
  {
    r := parameters;
    var pIndex := FindLast(ParamNames(parameters), paramName);
    if pIndex < 0 {
      r := r + [NameValue("", "")];
      pIndex := |r| - 1;
    }
    r := r[pIndex := NameValue(paramName, value)];
  }

  method GetParameter(parameters: seq<NameValue>, paramName: string) returns (r: Option<string>)
    ensures r == GetParam(parameters, paramName)
  {
    for i := 0 to |parameters|
      invariant forall j | 0 <= j < i :: parameters[j].name != paramName
    {
      if parameters[i].name == paramName {
        FirstIn(ParamNames(parameters), paramName, i);
        return Some(parameters[i].value);
      }
    }
    return None;
  }

  class KfConfig {
    var name: string
    var appDir: string
    var repos: seq<Repo>
    var plugins: Plugins
    var applications: seq<Application>
    var conditions: seq<Condition>
    var caches: seq<Cache>

    constructor (name: string, appDir: string, repos: seq<Repo>, plugins: Plugins, applications: seq<Application>)
      ensures this.name == name && this.appDir == appDir && this.repos == repos && this.plugins == plugins
      ensures this.applications == applications && conditions == [] && caches == []
    {
      this.name, this.appDir, this.repos, this.plugins, this.applications := name, appDir, repos, plugins, applications;
      conditions, caches := [], [];
    }

    // ----- conditions -----

    method GetCondition(kind: string) returns (r: Option<Condition>)
      ensures r == Find(conditions, kind)
    {
      for i := 0 to |conditions|
        invariant Find(conditions[i..], kind) == Find(conditions, kind)
      {
        assert conditions[i..][1..] == conditions[i + 1..];
        if conditions[i].kind == kind {
          return Some(conditions[i]);
        }
      }
      return None;
    }

    /** `now` is the reading of the clock. */
    method SetCondition(kind: string, status: Status, now: Time, reason: string, message: string)
      modifies `conditions
      ensures conditions == Set(old(conditions), kind, status, now, reason, message)
    {
      hide Set;
      var cond := Condition(kind, status, now, now, reason, message);
      for i := 0 to |conditions|
        invariant conditions == old(conditions)
        invariant forall j | 0 <= j < i :: conditions[j].kind != kind
      {
        if conditions[i].kind == kind {
          SetAt(conditions, i, kind, status, now, reason, message);
          if conditions[i].status == status {
            cond := cond.(lastTransition := conditions[i].lastTransition);
          }
          conditions := conditions[i := cond];
          return;
        }
      }
      SetNew(conditions, kind, status, now, reason, message);
      conditions := conditions + [cond];
    }

    method IsPluginFinished(plugin: string) returns (r: bool)
      ensures r == IsFinished(conditions, plugin)
    {
      var cond := GetCondition(SucceededType(plugin));
      return cond.Some? && cond.value.status.IsTrue?;
    }

    method IsPluginFailed(plugin: string) returns (r: bool)
      ensures r == IsFailed(conditions, plugin)
    {
      var cond := GetCondition(FailedType(plugin));
      return cond.Some? && cond.value.status.IsTrue?;
    }

    method SetPluginFinished(plugin: string, message: string, reset: Time, now: Time)
      modifies `conditions
      ensures conditions == Apply(old(conditions), Event(plugin, true, reset, now, message))
    {
      var failed := GetCondition(FailedType(plugin));
      if failed.Some? {
        SetCondition(FailedType(plugin), IsFalse, reset, "", RESET_BY_FINISH);
      }
      SetCondition(SucceededType(plugin), IsTrue, now, "", message);
    }

    method SetPluginFailed(plugin: string, message: string, reset: Time, now: Time)
      modifies `conditions
      ensures conditions == Apply(old(conditions), Event(plugin, false, reset, now, message))
    {
      var succeeded := GetCondition(SucceededType(plugin));
      if succeeded.Some? {
        SetCondition(SucceededType(plugin), IsFalse, reset, "", RESET_BY_FAIL);
      }
      SetCondition(FailedType(plugin), IsTrue, now, "", message);
    }

    // ----- plugins -----

    method GetPluginSpec(kind: string) returns (spec: Option<Loader.RawSpec>)
      ensures spec == FirstSpec(plugins, kind)
    {
      for i := 0 to |plugins|
        invariant FirstSpec(plugins[i..], kind) == FirstSpec(plugins, kind)
      {
        assert plugins[i..][1..] == plugins[i + 1..];
        if plugins[i].kind == kind {
          return Some(plugins[i].spec);
        }
      }
      return None;
    }

    method SetPluginSpec(kind: string, spec: Loader.RawSpec)
      modifies `plugins
      ensures plugins == SetSpec(old(plugins), kind, spec)
    {
      var index: int := -1;
      for i := 0 to |plugins|
        invariant plugins == old(plugins) && index == -1
        invariant forall j | 0 <= j < i :: plugins[j].kind != kind
      {
        if plugins[i].kind == kind {
          index := i;
          break;
        }
      }
      SetSpecAt(plugins, kind, spec, index);
      if index == -1 {
        plugins := plugins + [Loader.Plugin(kind, "", kind, "")];
        index := |plugins| - 1;
      }
      plugins := plugins[index := plugins[index].(spec := spec)];
    }

    // ----- applications -----

    /** Reading goes by the first application of that name, which must have a config. */
    method GetApplicationParameter(appName: string, paramName: string) returns (r: Option<string>)
      requires CanGet(applications, appName)
      ensures r == GetAppParam(applications, appName, paramName)
    {
      for i := 0 to |applications|
        invariant forall j | 0 <= j < i :: applications[j].name != appName
      {
        if applications[i].name == appName {
          FirstIn(AppNames(applications), appName, i);
          r := GetParameter(applications[i].config.value.parameters, paramName);
          return;
        }
      }
      return None;
    }

    /** The legacy path, without stacks: writing goes by the last application of that name. */
    method LegacySetApplicationParameter(appName: string, paramName: string, value: string) returns (ok: bool)
      modifies `applications
      ensures (applications, ok) == SetAppParam(old(applications), appName, paramName, value)
    {
      var appIndex := FindLast(AppNames(applications), appName);
      if appIndex < 0 {
        return true;
      }
      var app := applications[appIndex];
      if app.config.None? {
        return false;
      }
      var parameters := SetParameter(app.config.value.parameters, paramName, value);
      applications := applications[appIndex := app.(config := Some(app.config.value.(parameters := parameters)))];
      return true;
    }

    method DeleteApplication(appName: string)
      modifies `applications
      ensures applications == DeleteApp(old(applications), appName)
    {
      var appIndex := FindLast(AppNames(applications), appName);
      if appIndex >= 0 {
        applications := applications[..appIndex] + applications[appIndex + 1..];
      }
    }

    method AddApplicationOverlay(appName: string, overlayName: string)
      requires CanEditOverlays(applications, appName)
      modifies `applications
      ensures applications == AddOverlay(old(applications), appName, overlayName)
    {
      var appIndex := FindLast(AppNames(applications), appName);
      if appIndex >= 0 {
        var app := applications[appIndex];
        var overlays := app.config.value.overlays;
        var overlayIndex := FindLast(overlays, overlayName);
        if overlayIndex < 0 {
          overlays := overlays + [overlayName];
        }
        applications := applications[appIndex := app.(config := Some(app.config.value.(overlays := overlays)))];
      }
    }

    method RemoveApplicationOverlay(appName: string, overlayName: string)
      requires CanEditOverlays(applications, appName)
      modifies `applications
      ensures applications == RemoveOverlay(old(applications), appName, overlayName)
    {
      var appIndex := FindLast(AppNames(applications), appName);
      if appIndex >= 0 {
        var app := applications[appIndex];
        var overlays := app.config.value.overlays;
        var overlayIndex := FindLast(overlays, overlayName);
        if overlayIndex >= 0 {
          overlays := overlays[..overlayIndex] + overlays[overlayIndex + 1..];
        }
        applications := applications[appIndex := app.(config := Some(app.config.value.(overlays := overlays)))];
      }
    }

    // ----- caches -----

    method GetRepoCache(repoName: string) returns (r: Option<Cache>)
      ensures r == FindCache(caches, repoName)
    {
      for i := 0 to |caches|
        invariant FindCache(caches[i..], repoName) == FindCache(caches, repoName)
      {
        assert caches[i..][1..] == caches[i + 1..];
        if caches[i].name == repoName {
          return Some(caches[i]);
        }
      }
      return None;
    }

    method HasCache(repoName: string) returns (r: bool)
      ensures r == HasEntry(caches, repoName)
    {
      for i := 0 to |caches|
        invariant forall j | 0 <= j < i :: caches[j].name != repoName || caches[j].localPath == ""
      {
        if caches[i].name == repoName && caches[i].localPath != "" {
          return true;
        }
      }
      return false;
    }

    /** One turn of the loop over the repositories. */
    method SyncOne(base: string, r: Repo, fetch: Fetch, dirs: Dirs, fetched: seq<string>)
      returns (status: Progress, dirs': Dirs, fetched': seq<string>)
      modifies `caches
      ensures Sync(dirs', caches, fetched', status)
           == SyncRepo(base, r, fetch, Sync(dirs, old(caches), fetched, Going))
    {
      hide CacheDir, HasEntry, RemoveAll, MkdirAll, Unpack, LocalPath;
      dirs', fetched' := dirs, fetched;
      var cacheDir := CacheDir(base, r.name);
      var cached := HasCache(r.name);
      if cacheDir in dirs {
        if cached {
          return Going, dirs', fetched';
        }
        if fetch.RemoveFails? {
          return Failed, dirs', fetched';
        }
        dirs' := RemoveAll(dirs', cacheDir);
      }
      match fetch {
        case Unpacked(tree, entry) =>
          dirs' := Unpack(dirs', cacheDir, tree, MadeBy(|fetched|));
          caches := caches + [Cache(r.name, LocalPath(cacheDir, entry))];
          fetched' := fetched' + [r.name];
          status := Going;
        case DownloadFails(tree) =>
          dirs' := Unpack(dirs', cacheDir, tree, MadeBy(|fetched|));
          status := Failed;
        case EmptyArchive =>
          dirs' := MkdirAll(dirs', cacheDir, MadeBy(|fetched|));
          status := Panicked;
        case _ =>
          status := Failed;
      }
    }

    /** Downloads what is not there yet; `fetched` lists the repositories that were. */
    method SyncCache(dirs: set<string>, mkdirOk: bool, fetches: nat -> Fetch)
      returns (status: Progress, dirs': Dirs, fetched: seq<string>)
      modifies `caches
      ensures Sync(dirs', caches, fetched, status) == SyncAll(appDir, repos, mkdirOk, fetches, dirs, old(caches))
    {
      hide CacheDir, CacheBase, SyncRepo, MkdirAll, AllFound;
      dirs', fetched := AllFound(dirs), [];
      if appDir == "" {
        return Failed, dirs', fetched;
      }
      var base := CacheBase(appDir);
      if base !in dirs {
        if !mkdirOk {
          return Failed, dirs', fetched;
        }
        dirs' := MkdirAll(dirs', base, Found);
      }
      ghost var start := Sync(dirs', caches, [], Going);
      status := Going;
      for i := 0 to |repos|
        invariant status.Going? && Sync(dirs', caches, fetched, status) == SyncRepos(base, repos[..i], fetches, start)
      {
        assert repos[..i + 1][..i] == repos[..i];
        status, dirs', fetched := SyncOne(base, repos[i], fetches(i), dirs', fetched);
        if !status.Going? {
          SyncStops(base, repos, fetches, start, i + 1);
          return;
        }
      }
      assert repos[..|repos|] == repos;
    }
  }

  /** The first failure ends the call. */
  lemma {:induction false} SyncStops(base: string, repos: seq<Repo>, fetches: nat -> Fetch, s: Sync, n: nat)
    requires n <= |repos| && !SyncRepos(base, repos[..n], fetches, s).Ok()
    ensures SyncRepos(base, repos, fetches, s) == SyncRepos(base, repos[..n], fetches, s)
    decreases |repos| - n
  {
    if n == |repos| {
      assert repos[..n] == repos;
    } else {
      assert repos[..n + 1][..n] == repos[..n];
      SyncStops(base, repos, fetches, s, n + 1);
    }
  }

  // ----- upgrade -----

  method MergeParameters(news: seq<NameValue>, olds: seq<NameValue>) returns (r: seq<NameValue>)
    ensures r == MergeParams(news, olds)
  {
    r := news;
    for i := 0 to |news|
      invariant |r| == |news|
      invariant forall j | 0 <= j < i :: r[j] == MergeParams(news, olds)[j]
      invariant forall j | i <= j < |news| :: r[j] == news[j]
    {
      var newParam := news[i];
      for k := 0 to |olds|
        invariant |r| == |news| && r[i] == newParam
        invariant MergedValue(olds[k..], newParam) == MergedValue(olds, newParam)
        invariant forall j | 0 <= j < i :: r[j] == MergeParams(news, olds)[j]
        invariant forall j | i < j < |news| :: r[j] == news[j]
      {
        assert olds[k..][1..] == olds[k + 1..];
        if newParam.name == olds[k].name && newParam.value != olds[k].value {
          r := r[i := r[i].(value := olds[k].value)];
          break;
        }
      }
    }
  }

  lemma {:induction false} SetSpecAt(ps: Plugins, kind: string, spec: Loader.RawSpec, index: int)
    requires -1 <= index < |ps|
    requires if index == -1 then forall j | 0 <= j < |ps| :: ps[j].kind != kind
             else ps[index].kind == kind && forall j | 0 <= j < index :: ps[j].kind != kind
    ensures SetSpec(ps, kind, spec)
         == if index == -1 then ps + [Loader.Plugin(kind, "", kind, spec)] else ps[index := ps[index].(spec := spec)]
  {
    if ps != [] && index != 0 {
      SetSpecAt(ps[1..], kind, spec, if index == -1 then -1 else index - 1);
      assert ps == [ps[0]] + ps[1..];
    }
  }

  method MergePlugins(oldKfCfg: KfConfig, newKfCfg: KfConfig, recode: Loader.RawSpec -> Option<Loader.RawSpec>)
    requires oldKfCfg != newKfCfg
    modifies newKfCfg`plugins
    ensures newKfCfg.plugins == MergeKinds(old(newKfCfg.plugins), old(oldKfCfg.plugins), MERGED_KINDS, recode)
  {
    var kinds := MERGED_KINDS;
    ghost var olds, news := oldKfCfg.plugins, newKfCfg.plugins;
    hide SetSpec, FirstSpec;
    for i := 0 to |kinds|
      invariant newKfCfg.plugins == MergeKinds(news, olds, kinds[..i], recode)
      invariant oldKfCfg.plugins == olds
    {
      assert kinds[..i + 1][..i] == kinds[..i];
      var spec := oldKfCfg.GetPluginSpec(kinds[i]);
      if spec.Some? {
        var oldPlugin := recode(spec.value);
        if oldPlugin.Some? {
          newKfCfg.SetPluginSpec(kinds[i], oldPlugin.value);
        }
      }
    }
    assert kinds[..|kinds|] == kinds;
  }

  /** Carries the name, the plugin specs and the parameter values of the old config over to the new one. */
  method MergeKfCfg(oldKfCfg: KfConfig, newKfCfg: KfConfig, recode: Loader.RawSpec -> Option<Loader.RawSpec>)
    requires oldKfCfg != newKfCfg
    requires forall a | a in newKfCfg.applications :: MergeSafe(a, oldKfCfg.applications)
    modifies newKfCfg`name, newKfCfg`plugins, newKfCfg`applications
    ensures newKfCfg.name == old(oldKfCfg.name)
    ensures newKfCfg.plugins == MergeKinds(old(newKfCfg.plugins), old(oldKfCfg.plugins), MERGED_KINDS, recode)
    ensures newKfCfg.applications == MergeApps(old(newKfCfg.applications), old(oldKfCfg.applications))
  {
    newKfCfg.name := oldKfCfg.name;
    MergePlugins(oldKfCfg, newKfCfg, recode);
    var merged := MergeApplications(newKfCfg.applications, oldKfCfg.applications);
    newKfCfg.applications := merged;
  }

  method MergeApplications(news: seq<Application>, olds: seq<Application>) returns (merged: seq<Application>)
    requires forall a | a in news :: MergeSafe(a, olds)
    ensures merged == MergeApps(news, olds)
  {
    merged := news;
    for appIndex := 0 to |news|
      invariant |merged| == |news|
      invariant forall j | 0 <= j < appIndex :: merged[j] == MergeApps(news, olds)[j]
      invariant forall j | appIndex <= j < |news| :: merged[j] == news[j]
    {
      var app := MergeApplication(news[appIndex], olds);
      merged := merged[appIndex := app];
    }
  }

  /** Only the first application of the same name is looked at. */
  method MergeApplication(newApp: Application, olds: seq<Application>) returns (r: Application)
    requires MergeSafe(newApp, olds)
    ensures r == MergeApp(newApp, olds)
  {
    for k := 0 to |olds|
      invariant forall j | 0 <= j < k :: olds[j].name != newApp.name
    {
      if newApp.name == olds[k].name {
        FirstIn(AppNames(olds), newApp.name, k);
        if newApp.config.value.parameters == [] {
          return newApp;
        }
        var parameters := MergeParameters(newApp.config.value.parameters, olds[k].config.value.parameters);
        return newApp.(config := Some(newApp.config.value.(parameters := parameters)));
      }
    }
    NoOldValues(newApp);
    return newApp;
  }

  lemma NoOldValues(app: Application)
    ensures app.config.Some? ==> MergeParams(app.config.value.parameters, []) == app.config.value.parameters
  {
  }
}
