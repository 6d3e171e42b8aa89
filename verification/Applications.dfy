/** Applications, parameters and overlays of a KfConfig as lists edited by first and last match
    (pkg/kfconfig/types.go:674-686, 799-824, 881-962, 1031-1059). */
module Applications {
  import opened Wrappers

  datatype NameValue = NameValue(name: string, value: string)
  datatype RepoRef = RepoRef(name: string, path: string)
  datatype KustomizeConfig = KustomizeConfig(repoRef: Option<RepoRef>, overlays: seq<string>, parameters: seq<NameValue>)
  datatype Application = Application(name: string, config: Option<KustomizeConfig>)

  /** Position of the first match, or -1. */
  function First(xs: seq<string>, x: string): (i: int)
    ensures -1 <= i < |xs|
    ensures i >= 0 ==> xs[i] == x && forall j | 0 <= j < i :: xs[j] != x
    ensures i < 0 <==> x !in xs
  {
    if xs == [] then -1
    else if xs[0] == x then 0
    else
      var i := First(xs[1..], x);
      if i < 0 then -1 else i + 1
  }

  /** Position of the last match, or -1. */
  function Last(xs: seq<string>, x: string): (i: int)
    ensures -1 <= i < |xs|
    ensures i >= 0 ==> xs[i] == x && forall j | i < j < |xs| :: xs[j] != x
    ensures i < 0 <==> x !in xs
  {
    if xs == [] then -1
    else if xs[|xs| - 1] == x then |xs| - 1
    else Last(xs[..|xs| - 1], x)
  }

  /** The setters' search loop. */
  method FindLast(xs: seq<string>, x: string) returns (index: int)
    ensures index == Last(xs, x)
  {
    index := -1;
    for i := 0 to |xs|
      invariant index == Last(xs[..i], x)
    {
      assert xs[..i + 1][..i] == xs[..i];
      if xs[i] == x {
        index := i;
      }
    }
    assert xs[..|xs|] == xs;
  }

  function AppNames(apps: seq<Application>): (ns: seq<string>)
    ensures |ns| == |apps| && forall i | 0 <= i < |apps| :: ns[i] == apps[i].name
  {
    seq(|apps|, i requires 0 <= i < |apps| => apps[i].name)
  }

  function ParamNames(ps: seq<NameValue>): (ns: seq<string>)
    ensures |ns| == |ps| && forall i | 0 <= i < |ps| :: ns[i] == ps[i].name
  {
    seq(|ps|, i requires 0 <= i < |ps| => ps[i].name)
  }

  /** The name occurs at most once: first and last match are the same. */
  predicate Unambiguous(xs: seq<string>, x: string) {
    First(xs, x) == Last(xs, x)
  }

  // ----- parameters -----

  function GetParam(ps: seq<NameValue>, name: string): Option<string> {
    var i := First(ParamNames(ps), name);
    if i < 0 then None else Some(ps[i].value)
  }

  function SetParam(ps: seq<NameValue>, name: string, value: string): seq<NameValue> {
    var i := Last(ParamNames(ps), name);
    if i < 0 then ps + [NameValue(name, value)] else ps[i := NameValue(name, value)]
  }

  lemma FirstIn(xs: seq<string>, x: string, i: int)
    requires 0 <= i < |xs| && xs[i] == x && forall j | 0 <= j < i :: xs[j] != x
    ensures First(xs, x) == i
  {
  }

  /** Get after set, for every list: the value comes back unless an earlier parameter of the same name
      hides it, and no other parameter changes. */
  lemma GetAfterSetParam(ps: seq<NameValue>, name: string, value: string, other: string)
    ensures other != name ==> GetParam(SetParam(ps, name, value), other) == GetParam(ps, other)
    ensures GetParam(SetParam(ps, name, value), name)
         == if Unambiguous(ParamNames(ps), name) then Some(value) else GetParam(ps, name)
    ensures NoDuplicates(ParamNames(ps)) ==> NoDuplicates(ParamNames(SetParam(ps, name, value)))
  {
    var names, after := ParamNames(ps), ParamNames(SetParam(ps, name, value));
    if name in names {
      assert after == names;
    } else {
      assert after == names + [name];
      FirstIn(after, name, |names|);
      if other in names && other != name {
        FirstIn(after, other, First(names, other));
      }
    }
  }

  // ----- parameters of applications -----

  /** GetApplicationParameter dereferences the config of the first application of that name. */
  predicate CanGet(apps: seq<Application>, app: string) {
    var i := First(AppNames(apps), app);
    i >= 0 ==> apps[i].config.Some?
  }

  function GetAppParam(apps: seq<Application>, app: string, param: string): Option<string>
    requires CanGet(apps, app)
  {
    var i := First(AppNames(apps), app);
    if i < 0 then None else GetParam(apps[i].config.value.parameters, param)
  }

  /** The new list, and false for the error of an application without a config. */
  function SetAppParam(apps: seq<Application>, app: string, param: string, value: string): (seq<Application>, bool) {
    var i := Last(AppNames(apps), app);
    if i < 0 then (apps, true)
    else
      match apps[i].config
      case None => (apps, false)
      case Some(c) => (apps[i := apps[i].(config := Some(c.(parameters := SetParam(c.parameters, param, value))))], true)
  }

  /** Application and parameter are each named at most once, so setter and getter meet. */
  predicate Addressable(apps: seq<Application>, app: string, param: string)
    requires CanGet(apps, app)
  {
    && Unambiguous(AppNames(apps), app)
    && var i := First(AppNames(apps), app);
       i >= 0 ==> Unambiguous(ParamNames(apps[i].config.value.parameters), param)
  }

  /** Unique names are enough for setter and getter to meet. */
  lemma UniqueNamesAddressable(apps: seq<Application>, app: string, param: string)
    requires CanGet(apps, app) && NoDuplicates(AppNames(apps))
    requires forall a | a in apps && a.config.Some? :: NoDuplicates(ParamNames(a.config.value.parameters))
    ensures Addressable(apps, app, param)
  {
  }

  lemma NamesAfterSet(apps: seq<Application>, app: string, param: string, value: string)
    ensures AppNames(SetAppParam(apps, app, param, value).0) == AppNames(apps)
  {
  }

  /** Setting a parameter and reading it back gives the value if and only if setter and getter meet
      or the getter already saw that value, for every existing application. Every other (application,
      parameter) pair reads as before. */
  lemma GetAfterSet(apps: seq<Application>, app: string, param: string, value: string, app': string, param': string)
    requires CanGet(apps, app) && CanGet(apps, app') && SetAppParam(apps, app, param, value).1
    ensures var after := SetAppParam(apps, app, param, value).0;
            && AppNames(after) == AppNames(apps) && CanGet(after, app) && CanGet(after, app')
            && (app in AppNames(apps) ==>
                  (GetAppParam(after, app, param) == Some(value)
                   <==> Addressable(apps, app, param) || GetAppParam(apps, app, param) == Some(value)))
            && ((app', param') != (app, param) ==> GetAppParam(after, app', param') == GetAppParam(apps, app', param'))
  {
    NamesAfterSet(apps, app, param, value);
    hide First, Last;
    var i := Last(AppNames(apps), app);
    if i >= 0 {
      GetAfterSetParam(apps[i].config.value.parameters, param, value, param');
    }
  }

  /** Without unique names the value set is not the value read. */
  lemma RepeatedNameHidesValue()
    ensures exists apps, app, param, value ::
              && CanGet(apps, app) && SetAppParam(apps, app, param, value).1
              && CanGet(SetAppParam(apps, app, param, value).0, app)
              && GetAppParam(SetAppParam(apps, app, param, value).0, app, param) != Some(value)
              && app in AppNames(apps)
  {
    var ps := [NameValue("p", "1"), NameValue("p", "2")];
    var apps := [Application("a", Some(KustomizeConfig(None, [], ps)))];
    assert AppNames(apps) == ["a"] && ParamNames(ps) == ["p", "p"];
    assert First(["p", "p"], "p") == 0 && Last(["p", "p"], "p") == 1;
    GetAfterSet(apps, "a", "p", "3", "a", "p");
    assert GetAppParam(apps, "a", "p") == Some("1");
  }

  /** Setting a parameter is refused if and only if the application that is written, the last one of the
      name, has no config, and then nothing changes. Otherwise at most that application changes, and of it
      only the parameters. */
  lemma SetTouchesOneApp(apps: seq<Application>, app: string, param: string, value: string, i: nat)
    requires i < |apps|
    ensures var (after, ok) := SetAppParam(apps, app, param, value);
            && (!ok ==> after == apps)
            && |after| == |apps|
            && (IsLastNamed(apps, app, i) ==> (ok <==> apps[i].config.Some?))
            && (app !in AppNames(apps) ==> ok && after == apps)
            && (!IsLastNamed(apps, app, i) ==> after[i] == apps[i])
            && (IsLastNamed(apps, app, i) && ok ==>
                  && after[i].name == app && after[i].config.Some?
                  && after[i].config.value
                     == apps[i].config.value.(parameters := after[i].config.value.parameters)
                  && NameValue(param, value) in after[i].config.value.parameters)
  {
    hide First;
    if IsLastNamed(apps, app, i) {
      assert AppNames(apps)[i] == app && Last(AppNames(apps), app) == i;
      if apps[i].config.Some? {
        ParameterIsThere(apps[i].config.value.parameters, param, value);
      }
    }
  }

  lemma ParameterIsThere(ps: seq<NameValue>, name: string, value: string)
    ensures NameValue(name, value) in SetParam(ps, name, value)
  {
    var i := Last(ParamNames(ps), name);
    assert SetParam(ps, name, value)[if i < 0 then |ps| else i] == NameValue(name, value);
  }

  /** The i-th application is the last one of that name. */
  predicate IsLastNamed(apps: seq<Application>, app: string, i: nat)
    requires i < |apps|
  {
    apps[i].name == app && forall j | i < j < |apps| :: apps[j].name != app
  }

  // ----- overlays -----

  /** The overlay editors dereference the config of the last application of that name. */
  predicate CanEditOverlays(apps: seq<Application>, app: string) {
    var i := Last(AppNames(apps), app);
    i >= 0 ==> apps[i].config.Some?
  }

  function Overlays(apps: seq<Application>, app: string): seq<string>
    requires CanEditOverlays(apps, app)
  {
    var i := Last(AppNames(apps), app);
    if i < 0 then [] else apps[i].config.value.overlays
  }

  function WithOverlays(apps: seq<Application>, app: string, overlays: seq<string>): seq<Application>
    requires CanEditOverlays(apps, app)
  {
    var i := Last(AppNames(apps), app);
    if i < 0 then apps else apps[i := apps[i].(config := Some(apps[i].config.value.(overlays := overlays)))]
  }

  function RemoveAt(xs: seq<string>, i: int): seq<string> {
    if 0 <= i < |xs| then xs[..i] + xs[i + 1..] else xs
  }

  function AddOverlay(apps: seq<Application>, app: string, overlay: string): seq<Application>
    requires CanEditOverlays(apps, app)
  {
    var os := Overlays(apps, app);
    WithOverlays(apps, app, if overlay in os then os else os + [overlay])
  }

  function RemoveOverlay(apps: seq<Application>, app: string, overlay: string): seq<Application>
    requires CanEditOverlays(apps, app)
  {
    var os := Overlays(apps, app);
    WithOverlays(apps, app, RemoveAt(os, Last(os, overlay)))
  }

  lemma WithOverlaysKeeps(apps: seq<Application>, app: string, overlays: seq<string>)
    requires CanEditOverlays(apps, app)
    ensures var after := WithOverlays(apps, app, overlays);
            && AppNames(after) == AppNames(apps) && CanEditOverlays(after, app)
            && (app in AppNames(apps) ==> Overlays(after, app) == overlays)
            && (overlays == Overlays(apps, app) ==> after == apps)
            && forall more :: WithOverlays(after, app, more) == WithOverlays(apps, app, more)
  {
  }

  /** Adding an overlay and removing it again restores the list if and only if the overlay was new
      (or there is no such application). */
  lemma RemoveUndoesAddIff(apps: seq<Application>, app: string, overlay: string)
    requires CanEditOverlays(apps, app)
    ensures CanEditOverlays(AddOverlay(apps, app, overlay), app)
    ensures RemoveOverlay(AddOverlay(apps, app, overlay), app, overlay) == apps
            <==> app !in AppNames(apps) || overlay !in Overlays(apps, app)
  {
    var os := Overlays(apps, app);
    var added := if overlay in os then os else os + [overlay];
    WithOverlaysKeeps(apps, app, added);
    if app in AppNames(apps) {
      var back := RemoveAt(added, Last(added, overlay));
      WithOverlaysKeeps(apps, app, back);
      if overlay !in os {
        assert back == os;
      } else {
        assert |back| == |os| - 1;
      }
    }
  }

  lemma OverlaysOfLast(apps: seq<Application>, app: string, overlays: seq<string>, i: nat)
    requires CanEditOverlays(apps, app) && i < |apps|
    ensures var after := WithOverlays(apps, app, overlays);
            && |after| == |apps|
            && (if IsLastNamed(apps, app, i)
                then && apps[i].config.Some? && Overlays(apps, app) == apps[i].config.value.overlays
                     && after[i] == Application(app, Some(apps[i].config.value.(overlays := overlays)))
                else after[i] == apps[i])
  {
    if IsLastNamed(apps, app, i) {
      assert AppNames(apps)[i] == app && Last(AppNames(apps), app) == i;
    }
  }

  /** After adding, the last application of the name has the overlay, where it was or else at the end;
      nothing else about it changes, and no other application does. */
  lemma AddOverlayMeans(apps: seq<Application>, app: string, overlay: string, i: nat)
    requires CanEditOverlays(apps, app) && i < |apps|
    ensures var after := AddOverlay(apps, app, overlay);
            && |after| == |apps|
            && (!IsLastNamed(apps, app, i) ==> after[i] == apps[i])
            && (IsLastNamed(apps, app, i) ==>
                  && apps[i].config.Some? && after[i].config.Some?
                  && var os, now := apps[i].config.value.overlays, after[i].config.value.overlays;
                     && after[i] == apps[i].(config := Some(apps[i].config.value.(overlays := now)))
                     && overlay in now
                     && (now == os || (overlay !in os && now == os + [overlay])))
  {
    var os := Overlays(apps, app);
    OverlaysOfLast(apps, app, if overlay in os then os else os + [overlay], i);
  }

  /** After removing, exactly the last occurrence of the overlay is gone from the last application of the
      name, the others are in their order; nothing else about it changes, and no other application does. */
  lemma RemoveOverlayMeans(apps: seq<Application>, app: string, overlay: string, i: nat)
    requires CanEditOverlays(apps, app) && i < |apps|
    ensures var after := RemoveOverlay(apps, app, overlay);
            && |after| == |apps|
            && (!IsLastNamed(apps, app, i) ==> after[i] == apps[i])
            && (IsLastNamed(apps, app, i) ==>
                  && apps[i].config.Some? && after[i].config.Some?
                  && var os, now := apps[i].config.value.overlays, after[i].config.value.overlays;
                     && after[i] == apps[i].(config := Some(apps[i].config.value.(overlays := now)))
                     && (overlay !in os ==> now == os)
                     && (overlay in os ==>
                           exists a: seq<string>, b: seq<string> ::
                             os == a + [overlay] + b && now == a + b && overlay !in b))
  {
    hide First;
    var os := Overlays(apps, app);
    OverlaysOfLast(apps, app, RemoveAt(os, Last(os, overlay)), i);
    if overlay in os {
      var k := Last(os, overlay);
      var a, b := os[..k], os[k + 1..];
      assert os == a + [overlay] + b && RemoveAt(os, k) == a + b && overlay !in b;
    }
  }

  /** Editing overlays changes no parameter of any application. */
  lemma OverlaysLeaveParameters(apps: seq<Application>, app: string, overlays: seq<string>, app': string, param: string)
    requires CanEditOverlays(apps, app) && CanGet(apps, app')
    ensures var after := WithOverlays(apps, app, overlays);
            CanGet(after, app') && GetAppParam(after, app', param) == GetAppParam(apps, app', param)
  {
    WithOverlaysKeeps(apps, app, overlays);
  }

  // ----- deleting an application -----

  function DeleteApp(apps: seq<Application>, app: string): seq<Application> {
    var i := Last(AppNames(apps), app);
    if i < 0 then apps else apps[..i] + apps[i + 1..]
  }

  /** The application is gone if and only if its name was not repeated; uniqueness is kept. */
  lemma DeleteNames(apps: seq<Application>, app: string)
    ensures app !in AppNames(DeleteApp(apps, app)) <==> Unambiguous(AppNames(apps), app)
    ensures NoDuplicates(AppNames(apps)) ==> NoDuplicates(AppNames(DeleteApp(apps, app)))
  {
    hide First, Last;
    var i, names := Last(AppNames(apps), app), AppNames(apps);
    if i < 0 {
      assert First(names, app) < 0;
    } else {
      var after := AppNames(DeleteApp(apps, app));
      assert after == names[..i] + names[i + 1..];
      var f := First(names, app);
      assert f < i ==> after[f] == app;
    }
  }

  /** Deleting takes out the last application of that name and leaves the others in their order. */
  lemma DeleteKeepsOthers(apps: seq<Application>, app: string)
    ensures app !in AppNames(apps) ==> DeleteApp(apps, app) == apps
    ensures app in AppNames(apps) ==>
              exists before: seq<Application>, gone: Application, behind: seq<Application> ::
                && gone.name == app && (forall a | a in behind :: a.name != app)
                && apps == before + [gone] + behind && DeleteApp(apps, app) == before + behind
  {
    var i := Last(AppNames(apps), app);
    if i >= 0 {
      assert apps[i].name == app && apps == apps[..i] + [apps[i]] + apps[i + 1..];
    }
  }
}
