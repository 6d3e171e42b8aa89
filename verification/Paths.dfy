/** Go's lexical path operations (package path) and the path rewriting of the kustomization merge. */
module Paths {
  import opened Strings

  /** One segment: "" and "." are skipped, ".." takes back the segment before it. */
  function Push(out: seq<string>, s: string, rooted: bool): seq<string> {
    if s == "" || s == "." then out
    else if s != ".." then out + [s]
    else if out != [] && out[|out| - 1] != ".." then out[..|out| - 1]
    else if rooted then out
    else out + [s]
  }

  function Resolve(segments: seq<string>, rooted: bool, out: seq<string>): seq<string>
    decreases |segments|
  {
    if segments == [] then out else Resolve(segments[1..], rooted, Push(out, segments[0], rooted))
  }

  function Glue(segments: seq<string>): string {
    if segments == [] then ""
    else if |segments| == 1 then segments[0]
    else Glue(segments[..|segments| - 1]) + "/" + segments[|segments| - 1]
  }

  predicate Rooted(p: string) {
    p != "" && p[0] == '/'
  }

  function Render(segments: seq<string>, rooted: bool): string {
    if rooted then "/" + Glue(segments) else if segments == [] then "." else Glue(segments)
  }

  /** The segments a path resolves to. */
  function Segments(p: string): seq<string> {
    Resolve(Split(p, '/'), Rooted(p), [])
  }

  /** Go's `path.Clean`. */
  function Clean(p: string): string {
    Render(Segments(p), Rooted(p))
  }

  /** Go's `path.Join` of two elements; empty elements are ignored. */
  function PathJoin(a: string, b: string): string {
    if a == "" && b == "" then ""
    else if a == "" then Clean(b)
    else if b == "" then Clean(a)
    else Clean(a + "/" + b)
  }

  /** Whether extractSuffix returns: it slices off the first character of what is left. */
  predicate HasSuffix(dirPath: string, subDirPath: string) {
    subDirPath != dirPath && subDirPath != ""
  }

  function ExtractSuffix(dirPath: string, subDirPath: string): string
    requires HasSuffix(dirPath, subDirPath)
  {
    if HasPrefix(subDirPath, dirPath) then subDirPath[|dirPath| + 1..] else subDirPath[1..]
  }

  // ----- joining inside a directory -----

  lemma {:induction false} ResolveConcat(a: seq<string>, b: seq<string>, rooted: bool, out: seq<string>)
    ensures Resolve(a + b, rooted, out) == Resolve(b, rooted, Resolve(a, rooted, out))
    decreases |a|
  {
    if a == [] {
      assert a + b == b;
    } else {
      assert (a + b)[1..] == a[1..] + b;
      ResolveConcat(a[1..], b, rooted, Push(out, a[0], rooted));
    }
  }

  /** In a relative path, a ".." that is kept once is kept for good. */
  lemma {:induction false} DotsStay(segments: seq<string>, out: seq<string>, k: nat)
    requires k < |out| && out[k] == ".."
    ensures ".." in Resolve(segments, false, out)
    decreases |segments|
  {
    if segments != [] {
      DotsStay(segments[1..], Push(out, segments[0], false), k);
    }
  }

  /** As long as ".." does not climb out, resolving below a directory is resolving on its own. */
  lemma {:induction false} ResolveBelow(segments: seq<string>, rooted: bool, base: seq<string>, out: seq<string>)
    requires ".." !in Resolve(segments, false, out)
    ensures Resolve(segments, rooted, base + out) == base + Resolve(segments, false, out)
    decreases |segments|
  {
    if segments != [] {
      var next := Push(out, segments[0], false);
      if next != [] && next[|next| - 1] == ".." {
        DotsStay(segments[1..], next, |next| - 1);
        assert false;
      }
      PushBelow(base, out, segments[0], rooted);
      ResolveBelow(segments[1..], rooted, base, next);
    }
  }

  lemma PushBelow(base: seq<string>, out: seq<string>, s: string, rooted: bool)
    requires var next := Push(out, s, false);
             next == [] || next[|next| - 1] != ".."
    ensures Push(base + out, s, rooted) == base + Push(out, s, false)
  {
  }

  lemma {:induction false} GlueConcat(a: seq<string>, b: seq<string>)
    requires a != [] && b != []
    ensures Glue(a + b) == Glue(a) + "/" + Glue(b)
    decreases |b|
  {
    var n := |b| - 1;
    assert (a + b)[..|a + b| - 1] == a + b[..n];
    if n == 0 {
      assert a + b[..n] == a;
    } else {
      GlueConcat(a, b[..n]);
    }
  }

  /** The segments of a relative path, resolved on their own. */
  function Inner(v: string): seq<string> {
    Resolve(Split(v, '/'), false, [])
  }

  /** The path names something strictly below the directory it is relative to. */
  predicate StaysInside(v: string) {
    v != "" && !Rooted(v) && Inner(v) != [] && ".." !in Inner(v)
  }

  /** A clean directory other than "/" and ".". */
  predicate CleanDir(d: string) {
    d != "" && Clean(d) == d && Segments(d) != []
  }

  lemma ResolveInside(d: string, v: string, rooted: bool)
    requires StaysInside(v)
    ensures Resolve(Split(d + "/" + v, '/'), rooted, []) == Resolve(Split(d, '/'), rooted, []) + Inner(v)
  {
    var base := Resolve(Split(d, '/'), rooted, []);
    assert d + "/" + v == d + ['/'] + v;
    SplitConcat(d, '/', v);
    ResolveConcat(Split(d, '/'), Split(v, '/'), rooted, []);
    ResolveBelow(Split(v, '/'), rooted, base, []);
    assert base + [] == base;
  }

  lemma RenderConcat(base: seq<string>, inner: seq<string>, rooted: bool)
    requires base != [] && inner != []
    ensures Render(base + inner, rooted) == Render(base, rooted) + "/" + Glue(inner)
  {
    GlueConcat(base, inner);
  }

  /** Joining a path that stays inside appends its clean form to the directory. */
  lemma JoinInside(d: string, v: string)
    requires CleanDir(d) && StaysInside(v)
    ensures PathJoin(d, v) == d + "/" + Clean(v)
  {
    ResolveInside(d, v, Rooted(d));
    RenderConcat(Resolve(Split(d, '/'), Rooted(d), []), Inner(v), Rooted(d));
    assert Rooted(d + "/" + v) == Rooted(d);
  }

  // ----- cleaning is idempotent -----

  predicate Plain(s: string) {
    s != "" && s != "." && '/' !in s
  }

  /** Plain segments, with ".." only at the start of a relative path. */
  predicate Normal(segments: seq<string>, rooted: bool) {
    && (forall i | 0 <= i < |segments| :: Plain(segments[i]))
    && (forall i, j | 0 <= j <= i < |segments| && segments[i] == ".." :: !rooted && segments[j] == "..")
  }

  lemma {:induction false} ResolveIsNormal(segments: seq<string>, rooted: bool, out: seq<string>)
    requires Normal(out, rooted) && forall s | s in segments :: '/' !in s
    ensures Normal(Resolve(segments, rooted, out), rooted)
    decreases |segments|
  {
    if segments != [] {
      assert segments[0] in segments && forall s | s in segments[1..] :: s in segments;
      ResolveIsNormal(segments[1..], rooted, Push(out, segments[0], rooted));
    }
  }

  lemma {:induction false} ResolveFixed(segments: seq<string>, rooted: bool, out: seq<string>)
    requires Normal(out + segments, rooted)
    ensures Resolve(segments, rooted, out) == out + segments
    decreases |segments|
  {
    if segments != [] {
      assert (out + segments)[|out|] == segments[0];
      assert out != [] ==> (out + segments)[|out| - 1] == out[|out| - 1];
      assert out + [segments[0]] + segments[1..] == out + segments;
      ResolveFixed(segments[1..], rooted, out + [segments[0]]);
    }
  }

  lemma {:induction false} SplitGlue(segments: seq<string>)
    requires segments != [] && forall s | s in segments :: '/' !in s
    ensures Split(Glue(segments), '/') == segments
  {
    var init, last := segments[..|segments| - 1], segments[|segments| - 1];
    assert last in segments && segments == init + [last];
    SplitWhole(last, '/');
    if init != [] {
      assert forall s | s in init :: s in segments;
      SplitGlue(init);
      SplitConcat(Glue(init), '/', last);
    }
  }

  lemma {:induction false} GlueStart(segments: seq<string>)
    requires segments != [] && segments[0] != ""
    ensures Glue(segments) != "" && Glue(segments)[0] == segments[0][0]
  {
    if |segments| > 1 {
      GlueStart(segments[..|segments| - 1]);
    }
  }

  lemma RootAndDot()
    ensures Segments("/") == [] && Segments(".") == []
  {
    SplitWhole(".", '/');
    SplitWhole("", '/');
    assert "/"[1..] == "" && Split("/", '/') == ["", ""];
    assert ["", ""][1..] == [""] && [""][1..] == [] && ["."][1..] == [];
    assert Resolve([""], true, []) == Resolve([], true, []) == Resolve([], false, []) == [];
    hide Split;
  }

  lemma RenderSegments(segments: seq<string>, rooted: bool)
    requires Normal(segments, rooted)
    ensures var p := Render(segments, rooted);
            p != "" && Rooted(p) == rooted && Segments(p) == segments
  {
    var p := Render(segments, rooted);
    if segments == [] {
      RootAndDot();
    } else {
      GlueStart(segments);
      SplitGlue(segments);
      assert [] + segments == segments;
      ResolveFixed(segments, rooted, []);
      if rooted {
        assert p[1..] == Glue(segments);
        assert Split(p, '/') == [""] + segments && ([""] + segments)[1..] == segments;
      }
      hide Split, Glue;
    }
  }

  /** Cleaning keeps the segments and leaves a clean path alone. */
  lemma CleanKeepsSegments(p: string)
    ensures Clean(p) != "" && Rooted(Clean(p)) == Rooted(p) && Segments(Clean(p)) == Segments(p)
    ensures Clean(Clean(p)) == Clean(p)
  {
    SplitPartsAreFree(p, '/');
    ResolveIsNormal(Split(p, '/'), Rooted(p), []);
    RenderSegments(Segments(p), Rooted(p));
  }

  /** The path a child kustomization mentions, relative to the component directory. */
  function Rewritten(compDir: string, targetDir: string, value: string): string {
    var p := PathJoin(targetDir, value);
    if HasSuffix(compDir, p) then ExtractSuffix(compDir, p) else ""
  }

  /** A name of one segment. */
  predicate SingleSegment(name: string) {
    Plain(name) && name != ".."
  }

  lemma CleanSegment(name: string)
    requires SingleSegment(name)
    ensures StaysInside(name) && Clean(name) == name
  {
    SplitWhole(name, '/');
    assert [name][1..] == [];
    assert Resolve([name], false, []) == Resolve([], false, [name]) == [name];
    hide Split;
  }

  /** Joining a name of one segment to a clean directory gives another one. */
  lemma ChildIsClean(d: string, name: string)
    requires CleanDir(d) && SingleSegment(name)
    ensures PathJoin(d, name) == d + "/" + name && CleanDir(PathJoin(d, name))
  {
    CleanSegment(name);
    JoinInside(d, name);
    ResolveInside(d, name, Rooted(d));
    assert Rooted(d + "/" + name) == Rooted(d);
    CleanKeepsSegments(d + "/" + name);
    hide Clean, Resolve;
  }

  /** A file that a kustomization at compDir/target refers to is referred to from compDir by the clean form
      of target/value, if that stays inside. */
  lemma BelowIsRewritten(compDir: string, target: string, value: string)
    requires CleanDir(compDir) && target != "" && value != "" && StaysInside(target + "/" + value)
    ensures Rewritten(compDir, compDir + "/" + target, value) == Clean(target + "/" + value)
  {
    JoinInside(compDir, target + "/" + value);
    assert (compDir + "/" + target) + "/" + value == compDir + "/" + (target + "/" + value);
    assert PathJoin(compDir + "/" + target, value) == PathJoin(compDir, target + "/" + value);
    hide Clean, StaysInside;
  }

  /** The file is strictly below the component directory. */
  predicate StrictlyBelow(compDir: string, path: string) {
    HasPrefix(path, compDir + "/")
  }

  lemma TrailingSlash(d: string)
    requires CleanDir(d)
    ensures Clean(d + "/") == d
  {
    SplitConcat(d, '/', "");
    SplitWhole("", '/');
    ResolveConcat(Split(d, '/'), [""], Rooted(d), []);
    assert d + "/" == d + ['/'] + "";
    assert Resolve([""], Rooted(d), Segments(d)) == Resolve([], Rooted(d), Segments(d));
    hide Split;
  }

  lemma JoinIsClean(a: string, b: string)
    requires a != ""
    ensures PathJoin(a, b) != "" && Clean(PathJoin(a, b)) == PathJoin(a, b) && Rooted(PathJoin(a, b)) == Rooted(a)
  {
    CleanKeepsSegments(a);
    CleanKeepsSegments(a + "/" + b);
    hide Clean;
  }

  lemma BelowKeepsPath(compDir: string, path: string)
    requires CleanDir(compDir) && Clean(path) == path && StrictlyBelow(compDir, path)
    ensures HasSuffix(compDir, path) && PathJoin(compDir, ExtractSuffix(compDir, path)) == path
  {
    TrailingSlash(compDir);
    hide Clean, Segments;
    var rest := path[|compDir| + 1..];
    assert path == compDir + "/" + rest && (rest == "" ==> path == compDir + "/");
  }

  /** Files strictly below keep their meaning, whatever the directories. */
  lemma BelowMeans(compDir: string, targetDir: string, value: string)
    requires CleanDir(compDir) && targetDir != "" && StrictlyBelow(compDir, PathJoin(targetDir, value))
    ensures HasSuffix(compDir, PathJoin(targetDir, value))
    ensures PathJoin(compDir, Rewritten(compDir, targetDir, value)) == PathJoin(targetDir, value)
  {
    JoinIsClean(targetDir, value);
    hide PathJoin, Clean, ExtractSuffix, HasSuffix;
    BelowKeepsPath(compDir, PathJoin(targetDir, value));
  }

  /** Two lists of segments, the last of the first and the first of the second run together. */
  function Fuse(p: seq<string>, q: seq<string>): seq<string>
    requires p != [] && q != []
  {
    p[..|p| - 1] + [p[|p| - 1] + q[0]] + q[1..]
  }

  /** What putting a character in front does to the segments. */
  function Prepend(c: char, p: seq<string>): seq<string>
    requires p != []
  {
    if c == '/' then [""] + p else [[c] + p[0]] + p[1..]
  }

  lemma PrependFuse(c: char, p: seq<string>, q: seq<string>)
    requires p != [] && q != []
    ensures Fuse(Prepend(c, p), q) == Prepend(c, Fuse(p, q))
  {
    if c != '/' && |p| == 1 {
      assert [c] + (p[0] + q[0]) == [c] + p[0] + q[0];
    }
  }

  lemma {:induction false} SplitRunsTogether(a: string, b: string)
    ensures Split(a + b, '/') == Fuse(Split(a, '/'), Split(b, '/'))
  {
    if a == "" {
      assert a + b == b;
      FuseEmpty(Split(b, '/'));
    } else {
      SplitRunsTogether(a[1..], b);
      assert a == [a[0]] + a[1..] && a + b == [a[0]] + (a[1..] + b);
      SplitPrepend(a[0], a[1..]);
      SplitPrepend(a[0], a[1..] + b);
      PrependFuse(a[0], Split(a[1..], '/'), Split(b, '/'));
      hide Fuse, Split;
    }
  }

  lemma SplitPrepend(c: char, s: string)
    ensures Split([c] + s, '/') == Prepend(c, Split(s, '/'))
  {
    assert ([c] + s)[1..] == s;
  }

  lemma FuseEmpty(q: seq<string>)
    requires q != []
    ensures Fuse([""], q) == q
  {
    assert "" + q[0] == q[0];
  }

  lemma RootedSplit(p: string)
    requires Rooted(p) && Clean(p) == p && Segments(p) != []
    ensures Split(p, '/') == [""] + Segments(p) && Normal(Segments(p), true)
  {
    SplitPartsAreFree(p, '/');
    ResolveIsNormal(Split(p, '/'), true, []);
    SplitGlue(Segments(p));
    assert p[1..] == Glue(Segments(p));
  }

  lemma ResolveJoined(d: string, v: string)
    ensures Resolve(Split(d + "/" + v, '/'), Rooted(d), []) == Resolve(Split(v, '/'), Rooted(d), Segments(d))
  {
    assert d + "/" + v == d + ['/'] + v;
    SplitConcat(d, '/', v);
    ResolveConcat(Split(d, '/'), Split(v, '/'), Rooted(d), []);
  }

  lemma JoinSegments(d: string, v: string)
    requires d != "" && v != ""
    ensures PathJoin(d, v) == Render(Resolve(Split(v, '/'), Rooted(d), Segments(d)), Rooted(d))
  {
    ResolveJoined(d, v);
    assert Rooted(d + "/" + v) == Rooted(d);
    hide Split, Resolve;
  }

  /** A path that only starts like the directory continues its last segment. */
  lemma SiblingSegments(compDir: string, c: char, rest: string, path: string)
    requires CleanDir(compDir) && Rooted(compDir) && c != '/' && path == compDir + ([c] + rest)
    requires Clean(path) == path && Segments(path) != []
    ensures Segments(path) == Fuse(Segments(compDir), Prepend(c, Split(rest, '/')))
    ensures Normal(Segments(compDir), true) && Normal(Segments(path), true)
  {
    hide Clean, Segments, Split, Normal;
    RootedSplit(compDir);
    RootedSplit(path);
    SplitRunsTogether(compDir, [c] + rest);
    SplitPrepend(c, rest);
    var fused := Fuse(Segments(compDir), Prepend(c, Split(rest, '/')));
    FuseTail("", Segments(compDir), Prepend(c, Split(rest, '/')));
    hide Fuse;
    assert ([""] + fused)[1..] == fused && ([""] + Segments(path))[1..] == Segments(path);
  }

  lemma FuseTail(x: string, p: seq<string>, q: seq<string>)
    requires p != [] && q != []
    ensures Fuse([x] + p, q) == [x] + Fuse(p, q)
  {
    assert ([x] + p)[..|p|] == [x] + p[..|p| - 1];
  }

  /** Resolving those segments without the first character gives something else. */
  lemma SiblingResolves(cs: seq<string>, c: char, rs: seq<string>)
    requires cs != [] && rs != [] && Normal(cs, true) && c != '/' && forall r | r in rs :: '/' !in r
    requires Normal(Fuse(cs, Prepend(c, rs)), true)
    ensures Resolve(rs, true, cs) != Fuse(cs, Prepend(c, rs))
  {
    var js, out, n := Fuse(cs, Prepend(c, rs)), Push(cs, rs[0], true), |cs| - 1;
    assert js[|cs|..] == rs[1..] && js[n] == cs[n] + ([c] + rs[0]);
    assert Normal(out, true) && Resolve(rs, true, cs) == Resolve(rs[1..], true, out);
    TailResolves(js, |cs|, out);
    hide Resolve, Normal, Fuse;
    assert |js[n]| > |cs[n]| && |js| == |cs| + |rs| - 1;
  }

  /** A longer sibling of the directory loses its first extra character. */
  lemma SiblingIsMissed(compDir: string, path: string)
    requires CleanDir(compDir) && Rooted(compDir) && Clean(path) == path && Segments(path) != []
    requires HasPrefix(path, compDir) && path != compDir && !StrictlyBelow(compDir, path)
    ensures Segments(compDir + "/" + path[|compDir| + 1..]) != Segments(path)
  {
    hide Split, Resolve, Normal, Clean;
    var c, rest := path[|compDir|], path[|compDir| + 1..];
    assert path == compDir + ([c] + rest);
    SiblingSegments(compDir, c, rest, path);
    SplitPartsAreFree(rest, '/');
    ResolveJoined(compDir, rest);
    SiblingResolves(Segments(compDir), c, Split(rest, '/'));
    assert Segments(compDir + "/" + rest) == Resolve(Split(rest, '/'), true, Segments(compDir));
    hide Fuse, Segments;
  }

  /** The later segments of a rooted path are kept wherever they are resolved. */
  lemma TailResolves(js: seq<string>, k: nat, out: seq<string>)
    requires Normal(js, true) && k <= |js| && Normal(out, true)
    ensures Resolve(js[k..], true, out) == out + js[k..]
  {
    ResolveFixed(js[k..], true, out);
  }

  /** Any other path is taken for one below the directory. */
  lemma ForeignIsMissed(compDir: string, path: string)
    requires CleanDir(compDir) && Rooted(compDir) && Rooted(path) && Clean(path) == path && Segments(path) != []
    ensures PathJoin(compDir, path[1..]) == compDir + path
  {
    var js, cs := Segments(path), Segments(compDir);
    RootedSplit(path);
    RootedSplit(compDir);
    assert path == "" + ['/'] + path[1..] && path[1..] == Glue(js);
    SplitConcat("", '/', path[1..]);
    SplitWhole("", '/');
    TailResolves(js, 0, cs);
    assert js[0..] == js && path[1..] != "";
    JoinSegments(compDir, path[1..]);
    RenderConcat(cs, js, true);
    hide Split, Resolve;
  }

  /** For absolute directories the rewriting keeps the meaning of a path, that is, what it names from compDir is
      what the kustomization meant, if and only if that lies strictly below compDir. */
  lemma RewrittenMeansIff(compDir: string, targetDir: string, value: string)
    requires CleanDir(compDir) && Rooted(compDir) && Rooted(targetDir)
    ensures var joined := PathJoin(targetDir, value);
            HasSuffix(compDir, joined) && PathJoin(compDir, Rewritten(compDir, targetDir, value)) == joined
            <==> StrictlyBelow(compDir, joined)
  {
    var joined := PathJoin(targetDir, value);
    CleanKeepsSegments(targetDir);
    CleanKeepsSegments(targetDir + "/" + value);
    assert Rooted(joined) && Clean(joined) == joined;
    if StrictlyBelow(compDir, joined) {
      BelowMeans(compDir, targetDir, value);
    } else if HasSuffix(compDir, joined) {
      if HasPrefix(joined, compDir) {
        SiblingIsMissed(compDir, joined);
        CleanKeepsSegments(compDir + "/" + joined[|compDir| + 1..]);
      } else if Segments(joined) != [] {
        ForeignIsMissed(compDir, joined);
      }
    }
  }

  lemma SplitTwice(a: string, b: string, rest: string)
    requires '/' !in a && '/' !in b
    ensures Split(a + "/" + b + "/" + rest, '/') == [a, b] + Split(rest, '/')
  {
    hide Split;
    SplitWhole(a, '/');
    SplitWhole(b, '/');
    SplitConcat(b, '/', rest);
    SplitConcat(a, '/', b + ['/'] + rest);
    Regroup(a, b, rest);
    assert [a] + ([b] + Split(rest, '/')) == [a, b] + Split(rest, '/');
  }

  lemma Regroup(a: string, b: string, rest: string)
    ensures a + "/" + b + "/" + rest == a + ['/'] + (b + ['/'] + rest)
  {
  }

  lemma GlueTwo(a: string, b: string)
    ensures Glue([a, b]) == a + "/" + b
  {
    assert [a, b][..1] == [a];
  }

  lemma UpTwo(a: string, b: string, name: string)
    requires SingleSegment(a) && SingleSegment(b) && SingleSegment(name)
    ensures Inner(a + "/" + b + "/" + (".." + "/" + ".." + "/" + name)) == [name]
    ensures StaysInside(a + "/" + b + "/" + (".." + "/" + ".." + "/" + name))
    ensures Clean(a + "/" + b + "/" + (".." + "/" + ".." + "/" + name)) == name
  {
    SplitTwice(a, b, ".." + "/" + ".." + "/" + name);
    SplitTwice("..", "..", name);
    SplitWhole(name, '/');
    hide Split;
    assert [a, b] + ([".."] + [".."] + [name]) == [a] + [b] + ["..", "..", name];
    ResolveNames([a, b], ["..", "..", name]);
    ResolveUp([a], b, ["..", name]);
    ResolveUp([], a, [name]);
    ResolveNames([name], []);
    hide Resolve;
    assert [".."] + ["..", name] == ["..", "..", name] && [".."] + [name] == ["..", name];
    assert [a] + [b] == [a, b] && [] + [a] == [a] && [name] + [] == [name] && [".."] + [".."] == ["..", ".."];
  }

  lemma UpOne(a: string, b: string, name: string)
    requires SingleSegment(a) && SingleSegment(b) && SingleSegment(name)
    ensures Inner(a + "/" + b + "/" + (".." + "/" + name)) == [a, name]
    ensures StaysInside(a + "/" + b + "/" + (".." + "/" + name))
    ensures Clean(a + "/" + b + "/" + (".." + "/" + name)) == Glue([a, name])
  {
    SplitTwice(a, b, ".." + "/" + name);
    SplitWhole(name, '/');
    SplitWhole("..", '/');
    SplitConcat("..", '/', name);
    assert ".." + "/" + name == ".." + ['/'] + name;
    hide Split;
    ResolveNames([a, b], ["..", name]);
    ResolveUp([a], b, [name]);
    ResolveNames([a, name], []);
    ResolveNames([a], [name]);
    hide Resolve;
    assert [".."] + [name] == ["..", name] && [a] + [b] == [a, b] && [a] + [name] == [a, name] && [a, name] + [] == [a, name];
  }

  lemma ResolveUp(out: seq<string>, last: string, more: seq<string>)
    requires last != ".."
    ensures Resolve([".."] + more, false, out + [last]) == Resolve(more, false, out)
  {
    assert ([".."] + more)[1..] == more && (out + [last])[..|out + [last]| - 1] == out;
  }

  lemma {:induction false} ResolveNames(names: seq<string>, more: seq<string>)
    requires forall n | n in names :: SingleSegment(n)
    ensures Resolve(names + more, false, []) == Resolve(more, false, names)
  {
    assert [] + names == names && forall i | 0 <= i < |names| :: names[i] in names;
    ResolveFixed(names, false, []);
    ResolveConcat(names, more, false, []);
  }

  lemma UpTwice()
    ensures Resolve(["..", "..", "x"], true, ["a", "kf", "base"]) == ["a", "x"]
  {
    assert ["..", "..", "x"][1..] == ["..", "x"] && ["..", "x"][1..] == ["x"] && ["x"][1..] == [];
    assert ["a", "kf", "base"][..2] == ["a", "kf"] && ["a", "kf"][..1] == ["a"];
    assert Resolve(["x"], true, ["a"]) == Resolve([], true, ["a", "x"]);
    assert Resolve(["..", "x"], true, ["a", "kf"]) == Resolve(["x"], true, ["a"]);
  }

  lemma UpSplit()
    ensures Split("../../x", '/') == ["..", "..", "x"]
  {
    SplitTwice("..", "..", "x");
    SplitWhole("x", '/');
    hide Split;
    assert ".." + "/" + ".." + "/" + "x" == "../../x";
  }

  lemma BaseSegments()
    ensures Segments("/a/kf/base") == ["a", "kf", "base"]
  {
    GlueTwo("a", "kf");
    assert Glue(["base"]) == "base";
    GlueConcat(["a", "kf"], ["base"]);
    RenderSegments(["a", "kf", "base"], true);
    hide Glue, Segments, Normal;
    assert ["a", "kf"] + ["base"] == ["a", "kf", "base"];
    assert Render(["a", "kf", "base"], true) == "/a/kf/base";
  }

  lemma OutsideJoin()
    ensures PathJoin("/a/kf/base", "../../x") == "/a/x"
  {
    hide PathJoin, Split, Segments, Resolve;
    GlueTwo("a", "x");
    UpSplit();
    BaseSegments();
    UpTwice();
    JoinSegments("/a/kf/base", "../../x");
    hide Glue;
    assert Rooted("/a/kf/base") && Render(["a", "x"], true) == "/a/x";
  }

  /** A base outside the component: "../../x" of /a/kf/base is /a/x, but is rewritten to "a/x", which from
      /a/kf names a file that nobody meant. */
  lemma OutsideIsRewrittenWrongly()
    ensures PathJoin("/a/kf/base", "../../x") == "/a/x"
    ensures Rewritten("/a/kf", "/a/kf/base", "../../x") == "a/x"
    ensures PathJoin("/a/kf", "a/x") == "/a/kf" + "/a/x"
  {
    OutsideJoin();
    GlueTwo("a", "kf");
    GlueTwo("a", "x");
    RenderSegments(["a", "kf"], true);
    RenderSegments(["a", "x"], true);
    hide PathJoin, Glue, Segments;
    assert Render(["a", "kf"], true) == "/a/kf" && Render(["a", "x"], true) == "/a/x";
    hide Render;
    assert "/a/x"[1..] == "a/x" && !HasPrefix("/a/x", "/a/kf");
    ForeignIsMissed("/a/kf", "/a/x");
  }

  lemma GlueThree(a: string, b: string, c: string)
    ensures Glue([a, b, c]) == a + "/" + b + "/" + c
  {
    GlueTwo(a, b);
    assert [a, b, c][..2] == [a, b];
  }

  lemma UpTwoSegments(name: string)
    requires SingleSegment(name)
    ensures Segments(".." + "/" + ".." + "/" + name) == ["..", "..", name]
    ensures Render(["..", "..", name], false) == ".." + "/" + ".." + "/" + name
  {
    GlueThree("..", "..", name);
    hide Glue, Segments;
    RenderSegments(["..", "..", name], false);
  }

  lemma UpTwoMoreSegments(name: string, base: string)
    requires SingleSegment(name) && SingleSegment(base)
    ensures Segments(".." + "/" + ".." + "/" + name + "/" + base) == ["..", "..", name, base]
  {
    GlueThree("..", "..", name);
    GlueConcat(["..", "..", name], [base]);
    assert Glue([base]) == base && ["..", "..", name] + [base] == ["..", "..", name, base];
    hide Glue, Segments;
    RenderSegments(["..", "..", name, base], false);
  }

  lemma RelativeSegments()
    ensures Segments("../../x") == ["..", "..", "x"] && Segments("../../x/base") == ["..", "..", "x", "base"]
    ensures Render(["..", "..", "y"], false) == "../../y"
  {
    UpTwoSegments("x");
    UpTwoSegments("y");
    UpTwoMoreSegments("x", "base");
    hide Segments, Render;
    assert ".." + "/" + ".." + "/" + "x" == "../../x" && ".." + "/" + ".." + "/" + "y" == "../../y";
    assert ".." + "/" + ".." + "/" + "x" + "/" + "base" == "../../x/base";
  }

  lemma RelativeSplits()
    ensures Split("../../y", '/') == ["..", "..", "y"] && Split("./../y", '/') == [".", "..", "y"]
  {
    SplitTwice("..", "..", "y");
    SplitTwice(".", "..", "y");
    SplitWhole("y", '/');
    hide Split;
    assert ".." + "/" + ".." + "/" + "y" == "../../y" && "." + "/" + ".." + "/" + "y" == "./../y";
  }

  lemma RelativeResolves()
    ensures Resolve(["..", "..", "y"], false, ["..", "..", "x", "base"]) == ["..", "..", "y"]
    ensures Resolve([".", "..", "y"], false, ["..", "..", "x"]) == ["..", "..", "y"]
  {
    assert [".."] + ["..", "y"] == ["..", "..", "y"] && [".."] + ["y"] == ["..", "y"];
    assert ["..", "..", "x"] + ["base"] == ["..", "..", "x", "base"] && ["..", ".."] + ["x"] == ["..", "..", "x"];
    ResolveUp(["..", "..", "x"], "base", ["..", "y"]);
    ResolveUp(["..", ".."], "x", ["y"]);
    assert ["y"][1..] == [] && [".", "..", "y"][1..] == ["..", "y"];
    assert Resolve(["y"], false, ["..", ".."]) == Resolve([], false, ["..", "..", "y"]);
  }

  /** For relative directories a path outside can, by accident, be rewritten to one that names it. */
  lemma RelativeMayMeet()
    ensures PathJoin("../../x/base", "../../y") == "../../y" && !StrictlyBelow("../../x", "../../y")
    ensures Rewritten("../../x", "../../x/base", "../../y") == "./../y"
    ensures PathJoin("../../x", "./../y") == "../../y"
  {
    hide PathJoin, Split, Segments, Resolve, Render;
    RelativeSegments();
    RelativeSplits();
    RelativeResolves();
    JoinSegments("../../x/base", "../../y");
    JoinSegments("../../x", "./../y");
    assert !Rooted("../../x") && !Rooted("../../x/base");
    assert "../../y"[1..] == "./../y" && "../../y"[6] != "../../x"[6];
  }
}
