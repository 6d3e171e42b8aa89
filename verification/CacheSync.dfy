/** Synchronising the local caches of the repositories a KfConfig names (pkg/kfconfig/types.go:218-228, 438-593).
    Directories are modelled by their paths; what a download does comes from a script. */
module CacheSync {
  import opened Strings
  import opened Wrappers
  import opened Paths

  datatype Repo = Repo(name: string, uri: string)
  datatype Cache = Cache(name: string, localPath: string)

  /** How the turn of one repository goes. What is unpacked are the paths of `tree` below the cache
      directory; `entry` names the one that becomes the local path, if the kind of URI asks for one. An
      archive without entries is then an index out of range. */
  datatype Fetch =
    | RemoveFails
    | BadUri
    | MkdirFails
    | DownloadFails(tree: set<string>)
    | EmptyArchive
    | Unpacked(tree: set<string>, entry: Option<string>)

  /** Whether a path was there when the call began, or which download of the call made it. */
  datatype Origin = Found | MadeBy(download: nat)

  /** The directories and files there are. */
  type Dirs = map<string, Origin>

  datatype Progress = Going | Failed | Panicked

  datatype Sync = Sync(dirs: Dirs, caches: seq<Cache>, fetched: seq<string>, status: Progress) {
    predicate Ok() {
      status.Going?
    }
  }

  const CACHE_DIR := ".cache"

  function CacheBase(appDir: string): string {
    PathJoin(appDir, CACHE_DIR)
  }

  function CacheDir(base: string, name: string): string {
    PathJoin(base, name)
  }

  /** All directories that a clean path lies in. */
  function Parents(path: string): set<string> {
    (set i | 0 < i < |path| && path[i] == '/' :: path[..i]) + (if Rooted(path) && path != "/" then {"/"} else {})
  }

  predicate Below(path: string, dir: string) {
    dir in Parents(path)
  }

  predicate Covers(dir: string, path: string) {
    path == dir || Below(path, dir)
  }

  function RemoveAll(dirs: Dirs, dir: string): Dirs {
    map d | d in dirs && !Covers(dir, d) :: dirs[d]
  }

  /** What is missing among the paths is made. */
  function Add(dirs: Dirs, paths: set<string>, origin: Origin): Dirs {
    map d | d in dirs.Keys + paths :: if d in dirs then dirs[d] else origin
  }

  /** Makes the directory and all missing ones above it. */
  function MkdirAll(dirs: Dirs, dir: string, origin: Origin): Dirs {
    Add(dirs, {dir} + Parents(dir), origin)
  }

  /** The paths of the tree below the directory, with the directories in between. */
  function Contents(dir: string, tree: set<string>): set<string> {
    set p, q | p in tree && q in Parents(p) + {p} && Below(q, dir) :: q
  }

  /** Makes the directory and unpacks a tree in it. */
  function Unpack(dirs: Dirs, dir: string, tree: set<string>, origin: Origin): Dirs {
    Add(MkdirAll(dirs, dir, origin), Contents(dir, tree), origin)
  }

  predicate HasEntry(caches: seq<Cache>, name: string) {
    exists c | c in caches :: c.name == name && c.localPath != ""
  }

  /** GetRepoCache: the first entry of that name. */
  function FindCache(caches: seq<Cache>, name: string): Option<Cache> {
    if caches == [] then None
    else if caches[0].name == name then Some(caches[0])
    else FindCache(caches[1..], name)
  }

  function LocalPath(dir: string, entry: Option<string>): string {
    match entry
    case None => dir
    case Some(e) => PathJoin(dir, e)
  }

  /** One repository. An existing directory with an entry is kept; without one it is removed first. */
  function SyncRepo(base: string, repo: Repo, fetch: Fetch, s: Sync): Sync {
    var dir := CacheDir(base, repo.name);
    if !s.Ok() || (dir in s.dirs && HasEntry(s.caches, repo.name)) then s
    else if dir in s.dirs && fetch.RemoveFails? then s.(status := Failed)
    else
      var removed := if dir in s.dirs then RemoveAll(s.dirs, dir) else s.dirs;
      var origin := MadeBy(|s.fetched|);
      match fetch
      case Unpacked(tree, entry) =>
        Sync(Unpack(removed, dir, tree, origin), s.caches + [Cache(repo.name, LocalPath(dir, entry))],
             s.fetched + [repo.name], Going)
      case DownloadFails(tree) => s.(dirs := Unpack(removed, dir, tree, origin), status := Failed)
      case EmptyArchive => s.(dirs := MkdirAll(removed, dir, origin), status := Panicked)
      case _ => s.(dirs := removed, status := Failed)
  }

  function SyncRepos(base: string, repos: seq<Repo>, fetches: nat -> Fetch, s: Sync): Sync {
    if repos == [] then s
    else
      var n := |repos| - 1;
      SyncRepo(base, repos[n], fetches(n), SyncRepos(base, repos[..n], fetches, s))
  }

  function AllFound(dirs: set<string>): Dirs {
    map d | d in dirs :: Found
  }

  /** The state in which the loop over the repositories starts. */
  function Started(base: string, dirs: set<string>, caches: seq<Cache>): Sync {
    Sync(if base in dirs then AllFound(dirs) else MkdirAll(AllFound(dirs), base, Found), caches, [], Going)
  }

  /** The whole call; making the cache directory itself may fail. */
  function SyncAll(appDir: string, repos: seq<Repo>, mkdirOk: bool, fetches: nat -> Fetch, dirs: set<string>,
                   caches: seq<Cache>): Sync {
    var base := CacheBase(appDir);
    if appDir == "" || (base !in dirs && !mkdirOk) then Sync(AllFound(dirs), caches, [], Failed)
    else SyncRepos(base, repos, fetches, Started(base, dirs, caches))
  }

  // ----- completeness -----

  /** The repository of this name has its directory and an entry with a local path. */
  predicate Cached(base: string, s: Sync, name: string) {
    CacheDir(base, name) in s.dirs && HasEntry(s.caches, name)
  }

  ghost predicate Complete(base: string, repos: seq<Repo>, s: Sync) {
    forall r | r in repos :: Cached(base, s, r.name)
  }

  /** No cache directory lies below another one. */
  ghost predicate Disjoint(base: string, repos: seq<Repo>) {
    forall r, q | r in repos && q in repos :: !Below(CacheDir(base, r.name), CacheDir(base, q.name))
  }

  lemma LocalPathIsSet(base: string, name: string, entry: Option<string>)
    requires base != ""
    ensures LocalPath(CacheDir(base, name), entry) != ""
  {
    CleanKeepsSegments(base);
    CleanKeepsSegments(base + "/" + name);
    var dir := CacheDir(base, name);
    if entry.Some? {
      CleanKeepsSegments(dir);
      CleanKeepsSegments(dir + "/" + entry.value);
    }
    hide Clean;
  }

  /** One repository's turn completes it and takes away neither entries nor directories outside its own. */
  lemma SyncRepoMeans(base: string, repo: Repo, fetch: Fetch, s: Sync, name: string, dir: string)
    requires base != "" && SyncRepo(base, repo, fetch, s).Ok()
    ensures var after := SyncRepo(base, repo, fetch, s);
            && s.Ok() && Cached(base, after, repo.name)
            && (HasEntry(s.caches, name) ==> HasEntry(after.caches, name))
            && (dir in s.dirs && !Below(dir, CacheDir(base, repo.name)) ==> dir in after.dirs)
  {
    var own := CacheDir(base, repo.name);
    hide CacheDir, Below, Parents;
    if fetch.Unpacked? && !(own in s.dirs && HasEntry(s.caches, repo.name)) {
      LocalPathIsSet(base, repo.name, fetch.entry);
      var added := Cache(repo.name, LocalPath(own, fetch.entry));
      assert added in s.caches + [added] && added.localPath != "";
    }
  }

  lemma {:induction false} SyncCaches(base: string, repos: seq<Repo>, fetches: nat -> Fetch, s: Sync, r: Repo)
    requires base != "" && Disjoint(base, repos) && SyncRepos(base, repos, fetches, s).Ok() && r in repos
    ensures Cached(base, SyncRepos(base, repos, fetches, s), r.name)
  {
    hide SyncRepo, CacheDir, Below, HasEntry;
    var init, last := repos[..|repos| - 1], repos[|repos| - 1];
    var before := SyncRepos(base, init, fetches, s);
    SyncRepoMeans(base, last, fetches(|repos| - 1), before, r.name, CacheDir(base, r.name));
    if r != last {
      assert repos == init + [last] && forall q | q in init :: q in repos;
      SyncCaches(base, init, fetches, s, r);
    }
  }

  /** After success every repository is complete, as long as no cache directory lies below another. */
  lemma SyncIsComplete(base: string, repos: seq<Repo>, fetches: nat -> Fetch, s: Sync)
    requires base != "" && Disjoint(base, repos) && SyncRepos(base, repos, fetches, s).Ok()
    ensures Complete(base, repos, SyncRepos(base, repos, fetches, s))
  {
    hide SyncRepos, Disjoint, Cached;
    forall r | r in repos ensures Cached(base, SyncRepos(base, repos, fetches, s), r.name) {
      SyncCaches(base, repos, fetches, s, r);
    }
  }

  /** Once everything is complete, another call fetches nothing and changes nothing. */
  lemma {:induction false} CompleteIsFixed(base: string, repos: seq<Repo>, fetches: nat -> Fetch, s: Sync)
    requires s.Ok() && Complete(base, repos, s)
    ensures SyncRepos(base, repos, fetches, s) == s
  {
    hide CacheDir, HasEntry;
    if repos != [] {
      var init := repos[..|repos| - 1];
      assert forall r | r in init :: r in repos;
      CompleteIsFixed(base, init, fetches, s);
    }
  }

  lemma BaseIsClean(appDir: string)
    requires appDir != ""
    ensures CleanDir(CacheBase(appDir))
  {
    CleanSegment(CACHE_DIR);
    ResolveInside(appDir, CACHE_DIR, Rooted(appDir));
    assert Rooted(appDir + "/" + CACHE_DIR) == Rooted(appDir);
    CleanKeepsSegments(appDir + "/" + CACHE_DIR);
  }

  /** Names of one segment have cache directories of their own. */
  lemma SingleSegmentsAreDisjoint(appDir: string, repos: seq<Repo>)
    requires appDir != "" && forall r | r in repos :: SingleSegment(r.name)
    ensures Disjoint(CacheBase(appDir), repos)
  {
    BaseIsClean(appDir);
    hide CacheBase;
    AreDisjoint(CacheBase(appDir), repos);
  }

  lemma AreDisjoint(base: string, repos: seq<Repo>)
    requires CleanDir(base) && forall r | r in repos :: SingleSegment(r.name)
    ensures Disjoint(base, repos)
  {
    forall r, q | r in repos && q in repos ensures !Below(CacheDir(base, r.name), CacheDir(base, q.name)) {
      NotBelow(base, r.name, q.name);
    }
  }

  lemma NotBelow(base: string, name: string, other: string)
    requires CleanDir(base) && SingleSegment(name) && SingleSegment(other)
    ensures !Below(CacheDir(base, name), CacheDir(base, other))
    ensures !Covers(CacheDir(base, name), base)
  {
    CleanSegment(name);
    CleanSegment(other);
    JoinInside(base, name);
    JoinInside(base, other);
    hide PathJoin, Clean;
    var p, q := CacheDir(base, name), CacheDir(base, other);
    assert p == base + "/" + name && q == base + "/" + other && |q| > 1;
    assert forall i | |base| < i < |p| :: p[i] in name;
  }

  /** For names of one segment a successful call is complete, and a second call with the files as the
      first one left them succeeds, fetches nothing and leaves caches and directories as they are. */
  lemma SyncTwice(appDir: string, repos: seq<Repo>, mkdirOk: bool, mkdirOk': bool, fetches: nat -> Fetch,
                  fetches': nat -> Fetch, dirs: set<string>, caches: seq<Cache>)
    requires forall r | r in repos :: SingleSegment(r.name)
    requires SyncAll(appDir, repos, mkdirOk, fetches, dirs, caches).Ok()
    ensures var once := SyncAll(appDir, repos, mkdirOk, fetches, dirs, caches);
            && Complete(CacheBase(appDir), repos, once)
            && SyncAll(appDir, repos, mkdirOk', fetches', once.dirs.Keys, once.caches)
               == Sync(AllFound(once.dirs.Keys), once.caches, [], Going)
  {
    var base := CacheBase(appDir);
    var start := Started(base, dirs, caches);
    BaseIsClean(appDir);
    SingleSegmentsAreDisjoint(appDir, repos);
    SyncIsComplete(base, repos, fetches, start);
    StartedHasBase(base, dirs, caches);
    BaseStays(base, repos, fetches, start);
    var once := SyncRepos(base, repos, fetches, start);
    var again := Started(base, once.dirs.Keys, once.caches);
    StartedAgain(base, repos, once);
    CompleteIsFixed(base, repos, fetches', again);
    hide CacheBase, SyncRepos, Complete;
  }

  lemma StartedHasBase(base: string, dirs: set<string>, caches: seq<Cache>)
    ensures base in Started(base, dirs, caches).dirs
  {
    hide Parents;
  }

  lemma StartedAgain(base: string, repos: seq<Repo>, once: Sync)
    requires base in once.dirs && Complete(base, repos, once)
    ensures var again := Started(base, once.dirs.Keys, once.caches);
            again == Sync(AllFound(once.dirs.Keys), once.caches, [], Going) && Complete(base, repos, again)
  {
    hide CacheDir, HasEntry, MkdirAll;
    forall r | r in repos ensures Cached(base, Started(base, once.dirs.Keys, once.caches), r.name) {
      assert Cached(base, once, r.name);
    }
  }

  lemma {:induction false} BaseStays(base: string, repos: seq<Repo>, fetches: nat -> Fetch, s: Sync)
    requires CleanDir(base) && base in s.dirs && SyncRepos(base, repos, fetches, s).Ok()
    requires forall r | r in repos :: SingleSegment(r.name)
    ensures base in SyncRepos(base, repos, fetches, s).dirs
  {
    if repos != [] {
      var init, last := repos[..|repos| - 1], repos[|repos| - 1];
      assert last in repos && forall r | r in init :: r in repos;
      var before := SyncRepos(base, init, fetches, s);
      SyncRepoMeans(base, last, fetches(|repos| - 1), before, "", base);
      BaseStays(base, init, fetches, s);
      NotBelow(base, last.name, last.name);
      hide SyncRepo, CacheDir, Below, CleanDir, SingleSegment;
    }
  }

  // ----- what is downloaded -----

  predicate Named(repos: seq<Repo>, name: string) {
    exists r | r in repos :: r.name == name
  }

  /** The names of the repositories that are not cached yet, each once and in order. */
  function Uncached(base: string, repos: seq<Repo>, s: Sync): seq<string> {
    if repos == [] then []
    else
      var init, last := repos[..|repos| - 1], repos[|repos| - 1].name;
      Uncached(base, init, s) + (if Cached(base, s, last) || Named(init, last) then [] else [last])
  }

  predicate NamedApart(repos: seq<Repo>) {
    forall i, j | 0 <= i < j < |repos| :: repos[i].name != repos[j].name
  }

  lemma SyncRepoSpares(base: string, repo: Repo, fetch: Fetch, s: Sync, name: string)
    requires repo.name != name && CacheDir(base, repo.name) != CacheDir(base, name)
    requires !Below(CacheDir(base, name), CacheDir(base, repo.name))
    requires !Below(CacheDir(base, repo.name), CacheDir(base, name)) && SyncRepo(base, repo, fetch, s).Ok()
    ensures Cached(base, SyncRepo(base, repo, fetch, s), name) <==> Cached(base, s, name)
  {
    hide CacheDir, LocalPath, Parents;
  }

  lemma {:induction false} SyncSpares(base: string, repos: seq<Repo>, fetches: nat -> Fetch, s: Sync, name: string)
    requires CleanDir(base) && SingleSegment(name) && SyncRepos(base, repos, fetches, s).Ok()
    requires forall r | r in repos :: SingleSegment(r.name) && r.name != name
    ensures Cached(base, SyncRepos(base, repos, fetches, s), name) <==> Cached(base, s, name)
  {
    hide SyncRepo, CacheDir, Below, Cached, SingleSegment, CleanDir;
    if repos != [] {
      var init, last := repos[..|repos| - 1], repos[|repos| - 1];
      assert last in repos && forall r | r in init :: r in repos;
      var before := SyncRepos(base, init, fetches, s);
      SyncRepoOk(base, last, fetches(|repos| - 1), before);
      SyncSpares(base, init, fetches, s, name);
      NotBelow(base, name, last.name);
      NotBelow(base, last.name, name);
      DirsApart(base, last.name, name);
      SyncRepoSpares(base, last, fetches(|repos| - 1), before, name);
    }
  }

  lemma SyncRepoOk(base: string, repo: Repo, fetch: Fetch, s: Sync)
    ensures SyncRepo(base, repo, fetch, s).Ok() ==> s.Ok()
  {
  }

  lemma DirsApart(base: string, name: string, other: string)
    requires CleanDir(base) && SingleSegment(name) && SingleSegment(other) && name != other
    ensures CacheDir(base, name) != CacheDir(base, other)
  {
    CleanSegment(name);
    CleanSegment(other);
    JoinInside(base, name);
    JoinInside(base, other);
    hide PathJoin, Clean;
    assert (base + "/" + name)[|base| + 1..] == name && (base + "/" + other)[|base| + 1..] == other;
  }

  /** For names of one segment, a successful call downloads exactly what was not cached when it began, each
      once and in order. */
  lemma {:induction false} SyncFetchesUncached(base: string, repos: seq<Repo>, fetches: nat -> Fetch, s: Sync)
    requires CleanDir(base) && SyncRepos(base, repos, fetches, s).Ok()
    requires forall r | r in repos :: SingleSegment(r.name)
    ensures SyncRepos(base, repos, fetches, s).fetched == s.fetched + Uncached(base, repos, s)
  {
    hide CacheDir, Below, HasEntry, SingleSegment, CleanDir, Named;
    if repos != [] {
      var init, last := repos[..|repos| - 1], repos[|repos| - 1];
      assert last in repos && forall r | r in init :: r in repos;
      var before := SyncRepos(base, init, fetches, s);
      SyncRepoOk(base, last, fetches(|repos| - 1), before);
      SyncFetchesUncached(base, init, fetches, s);
      CachedBefore(base, init, fetches, s, last.name);
      hide Cached;
    }
  }

  /** When its turn comes, a repository is cached if it was at first, or if its name has had a turn. */
  lemma CachedBefore(base: string, repos: seq<Repo>, fetches: nat -> Fetch, s: Sync, name: string)
    requires CleanDir(base) && SyncRepos(base, repos, fetches, s).Ok() && SingleSegment(name)
    requires forall r | r in repos :: SingleSegment(r.name)
    ensures Cached(base, SyncRepos(base, repos, fetches, s), name) <==> Cached(base, s, name) || Named(repos, name)
  {
    hide SyncRepos, SingleSegment, Cached, CacheDir, Below;
    if r :| r in repos && r.name == name {
      AreDisjoint(base, repos);
      SyncCaches(base, repos, fetches, s, r);
    } else {
      SyncSpares(base, repos, fetches, s, name);
    }
    hide CleanDir;
  }

  // ----- what a caller looks up -----

  lemma {:induction false} FindAppended(caches: seq<Cache>, c: Cache, name: string)
    ensures FindCache(caches + [c], name)
         == if FindCache(caches, name).Some? then FindCache(caches, name) else if c.name == name then Some(c) else None
  {
    if caches != [] {
      assert (caches + [c])[1..] == caches[1..] + [c];
      FindAppended(caches[1..], c, name);
    }
  }

  lemma {:induction false} FindFirst(caches: seq<Cache>, name: string)
    ensures HasEntry(caches, name) ==> FindCache(caches, name).Some?
  {
    if caches != [] {
      FindFirst(caches[1..], name);
      assert caches == [caches[0]] + caches[1..];
    }
  }

  /** The first entry of a name stays the first. */
  lemma {:induction false} FirstEntryStays(base: string, repos: seq<Repo>, fetches: nat -> Fetch, s: Sync, name: string)
    requires base != ""
    ensures var after := FindCache(SyncRepos(base, repos, fetches, s).caches, name);
            if FindCache(s.caches, name).Some? then after == FindCache(s.caches, name)
            else after.Some? ==> after.value.localPath != ""
  {
    hide CacheDir, FindCache, HasEntry;
    if repos != [] {
      var n := |repos| - 1;
      FirstEntryStays(base, repos[..n], fetches, s, name);
      if fetches(n).Unpacked? {
        LocalPathIsSet(base, repos[n].name, fetches(n).entry);
        FindAppended(SyncRepos(base, repos[..n], fetches, s).caches,
                     Cache(repos[n].name, LocalPath(CacheDir(base, repos[n].name), fetches(n).entry)), name);
      }
    }
  }

  lemma {:induction false} EntryAfterSync(base: string, repos: seq<Repo>, fetches: nat -> Fetch, s: Sync, r: Repo)
    requires base != "" && SyncRepos(base, repos, fetches, s).Ok() && r in repos
    ensures HasEntry(SyncRepos(base, repos, fetches, s).caches, r.name)
  {
    hide SyncRepo, CacheDir, Below, HasEntry;
    var init, last := repos[..|repos| - 1], repos[|repos| - 1];
    SyncRepoMeans(base, last, fetches(|repos| - 1), SyncRepos(base, init, fetches, s), r.name, "");
    if r != last {
      assert repos == init + [last];
      EntryAfterSync(base, init, fetches, s, r);
    }
  }

  /** What GetRepoCache gives after a successful call has a local path if and only if the first entry of
      that name was not there before or had one: SyncCache fetches again for an entry without a local
      path, but that entry keeps being found first. */
  lemma LookupAfterSyncIff(base: string, repos: seq<Repo>, fetches: nat -> Fetch, s: Sync, repo: Repo)
    requires base != "" && SyncRepos(base, repos, fetches, s).Ok() && repo in repos
    ensures var found := FindCache(SyncRepos(base, repos, fetches, s).caches, repo.name);
            && found.Some?
            && (found.value.localPath != ""
                <==> FindCache(s.caches, repo.name).None? || FindCache(s.caches, repo.name).value.localPath != "")
  {
    EntryAfterSync(base, repos, fetches, s, repo);
    FirstEntryStays(base, repos, fetches, s, repo.name);
    FindFirst(SyncRepos(base, repos, fetches, s).caches, repo.name);
    hide SyncRepos, HasEntry;
  }

  /** A repository with an entry without a local path: it is downloaded, whether or not its directory is
      there, and gets an entry with one, but the lookup finds the old entry. */
  lemma EmptyEntryHidesPath(base: string, repo: Repo, fetches: nat -> Fetch, s: Sync)
    requires base != "" && s.Ok() && s.caches == [Cache(repo.name, "")]
    requires fetches(0).Unpacked?
    ensures var after := SyncRepos(base, [repo], fetches, s);
            && after.Ok() && after.fetched == s.fetched + [repo.name] && HasEntry(after.caches, repo.name)
            && FindCache(after.caches, repo.name) == Some(Cache(repo.name, ""))
  {
    assert [repo][..0] == [];
    FirstEntryStays(base, [repo], fetches, s, repo.name);
    NoPathNoEntry(s.caches[0]);
    hide CacheDir, Unpack, LocalPath, HasEntry, FindCache;
    assert SyncRepos(base, [repo], fetches, s).Ok();
    EntryAfterSync(base, [repo], fetches, s, repo);
    OneEntry(repo.name);
  }

  lemma NoPathNoEntry(c: Cache)
    requires c.localPath == ""
    ensures !HasEntry([c], c.name)
  {
  }

  lemma OneEntry(name: string)
    ensures FindCache([Cache(name, "")], name) == Some(Cache(name, ""))
  {
  }

  // ----- nested names -----

  lemma ParentsOfParent(path: string, dir: string)
    requires Below(path, dir)
    ensures Parents(dir) <= Parents(path) && path !in Parents(dir)
  {
    if dir != "/" {
      var i :| 0 < i < |path| && path[i] == '/' && dir == path[..i];
      forall j | 0 < j < i && dir[j] == '/' ensures dir[..j] in Parents(path) {
        assert dir[..j] == path[..j];
      }
    }
  }

  /** With a directory its parents exist, too. */
  predicate Closed(dirs: Dirs) {
    forall d | d in dirs :: Parents(d) <= dirs.Keys
  }

  lemma RemoveKeepsClosed(dirs: Dirs, dir: string)
    requires Closed(dirs)
    ensures Closed(RemoveAll(dirs, dir))
  {
    forall d, p | d in RemoveAll(dirs, dir) && p in Parents(d) ensures p in RemoveAll(dirs, dir) {
      assert Parents(d) <= dirs.Keys;
      ParentsOfParent(d, p);
      hide Parents;
    }
  }

  lemma MkdirKeepsClosed(dirs: Dirs, dir: string, origin: Origin)
    requires Closed(dirs)
    ensures Closed(MkdirAll(dirs, dir, origin))
  {
    forall d, p | d in MkdirAll(dirs, dir, origin) && p in Parents(d) ensures p in MkdirAll(dirs, dir, origin) {
      if d in dirs {
        assert Parents(d) <= dirs.Keys;
      } else if d != dir {
        ParentsOfParent(dir, d);
      }
      hide Parents;
    }
  }

  /** Two directories that a path lies in lie in each other. */
  lemma ParentsNest(path: string, dir: string, other: string)
    requires Below(path, dir) && Below(path, other)
    ensures dir == other || Below(dir, other) || Below(other, dir)
  {
    if dir != "/" && other != "/" {
      var i :| 0 < i < |path| && path[i] == '/' && dir == path[..i];
      var j :| 0 < j < |path| && path[j] == '/' && other == path[..j];
      if i < j {
        assert other[..i] == dir && other[i] == '/';
      } else if j < i {
        assert dir[..j] == other && dir[j] == '/';
      }
    }
  }

  lemma UnpackKeepsClosed(dirs: Dirs, dir: string, tree: set<string>, origin: Origin)
    requires Closed(dirs)
    ensures Closed(Unpack(dirs, dir, tree, origin))
  {
    MkdirKeepsClosed(dirs, dir, origin);
    var made, after := MkdirAll(dirs, dir, origin), Unpack(dirs, dir, tree, origin);
    assert dir in made && Parents(dir) <= made.Keys;
    forall d, p | d in after && p in Parents(d) ensures p in after {
      if d in made {
        assert Parents(d) <= made.Keys;
      } else {
        var t :| t in tree && d in Parents(t) + {t} && Below(d, dir);
        if d != t {
          ParentsOfParent(t, d);
        }
        ParentsNest(d, dir, p);
      }
      hide Parents, MkdirAll;
    }
  }

  lemma SyncRepoKeepsClosed(base: string, repo: Repo, fetch: Fetch, s: Sync)
    requires Closed(s.dirs)
    ensures Closed(SyncRepo(base, repo, fetch, s).dirs)
  {
    var dir := CacheDir(base, repo.name);
    hide CacheDir, Closed, HasEntry, RemoveAll, MkdirAll, Unpack, LocalPath;
    RemoveKeepsClosed(s.dirs, dir);
    forall dirs | dirs == s.dirs || dirs == RemoveAll(s.dirs, dir)
      ensures Closed(dirs) && Closed(MkdirAll(dirs, dir, MadeBy(|s.fetched|)))
    {
      MkdirKeepsClosed(dirs, dir, MadeBy(|s.fetched|));
    }
    if fetch.Unpacked? || fetch.DownloadFails? {
      UnpackKeepsClosed(s.dirs, dir, fetch.tree, MadeBy(|s.fetched|));
      UnpackKeepsClosed(RemoveAll(s.dirs, dir), dir, fetch.tree, MadeBy(|s.fetched|));
    }
  }

  /** What one turn does to one path: what the turn makes is made for its repository, and a path that is
      not covered by the repository's directory stays as it is. */
  lemma SyncRepoAt(base: string, repo: Repo, fetch: Fetch, s: Sync, d: string)
    requires SyncRepo(base, repo, fetch, s).Ok()
    ensures var after, own := SyncRepo(base, repo, fetch, s), CacheDir(base, repo.name);
            && (d in after.dirs && after.dirs[d] != MadeBy(|s.fetched|) ==> d in s.dirs && s.dirs[d] == after.dirs[d])
            && (d in s.dirs && !Covers(own, d) ==> d in after.dirs && after.dirs[d] == s.dirs[d])
  {
    hide CacheDir, HasEntry, LocalPath, Covers, Parents, Contents;
  }

  lemma {:induction false} SyncKeepsClosed(base: string, repos: seq<Repo>, fetches: nat -> Fetch, s: Sync)
    requires Closed(s.dirs)
    ensures Closed(SyncRepos(base, repos, fetches, s).dirs)
  {
    hide SyncRepo, Closed;
    if repos != [] {
      var n := |repos| - 1;
      SyncKeepsClosed(base, repos[..n], fetches, s);
      SyncRepoKeepsClosed(base, repos[n], fetches(n), SyncRepos(base, repos[..n], fetches, s));
    }
  }

  /** A successful call keeps all entries and adds one for each of its repositories that has none. */
  lemma {:induction false} EntriesAfter(base: string, repos: seq<Repo>, fetches: nat -> Fetch, s: Sync, name: string)
    requires base != "" && SyncRepos(base, repos, fetches, s).Ok()
    ensures HasEntry(SyncRepos(base, repos, fetches, s).caches, name)
            <==> HasEntry(s.caches, name) || Named(repos, name)
  {
    if repos != [] {
      var init, last := repos[..|repos| - 1], repos[|repos| - 1];
      assert repos == init + [last];
      var before := SyncRepos(base, init, fetches, s);
      SyncRepoMeans(base, last, fetches(|repos| - 1), before, name, "");
      EntriesAfter(base, init, fetches, s, name);
      if last.name != name {
        SyncRepoEntry(base, last, fetches(|repos| - 1), before, name);
      }
      hide SyncRepo, HasEntry, CacheDir;
    }
  }

  lemma SyncRepoEntry(base: string, repo: Repo, fetch: Fetch, s: Sync, name: string)
    requires repo.name != name
    ensures HasEntry(SyncRepo(base, repo, fetch, s).caches, name) <==> HasEntry(s.caches, name)
  {
    hide CacheDir, LocalPath, RemoveAll, MkdirAll, Unpack;
  }

  /** Whatever a download of the call has made comes from one that has been counted. */
  ghost predicate Dated(s: Sync) {
    forall d | d in s.dirs && s.dirs[d].MadeBy? :: s.dirs[d].download < |s.fetched|
  }

  lemma {:induction false} SyncIsDated(base: string, repos: seq<Repo>, fetches: nat -> Fetch, s: Sync)
    requires SyncRepos(base, repos, fetches, s).Ok() && Dated(s)
    ensures Dated(SyncRepos(base, repos, fetches, s))
  {
    hide SyncRepo;
    if repos != [] {
      var n := |repos| - 1;
      var before := SyncRepos(base, repos[..n], fetches, s);
      SyncRepoOk(base, repos[n], fetches(n), before);
      SyncIsDated(base, repos[..n], fetches, s);
      SyncRepoCounts(base, repos[n], fetches(n), before);
      var after := SyncRepo(base, repos[n], fetches(n), before);
      forall d | d in after.dirs && after.dirs[d].MadeBy? ensures after.dirs[d].download < |after.fetched| {
        SyncRepoAt(base, repos[n], fetches(n), before, d);
      }
    }
  }

  lemma SyncRepoCounts(base: string, repo: Repo, fetch: Fetch, s: Sync)
    requires SyncRepo(base, repo, fetch, s).Ok()
    ensures var after := SyncRepo(base, repo, fetch, s);
            if Cached(base, s, repo.name) then after == s else |after.fetched| == |s.fetched| + 1
  {
    hide CacheDir, HasEntry, LocalPath, Unpack, RemoveAll;
  }

  lemma {:induction false} SyncCountsUp(base: string, repos: seq<Repo>, fetches: nat -> Fetch, s: Sync, n: nat)
    requires n <= |repos| && SyncRepos(base, repos, fetches, s).Ok()
    ensures |SyncRepos(base, repos[..n], fetches, s).fetched| <= |SyncRepos(base, repos, fetches, s).fetched|
    decreases |repos|
  {
    hide SyncRepo;
    if n == |repos| {
      assert repos[..n] == repos;
    } else {
      var m := |repos| - 1;
      var before := SyncRepos(base, repos[..m], fetches, s);
      SyncRepoOk(base, repos[m], fetches(m), before);
      SyncRepoCounts(base, repos[m], fetches(m), before);
      SyncCountsUp(base, repos[..m], fetches, s, n);
      assert repos[..m][..n] == repos[..n];
    }
  }

  /** One directory lies in the other, or they are the same. */
  predicate Related(dir: string, other: string) {
    Covers(dir, other) || Below(dir, other)
  }

  /** The directory is there, and it and everything in it are the same. */
  ghost predicate Whole(dir: string, dirs: Dirs, dirs': Dirs) {
    && dir in dirs
    && forall p | Covers(dir, p) :: if p in dirs then p in dirs' && dirs'[p] == dirs[p] else p !in dirs'
  }

  /** At the end the cache of the i-th repository, with all that is in it, is as its own turn left it. */
  ghost predicate Kept(base: string, repos: seq<Repo>, fetches: nat -> Fetch, s: Sync, i: nat)
    requires i < |repos|
  {
    Whole(CacheDir(base, repos[i].name), SyncRepos(base, repos[..i + 1], fetches, s).dirs,
          SyncRepos(base, repos, fetches, s).dirs)
  }

  /** Every later repository whose directory is related to that of the i-th had an entry with a local path
      in `caches`, or its name has had a turn up to the i-th, and its directory is among `dirs`. */
  predicate Spared(base: string, repos: seq<Repo>, caches: seq<Cache>, dirs: Dirs, i: nat)
    requires i < |repos|
  {
    forall j | i < j < |repos| && Related(CacheDir(base, repos[j].name), CacheDir(base, repos[i].name)) ::
      && (HasEntry(caches, repos[j].name) || Named(repos[..i + 1], repos[j].name))
      && CacheDir(base, repos[j].name) in dirs
  }

  lemma SparedSnoc(base: string, init: seq<Repo>, last: Repo, caches: seq<Cache>, dirs: Dirs, i: nat)
    requires i < |init|
    ensures Spared(base, init + [last], caches, dirs, i)
            <==> && Spared(base, init, caches, dirs, i)
                 && (Related(CacheDir(base, last.name), CacheDir(base, init[i].name)) ==>
                       && (HasEntry(caches, last.name) || Named(init[..i + 1], last.name))
                       && CacheDir(base, last.name) in dirs)
  {
    hide CacheDir, Related, HasEntry, Named;
    var repos := init + [last];
    assert repos[i] == init[i] && repos[|init|] == last && repos[..i + 1] == init[..i + 1];
    forall j | 0 <= j < |init| ensures repos[j] == init[j] { }
  }

  /** Where the earlier ones are spared, a related repository has an entry at its turn only if it had one at
      the turn of the i-th. */
  lemma EntryIsOld(base: string, init: seq<Repo>, name: string, caches: seq<Cache>, dirs: Dirs, i: nat)
    requires i < |init| && Spared(base, init, caches, dirs, i)
    requires Related(CacheDir(base, name), CacheDir(base, init[i].name))
    requires HasEntry(caches, name) || Named(init, name)
    ensures HasEntry(caches, name) || Named(init[..i + 1], name)
  {
    hide CacheDir, Related, HasEntry;
    if r :| r in init && r.name == name {
      var j :| 0 <= j < |init| && init[j] == r;
      if j <= i {
        assert init[..i + 1][j] == r;
      }
    }
  }

  /** A turn touches nothing in a directory that is not related to its own. */
  lemma UnrelatedStays(base: string, repo: Repo, fetch: Fetch, s: Sync, dir: string, p: string)
    requires SyncRepo(base, repo, fetch, s).Ok() && !Related(CacheDir(base, repo.name), dir) && Covers(dir, p)
    ensures var after := SyncRepo(base, repo, fetch, s);
            if p in s.dirs then p in after.dirs && after.dirs[p] == s.dirs[p] else p !in after.dirs
  {
    var own := CacheDir(base, repo.name);
    SyncRepoAt(base, repo, fetch, s, p);
    if p != dir && Covers(own, p) && own != p {
      ParentsNest(p, dir, own);
    }
    if Below(own, p) && p != dir {
      ParentsOfParent(own, p);
    }
    assert !Covers(own, p) && !Below(own, p) && p != own;
    hide CacheDir, HasEntry, LocalPath, Parents, Related, RemoveAll;
    if fetch.Unpacked? {
      NotUnpacked(own, fetch.tree, p);
    }
    hide Contents, Covers, Below;
  }

  lemma NotUnpacked(dir: string, tree: set<string>, p: string)
    requires !Covers(dir, p)
    ensures p !in Contents(dir, tree)
  {
    hide Parents;
  }

  /** A turn that is not skipped leaves its directory made anew, and of a directory that this lies in,
      or that lies in this, something is not as before. */
  lemma TurnBreaks(base: string, repo: Repo, fetch: Fetch, s: Sync, dir: string, was: Dirs)
    requires SyncRepo(base, repo, fetch, s).Ok() && !Cached(base, s, repo.name) && Closed(s.dirs)
    requires Related(CacheDir(base, repo.name), dir) && forall p | p in was :: was[p] != MadeBy(|s.fetched|)
    ensures !Whole(dir, was, SyncRepo(base, repo, fetch, s).dirs)
  {
    var own, after := CacheDir(base, repo.name), SyncRepo(base, repo, fetch, s).dirs;
    assert fetch.Unpacked?;
    var removed := if own in s.dirs then RemoveAll(s.dirs, own) else s.dirs;
    assert own !in removed;
    if own in s.dirs {
      assert Covers(own, dir) ==> dir !in removed;
    } else {
      assert dir in s.dirs ==> Parents(dir) <= s.dirs.Keys;
    }
    hide CacheDir, HasEntry, LocalPath, Parents, Contents, Closed;
    assert own in after && after[own] == MadeBy(|s.fetched|);
    if Covers(own, dir) {
      assert dir in after ==> after[dir] == MadeBy(|s.fetched|);
    } else {
      assert Covers(dir, own);
    }
  }

  /** Whether a turn keeps a directory as some earlier turn left it. */
  lemma TurnKeepsIff(base: string, repo: Repo, fetch: Fetch, s: Sync, dir: string, was: Dirs)
    requires SyncRepo(base, repo, fetch, s).Ok() && Closed(s.dirs) && Closed(was)
    requires forall p | p in was :: was[p] != MadeBy(|s.fetched|)
    ensures var own := CacheDir(base, repo.name);
            Whole(dir, was, SyncRepo(base, repo, fetch, s).dirs)
            <==> && Whole(dir, was, s.dirs)
                 && (Related(own, dir) ==> HasEntry(s.caches, repo.name) && own in was)
  {
    var own := CacheDir(base, repo.name);
    if !Related(own, dir) {
      forall p | Covers(dir, p)
        ensures var after := SyncRepo(base, repo, fetch, s).dirs;
                if p in s.dirs then p in after && after[p] == s.dirs[p] else p !in after
      {
        UnrelatedStays(base, repo, fetch, s, dir, p);
      }
      hide SyncRepo, CacheDir, Covers, Below, Related, HasEntry, Closed;
    } else {
      if !Cached(base, s, repo.name) {
        TurnBreaks(base, repo, fetch, s, dir, was);
      }
      if Whole(dir, was, s.dirs) {
        RelatedIsThere(own, dir, was, s.dirs);
      }
      hide CacheDir, HasEntry, Parents, Closed, Related, Whole, RemoveAll, Unpack;
    }
  }

  lemma RelatedIsThere(own: string, dir: string, was: Dirs, dirs: Dirs)
    requires Whole(dir, was, dirs) && Closed(was) && Closed(dirs) && Related(own, dir)
    ensures own in dirs <==> own in was
  {
    assert Covers(dir, dir);
    assert dir in was && dir in dirs && Parents(dir) <= was.Keys && Parents(dir) <= dirs.Keys;
    hide Parents;
  }

  /** What a turn leaves was found or made by a download up to it. */
  lemma TurnLeaves(base: string, repos: seq<Repo>, fetches: nat -> Fetch, s: Sync, i: nat)
    requires base != "" && i < |repos| && SyncRepos(base, repos, fetches, s).Ok() && Dated(s)
    ensures var turn := SyncRepos(base, repos[..i + 1], fetches, s);
            && CacheDir(base, repos[i].name) in turn.dirs
            && forall p | p in turn.dirs :: turn.dirs[p] != MadeBy(|SyncRepos(base, repos, fetches, s).fetched|)
  {
    TurnIsOk(base, repos, fetches, s, i + 1);
    assert repos[..i + 1][..i] == repos[..i];
    SyncRepoMeans(base, repos[i], fetches(i), SyncRepos(base, repos[..i], fetches, s), "", "");
    SyncIsDated(base, repos[..i + 1], fetches, s);
    SyncCountsUp(base, repos, fetches, s, i + 1);
    hide SyncRepo, CacheDir, HasEntry;
  }

  /** After a successful call the cache of a repository, with all that is in it, is as its own turn left it
      if and only if every later repository whose directory covers it or lies in it had an entry with a
      local path when the call began, or is named earlier, too, and its directory was there after that
      turn. Otherwise that directory is removed or made, and with it a part of the cache or all of it. */
  lemma {:induction false} CacheKeptIff(base: string, repos: seq<Repo>, fetches: nat -> Fetch, s: Sync, i: nat)
    requires base != "" && i < |repos| && SyncRepos(base, repos, fetches, s).Ok()
    requires Closed(s.dirs) && Dated(s)
    ensures Kept(base, repos, fetches, s, i)
            <==> Spared(base, repos, s.caches, SyncRepos(base, repos[..i + 1], fetches, s).dirs, i)
  {
    hide SyncRepo, CacheDir, HasEntry, Parents, Covers, Below, Related, Closed, Dated, Named;
    var n := |repos| - 1;
    var turn, dir := SyncRepos(base, repos[..i + 1], fetches, s).dirs, CacheDir(base, repos[i].name);
    if i == n {
      assert repos[..i + 1] == repos;
      SyncRepoMeans(base, repos[n], fetches(n), SyncRepos(base, repos[..n], fetches, s), "", "");
    } else {
      var init, last := repos[..n], repos[n];
      var before := SyncRepos(base, init, fetches, s);
      assert repos == init + [last] && init[..i + 1] == repos[..i + 1];
      SyncRepoOk(base, last, fetches(n), before);
      CacheKeptIff(base, init, fetches, s, i);
      SparedSnoc(base, init, last, s.caches, turn, i);
      TurnLeaves(base, init, fetches, s, i);
      EntriesAfter(base, init, fetches, s, last.name);
      NamedEarlier(init, i + 1, last.name);
      SyncKeepsClosed(base, init, fetches, s);
      SyncKeepsClosed(base, repos[..i + 1], fetches, s);
      TurnKeepsIff(base, last, fetches(n), before, dir, turn);
      if Spared(base, init, s.caches, turn, i) && HasEntry(before.caches, last.name)
         && Related(CacheDir(base, last.name), dir)
      {
        EntryIsOld(base, init, last.name, s.caches, turn, i);
      }
      hide Spared, Whole;
    }
  }

  lemma NamedEarlier(repos: seq<Repo>, n: nat, name: string)
    requires n <= |repos|
    ensures Named(repos[..n], name) ==> Named(repos, name)
  {
  }

  lemma {:induction false} TurnIsOk(base: string, repos: seq<Repo>, fetches: nat -> Fetch, s: Sync, n: nat)
    requires n <= |repos| && SyncRepos(base, repos, fetches, s).Ok()
    ensures SyncRepos(base, repos[..n], fetches, s).Ok()
    decreases |repos|
  {
    if n == |repos| {
      assert repos[..n] == repos;
    } else {
      var m := |repos| - 1;
      SyncRepoOk(base, repos[m], fetches(m), SyncRepos(base, repos[..m], fetches, s));
      TurnIsOk(base, repos[..m], fetches, s, n);
      assert repos[..m][..n] == repos[..n];
    }
  }

  lemma StartedIsFound(base: string, dirs: set<string>, caches: seq<Cache>)
    requires forall d | d in dirs :: Parents(d) <= dirs
    ensures Closed(Started(base, dirs, caches).dirs) && Dated(Started(base, dirs, caches))
  {
    assert Closed(AllFound(dirs));
    MkdirKeepsClosed(AllFound(dirs), base, Found);
    hide Parents, Closed;
  }

  /** The same for the whole call, on any directories of which the parents exist, too. */
  lemma SyncKeepsIff(appDir: string, repos: seq<Repo>, mkdirOk: bool, fetches: nat -> Fetch, dirs: set<string>,
                     caches: seq<Cache>, i: nat)
    requires i < |repos| && SyncAll(appDir, repos, mkdirOk, fetches, dirs, caches).Ok()
    requires forall d | d in dirs :: Parents(d) <= dirs
    ensures var base := CacheBase(appDir);
            && HasEntry(SyncAll(appDir, repos, mkdirOk, fetches, dirs, caches).caches, repos[i].name)
            && (Kept(base, repos, fetches, Started(base, dirs, caches), i)
                <==> Spared(base, repos, caches,
                            SyncRepos(base, repos[..i + 1], fetches, Started(base, dirs, caches)).dirs, i))
  {
    var base := CacheBase(appDir);
    BaseIsClean(appDir);
    StartedIsFound(base, dirs, caches);
    hide CacheBase, Closed, Dated, Parents;
    EntryAfterSync(base, repos, fetches, Started(base, dirs, caches), repos[i]);
    CacheKeptIff(base, repos, fetches, Started(base, dirs, caches), i);
    hide Kept, Spared;
  }

  /** From an empty cache, a later related repository must be named earlier, too, and its directory have
      been left there; for different names no later one may be related at all. */
  lemma KeptFromEmptyIff(base: string, repos: seq<Repo>, fetches: nat -> Fetch, s: Sync, i: nat)
    requires base != "" && i < |repos| && SyncRepos(base, repos, fetches, s).Ok()
    requires Closed(s.dirs) && Dated(s) && s.caches == []
    ensures Kept(base, repos, fetches, s, i)
            <==> forall j | i < j < |repos| && Related(CacheDir(base, repos[j].name), CacheDir(base, repos[i].name)) ::
                   && Named(repos[..i + 1], repos[j].name)
                   && CacheDir(base, repos[j].name) in SyncRepos(base, repos[..i + 1], fetches, s).dirs
    ensures NamedApart(repos) ==>
              (Kept(base, repos, fetches, s, i)
               <==> forall j | i < j < |repos| ::
                      !Related(CacheDir(base, repos[j].name), CacheDir(base, repos[i].name)))
  {
    CacheKeptIff(base, repos, fetches, s, i);
    hide Kept, SyncRepos, Related, CacheDir;
    assert forall name :: !HasEntry([], name);
    hide HasEntry;
    if NamedApart(repos) {
      forall j | i < j < |repos| ensures !Named(repos[..i + 1], repos[j].name) {
        NotNamedBefore(repos, i, j);
      }
    }
    hide Named, NamedApart;
  }

  lemma NotNamedBefore(repos: seq<Repo>, i: nat, j: nat)
    requires i < j < |repos| && NamedApart(repos)
    ensures !Named(repos[..i + 1], repos[j].name)
  {
  }

  /** For names of one segment a successful call keeps every cache it has filled or found. */
  lemma SyncKeepsAll(appDir: string, repos: seq<Repo>, mkdirOk: bool, fetches: nat -> Fetch, dirs: set<string>,
                     caches: seq<Cache>, i: nat)
    requires i < |repos| && SyncAll(appDir, repos, mkdirOk, fetches, dirs, caches).Ok()
    requires forall d | d in dirs :: Parents(d) <= dirs
    requires forall r | r in repos :: SingleSegment(r.name)
    ensures Kept(CacheBase(appDir), repos, fetches, Started(CacheBase(appDir), dirs, caches), i)
  {
    var base := CacheBase(appDir);
    var start := Started(base, dirs, caches);
    BaseIsClean(appDir);
    SingleSegmentsAreDisjoint(appDir, repos);
    StartedIsFound(base, dirs, caches);
    SyncKeepsIff(appDir, repos, mkdirOk, fetches, dirs, caches, i);
    TurnLeaves(base, repos, fetches, start, i);
    hide CacheBase, CacheDir, Kept, SyncRepos, Below, CleanDir, Started, Dated;
    forall j | i < j < |repos| && Related(CacheDir(base, repos[j].name), CacheDir(base, repos[i].name))
      ensures Named(repos[..i + 1], repos[j].name) && repos[j].name == repos[i].name
    {
      assert repos[i] in repos && repos[j] in repos && repos[i] in repos[..i + 1];
      if repos[j].name != repos[i].name {
        DirsApart(base, repos[j].name, repos[i].name);
      }
    }
  }

  lemma NestedNames(base: string, x: string, y: string)
    requires CleanDir(base) && SingleSegment(x) && SingleSegment(y)
    ensures CacheDir(base, x + "/" + y) == base + "/" + (x + "/" + y) && CacheDir(base, x) == base + "/" + x
    ensures Below(CacheDir(base, x + "/" + y), CacheDir(base, x))
  {
    CleanSegment(x);
    JoinInside(base, x);
    SplitWhole(x, '/');
    SplitWhole(y, '/');
    SplitConcat(x, '/', y);
    assert x + "/" + y == x + ['/'] + y && [x] + [y] == [x, y];
    ResolveNames([x, y], []);
    assert [x, y] + [] == [x, y];
    GlueTwo(x, y);
    hide Split, Resolve, Glue;
    JoinInside(base, x + "/" + y);
    hide PathJoin, Clean;
    var p := CacheDir(base, x + "/" + y);
    assert p[|base| + 1 + |x|] == '/' && p[..|base| + 1 + |x|] == base + "/" + x;
  }

  /** From an empty cache, two repositories of which the second is named like the first path segment of
      the first: the call succeeds, and of the cache that it filled first nothing is left; what is at its
      place, if anything, was unpacked for the second. */
  lemma NestedNamesLoseCache(appDir: string, x: string, y: string, fetches: nat -> Fetch)
    requires appDir != "" && SingleSegment(x) && SingleSegment(y)
    requires fetches(0).Unpacked? && fetches(1).Unpacked?
    ensures var base, repos := CacheBase(appDir), [Repo(x + "/" + y, ""), Repo(x, "")];
            var s, dir := SyncAll(appDir, repos, true, fetches, {}, []), CacheDir(base, x + "/" + y);
            && s.Ok() && !Kept(base, repos, fetches, Started(base, {}, []), 0)
            && (dir in s.dirs <==> dir in Contents(CacheDir(base, x), fetches(1).tree))
            && s.fetched == [x + "/" + y, x]
            && forall p | Covers(dir, p) && p in s.dirs :: s.dirs[p] == MadeBy(1)
  {
    var base, inner, outer := CacheBase(appDir), Repo(x + "/" + y, ""), Repo(x, "");
    var start, dir := Started(base, {}, []), CacheDir(base, x + "/" + y);
    BaseIsClean(appDir);
    NestedNames(base, x, y);
    assert |inner.name| > |outer.name|;
    hide CacheBase, CacheDir, CleanDir, SingleSegment, Contents;
    assert Related(CacheDir(base, x), dir);
    ParentMade(base, inner, fetches(0), start, CacheDir(base, x));
    StartedIsFound(base, {}, []);
    TurnsFromEmpty(base, inner, outer, fetches, start, dir);
    var s := SyncRepos(base, [inner, outer], fetches, start);
    forall p | Covers(dir, p) && p in s.dirs ensures s.dirs[p] == MadeBy(1) {
      if p != dir {
        ParentsOfParent(p, dir);
      }
      TurnsFromEmpty(base, inner, outer, fetches, start, p);
    }
    hide Kept, SyncRepos, SyncRepo, Started, Below, Related;
  }

  /** The other way round, where the archive of the first has a directory at the place of the second: of
      that directory only what the second archive has, too, is still there in the end. */
  lemma InnerRepositoryCutsCache(appDir: string, x: string, y: string, fetches: nat -> Fetch, z: string)
    requires appDir != "" && SingleSegment(x) && SingleSegment(y)
    requires fetches(0).Unpacked? && fetches(1).Unpacked? && z in fetches(0).tree
    requires Below(z, CacheDir(CacheBase(appDir), x + "/" + y))
    ensures var base, repos := CacheBase(appDir), [Repo(x, ""), Repo(x + "/" + y, "")];
            var s := SyncAll(appDir, repos, true, fetches, {}, []);
            && s.Ok() && !Kept(base, repos, fetches, Started(base, {}, []), 0)
            && z in SyncAll(appDir, repos[..1], true, fetches, {}, []).dirs
            && (z in s.dirs <==> z in Contents(CacheDir(base, x + "/" + y), fetches(1).tree))
  {
    var base, inner, outer := CacheBase(appDir), Repo(x + "/" + y, ""), Repo(x, "");
    var start, dir := Started(base, {}, []), CacheDir(base, x + "/" + y);
    BaseIsClean(appDir);
    NestedNames(base, x, y);
    InnerUnpacked(fetches(0).tree, z, dir, CacheDir(base, x));
    assert |inner.name| > |outer.name|;
    hide CacheBase, CacheDir, CleanDir, SingleSegment, Contents, Below, Related;
    TurnFromEmpty(base, outer, fetches(0), start);
    TwoTurns(base, outer, inner, fetches, start);
    StartedIsFound(base, {}, []);
    TurnsFromEmpty(base, outer, inner, fetches, start, z);
    hide Kept, SyncRepos, SyncRepo, Started;
  }

  /** Two turns without entries: the second replaces what it finds at the place of its repository. */
  lemma TurnsFromEmpty(base: string, r: Repo, q: Repo, fetches: nat -> Fetch, s: Sync, p: string)
    requires base != "" && s.Ok() && s.caches == [] && s.fetched == [] && Closed(s.dirs) && Dated(s) && r.name != q.name
    requires fetches(0).Unpacked? && fetches(1).Unpacked? && Related(CacheDir(base, q.name), CacheDir(base, r.name))
    requires CacheDir(base, q.name) in SyncRepo(base, r, fetches(0), s).dirs && Below(p, CacheDir(base, q.name))
    ensures var after := SyncRepos(base, [r, q], fetches, s);
            && after.Ok() && !Kept(base, [r, q], fetches, s, 0)
            && (p in after.dirs <==> p in Contents(CacheDir(base, q.name), fetches(1).tree))
            && (p in after.dirs ==> after.dirs[p] == MadeBy(1))
            && after.fetched == [r.name, q.name]
  {
    TwoTurns(base, r, q, fetches, s);
    TurnFromEmpty(base, r, fetches(0), s);
    UnlistedTurn(base, q, fetches(1), SyncRepo(base, r, fetches(0), s), p);
    hide *;
    KeptFromEmptyIff(base, [r, q], fetches, s, 0);
    assert NamedApart([r, q]) by {
      TwoApart(r, q);
    }
    assert [r, q][1] == q && [r, q][0] == r;
  }

  lemma TwoApart(r: Repo, q: Repo)
    requires r.name != q.name
    ensures NamedApart([r, q])
  {
  }

  lemma InnerUnpacked(tree: set<string>, z: string, dir: string, outer: string)
    requires z in tree && Below(z, dir) && Below(dir, outer)
    ensures z in Contents(outer, tree) && dir in Contents(outer, tree) && Related(dir, outer)
  {
    ParentsOfParent(z, dir);
    hide Parents;
    assert z in Parents(z) + {z} && dir in Parents(z) + {z} && Below(z, outer);
  }

  lemma TwoTurns(base: string, r: Repo, q: Repo, fetches: nat -> Fetch, s: Sync)
    ensures SyncRepos(base, [r], fetches, s) == SyncRepo(base, r, fetches(0), s) && [r, q][..1] == [r]
    ensures SyncRepos(base, [r, q], fetches, s) == SyncRepo(base, q, fetches(1), SyncRepo(base, r, fetches(0), s))
  {
    hide SyncRepo;
    assert [r, q][..1] == [r] && [r][..0] == [];
  }

  lemma TurnFromEmpty(base: string, r: Repo, fetch: Fetch, s: Sync)
    requires s.Ok() && s.caches == [] && fetch.Unpacked?
    ensures var after := SyncRepo(base, r, fetch, s);
            && after.Ok() && after.fetched == s.fetched + [r.name]
            && Contents(CacheDir(base, r.name), fetch.tree) <= after.dirs.Keys
            && forall name | name != r.name :: !HasEntry(after.caches, name)
  {
    hide CacheDir, LocalPath, Parents, Contents;
    assert !HasEntry([], r.name);
  }

  lemma ParentMade(base: string, r: Repo, fetch: Fetch, s: Sync, dir: string)
    requires s.Ok() && s.caches == [] && fetch.Unpacked? && Below(CacheDir(base, r.name), dir)
    ensures dir in SyncRepo(base, r, fetch, s).dirs
  {
    hide CacheDir, LocalPath, Parents, Contents;
    assert !HasEntry([], r.name);
  }

  /** A turn without an entry leaves, of an existing directory, what is unpacked. */
  lemma UnlistedTurn(base: string, repo: Repo, fetch: Fetch, s: Sync, p: string)
    requires s.Ok() && fetch.Unpacked? && CacheDir(base, repo.name) in s.dirs && !HasEntry(s.caches, repo.name)
    requires Below(p, CacheDir(base, repo.name))
    ensures var after, own := SyncRepo(base, repo, fetch, s), CacheDir(base, repo.name);
            && after.Ok() && after.fetched == s.fetched + [repo.name]
            && (p in after.dirs <==> p in Contents(own, fetch.tree))
            && (p in after.dirs ==> after.dirs[p] == MadeBy(|s.fetched|))
  {
    ParentsOfParent(p, CacheDir(base, repo.name));
    BelowIsOther(p, CacheDir(base, repo.name));
    hide CacheDir, LocalPath, Parents, HasEntry, Contents;
  }

  lemma BelowIsOther(p: string, dir: string)
    requires Below(p, dir)
    ensures p != dir
  {
  }
}
