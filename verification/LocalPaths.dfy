/** The local paths that SyncCache records and GetRepoCache gives, as strings, and when SyncCache succeeds
    (pkg/kfconfig/types.go:218-228, 438-593). */
module LocalPaths {
  import opened Wrappers
  import opened Paths
  import opened CacheSync

  lemma FoundIsEntry(caches: seq<Cache>, name: string)
    requires FindCache(caches, name).Some? && FindCache(caches, name).value.localPath != ""
    ensures HasEntry(caches, name)
  {
    if caches[0].name == name {
      assert caches[0] in caches;
    } else {
      FoundIsEntry(caches[1..], name);
    }
  }

  /** What is found for a name after some turns is found at the end. */
  lemma {:induction false} EntryStays(base: string, repos: seq<Repo>, fetches: nat -> Fetch, s: Sync, n: nat,
                                      name: string)
    requires n <= |repos| && FindCache(SyncRepos(base, repos[..n], fetches, s).caches, name).Some?
    ensures FindCache(SyncRepos(base, repos, fetches, s).caches, name)
         == FindCache(SyncRepos(base, repos[..n], fetches, s).caches, name)
    decreases |repos|
  {
    hide CacheDir, HasEntry, FindCache, LocalPath, Unpack, RemoveAll, MkdirAll;
    if n == |repos| {
      assert repos[..n] == repos;
    } else {
      var m := |repos| - 1;
      assert repos[..m][..n] == repos[..n];
      EntryStays(base, repos[..m], fetches, s, n, name);
      if fetches(m).Unpacked? {
        FindAppended(SyncRepos(base, repos[..m], fetches, s).caches,
                     Cache(repos[m].name, LocalPath(CacheDir(base, repos[m].name), fetches(m).entry)), name);
      }
    }
  }

  /** The first repository of a name that has no entry yet is downloaded, and its entry is found at the end. */
  lemma EntryOfTurn(base: string, repos: seq<Repo>, fetches: nat -> Fetch, s: Sync, i: nat)
    requires base != "" && i < |repos| && SyncRepos(base, repos, fetches, s).Ok()
    requires FindCache(s.caches, repos[i].name).None? && !Named(repos[..i], repos[i].name)
    ensures fetches(i).Unpacked?
    ensures var dir := CacheDir(base, repos[i].name);
            && FindCache(SyncRepos(base, repos, fetches, s).caches, repos[i].name)
               == Some(Cache(repos[i].name, LocalPath(dir, fetches(i).entry)))
            && Contents(dir, fetches(i).tree) <= SyncRepos(base, repos[..i + 1], fetches, s).dirs.Keys
  {
    var name, before := repos[i].name, SyncRepos(base, repos[..i], fetches, s);
    TurnIsOk(base, repos, fetches, s, i);
    TurnIsOk(base, repos, fetches, s, i + 1);
    assert repos[..i + 1][..i] == repos[..i];
    FirstEntryStays(base, repos[..i], fetches, s, name);
    EntriesAfter(base, repos[..i], fetches, s, name);
    FindFirst(s.caches, name);
    if FindCache(before.caches, name).Some? {
      FoundIsEntry(before.caches, name);
    }
    FindFirst(before.caches, name);
    hide CacheDir, HasEntry, FindCache, LocalPath, Contents, Named, Parents;
    assert !HasEntry(before.caches, name) && FindCache(before.caches, name).None?;
    FindAppended(before.caches, Cache(name, LocalPath(CacheDir(base, name), fetches(i).entry)), name);
    EntryStays(base, repos, fetches, s, i + 1, name);
  }

  /** For a name of one segment without an entry, what GetRepoCache gives after a successful call is the
      directory of that name in the cache directory or, if the download asks for one, the archive's entry in it. */
  lemma LocalPathAfterSync(appDir: string, repos: seq<Repo>, mkdirOk: bool, fetches: nat -> Fetch, dirs: set<string>,
                           caches: seq<Cache>, i: nat)
    requires CleanDir(appDir) && i < |repos| && SyncAll(appDir, repos, mkdirOk, fetches, dirs, caches).Ok()
    requires SingleSegment(repos[i].name) && forall j | 0 <= j < i :: repos[j].name != repos[i].name
    requires FindCache(caches, repos[i].name).None?
    ensures var name := repos[i].name;
            var found := FindCache(SyncAll(appDir, repos, mkdirOk, fetches, dirs, caches).caches, name);
            && fetches(i).Unpacked? && found.Some? && found.value.name == name
            && match fetches(i).entry
               case None => found.value.localPath == appDir + "/" + ".cache" + "/" + name
               case Some(e) => SingleSegment(e) ==>
                                 found.value.localPath == appDir + "/" + ".cache" + "/" + name + "/" + e
  {
    var name := repos[i].name;
    CacheDirIs(appDir, name);
    assert !Named(repos[..i], name);
    EntryOfTurn(CacheBase(appDir), repos, fetches, Started(CacheBase(appDir), dirs, caches), i);
    var dir := CacheDir(CacheBase(appDir), name);
    if fetches(i).entry.Some? && SingleSegment(fetches(i).entry.value) {
      ChildIsClean(dir, fetches(i).entry.value);
    }
    hide CacheBase, CacheDir, PathJoin, CleanDir, SyncRepos, FindCache, SingleSegment;
  }

  lemma CacheDirIs(appDir: string, name: string)
    requires CleanDir(appDir) && SingleSegment(name)
    ensures CacheDir(CacheBase(appDir), name) == appDir + "/" + ".cache" + "/" + name
    ensures CleanDir(CacheBase(appDir)) && CleanDir(CacheDir(CacheBase(appDir), name))
  {
    ChildIsClean(appDir, CACHE_DIR);
    hide PathJoin, CleanDir, SingleSegment;
    ChildIsClean(CacheBase(appDir), name);
  }

  /** And that path exists: the cache directory in any case, the entry if the unpacked tree has it. */
  lemma LocalPathExists(appDir: string, repos: seq<Repo>, mkdirOk: bool, fetches: nat -> Fetch, dirs: set<string>,
                        caches: seq<Cache>, i: nat)
    requires CleanDir(appDir) && i < |repos| && SyncAll(appDir, repos, mkdirOk, fetches, dirs, caches).Ok()
    requires forall d | d in dirs :: Parents(d) <= dirs
    requires forall r | r in repos :: SingleSegment(r.name)
    requires forall j | 0 <= j < i :: repos[j].name != repos[i].name
    requires FindCache(caches, repos[i].name).None?
    ensures var after := SyncAll(appDir, repos, mkdirOk, fetches, dirs, caches);
            var found := FindCache(after.caches, repos[i].name);
            && fetches(i).Unpacked? && found.Some?
            && (fetches(i).entry.None?
                || (SingleSegment(fetches(i).entry.value) && found.value.localPath in fetches(i).tree) ==>
                  found.value.localPath in after.dirs)
  {
    assert repos[i] in repos;
    var name, start := repos[i].name, Started(CacheBase(appDir), dirs, caches);
    CacheDirIs(appDir, name);
    LocalPathAfterSync(appDir, repos, mkdirOk, fetches, dirs, caches, i);
    assert !Named(repos[..i], name);
    SyncKeepsAll(appDir, repos, mkdirOk, fetches, dirs, caches, i);
    EntryOfTurn(CacheBase(appDir), repos, fetches, start, i);
    var dir := CacheDir(CacheBase(appDir), name);
    var path := FindCache(SyncRepos(CacheBase(appDir), repos, fetches, start).caches, name).value.localPath;
    if fetches(i).entry.Some? && SingleSegment(fetches(i).entry.value) {
      ChildIsBelow(dir, fetches(i).entry.value);
      if path in fetches(i).tree {
        TreeIsUnpacked(dir, fetches(i).tree, path);
      }
    }
    hide CacheBase, CacheDir, CleanDir, SyncRepos, FindCache, SingleSegment, Contents, Below, Parents, Started, Named;
  }

  lemma ChildIsBelow(dir: string, name: string)
    requires CleanDir(dir) && SingleSegment(name)
    ensures PathJoin(dir, name) == dir + "/" + name && Below(dir + "/" + name, dir)
  {
    ChildIsClean(dir, name);
    var path := dir + "/" + name;
    assert path[|dir|] == '/' && path[..|dir|] == dir;
    hide PathJoin, Clean;
  }

  lemma TreeIsUnpacked(dir: string, tree: set<string>, path: string)
    requires path in tree && Below(path, dir)
    ensures path in Contents(dir, tree)
  {
    hide Parents;
    assert path in Parents(path) + {path};
  }

  // ----- success and failure -----

  /** Every repository is cached in `s`, is named earlier, too, or its download is unpacked. */
  ghost predicate Obtainable(base: string, repos: seq<Repo>, fetches: nat -> Fetch, s: Sync) {
    forall i | 0 <= i < |repos| ::
      fetches(i).Unpacked? || Cached(base, s, repos[i].name) || Named(repos[..i], repos[i].name)
  }

  lemma ObtainableSnoc(base: string, init: seq<Repo>, last: Repo, fetches: nat -> Fetch, s: Sync)
    ensures Obtainable(base, init + [last], fetches, s)
            <==> && Obtainable(base, init, fetches, s)
                 && (fetches(|init|).Unpacked? || Cached(base, s, last.name) || Named(init, last.name))
  {
    hide Cached, Named;
    var all := init + [last];
    assert all[|init|] == last && all[..|init|] == init;
    forall i | 0 <= i < |init| ensures all[i] == init[i] && all[..i] == init[..i] { }
  }

  /** For names of one segment a call succeeds if and only if every repository is cached when it begins, is
      named earlier, too, or its download is unpacked. */
  lemma {:induction false} SyncSucceedsIff(base: string, repos: seq<Repo>, fetches: nat -> Fetch, s: Sync)
    requires CleanDir(base) && s.Ok() && forall r | r in repos :: SingleSegment(r.name)
    ensures SyncRepos(base, repos, fetches, s).Ok() <==> Obtainable(base, repos, fetches, s)
  {
    if repos != [] {
      hide SyncRepo, Cached, Named, SingleSegment, CleanDir, Obtainable;
      var n := |repos| - 1;
      var init, last := repos[..n], repos[n];
      var before := SyncRepos(base, init, fetches, s);
      assert repos == init + [last] && last in repos && forall r | r in init :: r in repos;
      SyncSucceedsIff(base, init, fetches, s);
      ObtainableSnoc(base, init, last, fetches, s);
      if before.Ok() {
        CachedBefore(base, init, fetches, s, last.name);
      }
      TurnSucceedsIff(base, last, fetches(n), before);
    }
  }

  /** The whole call needs a directory to work in as well, and without one does nothing. */
  lemma CallSucceedsIff(appDir: string, repos: seq<Repo>, mkdirOk: bool, fetches: nat -> Fetch, dirs: set<string>,
                        caches: seq<Cache>)
    requires forall r | r in repos :: SingleSegment(r.name)
    ensures var base, after := CacheBase(appDir), SyncAll(appDir, repos, mkdirOk, fetches, dirs, caches);
            var ready := appDir != "" && (base in dirs || mkdirOk);
            && (after.Ok() <==> ready && Obtainable(base, repos, fetches, Started(base, dirs, caches)))
            && (!ready ==> after.dirs.Keys == dirs && after.caches == caches && after.fetched == [])
  {
    if appDir != "" {
      BaseIsClean(appDir);
      SyncSucceedsIff(CacheBase(appDir), repos, fetches, Started(CacheBase(appDir), dirs, caches));
    }
    hide CacheBase, SyncRepos, Obtainable, MkdirAll;
  }

  lemma TurnSucceedsIff(base: string, repo: Repo, fetch: Fetch, s: Sync)
    ensures SyncRepo(base, repo, fetch, s).Ok() <==> s.Ok() && (Cached(base, s, repo.name) || fetch.Unpacked?)
  {
    hide CacheDir, HasEntry, LocalPath, Unpack, RemoveAll, MkdirAll;
  }

  /** A turn that fails has no entry and is not counted. If the old directory cannot be removed nothing changes;
      otherwise nothing that was in it is left, and what is there comes from the broken download. */
  lemma FailedTurnMeans(base: string, repo: Repo, fetch: Fetch, s: Sync, p: string)
    requires s.Ok() && !SyncRepo(base, repo, fetch, s).Ok()
    ensures var after, own := SyncRepo(base, repo, fetch, s), CacheDir(base, repo.name);
            && after.caches == s.caches && after.fetched == s.fetched
            && (after.status.Panicked? <==> fetch.EmptyArchive?)
            && (p in s.dirs && !Covers(own, p) ==> p in after.dirs && after.dirs[p] == s.dirs[p])
            && (fetch.RemoveFails? ==> after.dirs == s.dirs)
            && (!fetch.RemoveFails? && Covers(own, p) && own in s.dirs && p in after.dirs ==>
                  after.dirs[p] == MadeBy(|s.fetched|) && (fetch.DownloadFails? || fetch.EmptyArchive?))
  {
    hide CacheDir, HasEntry, LocalPath, Covers, Parents, Contents;
  }

  /** Whatever happens, no entry is lost or changed, and the new ones are at the end. */
  lemma {:induction false} SyncKeepsEntries(base: string, repos: seq<Repo>, fetches: nat -> Fetch, s: Sync)
    ensures s.caches <= SyncRepos(base, repos, fetches, s).caches
  {
    if repos != [] {
      SyncKeepsEntries(base, repos[..|repos| - 1], fetches, s);
      hide CacheDir, HasEntry, LocalPath, Unpack, RemoveAll, MkdirAll;
    }
  }
}
