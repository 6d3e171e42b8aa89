/** Regrouping JSON patches by target: one patch file and one patch per target name and kind, filled in
    whatever order Go visits its map (pkg/kfapp/kustomize/kustomize.go:1146-1194). */
module PatchGroups {
  import opened Paths
  import opened FirstOccurrence
  import opened Kustomizations
  import opened Wrappers

  function GroupKey(p: JsonPatch): string {
    p.target.name + "-" + p.target.kind
  }

  /** The patches of one group, in merge order. */
  function Members(patches: seq<JsonPatch>, key: string): seq<JsonPatch> {
    if patches == [] then []
    else
      var init, last := patches[..|patches| - 1], patches[|patches| - 1];
      Members(init, key) + (if GroupKey(last) == key then [last] else [])
  }

  /** The groups: every key that occurs, with its patches. */
  ghost function Groups(patches: seq<JsonPatch>): map<string, seq<JsonPatch>> {
    map key | key in Keys(patches, GroupKey) :: Members(patches, key)
  }

  /** The grouping loop. */
  method Group(patches: seq<JsonPatch>) returns (groups: map<string, seq<JsonPatch>>)
    ensures groups == Groups(patches)
  {
    groups := map[];
    ghost var done: seq<JsonPatch> := [];
    assert groups == Groups(done);
    hide *;
    for i := 0 to |patches|
      invariant done == patches[..i] && groups == Groups(done)
    {
      var key := GroupKey(patches[i]);
      GroupsSnoc(done, patches[i]);
      if key !in groups {
        groups := groups[key := [patches[i]]];
      } else {
        GroupAt(done, key);
        groups := groups[key := groups[key] + [patches[i]]];
      }
      done := done + [patches[i]];
    }
    assert done == patches;
  }

  lemma GroupAt(patches: seq<JsonPatch>, key: string)
    requires key in Groups(patches)
    ensures Groups(patches)[key] == Members(patches, key) != []
  {
  }

  lemma MembersSnoc(patches: seq<JsonPatch>, p: JsonPatch, key: string)
    ensures Members(patches + [p], key) == Members(patches, key) + (if GroupKey(p) == key then [p] else [])
  {
    assert (patches + [p])[..|patches + [p]| - 1] == patches;
  }

  lemma {:induction false} MembersMeans(patches: seq<JsonPatch>, key: string, p: JsonPatch)
    ensures p in Members(patches, key) <==> p in patches && GroupKey(p) == key
  {
    if patches != [] {
      var init, last := patches[..|patches| - 1], patches[|patches| - 1];
      assert patches == init + [last];
      MembersMeans(init, key, p);
    }
  }

  /** The patches of a group keep their order. */
  lemma {:induction false} MembersConcat(patches: seq<JsonPatch>, more: seq<JsonPatch>, key: string, p: JsonPatch)
    ensures Members([p], key) == if GroupKey(p) == key then [p] else []
    ensures Members(patches + more, key) == Members(patches, key) + Members(more, key)
    decreases |more|
  {
    hide GroupKey;
    assert [p][..0] == [] && Members([p][..0], key) == [];
    if more == [] {
      assert patches + more == patches && Members(patches, key) + [] == Members(patches, key);
    } else {
      var n := |more| - 1;
      MembersConcat(patches, more[..n], key, p);
      assert (patches + more)[..|patches + more| - 1] == patches + more[..n];
    }
  }

  lemma GroupsSnoc(patches: seq<JsonPatch>, p: JsonPatch)
    ensures Groups(patches + [p]) == Groups(patches)[GroupKey(p) := Members(patches, GroupKey(p)) + [p]]
    ensures GroupKey(p) !in Groups(patches) ==> Members(patches, GroupKey(p)) + [p] == [p]
  {
    hide GroupKey, Members;
    KeysSnoc(patches, p, GroupKey);
    var ms := Members(patches, GroupKey(p));
    if ms != [] {
      MembersMeans(patches, GroupKey(p), ms[0]);
    }
    var before, after := Groups(patches), Groups(patches + [p]);
    forall key | key in after ensures after[key] == before[GroupKey(p) := ms + [p]][key] {
      MembersSnoc(patches, p, key);
    }
  }

  // ----- every patch lands in exactly one group -----

  ghost predicate IsOrder(order: seq<string>, keys: set<string>) {
    && NoDuplicates(order)
    && forall k :: k in order <==> k in keys
  }

  /** The groups of the given keys, one after the other. */
  function InTurn(patches: seq<JsonPatch>, order: seq<string>): seq<JsonPatch> {
    if order == [] then []
    else InTurn(patches, order[..|order| - 1]) + Members(patches, order[|order| - 1])
  }

  lemma {:induction false} InTurnSnoc(patches: seq<JsonPatch>, p: JsonPatch, order: seq<string>)
    requires NoDuplicates(order)
    ensures multiset(InTurn(patches + [p], order))
         == multiset(InTurn(patches, order)) + (if GroupKey(p) in order then multiset{p} else multiset{})
  {
    if order != [] {
      var init, last := order[..|order| - 1], order[|order| - 1];
      assert order == init + [last];
      InTurnSnoc(patches, p, init);
      MembersSnoc(patches, p, last);
    }
  }

  lemma {:induction false} InTurnOfNothing(order: seq<string>)
    ensures InTurn([], order) == []
  {
    if order != [] {
      InTurnOfNothing(order[..|order| - 1]);
    }
  }

  /** Whatever order the keys are visited in, the groups together hold every patch exactly as often as
      it was merged. */
  lemma {:induction false} GroupsConserve(patches: seq<JsonPatch>, order: seq<string>)
    requires NoDuplicates(order)
    requires forall p | p in patches :: GroupKey(p) in order
    ensures multiset(InTurn(patches, order)) == multiset(patches)
  {
    if patches == [] {
      InTurnOfNothing(order);
    } else {
      var init, last := patches[..|patches| - 1], patches[|patches| - 1];
      assert patches == init + [last];
      GroupsConserve(init, order);
      InTurnSnoc(init, last, order);
    }
  }

  lemma LastDash(name: string, kind: string, j: nat)
    requires '-' !in kind && j < |name + "-" + kind| && (name + "-" + kind)[j] == '-'
    ensures j <= |name|
  {
    var s := name + "-" + kind;
    assert forall i | |name| < i < |s| :: s[i] in kind;
  }

  /** If no kind contains a dash, patches of one group have the same target name and kind. */
  lemma SameGroupSameTarget(p: JsonPatch, q: JsonPatch)
    requires '-' !in p.target.kind && '-' !in q.target.kind
    ensures GroupKey(p) == GroupKey(q) <==> p.target.name == q.target.name && p.target.kind == q.target.kind
  {
    if GroupKey(p) == GroupKey(q) {
      var s, m, n := GroupKey(p), |p.target.name|, |q.target.name|;
      LastDash(p.target.name, p.target.kind, n);
      LastDash(q.target.name, q.target.kind, m);
      assert s[..m] == p.target.name && s[..n] == q.target.name;
      assert s[m + 1..] == p.target.kind && s[n + 1..] == q.target.kind;
    }
  }

  /** With dashes the group may mix targets, and then its patch names only the first of them. */
  lemma DashesMixTargets()
    ensures exists p: JsonPatch, q: JsonPatch :: GroupKey(p) == GroupKey(q) && p.target.name != q.target.name
  {
    var p := JsonPatch("p.yaml", Target("a-b", "", "", "", "c", ""));
    var q := JsonPatch("q.yaml", Target("a", "", "", "", "b-c", ""));
    assert "a-b" + "-" + "c" == "a" + "-" + "b-c";
    assert GroupKey(p) == GroupKey(q) && p.target.name != q.target.name;
  }

  // ----- the patch files -----

  type Files = map<string, string>

  function OutPath(compDir: string, key: string): string {
    PathJoin(compDir, key + ".yaml")
  }

  function SourcePath(compDir: string, p: JsonPatch): string {
    PathJoin(compDir, p.path)
  }

  function Content(files: Files, path: string): string {
    if path in files then files[path] else ""
  }

  /** Opening for append creates a missing file. */
  function AppendTo(files: Files, path: string, data: string): Files {
    files[path := Content(files, path) + data]
  }

  /** A patch whose file does not exist is passed over. */
  function AppendMember(compDir: string, out: string, files: Files, p: JsonPatch): Files {
    var src := SourcePath(compDir, p);
    if src in files then AppendTo(files, out, files[src]) else files
  }

  function AppendGroup(compDir: string, out: string, files: Files, ps: seq<JsonPatch>): Files {
    if ps == [] then files
    else AppendMember(compDir, out, AppendGroup(compDir, out, files, ps[..|ps| - 1]), ps[|ps| - 1])
  }

  function AppendGroups(compDir: string, files: Files, patches: seq<JsonPatch>, order: seq<string>): Files {
    if order == [] then files
    else
      var key := order[|order| - 1];
      AppendGroup(compDir, OutPath(compDir, key), AppendGroups(compDir, files, patches, order[..|order| - 1]),
                  Members(patches, key))
  }

  lemma AppendGroupsSnoc(compDir: string, files: Files, patches: seq<JsonPatch>, order: seq<string>, key: string)
    ensures AppendGroups(compDir, files, patches, order + [key])
         == AppendGroup(compDir, OutPath(compDir, key), AppendGroups(compDir, files, patches, order),
                        Members(patches, key))
  {
    hide OutPath, AppendGroup, Members;
    assert (order + [key])[..|order + [key]| - 1] == order;
  }

  class Disk {
    var files: Files

    constructor (files: Files)
      ensures this.files == files
    {
      this.files := files;
    }

    /** Appends the files of a group to its patch file. */
    method AppendPatches(compDir: string, out: string, ps: seq<JsonPatch>)
      modifies this
      ensures files == AppendGroup(compDir, out, old(files), ps)
    {
      hide SourcePath;
      for i := 0 to |ps|
        invariant files == AppendGroup(compDir, out, old(files), ps[..i])
      {
        assert ps[..i + 1][..i] == ps[..i];
        var src := SourcePath(compDir, ps[i]);
        if src in files {
          var data := files[src];
          if out !in files {
            files := files[out := ""];
          }
          files := files[out := files[out] + data];
        }
      }
      assert ps[..|ps|] == ps;
    }

    /** Groups the patches and writes the patch file of every group. The order in which the groups are
        visited is returned as well; the code leaves it open. */
    method Regroup(compDir: string, patches: seq<JsonPatch>) returns (merged: seq<JsonPatch>, ghost order: seq<string>)
      modifies this
      ensures IsOrder(order, Keys(patches, GroupKey))
      ensures files == AppendGroups(compDir, old(files), patches, order)
      ensures Aggregated(patches, order, merged)
    {
      var groups := Group(patches);
      var rest := groups.Keys;
      merged, order := [], [];
      assert Visited(order, rest, rest) && Aggregated(patches, order, merged);
      assert files == AppendGroups(compDir, files, patches, order);
      hide *;
      while rest != {}
        invariant rest <= groups.Keys && Visited(order, groups.Keys, rest)
        invariant files == AppendGroups(compDir, old(files), patches, order) && Aggregated(patches, order, merged)
        decreases |rest|
      {
        var key :| key in rest;
        GroupAt(patches, key);
        AppendPatches(compDir, OutPath(compDir, key), groups[key]);
        AppendGroupsSnoc(compDir, old(files), patches, order, key);
        merged := AddAggregate(patches, order, merged, key, groups[key]);
        VisitedSnoc(order, groups.Keys, rest, key);
        order, rest := order + [key], rest - {key};
      }
      VisitedAll(patches, order);
    }
  }

  method AddAggregate(ghost patches: seq<JsonPatch>, ghost order: seq<string>, merged: seq<JsonPatch>,
                      key: string, values: seq<JsonPatch>) returns (r: seq<JsonPatch>)
    requires Aggregated(patches, order, merged) && values == Members(patches, key) && values != []
    ensures Aggregated(patches, order + [key], r)
  {
    hide Members;
    r := merged + [JsonPatch(key + ".yaml", values[0].target)];
  }

  /** One patch per group, aimed at the target of the group's first member. */
  ghost predicate Aggregated(patches: seq<JsonPatch>, order: seq<string>, merged: seq<JsonPatch>) {
    && |merged| == |order|
    && forall i | 0 <= i < |order| ::
         Members(patches, order[i]) != []
         && merged[i] == JsonPatch(order[i] + ".yaml", Members(patches, order[i])[0].target)
  }

  /** `order` lists all keys but the rest, each once. */
  ghost predicate Visited(order: seq<string>, keys: set<string>, rest: set<string>) {
    && NoDuplicates(order)
    && forall k :: k in order <==> k in keys && k !in rest
  }

  lemma VisitedSnoc(order: seq<string>, keys: set<string>, rest: set<string>, key: string)
    requires Visited(order, keys, rest) && key in rest && key in keys
    ensures Visited(order + [key], keys, rest - {key})
  {
    assert order + [key] != [] && key !in order;
  }

  lemma VisitedAll(patches: seq<JsonPatch>, order: seq<string>)
    requires Visited(order, Groups(patches).Keys, {})
    ensures IsOrder(order, Keys(patches, GroupKey))
  {
  }

  // ----- what ends up in the files -----

  /** The aggregated patch refers to the file that is written for its group. */
  lemma AggregateNamesItsFile(compDir: string, patches: seq<JsonPatch>, order: seq<string>, merged: seq<JsonPatch>,
                              i: nat)
    requires Aggregated(patches, order, merged) && i < |order|
    ensures PathJoin(compDir, merged[i].path) == OutPath(compDir, order[i])
    ensures exists p :: p in patches && GroupKey(p) == order[i] && merged[i].target == p.target
  {
    var p := Members(patches, order[i])[0];
    MembersMeans(patches, order[i], p);
    hide PathJoin, GroupKey, Members;
  }

  /** A group reads the patch file that its patch named in the file it was merged from. */
  lemma PatchFileMeans(compDir: string, dir: string, p: JsonPatch)
    requires CleanDir(compDir) && dir != "" && StrictlyBelow(compDir, PathJoin(dir, p.path))
    ensures SourcePath(compDir, RewritePatch(compDir, dir, p)) == PathJoin(dir, p.path)
  {
    BelowMeans(compDir, dir, p.path);
    hide PathJoin, CleanDir, Rewritten;
  }

  /** The contents of the members' files, in merge order. */
  function GroupText(compDir: string, files: Files, ps: seq<JsonPatch>): string {
    if ps == [] then ""
    else GroupText(compDir, files, ps[..|ps| - 1]) + Content(files, SourcePath(compDir, ps[|ps| - 1]))
  }

  /** The text of one patch is the content of its file, and that of more patches is their texts in order. */
  lemma {:induction false} GroupTextConcat(compDir: string, files: Files, ps: seq<JsonPatch>, more: seq<JsonPatch>,
                                           p: JsonPatch)
    ensures GroupText(compDir, files, [p])
         == if SourcePath(compDir, p) in files then files[SourcePath(compDir, p)] else ""
    ensures GroupText(compDir, files, ps + more) == GroupText(compDir, files, ps) + GroupText(compDir, files, more)
    decreases |more|
  {
    hide SourcePath;
    assert [p][..0] == [] && GroupText(compDir, files, [p]) == "" + Content(files, SourcePath(compDir, p));
    if more == [] {
      assert ps + more == ps && GroupText(compDir, files, ps) + "" == GroupText(compDir, files, ps);
    } else {
      var n := |more| - 1;
      GroupTextConcat(compDir, files, ps, more[..n], p);
      assert (ps + more)[..|ps + more| - 1] == ps + more[..n];
    }
  }

  predicate AnyExists(compDir: string, files: Files, ps: seq<JsonPatch>) {
    exists p | p in ps :: SourcePath(compDir, p) in files
  }

  /** The two stores hold the same at this path. */
  predicate SameAt(files: Files, files': Files, path: string) {
    (path in files <==> path in files') && Content(files, path) == Content(files', path)
  }

  lemma {:induction false} GroupTextSame(compDir: string, files: Files, files': Files, ps: seq<JsonPatch>)
    requires forall p | p in ps :: SameAt(files, files', SourcePath(compDir, p))
    ensures GroupText(compDir, files, ps) == GroupText(compDir, files', ps)
    ensures AnyExists(compDir, files, ps) == AnyExists(compDir, files', ps)
  {
    hide SourcePath;
    if ps != [] {
      var init, last := ps[..|ps| - 1], ps[|ps| - 1];
      assert ps == init + [last];
      GroupTextSame(compDir, files, files', init);
    }
  }

  /** A group file receives its members' contents, and no other file changes. */
  lemma {:induction false} AppendGroupMeans(compDir: string, out: string, files: Files, ps: seq<JsonPatch>,
                                            path: string)
    requires forall p | p in ps :: SourcePath(compDir, p) != out
    ensures var after := AppendGroup(compDir, out, files, ps);
            && Content(after, out) == Content(files, out) + GroupText(compDir, files, ps)
            && (out in after <==> out in files || AnyExists(compDir, files, ps))
            && (path != out ==> SameAt(files, after, path))
  {
    hide SourcePath;
    if ps == [] {
      assert Content(files, out) + "" == Content(files, out);
    } else {
      var init, last := ps[..|ps| - 1], ps[|ps| - 1];
      assert ps == init + [last];
      AppendGroupMeans(compDir, out, files, init, path);
      AppendGroupMeans(compDir, out, files, init, SourcePath(compDir, last));
      AnyExistsSnoc(compDir, files, init, last);
      var before := AppendGroup(compDir, out, files, init);
      var text, more := GroupText(compDir, files, init), Content(files, SourcePath(compDir, last));
      assert Content(files, out) + (text + more) == Content(files, out) + text + more;
      assert SourcePath(compDir, last) !in before ==> Content(before, out) + more == Content(before, out);
      hide AnyExists, GroupText;
    }
  }

  lemma AnyExistsSnoc(compDir: string, files: Files, ps: seq<JsonPatch>, p: JsonPatch)
    ensures AnyExists(compDir, files, ps + [p]) <==> AnyExists(compDir, files, ps) || SourcePath(compDir, p) in files
  {
    hide SourcePath;
    assert p in ps + [p];
  }

  /** No two groups share a patch file. */
  ghost predicate Apart(compDir: string, order: seq<string>) {
    forall k, l | k in order && l in order && k != l :: OutPath(compDir, k) != OutPath(compDir, l)
  }

  /** So it is as long as the patch files have names of one segment. */
  lemma SingleSegmentsAreApart(compDir: string, order: seq<string>)
    requires CleanDir(compDir) && forall k | k in order :: SingleSegment(k + ".yaml")
    ensures Apart(compDir, order)
  {
    hide PathJoin, CleanDir, SingleSegment;
    forall k, l | k in order && l in order && k != l ensures OutPath(compDir, k) != OutPath(compDir, l) {
      FileIs(compDir, k + ".yaml");
      FileIs(compDir, l + ".yaml");
      assert (k + ".yaml")[..|k|] == k && (l + ".yaml")[..|l|] == l;
    }
  }

  lemma FileIs(compDir: string, name: string)
    requires CleanDir(compDir) && SingleSegment(name)
    ensures PathJoin(compDir, name) == compDir + "/" + name && PathJoin(compDir, name)[|compDir| + 1..] == name
  {
    CleanSegment(name);
    JoinInside(compDir, name);
    hide PathJoin, Clean;
  }

  /** No patch file is read as a patch, and no two groups share a patch file. */
  ghost predicate Separate(compDir: string, patches: seq<JsonPatch>, order: seq<string>) {
    && (forall p, k | p in patches && k in order :: SourcePath(compDir, p) != OutPath(compDir, k))
    && Apart(compDir, order)
  }

  lemma {:induction false} OthersUnchanged(compDir: string, files: Files, patches: seq<JsonPatch>,
                                           order: seq<string>, path: string)
    requires Separate(compDir, patches, order)
    requires forall k | k in order :: OutPath(compDir, k) != path
    ensures SameAt(files, AppendGroups(compDir, files, patches, order), path)
  {
    hide SourcePath, OutPath;
    if order != [] {
      var init, last := order[..|order| - 1], order[|order| - 1];
      assert order == init + [last];
      OthersUnchanged(compDir, files, patches, init, path);
      forall p | p in Members(patches, last) ensures p in patches { MembersMeans(patches, last, p); }
      AppendGroupMeans(compDir, OutPath(compDir, last), AppendGroups(compDir, files, patches, init),
                       Members(patches, last), path);
    }
  }

  /** Each group file ends up with what it held, followed by the contents of its members' files in merge
      order; it is created if and only if some member's file exists. */
  lemma {:induction false} GroupFileMeans(compDir: string, files: Files, patches: seq<JsonPatch>, order: seq<string>,
                                          key: string)
    requires IsOrder(order, set k | k in order) && Separate(compDir, patches, order) && key in order
    ensures var after, out := AppendGroups(compDir, files, patches, order), OutPath(compDir, key);
            var ps := Members(patches, key);
            && Content(after, out) == Content(files, out) + GroupText(compDir, files, ps)
            && (out in after <==> out in files || AnyExists(compDir, files, ps))
  {
    hide SourcePath, OutPath;
    var init, last := order[..|order| - 1], order[|order| - 1];
    assert order == init + [last];
    var before := AppendGroups(compDir, files, patches, init);
    forall p | p in Members(patches, last) ensures p in patches { MembersMeans(patches, last, p); }
    if key == last {
      OthersUnchanged(compDir, files, patches, init, OutPath(compDir, key));
      forall p | p in Members(patches, key) ensures SameAt(files, before, SourcePath(compDir, p)) {
        OthersUnchanged(compDir, files, patches, init, SourcePath(compDir, p));
      }
      GroupTextSame(compDir, files, before, Members(patches, key));
    } else {
      GroupFileMeans(compDir, files, patches, init, key);
    }
    AppendGroupMeans(compDir, OutPath(compDir, last), before, Members(patches, last), OutPath(compDir, key));
  }

  lemma SameEverywhere(files: Files, files': Files)
    requires forall path :: SameAt(files, files', path)
    ensures files == files'
  {
    forall path | path in files ensures path in files' && files'[path] == files[path] {
      assert SameAt(files, files', path);
    }
    forall path | path in files' ensures path in files {
      assert SameAt(files, files', path);
    }
  }

  /** The files are opened for append, so generating once more in the same directory changes nothing if
      and only if no group has anything to contribute; otherwise the contents are there twice. */
  lemma RegroupIdempotentIff(compDir: string, files: Files, patches: seq<JsonPatch>, order: seq<string>)
    requires IsOrder(order, Keys(patches, GroupKey)) && Separate(compDir, patches, order)
    ensures var once := AppendGroups(compDir, files, patches, order);
            AppendGroups(compDir, once, patches, order) == once
            <==> forall k | k in order :: GroupText(compDir, files, Members(patches, k)) == ""
  {
    hide SourcePath, OutPath, AppendGroups, GroupKey;
    var once := AppendGroups(compDir, files, patches, order);
    var twice := AppendGroups(compDir, once, patches, order);
    forall k | k in order
      ensures SameAt(once, twice, OutPath(compDir, k)) <==> GroupText(compDir, files, Members(patches, k)) == ""
    {
      AgainAppends(compDir, files, patches, order, k);
    }
    forall path ensures SameAt(once, twice, path) || exists k :: k in order && OutPath(compDir, k) == path {
      if forall k | k in order :: OutPath(compDir, k) != path {
        OthersUnchanged(compDir, once, patches, order, path);
      }
    }
    if forall k | k in order :: GroupText(compDir, files, Members(patches, k)) == "" {
      SameEverywhere(once, twice);
    }
  }

  lemma AgainAppends(compDir: string, files: Files, patches: seq<JsonPatch>, order: seq<string>, k: string)
    requires IsOrder(order, Keys(patches, GroupKey)) && Separate(compDir, patches, order) && k in order
    ensures var once := AppendGroups(compDir, files, patches, order);
            SameAt(once, AppendGroups(compDir, once, patches, order), OutPath(compDir, k))
            <==> GroupText(compDir, files, Members(patches, k)) == ""
  {
    hide SourcePath, OutPath, AppendGroups, GroupKey;
    var once, ps := AppendGroups(compDir, files, patches, order), Members(patches, k);
    forall p | p in ps ensures SameAt(files, once, SourcePath(compDir, p)) {
      MembersMeans(patches, k, p);
      OthersUnchanged(compDir, files, patches, order, SourcePath(compDir, p));
    }
    GroupTextSame(compDir, files, once, ps);
    GroupFileMeans(compDir, files, patches, order, k);
    GroupFileMeans(compDir, once, patches, order, k);
    hide GroupText, AnyExists;
  }

  /** A single patch with some text, as p.yaml for the object a of kind K: generating twice writes the text
      twice. */
  lemma AgainDoublesText(compDir: string, p: JsonPatch, text: string)
    requires CleanDir(compDir) && SingleSegment(p.path) && SingleSegment(GroupKey(p) + ".yaml")
    requires p.path != GroupKey(p) + ".yaml" && text != ""
    ensures var src, out := SourcePath(compDir, p), OutPath(compDir, GroupKey(p));
            var once := AppendGroups(compDir, map[src := text], [p], [GroupKey(p)]);
            && once == map[src := text, out := text]
            && AppendGroups(compDir, once, [p], [GroupKey(p)]) == map[src := text, out := text + text] != once
  {
    FileIs(compDir, p.path);
    FileIs(compDir, GroupKey(p) + ".yaml");
    var src, out := SourcePath(compDir, p), OutPath(compDir, GroupKey(p));
    assert src != out;
    hide *;
    OneGroupTwice(compDir, map[src := text], p);
    var once := map[src := text, out := text];
    assert once[out := text + text][out] != once[out];
  }

  lemma OneGroupTwice(compDir: string, files: Files, p: JsonPatch)
    requires var src, out := SourcePath(compDir, p), OutPath(compDir, GroupKey(p));
             src in files && src != out && out !in files
    ensures var src, out := SourcePath(compDir, p), OutPath(compDir, GroupKey(p));
            var once := AppendGroups(compDir, files, [p], [GroupKey(p)]);
            && once == files[out := files[src]]
            && AppendGroups(compDir, once, [p], [GroupKey(p)]) == once[out := files[src] + files[src]]
  {
    hide SourcePath, OutPath, GroupKey, AppendGroups;
    var src, out := SourcePath(compDir, p), OutPath(compDir, GroupKey(p));
    OneGroup(compDir, files, p);
    OneGroup(compDir, files[out := files[src]], p);
    assert "" + files[src] == files[src];
  }

  lemma OneGroup(compDir: string, files: Files, p: JsonPatch)
    ensures AppendGroups(compDir, files, [p], [GroupKey(p)])
         == AppendMember(compDir, OutPath(compDir, GroupKey(p)), files, p)
  {
    hide GroupKey, AppendMember, OutPath;
    var k := GroupKey(p);
    AppendGroupsSnoc(compDir, files, [p], [], k);
    MembersSnoc([], p, k);
    assert [] + [k] == [k] && [] + [p] == [p] && [p][..0] == [];
  }
}
