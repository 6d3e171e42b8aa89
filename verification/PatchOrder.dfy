/** When the order in which Go visits its map of patch groups matters to the patch files
    (pkg/kfapp/kustomize/kustomize.go:1161-1193). */
module PatchOrder {
  import opened Paths
  import opened Wrappers
  import opened FirstOccurrence
  import opened Kustomizations
  import opened PatchGroups

  /** Some member of the group k is read from the patch file of the group l. */
  predicate Reads(compDir: string, patches: seq<JsonPatch>, k: string, l: string) {
    exists p | p in Members(patches, k) :: SourcePath(compDir, p) == OutPath(compDir, l)
  }

  /** The group adds text to its patch file. */
  predicate GivesText(compDir: string, files: Files, ps: seq<JsonPatch>) {
    exists p | p in ps :: Content(files, SourcePath(compDir, p)) != ""
  }

  /** The group creates its patch file. */
  predicate Creates(compDir: string, files: Files, patches: seq<JsonPatch>, k: string) {
    OutPath(compDir, k) !in files && AnyExists(compDir, files, Members(patches, k))
  }

  /** The group k reads what the group l gives: text, or a new empty file that makes k create its own. */
  predicate Depends(compDir: string, files: Files, patches: seq<JsonPatch>, k: string, l: string) {
    && Reads(compDir, patches, k, l)
    && (|| GivesText(compDir, files, Members(patches, l))
        || (&& Creates(compDir, files, patches, l) && OutPath(compDir, k) !in files
            && !AnyExists(compDir, files, Members(patches, k))))
  }

  ghost predicate Independent(compDir: string, files: Files, patches: seq<JsonPatch>, order: seq<string>) {
    forall k, l | k in order && l in order && k != l :: !Depends(compDir, files, patches, k, l)
  }

  // ----- one group -----

  lemma AppendGroupSnoc(compDir: string, out: string, files: Files, ps: seq<JsonPatch>, p: JsonPatch)
    ensures AppendGroup(compDir, out, files, ps + [p])
         == AppendMember(compDir, out, AppendGroup(compDir, out, files, ps), p)
  {
    hide AppendMember;
    assert (ps + [p])[..|ps + [p]| - 1] == ps;
  }

  /** Only the patch file changes, and it is there afterwards if it was or some member's file is. */
  lemma {:induction false} AppendGroupAt(compDir: string, out: string, files: Files, ps: seq<JsonPatch>, path: string)
    ensures var after := AppendGroup(compDir, out, files, ps);
            && (path != out ==> SameAt(files, after, path))
            && (out in after <==> out in files || AnyExists(compDir, files, ps))
  {
    if ps != [] {
      var init, last := ps[..|ps| - 1], ps[|ps| - 1];
      assert ps == init + [last];
      AppendGroupAt(compDir, out, files, init, path);
      AppendGroupAt(compDir, out, files, init, SourcePath(compDir, last));
      AnyExistsSnoc(compDir, files, init, last);
      hide SourcePath, AnyExists;
    }
  }

  /** Stores that agree in content on the patch file and on what is read give it the same content. */
  lemma {:induction false} AppendGroupAgrees(compDir: string, out: string, files: Files, files': Files,
                                             ps: seq<JsonPatch>)
    requires Content(files, out) == Content(files', out)
    requires forall p | p in ps :: Content(files, SourcePath(compDir, p)) == Content(files', SourcePath(compDir, p))
    ensures Content(AppendGroup(compDir, out, files, ps), out) == Content(AppendGroup(compDir, out, files', ps), out)
  {
    hide SourcePath;
    if ps != [] {
      var init, last := ps[..|ps| - 1], ps[|ps| - 1];
      assert ps == init + [last];
      AppendGroupAgrees(compDir, out, files, files', init);
      MemberContent(compDir, out, files, init, last);
      MemberContent(compDir, out, files', init, last);
    }
  }

  /** What the last member appends: its file's content, or the patch file's own if it reads that. */
  lemma MemberContent(compDir: string, out: string, files: Files, init: seq<JsonPatch>, last: JsonPatch)
    ensures var before, src := AppendGroup(compDir, out, files, init), SourcePath(compDir, last);
            Content(AppendGroup(compDir, out, files, init + [last]), out)
            == Content(before, out) + (if src == out then Content(before, out) else Content(files, src))
  {
    AppendGroupSnoc(compDir, out, files, init, last);
    AppendGroupAt(compDir, out, files, init, SourcePath(compDir, last));
    hide SourcePath, AnyExists, AppendGroup;
    var before := AppendGroup(compDir, out, files, init);
    assert Content(before, out) + "" == Content(before, out);
  }

  /** Without text the patch file keeps its content. */
  lemma {:induction false} SilentGroup(compDir: string, out: string, files: Files, ps: seq<JsonPatch>)
    requires !GivesText(compDir, files, ps)
    ensures Content(AppendGroup(compDir, out, files, ps), out) == Content(files, out)
  {
    hide SourcePath;
    if ps != [] {
      var init, last := ps[..|ps| - 1], ps[|ps| - 1];
      assert ps == init + [last] && last in ps && forall p | p in init :: p in ps;
      SilentGroup(compDir, out, files, init);
      MemberContent(compDir, out, files, init, last);
    }
  }

  /** No file is shorter or missing. */
  ghost predicate Grown(files: Files, files': Files) {
    forall path :: |Content(files, path)| <= |Content(files', path)| && (path in files ==> path in files')
  }

  /** Longer sources make a longer patch file. */
  lemma {:induction false} AppendGroupGrows(compDir: string, out: string, files: Files, files': Files,
                                            ps: seq<JsonPatch>)
    requires Grown(files, files')
    ensures var one, two := AppendGroup(compDir, out, files, ps), AppendGroup(compDir, out, files', ps);
            && |Content(one, out)| <= |Content(two, out)|
            && ((exists p :: p in ps && SourcePath(compDir, p) != out
                             && |Content(files, SourcePath(compDir, p))| < |Content(files', SourcePath(compDir, p))|)
                ==> |Content(one, out)| < |Content(two, out)|)
  {
    hide SourcePath;
    if ps != [] {
      var init, last := ps[..|ps| - 1], ps[|ps| - 1];
      assert ps == init + [last];
      AppendGroupGrows(compDir, out, files, files', init);
      MemberContent(compDir, out, files, init, last);
      MemberContent(compDir, out, files', init, last);
      hide AppendGroup;
    }
  }

  lemma {:induction false} GroupGrows(compDir: string, out: string, files: Files, ps: seq<JsonPatch>)
    ensures Grown(files, AppendGroup(compDir, out, files, ps))
    ensures GivesText(compDir, files, ps) ==>
              |Content(files, out)| < |Content(AppendGroup(compDir, out, files, ps), out)|
  {
    hide SourcePath;
    if ps != [] {
      var init, last := ps[..|ps| - 1], ps[|ps| - 1];
      assert ps == init + [last];
      GroupGrows(compDir, out, files, init);
      MemberContent(compDir, out, files, init, last);
    }
    var after := AppendGroup(compDir, out, files, ps);
    forall path ensures |Content(files, path)| <= |Content(after, path)| && (path in files ==> path in after) {
      AppendGroupAt(compDir, out, files, ps, path);
    }
  }

  // ----- all groups -----

  lemma {:induction false} AppendGroupsCons(compDir: string, files: Files, patches: seq<JsonPatch>, k: string,
                                            more: seq<string>)
    ensures AppendGroups(compDir, files, patches, [k] + more)
         == AppendGroups(compDir, AppendGroup(compDir, OutPath(compDir, k), files, Members(patches, k)), patches, more)
    decreases |more|
  {
    hide OutPath, AppendGroup, Members;
    if more == [] {
      assert [k] + more == [] + [k];
      AppendGroupsSnoc(compDir, files, patches, [], k);
    } else {
      var init, last := more[..|more| - 1], more[|more| - 1];
      assert [k] + more == [k] + init + [last] && more == init + [last];
      AppendGroupsCons(compDir, files, patches, k, init);
      AppendGroupsSnoc(compDir, files, patches, [k] + init, last);
    }
  }

  lemma {:induction false} GroupsGrow(compDir: string, files: Files, patches: seq<JsonPatch>, order: seq<string>)
    ensures Grown(files, AppendGroups(compDir, files, patches, order))
  {
    hide OutPath, AppendGroup;
    if order != [] {
      var init, last := order[..|order| - 1], order[|order| - 1];
      GroupsGrow(compDir, files, patches, init);
      GroupGrows(compDir, OutPath(compDir, last), AppendGroups(compDir, files, patches, init), Members(patches, last));
    }
  }

  lemma {:induction false} GroupsElsewhere(compDir: string, files: Files, patches: seq<JsonPatch>,
                                           order: seq<string>, path: string)
    requires forall k | k in order :: OutPath(compDir, k) != path
    ensures SameAt(files, AppendGroups(compDir, files, patches, order), path)
  {
    hide OutPath, AppendGroup;
    if order != [] {
      var init, last := order[..|order| - 1], order[|order| - 1];
      assert order == init + [last];
      GroupsElsewhere(compDir, files, patches, init, path);
      AppendGroupAt(compDir, OutPath(compDir, last), AppendGroups(compDir, files, patches, init),
                    Members(patches, last), path);
      hide AnyExists;
    }
  }

  /** A group that gives text has made its file longer, and one with a file to read has made it exist. */
  lemma {:induction false} GroupHasGiven(compDir: string, files: Files, patches: seq<JsonPatch>, order: seq<string>,
                                         l: string)
    requires l in order
    ensures var after, out := AppendGroups(compDir, files, patches, order), OutPath(compDir, l);
            && (GivesText(compDir, files, Members(patches, l)) ==> |Content(files, out)| < |Content(after, out)|)
            && (AnyExists(compDir, files, Members(patches, l)) ==> out in after)
  {
    hide SourcePath, OutPath, AppendGroup, Members;
    var init, last := order[..|order| - 1], order[|order| - 1];
    assert order == init + [last];
    var before, out := AppendGroups(compDir, files, patches, init), OutPath(compDir, last);
    GroupsGrow(compDir, files, patches, init);
    GroupGrows(compDir, out, before, Members(patches, last));
    if l == last {
      AppendGroupAt(compDir, out, before, Members(patches, last), out);
      GivenLater(compDir, files, before, Members(patches, l));
    } else {
      GroupHasGiven(compDir, files, patches, init, l);
    }
    hide GivesText, AnyExists;
  }

  lemma GivenLater(compDir: string, files: Files, files': Files, ps: seq<JsonPatch>)
    requires Grown(files, files')
    ensures GivesText(compDir, files, ps) ==> GivesText(compDir, files', ps)
    ensures AnyExists(compDir, files, ps) ==> AnyExists(compDir, files', ps)
  {
    hide SourcePath;
    if p :| p in ps && Content(files, SourcePath(compDir, p)) != "" {
      assert |Content(files', SourcePath(compDir, p))| > 0;
    }
  }

  // ----- independent groups -----

  /** What a group's file holds when its group works on the first files alone. */
  ghost predicate AsAlone(compDir: string, files: Files, patches: seq<JsonPatch>, after: Files, k: string) {
    var out := OutPath(compDir, k);
    && Content(after, out) == Content(AppendGroup(compDir, out, files, Members(patches, k)), out)
    && (out in after <==> out in files || AnyExists(compDir, files, Members(patches, k)))
  }

  lemma {:induction false} IndependentIsAlone(compDir: string, files: Files, patches: seq<JsonPatch>,
                                              order: seq<string>, k: string)
    requires NoDuplicates(order) && Apart(compDir, order) && Independent(compDir, files, patches, order) && k in order
    ensures AsAlone(compDir, files, patches, AppendGroups(compDir, files, patches, order), k)
  {
    hide SourcePath, OutPath, AppendGroup, Members, Depends, AsAlone;
    var init, last := order[..|order| - 1], order[|order| - 1];
    assert order == init + [last];
    var before := AppendGroups(compDir, files, patches, init);
    forall l | l in init ensures AsAlone(compDir, files, patches, before, l) {
      IndependentIsAlone(compDir, files, patches, init, l);
    }
    if k == last {
      forall l | l in init ensures l != k && !Depends(compDir, files, patches, k, l) { }
      NextIsAlone(compDir, files, patches, init, k);
    } else {
      OthersStay(compDir, files, patches, before, last, k);
    }
  }

  lemma OthersStay(compDir: string, files: Files, patches: seq<JsonPatch>, before: Files, last: string, k: string)
    requires AsAlone(compDir, files, patches, before, k) && OutPath(compDir, k) != OutPath(compDir, last)
    ensures AsAlone(compDir, files, patches,
                    AppendGroup(compDir, OutPath(compDir, last), before, Members(patches, last)), k)
  {
    AppendGroupAt(compDir, OutPath(compDir, last), before, Members(patches, last), OutPath(compDir, k));
    hide OutPath, AppendGroup, AnyExists, Members;
  }

  /** The content a member reads is what it was at first. */
  lemma SourceIsAsBefore(compDir: string, files: Files, patches: seq<JsonPatch>, init: seq<string>, k: string,
                         p: JsonPatch)
    requires forall l | l in init :: AsAlone(compDir, files, patches, AppendGroups(compDir, files, patches, init), l)
    requires forall l | l in init :: !Depends(compDir, files, patches, k, l)
    requires p in Members(patches, k)
    ensures var before, src := AppendGroups(compDir, files, patches, init), SourcePath(compDir, p);
            && Content(before, src) == Content(files, src)
            && (src in before && src !in files ==>
                  OutPath(compDir, k) in files || AnyExists(compDir, files, Members(patches, k)))
  {
    var src := SourcePath(compDir, p);
    if l :| l in init && OutPath(compDir, l) == src {
      assert Reads(compDir, patches, k, l);
      assert AsAlone(compDir, files, patches, AppendGroups(compDir, files, patches, init), l);
      hide SourcePath, OutPath, AppendGroup, Members;
      SilentGroup(compDir, OutPath(compDir, l), files, Members(patches, l));
      hide GivesText, AnyExists;
    } else {
      GroupsElsewhere(compDir, files, patches, init, src);
      hide SourcePath, OutPath, AppendGroup, Members, AnyExists;
    }
  }

  lemma NextIsAlone(compDir: string, files: Files, patches: seq<JsonPatch>, init: seq<string>, k: string)
    requires forall l | l in init :: AsAlone(compDir, files, patches, AppendGroups(compDir, files, patches, init), l)
    requires forall l | l in init :: !Depends(compDir, files, patches, k, l)
    requires forall l | l in init :: OutPath(compDir, l) != OutPath(compDir, k)
    ensures AsAlone(compDir, files, patches,
                    AppendGroup(compDir, OutPath(compDir, k), AppendGroups(compDir, files, patches, init),
                                Members(patches, k)), k)
  {
    hide SourcePath, OutPath, AppendGroup, Members, Depends;
    var before, out, ps := AppendGroups(compDir, files, patches, init), OutPath(compDir, k), Members(patches, k);
    forall p | p in ps
      ensures Content(before, SourcePath(compDir, p)) == Content(files, SourcePath(compDir, p))
      ensures SourcePath(compDir, p) in before && SourcePath(compDir, p) !in files ==>
                out in files || AnyExists(compDir, files, ps)
    {
      SourceIsAsBefore(compDir, files, patches, init, k, p);
    }
    GroupsElsewhere(compDir, files, patches, init, out);
    GroupsGrow(compDir, files, patches, init);
    GivenLater(compDir, files, before, ps);
    hide AppendGroups;
    AppendGroupAgrees(compDir, out, before, files, ps);
    AppendGroupAt(compDir, out, before, ps, out);
  }

  lemma SameFiles(compDir: string, files: Files, patches: seq<JsonPatch>, order: seq<string>, order': seq<string>)
    requires IsOrder(order, Keys(patches, GroupKey)) && IsOrder(order', Keys(patches, GroupKey))
    requires Apart(compDir, order) && Independent(compDir, files, patches, order)
    ensures AppendGroups(compDir, files, patches, order) == AppendGroups(compDir, files, patches, order')
  {
    hide OutPath, AppendGroups, Depends, GroupKey, Keys;
    var one, two := AppendGroups(compDir, files, patches, order), AppendGroups(compDir, files, patches, order');
    assert forall k :: k in order <==> k in order';
    forall path ensures SameAt(one, two, path) {
      if k :| k in order && OutPath(compDir, k) == path {
        IndependentIsAlone(compDir, files, patches, order, k);
        IndependentIsAlone(compDir, files, patches, order', k);
      } else {
        GroupsElsewhere(compDir, files, patches, order, path);
        GroupsElsewhere(compDir, files, patches, order', path);
      }
    }
    SameEverywhere(one, two);
  }

  // ----- dependent groups -----

  /** If k depends on l, visiting k first and visiting it last give different files. */
  lemma FirstOrLast(compDir: string, files: Files, patches: seq<JsonPatch>, more: seq<string>, k: string, l: string)
    requires l in more && Depends(compDir, files, patches, k, l)
    requires forall m | m in more :: OutPath(compDir, m) != OutPath(compDir, k)
    ensures AppendGroups(compDir, files, patches, [k] + more) != AppendGroups(compDir, files, patches, more + [k])
  {
    var out, ps := OutPath(compDir, k), Members(patches, k);
    var alone, others := AppendGroup(compDir, out, files, ps), AppendGroups(compDir, files, patches, more);
    var last := AppendGroup(compDir, out, others, ps);
    var p :| p in ps && SourcePath(compDir, p) == OutPath(compDir, l);
    hide SourcePath, OutPath, AppendGroup, Members;
    AppendGroupsCons(compDir, files, patches, k, more);
    AppendGroupsSnoc(compDir, files, patches, more, k);
    GroupsElsewhere(compDir, alone, patches, more, out);
    GroupsGrow(compDir, files, patches, more);
    GroupHasGiven(compDir, files, patches, more, l);
    AppendGroupGrows(compDir, out, files, others, ps);
    AppendGroupAt(compDir, out, files, ps, out);
    AppendGroupAt(compDir, out, others, ps, out);
    hide AppendGroups;
    if GivesText(compDir, files, Members(patches, l)) {
      assert |Content(alone, out)| < |Content(last, out)|;
    } else {
      assert AnyExists(compDir, others, ps);
      assert out in last && out !in alone;
    }
  }

  lemma MovedApart(a: seq<string>, k: string, b: seq<string>)
    requires NoDuplicates(a + [k] + b)
    ensures NoDuplicates([k] + (a + b)) && NoDuplicates(a + b + [k]) && k !in a + b
  {
    var all, more := a + [k] + b, a + b;
    assert all[|a|] == k;
    forall i | 0 <= i < |more| ensures more[i] == all[if i < |a| then i else i + 1] { }
  }

  lemma MoveKey(order: seq<string>, keys: set<string>, k: string) returns (more: seq<string>)
    requires IsOrder(order, keys) && k in order
    ensures IsOrder([k] + more, keys) && IsOrder(more + [k], keys) && k !in more
    ensures forall m :: m in more <==> m in order && m != k
  {
    var i :| 0 <= i < |order| && order[i] == k;
    var a, b := order[..i], order[i + 1..];
    assert order == a + [k] + b;
    MovedApart(a, k, b);
    hide NoDuplicates;
    more := a + b;
  }

  /** With patch files apart, the files do not depend on the map order if and only if no group depends on
      another one, that is, reads from the patch file of another group text that this group gives, or an
      empty file that it creates where only this makes the reading group create its own. */
  lemma OrderIsIrrelevantIff(compDir: string, files: Files, patches: seq<JsonPatch>, order: seq<string>)
    requires IsOrder(order, Keys(patches, GroupKey)) && Apart(compDir, order)
    ensures (forall order' | IsOrder(order', Keys(patches, GroupKey)) ::
               AppendGroups(compDir, files, patches, order') == AppendGroups(compDir, files, patches, order))
            <==> Independent(compDir, files, patches, order)
  {
    hide AppendGroups, Depends, GroupKey, Keys;
    if Independent(compDir, files, patches, order) {
      forall order' | IsOrder(order', Keys(patches, GroupKey))
        ensures AppendGroups(compDir, files, patches, order') == AppendGroups(compDir, files, patches, order)
      {
        SameFiles(compDir, files, patches, order, order');
      }
    } else {
      var k, l :| k in order && l in order && k != l && Depends(compDir, files, patches, k, l);
      var more := MoveKey(order, Keys(patches, GroupKey), k);
      FirstOrLast(compDir, files, patches, more, k, l);
    }
  }

  /** In particular the order is irrelevant if no patch file is read as a patch at all. */
  lemma SeparateIsIndependent(compDir: string, files: Files, patches: seq<JsonPatch>, order: seq<string>)
    requires Separate(compDir, patches, order)
    ensures Independent(compDir, files, patches, order)
  {
    hide SourcePath, OutPath, GivesText, Creates;
    forall k, l | k in order && l in order && k != l ensures !Depends(compDir, files, patches, k, l) {
      forall p | p in Members(patches, k) ensures p in patches { MembersMeans(patches, k, p); }
    }
  }

  /** Two patches of different groups of which the first is the patch file of the second one's group, as
      b-K.yaml for a and q.yaml with some text for b, both of kind K: the two orders give different files. */
  lemma OrderMatters(compDir: string, p: JsonPatch, q: JsonPatch, text: string)
    requires CleanDir(compDir) && SingleSegment(q.path) && text != ""
    requires SingleSegment(GroupKey(p) + ".yaml") && SingleSegment(GroupKey(q) + ".yaml")
    requires GroupKey(p) != GroupKey(q) && p.path == GroupKey(q) + ".yaml"
    ensures var files := map[compDir + "/" + q.path := text];
            AppendGroups(compDir, files, [p, q], [GroupKey(p), GroupKey(q)])
            != AppendGroups(compDir, files, [p, q], [GroupKey(q), GroupKey(p)])
  {
    hide GroupKey, AppendGroups, PathJoin, CleanDir, SingleSegment;
    SingleSegmentsAreApart(compDir, [GroupKey(p), GroupKey(q)]);
    FileIs(compDir, q.path);
    ReaderDepends(compDir, map[compDir + "/" + q.path := text], p, q);
  }

  lemma ReaderDepends(compDir: string, files: Files, p: JsonPatch, q: JsonPatch)
    requires OutPath(compDir, GroupKey(p)) != OutPath(compDir, GroupKey(q)) == SourcePath(compDir, p)
    requires Content(files, SourcePath(compDir, q)) != ""
    ensures AppendGroups(compDir, files, [p, q], [GroupKey(p), GroupKey(q)])
         != AppendGroups(compDir, files, [p, q], [GroupKey(q), GroupKey(p)])
  {
    hide OutPath, SourcePath, GroupKey, AppendGroups, Members;
    var k, l := GroupKey(p), GroupKey(q);
    MembersMeans([p, q], k, p);
    MembersMeans([p, q], l, q);
    FirstOrLast(compDir, files, [p, q], [l], k, l);
    assert [k] + [l] == [k, l] && [l] + [k] == [l, k];
  }
}
