/** What collecting images over a tree of kustomize directories amounts to, from the directories and the
    names in their files alone (pkg/mirror/mirror_image.go:149-259). */
module MirrorTree {
  import opened Strings
  import opened Kustomizations
  import opened Mirror

  /** Following package references by the positions in `chain` leads to a directory that lists the image. */
  predicate Leads(dir: Dir, chain: seq<nat>, x: Image)
    decreases |chain|
  {
    && dir.Dir?
    && if chain == [] then x in dir.images
       else chain[0] < |dir.packages| && Leads(dir.packages[chain[0]], chain[1..], x)
  }

  /** Some directory of the walk leads to the image. */
  ghost predicate LeadsFrom(walk: seq<Dir>, x: Image) {
    exists d, chain :: d in walk && Leads(d, chain, x)
  }

  /** Some chain from the directory does. */
  ghost predicate LeadsTo(dir: Dir, x: Image) {
    exists chain :: Leads(dir, chain, x)
  }

  lemma FirstReference(images: seq<Image>, packages: seq<Dir>, x: Image)
    ensures LeadsTo(Dir(images, packages), x) <==> x in images || LeadsFrom(packages, x)
  {
    var dir := Dir(images, packages);
    if chain :| Leads(dir, chain, x) {
      assert chain != [] ==> packages[chain[0]] in packages && Leads(packages[chain[0]], chain[1..], x);
    }
    if x in images {
      assert Leads(dir, [], x);
    }
    if d, chain :| d in packages && Leads(d, chain, x) {
      var i :| 0 <= i < |packages| && packages[i] == d;
      assert ([i] + chain)[1..] == chain && Leads(dir, [i] + chain, x);
    }
  }

  lemma LeadsFromSnoc(walk: seq<Dir>, last: Dir, x: Image)
    ensures LeadsFrom(walk + [last], x) <==> LeadsFrom(walk, x) || LeadsTo(last, x)
  {
    hide Leads;
    assert last in walk + [last];
    if chain :| Leads(last, chain, x) {
      assert LeadsFrom(walk + [last], x);
    }
  }

  /** An image is reached from a directory if and only if some chain of package references leads to it. */
  lemma {:induction false} ReachedIff(dir: Dir, x: Image)
    ensures x in Reached(dir) <==> LeadsTo(dir, x)
    decreases dir
  {
    if dir.Dir? {
      AllReachedIff(dir.packages, x);
      FirstReference(dir.images, dir.packages, x);
    }
  }

  /** And by a walk if and only if one of its directories leads to it. */
  lemma {:induction false} AllReachedIff(walk: seq<Dir>, x: Image)
    ensures x in AllReached(walk) <==> LeadsFrom(walk, x)
    decreases walk
  {
    if walk != [] {
      var init, last := walk[..|walk| - 1], walk[|walk| - 1];
      AllReachedIff(init, x);
      ReachedIff(last, x);
      LeadsFromSnoc(init, last, x);
      assert walk == init + [last];
      hide LeadsFrom, LeadsTo;
    }
  }

  lemma {:induction false} CollectOverrides(tasks: Tasks, p: Pattern, xs: seq<Image>)
    ensures Collect(tasks, p, xs) == tasks + Collect(map[], p, xs)
  {
    hide Selected, New, Old;
    if xs != [] {
      CollectOverrides(tasks, p, xs[..|xs| - 1]);
    }
  }

  /** Where images compete for one new name, the packages of a directory win over its own images, and a later
      package over an earlier one. */
  lemma LaterPackageWins(p: Pattern, images: seq<Image>, packages: seq<Dir>, last: Dir)
    ensures Collect(map[], p, Reached(Dir(images, []))) == Collect(map[], p, images)
    ensures Collect(map[], p, Reached(Dir(images, packages + [last])))
         == Collect(map[], p, Reached(Dir(images, packages))) + Collect(map[], p, Reached(last))
  {
    assert Reached(Dir(images, [])) == images + [] == images;
    ReachedSnoc(packages, last);
    assert images + (AllReached(packages) + Reached(last)) == images + AllReached(packages) + Reached(last);
    CollectConcat(map[], p, images + AllReached(packages), Reached(last));
    CollectOverrides(Collect(map[], p, images + AllReached(packages)), p, Reached(last));
    hide Collect;
  }

  /** The image is mirrored from `source` to `target`: its effective name has no parameter in it, the included
      prefix and not the excluded one, and just one of tag and digest is given. */
  predicate MirroredAs(p: Pattern, x: Image, target: string, source: string) {
    var name := if x.newName == "" then x.name else x.newName;
    && (forall c | c in name :: c != '$')
    && HasPrefix(name, p.included) && (p.excluded == "" || !HasPrefix(name, p.excluded))
    && if x.digest == "" then x.newTag != "" && target == p.registry + "/" + x.name + (":" + x.newTag)
                              && source == name + (":" + x.newTag)
       else x.newTag == "" && target == p.registry + "/" + x.name + ("@" + x.digest)
            && source == name + ("@" + x.digest)
  }

  lemma MirroredIsSelected(p: Pattern, x: Image, target: string, source: string)
    ensures MirroredAs(p, x, target, source) <==> Selected(p, x) && New(p, x) == target && Old(x) == source
  {
  }

  /** Every task of a walk is for an image that some chain of references leads to, and every such image that
      the pattern selects has one. */
  lemma TreeTasksMean(p: Pattern, walk: seq<Dir>, target: string, source: string, x: Image)
    ensures var tasks := Collect(map[], p, AllReached(walk));
            && (target in tasks ==> exists z :: LeadsFrom(walk, z) && MirroredAs(p, z, target, tasks[target]))
            && (LeadsFrom(walk, x) && MirroredAs(p, x, target, source) ==> target in tasks)
  {
    var xs := AllReached(walk);
    TasksMean(p, xs, target, x);
    AllReachedIff(walk, x);
    MirroredIsSelected(p, x, target, source);
    hide Collect, Selected, New, Old, LeadsFrom, MirroredAs;
    var tasks := Collect(map[], p, xs);
    if target in tasks {
      var z :| z in xs && Selected(p, z) && New(p, z) == target && Old(z) == tasks[target];
      AllReachedIff(walk, z);
      MirroredIsSelected(p, z, target, tasks[target]);
    }
  }

  /** Mirroring a walk and updating its files points every image that references lead to, and that the pattern
      selects, at the registry under its own name and tag, and leaves all others alone. */
  lemma TreeIsMirrored(p: Pattern, walk: seq<Dir>, keys: seq<string>, x: Image)
    requires Lists(keys, Collect(map[], p, AllReached(walk)))
    requires WellNamed(p, AllReached(walk)) && Mutual(p, AllReached(walk)) && LeadsFrom(walk, x)
    ensures var m := Inverse(Collect(map[], p, AllReached(walk)), keys);
            && CanCut(m)
            && Updated(m, x) == if exists target, source :: MirroredAs(p, x, target, source)
                                then x.(newName := p.registry + "/" + x.name) else x
  {
    AllReachedIff(walk, x);
    MirrorThenUpdate(p, AllReached(walk), keys, x);
    MirroredIsSelected(p, x, New(p, x), Old(x));
    if target, source :| MirroredAs(p, x, target, source) {
      MirroredIsSelected(p, x, target, source);
    }
    hide Collect, Inverse, Selected, New, Old, MirroredAs, Updated, LeadsFrom, Mutual, WellNamed;
  }
}
