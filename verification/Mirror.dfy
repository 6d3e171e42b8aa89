/** Mirroring the images of a kustomize tree to another registry: collecting replication tasks, and later pointing
    the tree at the mirrored images (pkg/mirror/mirror_image.go:149-244, 291-343). */
module Mirror {
  import opened Strings
  import opened Wrappers
  import opened Kustomizations

  /** A directory with the images of its kustomization and the local packages that it refers to,
      resources before bases; a directory without a kustomization is skipped. */
  datatype Dir = NoFile | Dir(images: seq<Image>, packages: seq<Dir>)

  /** Where to mirror to, and the prefixes that select images. */
  datatype Pattern = Pattern(registry: string, included: string, excluded: string)

  type Tasks = map<string, string>

  /** The images of a directory and of everything it refers to. */
  function Reached(dir: Dir): seq<Image>
    decreases dir
  {
    match dir
    case NoFile => []
    case Dir(images, packages) => images + AllReached(packages)
  }

  function AllReached(dirs: seq<Dir>): seq<Image>
    decreases dirs
  {
    if dirs == [] then [] else AllReached(dirs[..|dirs| - 1]) + Reached(dirs[|dirs| - 1])
  }

  function Current(x: Image): string {
    if x.newName != "" then x.newName else x.name
  }

  /** Exactly one of tag and digest is given. */
  predicate Pinned(x: Image) {
    (x.newTag == "") != (x.digest == "")
  }

  function Version(x: Image): string {
    if x.newTag != "" then ":" + x.newTag else "@" + x.digest
  }

  function Old(x: Image): string {
    Current(x) + Version(x)
  }

  function NewName(p: Pattern, x: Image): string {
    p.registry + "/" + x.name
  }

  function New(p: Pattern, x: Image): string {
    NewName(p, x) + Version(x)
  }

  predicate Selected(p: Pattern, x: Image) {
    && '$' !in Current(x)
    && !(p.excluded != "" && HasPrefix(Current(x), p.excluded))
    && !(p.included != "" && !HasPrefix(Current(x), p.included))
    && Pinned(x)
  }

  /** The tasks after looking at more images; a later image takes the place of an earlier one with
      the same new name. */
  function Collect(tasks: Tasks, p: Pattern, xs: seq<Image>): Tasks {
    if xs == [] then tasks
    else
      var before, x := Collect(tasks, p, xs[..|xs| - 1]), xs[|xs| - 1];
      if Selected(p, x) then before[New(p, x) := Old(x)] else before
  }

  lemma CollectSnoc(tasks: Tasks, p: Pattern, xs: seq<Image>, x: Image)
    ensures var before := Collect(tasks, p, xs);
            Collect(tasks, p, xs + [x]) == if Selected(p, x) then before[New(p, x) := Old(x)] else before
  {
    assert (xs + [x])[..|xs + [x]| - 1] == xs;
  }

  lemma {:induction false} CollectConcat(tasks: Tasks, p: Pattern, xs: seq<Image>, ys: seq<Image>)
    ensures Collect(tasks, p, xs + ys) == Collect(Collect(tasks, p, xs), p, ys)
    decreases |ys|
  {
    if ys == [] {
      assert xs + ys == xs;
    } else {
      var n := |ys| - 1;
      CollectConcat(tasks, p, xs, ys[..n]);
      assert xs + ys == (xs + ys[..n]) + [ys[n]];
      CollectSnoc(tasks, p, xs + ys[..n], ys[n]);
    }
  }

  lemma ReachedSnoc(dirs: seq<Dir>, dir: Dir)
    ensures AllReached(dirs + [dir]) == AllReached(dirs) + Reached(dir)
  {
    assert (dirs + [dir])[..|dirs + [dir]| - 1] == dirs;
  }

  class ReplicateTasks {
    var tasks: Tasks

    constructor ()
      ensures tasks == map[]
    {
      tasks := map[];
    }

    method AddImage(p: Pattern, x: Image)
      modifies this
      ensures tasks == Collect(old(tasks), p, [x])
    {
      CollectSnoc(tasks, p, [], x);
      assert [] + [x] == [x];
      var curName := x.name;
      if x.newName != "" {
        curName := x.newName;
      }
      if '$' in curName {
        return;
      }
      if p.excluded != "" && HasPrefix(curName, p.excluded) {
        return;
      }
      if p.included != "" && !HasPrefix(curName, p.included) {
        return;
      }
      var newName := p.registry + "/" + x.name;
      if (x.newTag == "") == (x.digest == "") {
        return;
      }
      if x.newTag != "" {
        tasks := tasks[newName + (":" + x.newTag) := curName + (":" + x.newTag)];
      }
      if x.digest != "" {
        tasks := tasks[newName + ("@" + x.digest) := curName + ("@" + x.digest)];
      }
    }

    /** Collects the images of a directory, then of the packages it refers to, and so on. */
    method ProcessKustomizeDir(dir: Dir, p: Pattern)
      modifies this
      ensures tasks == Collect(old(tasks), p, Reached(dir))
      decreases dir
    {
      hide Collect;
      if dir.NoFile? {
        NothingToCollect(tasks, p);
        return;
      }
      ghost var done: seq<Image> := [];
      NothingToCollect(tasks, p);
      for i := 0 to |dir.images|
        invariant done == dir.images[..i] && tasks == Collect(old(tasks), p, done)
      {
        AddImage(p, dir.images[i]);
        CollectConcat(old(tasks), p, done, [dir.images[i]]);
        done := done + [dir.images[i]];
      }
      ghost var before: seq<Dir> := [];
      assert done == dir.images && done == done + AllReached(before);
      for i := 0 to |dir.packages|
        invariant before == dir.packages[..i]
        invariant tasks == Collect(old(tasks), p, dir.images + AllReached(before))
      {
        ProcessKustomizeDir(dir.packages[i], p);
        CollectConcat(old(tasks), p, dir.images + AllReached(before), Reached(dir.packages[i]));
        ReachedSnoc(before, dir.packages[i]);
        assert dir.images + AllReached(before) + Reached(dir.packages[i])
            == dir.images + (AllReached(before) + Reached(dir.packages[i]));
        before := before + [dir.packages[i]];
      }
      assert before == dir.packages;
    }

    /** Does so for every directory below the starting point. */
    method FillTasks(walk: seq<Dir>, p: Pattern)
      modifies this
      ensures tasks == Collect(old(tasks), p, AllReached(walk))
    {
      hide Collect;
      NothingToCollect(tasks, p);
      ghost var before: seq<Dir> := [];
      for i := 0 to |walk|
        invariant before == walk[..i] && tasks == Collect(old(tasks), p, AllReached(before))
      {
        ProcessKustomizeDir(walk[i], p);
        CollectConcat(old(tasks), p, AllReached(before), Reached(walk[i]));
        ReachedSnoc(before, walk[i]);
        before := before + [walk[i]];
      }
      assert before == walk;
    }

    /** The keys in ascending order. */
    method OrderedKeys() returns (keys: seq<string>)
      ensures Ascending(keys) && forall k :: k in keys <==> k in tasks
    {
      keys := [];
      var rest := tasks.Keys;
      while rest != {}
        invariant rest <= tasks.Keys && Ascending(keys) && forall k :: k in keys <==> k in tasks && k !in rest
        decreases |rest|
      {
        var k :| k in rest;
        keys := Insert(keys, k);
        rest := rest - {k};
      }
    }
  }

  lemma NothingToCollect(tasks: Tasks, p: Pattern)
    ensures Collect(tasks, p, []) == tasks
  {
  }

  predicate Ascending(keys: seq<string>) {
    forall i, j | 0 <= i < j < |keys| :: Less(keys[i], keys[j])
  }

  method Insert(keys: seq<string>, k: string) returns (r: seq<string>)
    requires Ascending(keys) && k !in keys
    ensures Ascending(r) && forall l :: l in r <==> l in keys || l == k
  {
    var i := 0;
    while i < |keys| && Less(keys[i], k)
      invariant 0 <= i <= |keys| && forall j | 0 <= j < i :: Less(keys[j], k)
    {
      i := i + 1;
    }
    forall j | i <= j < |keys| ensures Less(k, keys[j]) {
      LessTrichotomy(keys[i], k);
      if i < j {
        LessTransitive(k, keys[i], keys[j]);
      }
    }
    r := keys[..i] + [k] + keys[i..];
    assert keys == keys[..i] + keys[i..];
    hide Less;
  }

  // ----- pointing the tree at the mirror -----

  /** The mapping from old to new images, read off in the order of the keys; a later key with the same
      old image wins. */
  function Inverse(tasks: Tasks, keys: seq<string>): map<string, string>
    requires forall k | k in keys :: k in tasks
  {
    if keys == [] then map[]
    else
      var k := keys[|keys| - 1];
      assert k in keys;
      Inverse(tasks, keys[..|keys| - 1])[tasks[k] := k]
  }

  method BuildMapping(tasks: Tasks, keys: seq<string>) returns (mapping: map<string, string>)
    requires forall k | k in keys :: k in tasks
    ensures mapping == Inverse(tasks, keys)
  {
    mapping := map[];
    for i := 0 to |keys|
      invariant mapping == Inverse(tasks, keys[..i])
    {
      assert keys[..i + 1][..i] == keys[..i];
      assert keys[i] in keys;
      mapping := mapping[tasks[keys[i]] := keys[i]];
    }
    assert keys[..|keys|] == keys;
  }

  /** Go's `strings.Index` of a character. */
  function Index(s: string, c: char): (i: int)
    ensures -1 <= i < |s|
    ensures i >= 0 ==> s[i] == c && forall j | 0 <= j < i :: s[j] != c
    ensures i < 0 <==> c !in s
  {
    if s == "" then -1
    else if s[0] == c then 0
    else
      var i := Index(s[1..], c);
      if i < 0 then -1 else i + 1
  }

  /** What the update cuts off: everything from the first colon on, or else from the first at-sign. */
  function Cut(newImg: string): string
    requires ':' in newImg || '@' in newImg
  {
    if ':' in newImg then newImg[..Index(newImg, ':')] else newImg[..Index(newImg, '@')]
  }

  predicate CanCut(mapping: map<string, string>) {
    forall o | o in mapping :: ':' in mapping[o] || '@' in mapping[o]
  }

  predicate Redirected(mapping: map<string, string>, x: Image) {
    Pinned(x) && Old(x) in mapping
  }

  function Updated(mapping: map<string, string>, x: Image): Image
    requires CanCut(mapping)
  {
    if Redirected(mapping, x) then x.(newName := Cut(mapping[Old(x)])) else x
  }

  /** The new name that the mapping has for an image. */
  method MirroredName(mapping: map<string, string>, image: Image) returns (newName: Option<string>)
    requires CanCut(mapping)
    ensures newName == if Redirected(mapping, image) then Some(Cut(mapping[Old(image)])) else None
  {
    if (image.newTag == "") == (image.digest == "") {
      return None;
    }
    var curName := if image.newName != "" then image.newName else image.name;
    if image.newTag != "" {
      curName := curName + (":" + image.newTag);
    }
    if image.digest != "" {
      curName := curName + ("@" + image.digest);
    }
    if curName !in mapping {
      return None;
    }
    var newImg := mapping[curName];
    var idx := Index(newImg, ':');
    if idx == -1 {
      idx := Index(newImg, '@');
    }
    return Some(newImg[..idx]);
  }

  /** The images of one kustomization file, which is written again if one of them is updated. */
  method UpdateImages(mapping: map<string, string>, images: seq<Image>) returns (r: seq<Image>, rewrite: bool)
    requires CanCut(mapping)
    ensures |r| == |images| && forall i | 0 <= i < |images| :: r[i] == Updated(mapping, images[i])
    ensures rewrite <==> exists x :: x in images && Redirected(mapping, x)
    ensures !rewrite ==> r == images
  {
    hide Redirected;
    r, rewrite := images, false;
    for i := 0 to |images|
      invariant |r| == |images| && forall j | 0 <= j < i :: r[j] == Updated(mapping, images[j])
      invariant forall j | i <= j < |images| :: r[j] == images[j]
      invariant rewrite <==> exists j :: 0 <= j < i && Redirected(mapping, images[j])
      invariant !rewrite ==> r == images
    {
      var newName := MirroredName(mapping, images[i]);
      if newName.Some? {
        r := r[i := images[i].(newName := newName.value)];
        rewrite := true;
      }
    }
  }

  // ----- tasks and mapping -----

  /** Every task stands for a selected image, and every selected image has one. */
  lemma {:induction false} TasksMean(p: Pattern, xs: seq<Image>, key: string, x: Image)
    ensures var tasks := Collect(map[], p, xs);
            && (key in tasks ==> exists z :: z in xs && Selected(p, z) && New(p, z) == key && Old(z) == tasks[key])
            && (x in xs && Selected(p, x) ==> New(p, x) in tasks)
  {
    hide Selected, New, Old;
    if xs != [] {
      var init, last := xs[..|xs| - 1], xs[|xs| - 1];
      assert xs == init + [last] && last in xs;
      TasksMean(p, init, key, x);
      CollectSnoc(map[], p, init, last);
      if z :| z in init && Selected(p, z) && New(p, z) == key && key in Collect(map[], p, init)
              && Old(z) == Collect(map[], p, init)[key] {
        assert z in xs;
      }
    }
  }

  /** The mapping takes an old image to one of its tasks. */
  lemma {:induction false} InverseMeans(tasks: Tasks, keys: seq<string>, old': string, key: string)
    requires forall k | k in keys :: k in tasks
    ensures var m := Inverse(tasks, keys);
            && (old' in m ==> m[old'] in keys && tasks[m[old']] == old')
            && (key in keys ==> tasks[key] in m)
  {
    if keys != [] {
      var init, last := keys[..|keys| - 1], keys[|keys| - 1];
      assert keys == init + [last] && last in keys;
      InverseMeans(tasks, init, old', key);
    }
  }

  /** Of several tasks for one old image the one whose key comes last decides. */
  lemma {:induction false} LaterKeyWins(tasks: Tasks, keys: seq<string>, i: nat)
    requires (forall k | k in keys :: k in tasks) && i < |keys|
    requires forall j | i < j < |keys| :: tasks[keys[j]] != tasks[keys[i]]
    ensures tasks[keys[i]] in Inverse(tasks, keys) && Inverse(tasks, keys)[tasks[keys[i]]] == keys[i]
  {
    var n := |keys| - 1;
    assert keys[n] in keys && keys[i] in keys && forall k | k in keys[..n] :: k in keys;
    if i < n {
      LaterKeyWins(tasks, keys[..n], i);
    }
  }

  /** Old and new image determine each other among the selected images. */
  ghost predicate Mutual(p: Pattern, xs: seq<Image>) {
    forall x, y | x in xs && y in xs && Selected(p, x) && Selected(p, y) :: Old(x) == Old(y) <==> New(p, x) == New(p, y)
  }

  /** All tasks, each once, in some order. */
  ghost predicate Lists(keys: seq<string>, tasks: Tasks) {
    forall k :: k in keys <==> k in tasks
  }

  /** Where the mapping takes a selected image. */
  lemma MappedTo(p: Pattern, xs: seq<Image>, keys: seq<string>, o: string) returns (z: Image)
    requires var tasks := Collect(map[], p, xs);
             Lists(keys, tasks) && o in Inverse(tasks, keys)
    ensures var tasks := Collect(map[], p, xs);
            var key := Inverse(tasks, keys)[o];
            && z in xs && Selected(p, z) && New(p, z) == key && Old(z) == o
            && key in tasks && tasks[key] == o
  {
    var tasks := Collect(map[], p, xs);
    InverseMeans(tasks, keys, o, "");
    hide Selected, New, Old;
    var key := Inverse(tasks, keys)[o];
    if xs != [] {
      TasksMean(p, xs, key, xs[0]);
    }
    z :| z in xs && Selected(p, z) && New(p, z) == key && Old(z) == tasks[key];
  }

  lemma SelectedIsMapped(p: Pattern, xs: seq<Image>, keys: seq<string>, x: Image)
    requires Lists(keys, Collect(map[], p, xs)) && Mutual(p, xs) && x in xs && Selected(p, x)
    ensures var m := Inverse(Collect(map[], p, xs), keys);
            Old(x) in m && m[Old(x)] == New(p, x)
  {
    var tasks := Collect(map[], p, xs);
    TasksMean(p, xs, New(p, x), x);
    InverseMeans(tasks, keys, Old(x), New(p, x));
    hide Selected, New, Old;
    var z := MappedTo(p, xs, keys, Old(x));
  }

  // ----- names without separators -----

  predicate Separator(c: char) {
    c == ':' || c == '@'
  }

  predicate Bare(s: string) {
    forall c | c in s :: !Separator(c)
  }

  /** A bare name followed by a separator is read off uniquely. */
  lemma BareNameIsUnique(a: string, s: string, b: string, t: string)
    requires Bare(a) && Bare(b) && s != "" && t != "" && Separator(s[0]) && Separator(t[0]) && a + s == b + t
    ensures a == b && s == t
  {
    assert (a + s)[|a|] == s[0] && (b + t)[|b|] == t[0];
    assert forall i | 0 <= i < |a| :: (a + s)[i] in a;
    assert forall i | 0 <= i < |b| :: (b + t)[i] in b;
    assert (a + s)[|a|..] == s && (b + t)[|b|..] == t;
    assert (a + s)[..|a|] == a && (b + t)[..|b|] == b;
  }

  lemma ColonFreeNameIsUnique(a: string, s: string, b: string, t: string)
    requires ':' !in a && ':' !in b && a + (":" + s) == b + (":" + t)
    ensures a == b && s == t
  {
    var u, v := a + (":" + s), b + (":" + t);
    assert u[|a|] == ':' && v[|b|] == ':';
    assert forall i | 0 <= i < |a| :: u[i] in a;
    assert forall i | 0 <= i < |b| :: v[i] in b;
    assert u[..|a|] == a && v[..|b|] == b && u[|a| + 1..] == s && v[|b| + 1..] == t;
  }

  /** Cutting the version off gives the name back if and only if, for a tag, the name has no colon, and,
      for a digest, there is no colon at all and no at-sign in the name. */
  lemma CutRestoresIff(name: string, x: Image)
    requires Pinned(x)
    ensures ':' in name + Version(x) || '@' in name + Version(x)
    ensures Cut(name + Version(x)) == name
            <==> if x.newTag != "" then ':' !in name else ':' !in name && ':' !in x.digest && '@' !in name
  {
    var s := name + Version(x);
    assert s[|name|] == Version(x)[0] && s[..|name|] == name && s[|name|] in s;
    assert forall c :: c in s <==> c in name || c in Version(x);
    assert forall i | 0 <= i < |name| :: s[i] == name[i];
  }

  /** What the theorem asks of the images of the walked directories: tags rather than digests on selected
      images, effective names without separators, and new names without a colon. */
  ghost predicate WellNamed(p: Pattern, xs: seq<Image>) {
    forall x | x in xs ::
      && (Pinned(x) ==> Bare(Current(x)))
      && (Selected(p, x) ==> x.digest == "" && ':' !in NewName(p, x))
  }

  /** An image with the old image of a selected one is selected, and has the same tag. */
  lemma OldDetermines(p: Pattern, xs: seq<Image>, x: Image, y: Image)
    requires WellNamed(p, xs) && x in xs && y in xs && Selected(p, x) && Pinned(y) && Old(x) == Old(y)
    ensures Selected(p, y) && Current(x) == Current(y) && x.newTag == y.newTag
  {
    BareNameIsUnique(Current(x), Version(x), Current(y), Version(y));
    assert Version(x)[1..] == x.newTag;
    assert y.newTag != "" ==> Version(y)[1..] == y.newTag;
  }

  /** After mirroring and updating, a selected image points at its mirror under its own tag, and any other
      image is as it was. */
  predicate Pointed(p: Pattern, m: map<string, string>, x: Image)
    requires CanCut(m)
  {
    Updated(m, x) == if Selected(p, x) then x.(newName := NewName(p, x)) else x
  }

  lemma MappingCanCut(p: Pattern, xs: seq<Image>, keys: seq<string>)
    requires Lists(keys, Collect(map[], p, xs))
    ensures CanCut(Inverse(Collect(map[], p, xs), keys))
  {
    var m := Inverse(Collect(map[], p, xs), keys);
    forall o | o in m ensures ':' in m[o] || '@' in m[o] {
      var z := MappedTo(p, xs, keys, o);
      CutRestoresIff(NewName(p, z), z);
    }
  }

  /** Only images with the old image of a selected one are touched. */
  lemma UnselectedIsUntouched(p: Pattern, xs: seq<Image>, keys: seq<string>, x: Image)
    requires Lists(keys, Collect(map[], p, xs)) && WellNamed(p, xs) && x in xs && !Selected(p, x)
    requires CanCut(Inverse(Collect(map[], p, xs), keys))
    ensures Updated(Inverse(Collect(map[], p, xs), keys), x) == x
  {
    hide Collect, Inverse, Cut, Selected, WellNamed;
    if Pinned(x) && Old(x) in Inverse(Collect(map[], p, xs), keys) {
      var z := MappedTo(p, xs, keys, Old(x));
      OldDetermines(p, xs, z, x);
      assert false;
    }
  }

  /** Mirroring and updating is an inverse on well-named images: if old and new image determine each
      other among the selected ones, every selected image ends up pointing at its mirror with its tag
      unchanged and every other image is untouched, whatever the order of the keys. */
  lemma MirrorThenUpdate(p: Pattern, xs: seq<Image>, keys: seq<string>, x: Image)
    requires Lists(keys, Collect(map[], p, xs)) && WellNamed(p, xs) && Mutual(p, xs) && x in xs
    ensures CanCut(Inverse(Collect(map[], p, xs), keys))
    ensures Pointed(p, Inverse(Collect(map[], p, xs), keys), x)
  {
    MappingCanCut(p, xs, keys);
    if Selected(p, x) {
      SelectedIsMapped(p, xs, keys, x);
      CutRestoresIff(NewName(p, x), x);
    } else {
      UnselectedIsUntouched(p, xs, keys, x);
    }
    hide Collect, Inverse, Cut, Mutual, Index;
  }

  /** A selected image that does not point at its mirror yet, but does after the update, was taken there
      by its own task. */
  lemma PointedMeansMapped(p: Pattern, xs: seq<Image>, keys: seq<string>, x: Image)
    requires Lists(keys, Collect(map[], p, xs)) && WellNamed(p, xs) && x in xs && Selected(p, x)
    requires CanCut(Inverse(Collect(map[], p, xs), keys)) && Pointed(p, Inverse(Collect(map[], p, xs), keys), x)
    requires x.newName != NewName(p, x)
    ensures var tasks := Collect(map[], p, xs);
            && Old(x) in Inverse(tasks, keys) && Inverse(tasks, keys)[Old(x)] == New(p, x)
            && New(p, x) in tasks && tasks[New(p, x)] == Old(x)
  {
    hide Collect, Inverse, Index, Cut;
    var z := MappedTo(p, xs, keys, Old(x));
    OldDetermines(p, xs, x, z);
    CutRestoresIff(NewName(p, z), z);
  }

  /** For well-named images none of which points at its mirror yet, mirroring and updating does what it
      should for all of them if and only if old and new image determine each other. */
  lemma MirrorThenUpdateIff(p: Pattern, xs: seq<Image>, keys: seq<string>)
    requires Lists(keys, Collect(map[], p, xs)) && WellNamed(p, xs)
    requires forall x | x in xs && Selected(p, x) :: x.newName != NewName(p, x)
    ensures CanCut(Inverse(Collect(map[], p, xs), keys))
    ensures (forall x | x in xs :: Pointed(p, Inverse(Collect(map[], p, xs), keys), x)) <==> Mutual(p, xs)
  {
    MappingCanCut(p, xs, keys);
    hide Collect, Inverse, Selected, New, Old, Pointed, WellNamed;
    if Mutual(p, xs) {
      forall x | x in xs ensures Pointed(p, Inverse(Collect(map[], p, xs), keys), x) {
        MirrorThenUpdate(p, xs, keys, x);
      }
    }
    if forall x | x in xs :: Pointed(p, Inverse(Collect(map[], p, xs), keys), x) {
      forall x, y | x in xs && y in xs && Selected(p, x) && Selected(p, y)
        ensures Old(x) == Old(y) <==> New(p, x) == New(p, y)
      {
        PointedMeansMapped(p, xs, keys, x);
        PointedMeansMapped(p, xs, keys, y);
      }
    }
  }

  /** For well-named images the condition can be read off names and tags. */
  lemma MutualByNamesAndTags(p: Pattern, xs: seq<Image>, x: Image, y: Image)
    requires WellNamed(p, xs) && x in xs && y in xs && Selected(p, x) && Selected(p, y)
    ensures Old(x) == Old(y) <==> Current(x) == Current(y) && x.newTag == y.newTag
    ensures New(p, x) == New(p, y) <==> x.name == y.name && x.newTag == y.newTag
  {
    if Old(x) == Old(y) {
      OldDetermines(p, xs, x, y);
    }
    if New(p, x) == New(p, y) {
      ColonFreeNameIsUnique(NewName(p, x), x.newTag, NewName(p, y), y.newTag);
      assert NewName(p, x)[|p.registry| + 1..] == x.name && NewName(p, y)[|p.registry| + 1..] == y.name;
    }
  }

  /** Two images that share one old image: their one entry in the mapping leads to the mirror of one. */
  lemma SharedImageIsMisdirected(keys: seq<string>)
    requires Lists(keys, Collect(map[], Pattern("m", "", ""), [Image("a", "c", "1", ""), Image("b", "c", "1", "")]))
    ensures var p, x, y := Pattern("m", "", ""), Image("a", "c", "1", ""), Image("b", "c", "1", "");
            var m := Inverse(Collect(map[], p, [x, y]), keys);
            && Selected(p, x) && Selected(p, y) && CanCut(m)
            && !(Pointed(p, m, x) && Pointed(p, m, y))
  {
    var p, x, y := Pattern("m", "", ""), Image("a", "c", "1", ""), Image("b", "c", "1", "");
    MappingCanCut(p, [x, y], keys);
    hide Collect, Inverse;
    assert Old(x) == Old(y) && NewName(p, x)[2] != NewName(p, y)[2];
  }
}
