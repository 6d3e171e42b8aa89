/** Lists that keep the first element of every key, and the indexed loop that builds them. */
module FirstOccurrence {

  ghost function Keys<T>(xs: seq<T>, key: T -> string): set<string> {
    set x | x in xs :: key(x)
  }

  /** Drops an element if it asks to occur only once and its key has occurred before. */
  ghost function Firsts<T>(xs: seq<T>, key: T -> string, once: T -> bool): seq<T> {
    if xs == [] then []
    else
      var init, last := xs[..|xs| - 1], xs[|xs| - 1];
      Firsts(init, key, once) + (if once(last) && key(last) in Keys(init, key) then [] else [last])
  }

  function Always<T>(x: T): bool { true }

  lemma KeysSnoc<T>(xs: seq<T>, x: T, key: T -> string)
    ensures Keys(xs + [x], key) == Keys(xs, key) + {key(x)}
  {
  }

  lemma {:induction false} FirstsHaveAllKeys<T>(xs: seq<T>, key: T -> string, once: T -> bool)
    ensures Keys(Firsts(xs, key, once), key) == Keys(xs, key)
  {
    if xs != [] {
      var init, last := xs[..|xs| - 1], xs[|xs| - 1];
      FirstsHaveAllKeys(init, key, once);
      assert xs == init + [last];
      KeysSnoc(init, last, key);
      KeysSnoc(Firsts(init, key, once), last, key);
      assert Firsts(init, key, once) + [] == Firsts(init, key, once);
    }
  }

  lemma FirstsSnoc<T>(xs: seq<T>, x: T, key: T -> string, once: T -> bool)
    ensures Firsts(xs + [x], key, once)
         == if once(x) && key(x) in Keys(xs, key) then Firsts(xs, key, once) else Firsts(xs, key, once) + [x]
  {
    assert (xs + [x])[..|xs + [x]| - 1] == xs;
    assert Firsts(xs, key, once) + [] == Firsts(xs, key, once);
  }

  ghost predicate UniqueKeys<T>(xs: seq<T>, key: T -> string) {
    forall i, j | 0 <= i < j < |xs| :: key(xs[i]) != key(xs[j])
  }

  /** With every element occurring once, no key is repeated. */
  lemma {:induction false} FirstsAreUnique<T>(xs: seq<T>, key: T -> string)
    ensures UniqueKeys(Firsts(xs, key, Always), key)
  {
    if xs != [] {
      var init, last := xs[..|xs| - 1], xs[|xs| - 1];
      FirstsAreUnique(init, key);
      FirstsHaveAllKeys(init, key, Always);
      var kept := Firsts(init, key, Always);
      assert forall x | x in kept :: key(x) in Keys(kept, key);
    }
  }

  /** xs[i] is the first of its key. */
  ghost predicate IsFirst<T>(xs: seq<T>, key: T -> string, i: int) {
    0 <= i < |xs| && forall j | 0 <= j < i :: key(xs[j]) != key(xs[i])
  }

  lemma IsFirstSnoc<T>(init: seq<T>, last: T, key: T -> string, i: int)
    ensures IsFirst(init + [last], key, i)
            <==> IsFirst(init, key, i) || (i == |init| && key(last) !in Keys(init, key))
  {
    var xs := init + [last];
    assert forall j | 0 <= j < |init| :: xs[j] == init[j];
  }

  ghost predicate OccursFirst<T>(xs: seq<T>, key: T -> string, x: T) {
    exists i :: IsFirst(xs, key, i) && xs[i] == x
  }

  lemma OccursFirstSnoc<T>(init: seq<T>, last: T, key: T -> string, x: T)
    ensures OccursFirst(init + [last], key, x)
            <==> OccursFirst(init, key, x) || (x == last && key(last) !in Keys(init, key))
  {
    var xs := init + [last];
    forall i { IsFirstSnoc(init, last, key, i); }
    if i :| IsFirst(init, key, i) && init[i] == x {
      assert IsFirst(xs, key, i) && xs[i] == x;
    }
    if x == last && key(last) !in Keys(init, key) {
      assert IsFirst(xs, key, |init|) && xs[|init|] == x;
    }
  }

  /** The result is made of exactly the first occurrences. */
  lemma {:induction false} FirstsMeans<T>(xs: seq<T>, key: T -> string, x: T)
    ensures x in Firsts(xs, key, Always) <==> OccursFirst(xs, key, x)
  {
    if xs != [] {
      var init, last := xs[..|xs| - 1], xs[|xs| - 1];
      FirstsMeans(init, key, x);
      assert xs == init + [last];
      OccursFirstSnoc(init, last, key, x);
    }
  }

  /** A longer list only adds at the end, so elements keep the order of their first occurrences. */
  lemma {:induction false} FirstsPrefix<T>(xs: seq<T>, ys: seq<T>, key: T -> string, once: T -> bool)
    ensures Firsts(xs, key, once) <= Firsts(xs + ys, key, once)
  {
    if ys == [] {
      assert xs + ys == xs;
    } else {
      var n := |ys| - 1;
      FirstsPrefix(xs, ys[..n], key, once);
      assert xs + ys == xs + ys[..n] + [ys[n]];
      FirstsSnoc(xs + ys[..n], ys[n], key, once);
    }
  }

  // ----- a list with its index -----

  /** A list of the parent together with the index map of its keys. */
  datatype Table<T> = Table(list: seq<T>, index: set<string>)

  /** An element that asks to occur once is passed over if its key is indexed; any other is appended
      and indexed. */
  function Put<T>(t: Table<T>, x: T, key: T -> string, once: T -> bool): Table<T> {
    if once(x) && key(x) in t.index then t else Table(t.list + [x], t.index + {key(x)})
  }

  function PutAll<T>(t: Table<T>, xs: seq<T>, key: T -> string, once: T -> bool): Table<T> {
    if xs == [] then t else Put(PutAll(t, xs[..|xs| - 1], key, once), xs[|xs| - 1], key, once)
  }

  /** The loop of the merge over one list of a file. */
  method PutEach<T>(t: Table<T>, items: seq<T>, key: T -> string, once: T -> bool) returns (r: Table<T>)
    ensures r == PutAll(t, items, key, once)
  {
    r := t;
    for i := 0 to |items|
      invariant r == PutAll(t, items[..i], key, once)
    {
      assert items[..i + 1][..i] == items[..i];
      if !once(items[i]) || key(items[i]) !in r.index {
        r := Table(r.list + [items[i]], r.index + {key(items[i])});
      }
    }
    assert items[..|items|] == items;
  }

  /** The first occurrences of `xs`, indexed. */
  ghost function FirstTable<T>(xs: seq<T>, key: T -> string, once: T -> bool): Table<T> {
    Table(Firsts(xs, key, once), Keys(xs, key))
  }

  /** Putting elements into the table of some list gives the table of the longer list. */
  lemma {:induction false} PutAllExtends<T>(xs: seq<T>, items: seq<T>, key: T -> string, once: T -> bool)
    ensures PutAll(FirstTable(xs, key, once), items, key, once) == FirstTable(xs + items, key, once)
    decreases |items|
  {
    if items == [] {
      assert xs + items == xs;
    } else {
      var init, last := items[..|items| - 1], items[|items| - 1];
      PutAllExtends(xs, init, key, once);
      FirstsSnoc(xs + init, last, key, once);
      KeysSnoc(xs + init, last, key);
      assert xs + items == xs + init + [last];
      if key(last) in Keys(xs + init, key) {
        assert Keys(xs + init, key) + {key(last)} == Keys(xs + init, key);
      }
    }
  }
}
