/** The in-place sort of resources by kind (pkg/utils/kindsorter.go). */
module KindSorting {
  import opened KindOrder

  /** A manifest; `body` stands for everything but the kind. */
  datatype Resource = Resource(kind: string, body: string)

  function Kinds(rs: seq<Resource>): (ks: seq<string>)
    ensures |ks| == |rs| && forall i | 0 <= i < |rs| :: ks[i] == rs[i].kind
  {
    seq(|rs|, i requires 0 <= i < |rs| => rs[i].kind)
  }

  function KindSet(rs: seq<Resource>): set<string> {
    set r | r in rs :: r.kind
  }

  class KindSorter {
    const ordering: map<string, nat>
    const resources: array<Resource>

    constructor (r: array<Resource>, s: SortOrder)
      ensures resources == r && ordering == Ranking(s)
    {
      var o: map<string, nat> := map[];
      var v := 0;
      while v < |s|
        invariant 0 <= v <= |s| && o == Ranking(s[..v])
      {
        assert s[..v + 1][..v] == s[..v];
        o := o[s[v] := v];
        v := v + 1;
      }
      assert s[..|s|] == s;
      ordering := o;
      resources := r;
    }

    function Len(): nat { resources.Length }

    method Swap(i: nat, j: nat)
      requires i < Len() && j < Len()
      modifies resources
      ensures resources[..] == old(resources[..])[i := old(resources[j])][j := old(resources[i])]
      ensures multiset(resources[..]) == old(multiset(resources[..]))
    {
      resources[i], resources[j] := resources[j], resources[i];
    }

    predicate Less(i: nat, j: nat)
      requires i < Len() && j < Len()
      reads resources
    {
      KindLess(ordering, resources[i].kind, resources[j].kind)
    }

    /** No element is less than one before it, leaving out position `hole`. */
    ghost predicate SortedExcept(end: nat, hole: nat)
      requires end <= Len()
      reads resources
    {
      forall p, q | 0 <= p < q < end && q != hole :: !KindLess(ordering, resources[q].kind, resources[p].kind)
    }

    /** The insertion sort of Go's package sort, which touches the data through Less and Swap only. */
    method Sort()
      modifies resources
      ensures multiset(resources[..]) == old(multiset(resources[..]))
      ensures Transitive(ordering, old(KindSet(resources[..]))) <==> Sorted(ordering, Kinds(resources[..]))
    {
      ghost var order := Transitive(ordering, KindSet(resources[..]));
      for i := 0 to Len()
        invariant multiset(resources[..]) == old(multiset(resources[..]))
        invariant order ==> SortedExcept(i, i)
      {
        var j := i;
        while j > 0 && Less(j, j - 1)
          invariant 0 <= j <= i < Len()
          invariant multiset(resources[..]) == old(multiset(resources[..]))
          invariant order ==> SortedExcept(i + 1, j)
        {
          KindLessTrichotomy(ordering, resources[j].kind, resources[j - 1].kind);
          Swap(j, j - 1);
          j := j - 1;
        }
        if order {
          SameKinds(old(resources[..]), resources[..]);
          NoLessBelow(j, i + 1);
        }
      }
      SameKinds(old(resources[..]), resources[..]);
      KindsAreSet(resources[..]);
      if Sorted(ordering, Kinds(resources[..])) {
        SortedIsTransitive(ordering, Kinds(resources[..]));
      }
    }

    /** At the end of the inner loop the moved element has found its place. */
    lemma NoLessBelow(j: nat, end: nat)
      requires j < end <= Len() && Transitive(ordering, KindSet(resources[..])) && SortedExcept(end, j)
      requires j == 0 || !Less(j, j - 1)
      ensures SortedExcept(end, end)
    {
      forall p | 0 <= p < j ensures !KindLess(ordering, resources[j].kind, resources[p].kind) {
        var a, b, c := resources[j].kind, resources[j - 1].kind, resources[p].kind;
        assert resources[j] in resources[..] && resources[j - 1] in resources[..] && resources[p] in resources[..];
        KindLessTrichotomy(ordering, a, b);
        KindLessTrichotomy(ordering, b, c);
      }
    }
  }

  lemma KindsAreSet(xs: seq<Resource>)
    ensures KindSet(xs) == set k | k in Kinds(xs)
  {
    forall r | r in xs ensures r.kind in Kinds(xs) {
      var i :| 0 <= i < |xs| && xs[i] == r;
      assert Kinds(xs)[i] == r.kind;
    }
    forall k | k in Kinds(xs) ensures k in KindSet(xs) {
      var i :| 0 <= i < |xs| && Kinds(xs)[i] == k;
      assert xs[i] in xs;
    }
  }

  lemma SameKinds(xs: seq<Resource>, ys: seq<Resource>)
    requires multiset(xs) == multiset(ys)
    ensures KindSet(xs) == KindSet(ys)
  {
    assert forall r :: r in xs <==> r in multiset(xs);
    assert forall r :: r in ys <==> r in multiset(ys);
  }

  /** Sorts in place and returns the same slice: always a permutation, and sorted if and only if the kinds
      present make the comparison an order (exactly when: KindOrder.TransitiveIff). */
  method SortByKind(manifests: array<Resource>, ordering: SortOrder) returns (sorted: array<Resource>)
    modifies manifests
    ensures sorted == manifests
    ensures multiset(sorted[..]) == old(multiset(manifests[..]))
    ensures Transitive(Ranking(ordering), old(KindSet(manifests[..])))
            <==> Sorted(Ranking(ordering), Kinds(sorted[..]))
  {
    var ks := new KindSorter(manifests, ordering);
    ks.Sort();
    sorted := ks.resources;
  }

  lemma MultisetWithout<T>(xs: seq<T>, j: nat)
    requires j < |xs|
    ensures multiset(xs) == multiset(xs[..j] + xs[j + 1..]) + multiset{xs[j]}
  {
    assert xs == xs[..j] + [xs[j]] + xs[j + 1..];
  }

  lemma KindsWithout(xs: seq<Resource>, j: nat)
    requires j < |xs|
    ensures multiset(Kinds(xs)) == multiset(Kinds(xs[..j] + xs[j + 1..])) + multiset{xs[j].kind}
  {
    MultisetWithout(Kinds(xs), j);
    assert Kinds(xs[..j] + xs[j + 1..]) == Kinds(xs)[..j] + Kinds(xs)[j + 1..];
  }

  lemma KindsTail(xs: seq<Resource>)
    requires xs != []
    ensures multiset(Kinds(xs)) == multiset(Kinds(xs[1..])) + multiset{xs[0].kind}
  {
    assert Kinds(xs) == [xs[0].kind] + Kinds(xs[1..]);
  }

  lemma Cancel<T>(a: multiset<T>, b: multiset<T>, x: T)
    requires a + multiset{x} == b + multiset{x}
    ensures a == b
  {
    assert a == (a + multiset{x}) - multiset{x};
    assert b == (b + multiset{x}) - multiset{x};
  }

  lemma PositionOf<T>(xs: seq<T>, ys: seq<T>) returns (j: nat)
    requires multiset(xs) == multiset(ys) && xs != []
    ensures j < |ys| && ys[j] == xs[0]
    ensures multiset(xs[1..]) == multiset(ys[..j] + ys[j + 1..])
  {
    assert xs[0] in multiset(ys);
    j :| j < |ys| && ys[j] == xs[0];
    MultisetWithout(xs, 0);
    MultisetWithout(ys, j);
    assert xs[..0] + xs[1..] == xs[1..];
    Cancel(multiset(xs[1..]), multiset(ys[..j] + ys[j + 1..]), xs[0]);
  }

  lemma {:induction false} KindsOfPermutation(xs: seq<Resource>, ys: seq<Resource>)
    requires multiset(xs) == multiset(ys)
    ensures multiset(Kinds(xs)) == multiset(Kinds(ys))
    decreases |xs|
  {
    if xs == [] {
      assert |multiset(ys)| == 0;
    } else {
      var j := PositionOf(xs, ys);
      KindsOfPermutation(xs[1..], ys[..j] + ys[j + 1..]);
      KindsTail(xs);
      KindsWithout(ys, j);
    }
  }

  /** Any two permutations of the same manifests that are sorted by the comparison list the same
      kinds in the same order, so the choice of sorting algorithm does not matter. */
  lemma SortingIsDetermined(ranks: Ranks, xs: seq<Resource>, ys: seq<Resource>)
    requires multiset(xs) == multiset(ys) && Sorted(ranks, Kinds(xs)) && Sorted(ranks, Kinds(ys))
    ensures Kinds(xs) == Kinds(ys)
  {
    KindsOfPermutation(xs, ys);
    SortedIsUnique(ranks, Kinds(xs), Kinds(ys));
  }
}
