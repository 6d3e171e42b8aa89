/** The comparison behind SortByKind (pkg/utils/kindsorter.go): when it is an order, and which one. */
module KindOrder {
  import opened Strings

  type SortOrder = seq<string>
  type Ranks = map<string, nat>

  const INSTALL_ORDER: SortOrder := [
    "Namespace", "ResourceQuota", "LimitRange", "PodSecurityPolicy", "Secret", "ConfigMap", "StorageClass",
    "PersistentVolume", "PersistentVolumeClaim", "ServiceAccount", "CustomResourceDefinition", "ClusterRole",
    "ClusterRoleBinding", "Role", "RoleBinding", "Service", "DaemonSet", "Pod", "ReplicationController",
    "ReplicaSet", "Deployment", "StatefulSet", "Job", "CronJob", "Ingress", "MutatingWebhookConfiguration",
    "ValidatingWebhookConfiguration", "APIService"]

  const UNINSTALL_ORDER: SortOrder := [
    "APIService", "ValidatingWebhookConfiguration", "MutatingWebhookConfiguration", "CustomResourceDefinition",
    "Ingress", "Service", "CronJob", "Job", "StatefulSet", "Deployment", "ReplicaSet", "ReplicationController",
    "Pod", "DaemonSet", "RoleBinding", "Role", "ClusterRoleBinding", "ClusterRole", "ServiceAccount",
    "PersistentVolumeClaim", "PersistentVolume", "StorageClass", "ConfigMap", "Secret", "PodSecurityPolicy",
    "LimitRange", "ResourceQuota", "Namespace"]

  /** The map that newKindSorter builds; a repeated kind keeps its last position. */
  function Ranking(order: SortOrder): Ranks {
    if order == [] then map[] else Ranking(order[..|order| - 1])[order[|order| - 1] := |order| - 1]
  }

  lemma {:induction false} RankingIsLastPosition(order: SortOrder, kind: string)
    ensures kind in Ranking(order) <==> kind in order
    ensures kind in order ==>
              && Ranking(order)[kind] < |order| && order[Ranking(order)[kind]] == kind
              && forall j | Ranking(order)[kind] < j < |order| :: order[j] != kind
  {
    if order != [] {
      var n := |order| - 1;
      RankingIsLastPosition(order[..n], kind);
      assert order == order[..n] + [order[n]];
    }
  }

  function Rank(ranks: Ranks, kind: string): nat {
    if kind in ranks then ranks[kind] else 0
  }

  /** The comparison of the code: a kind missing from the map reads 0, like the first kind. */
  predicate KindLess(ranks: Ranks, a: string, b: string) {
    var first, second := Rank(ranks, a), Rank(ranks, b);
    if first == second then Less(a, b)
    else if a !in ranks then false
    else if b !in ranks then true
    else first < second
  }

  /** The intended order: by rank with unknown kinds last, then by name. */
  predicate Before(ranks: Ranks, a: string, b: string) {
    if a in ranks && b in ranks then ranks[a] < ranks[b] || (ranks[a] == ranks[b] && Less(a, b))
    else if a in ranks || b in ranks then a in ranks
    else Less(a, b)
  }

  /** Every unknown kind is alphabetically after the ordering's first kind, if that is present. */
  ghost predicate UnknownsAfterFirst(ranks: Ranks, kinds: set<string>) {
    forall u, f | u in kinds && f in kinds && u !in ranks && f in ranks && ranks[f] == 0 :: Less(f, u)
  }

  /** No known kind other than the ordering's first. */
  ghost predicate OnlyFirstKnown(ranks: Ranks, kinds: set<string>) {
    forall k | k in kinds && k in ranks :: ranks[k] == 0
  }

  ghost predicate Transitive(ranks: Ranks, kinds: set<string>) {
    forall a, b, c | a in kinds && b in kinds && c in kinds && KindLess(ranks, a, b) && KindLess(ranks, b, c) ::
      KindLess(ranks, a, c)
  }

  ghost predicate Agrees(ranks: Ranks, kinds: set<string>) {
    forall a, b | a in kinds && b in kinds :: KindLess(ranks, a, b) <==> Before(ranks, a, b)
  }

  /** Exactly one of a < b, a = b, b < a, whatever the kinds. */
  lemma KindLessTrichotomy(ranks: Ranks, a: string, b: string)
    ensures KindLess(ranks, a, b) || a == b || KindLess(ranks, b, a)
    ensures !(KindLess(ranks, a, b) && KindLess(ranks, b, a))
    ensures a == b ==> !KindLess(ranks, a, b)
  {
    LessTrichotomy(a, b);
  }

  /** The comparison is the intended order if and only if unknown kinds come after the first kind. */
  lemma AgreesIff(ranks: Ranks, kinds: set<string>)
    ensures Agrees(ranks, kinds) <==> UnknownsAfterFirst(ranks, kinds)
  {
    forall a, b { LessTrichotomy(a, b); }
    if Agrees(ranks, kinds) {
      forall u, f | u in kinds && f in kinds && u !in ranks && f in ranks && ranks[f] == 0 ensures Less(f, u) {
        assert Before(ranks, f, u);
        assert KindLess(ranks, f, u);
      }
    }
  }

  lemma BeforeTransitive(ranks: Ranks, a: string, b: string, c: string)
    requires Before(ranks, a, b) && Before(ranks, b, c)
    ensures Before(ranks, a, c)
  {
    if Less(a, b) && Less(b, c) {
      LessTransitive(a, b, c);
    }
  }

  /** The comparison is transitive, and so with trichotomy a strict weak order fit for sorting, if
      and only if unknown kinds come after the first kind or no other known kind is around. */
  lemma TransitiveIff(ranks: Ranks, kinds: set<string>)
    ensures Transitive(ranks, kinds) <==> UnknownsAfterFirst(ranks, kinds) || OnlyFirstKnown(ranks, kinds)
  {
    if UnknownsAfterFirst(ranks, kinds) {
      AgreesIff(ranks, kinds);
      forall a, b, c | a in kinds && b in kinds && c in kinds && KindLess(ranks, a, b) && KindLess(ranks, b, c)
        ensures KindLess(ranks, a, c)
      {
        BeforeTransitive(ranks, a, b, c);
      }
    } else if OnlyFirstKnown(ranks, kinds) {
      forall a, b, c | a in kinds && b in kinds && c in kinds && KindLess(ranks, a, b) && KindLess(ranks, b, c)
        ensures KindLess(ranks, a, c)
      {
        LessTransitive(a, b, c);
      }
    } else {
      var u, f :| u in kinds && f in kinds && u !in ranks && f in ranks && ranks[f] == 0 && !Less(f, u);
      var k :| k in kinds && k in ranks && ranks[k] != 0;
      assert KindLess(ranks, f, k) && KindLess(ranks, k, u) && !KindLess(ranks, f, u);
    }
  }

  lemma RankIs(order: SortOrder, kind: string, i: nat)
    requires i < |order| && order[i] == kind && forall j | i < j < |order| :: order[j] != kind
    ensures kind in Ranking(order) && Ranking(order)[kind] == i
  {
  }

  /** An unknown kind alphabetically before the first one makes a cycle with any later kind. */
  lemma CycleWith(order: SortOrder, first: string, later: string, unknown: string)
    requires |order| > 0 && order[0] == first && forall j | 0 < j < |order| :: order[j] != first
    requires later in order && later != first && unknown !in order && Less(unknown, first)
    ensures var ranks := Ranking(order);
            KindLess(ranks, unknown, first) && KindLess(ranks, first, later) && KindLess(ranks, later, unknown)
  {
    RankIs(order, first, 0);
    RankingIsLastPosition(order, later);
    RankingIsLastPosition(order, unknown);
  }

  lemma InstallOrderStartsWithNamespace(j: nat)
    requires 0 < j < |INSTALL_ORDER|
    ensures INSTALL_ORDER[j] != "Namespace"
  {
    assert INSTALL_ORDER[j][0] != 'N';
  }

  lemma InstallOrderFacts()
    ensures "Application" !in INSTALL_ORDER && INSTALL_ORDER[0] == "Namespace" && "Secret" in INSTALL_ORDER
  {
    assert INSTALL_ORDER[4] == "Secret";
  }

  /** Under the install order the kind Application closes such a cycle. */
  lemma CycleUnderInstallOrder(order: SortOrder)
    requires order == INSTALL_ORDER
    ensures var ranks := Ranking(order);
            && KindLess(ranks, "Application", "Namespace")
            && KindLess(ranks, "Namespace", "Secret")
            && KindLess(ranks, "Secret", "Application")
  {
    InstallOrderFacts();
    forall j | 0 < j < |order| ensures order[j] != "Namespace" {
      InstallOrderStartsWithNamespace(j);
    }
    assert "Application"[0] < "Namespace"[0];
    CycleWith(order, "Namespace", "Secret", "Application");
  }

  /** The uninstall order starts with a kind that comes early by name, too: the cycle takes an unknown kind
      before that. */
  lemma CycleUnderUninstallOrder(order: SortOrder, unknown: string)
    requires order == UNINSTALL_ORDER && unknown !in order && Less(unknown, "APIService")
    ensures var ranks := Ranking(order);
            && KindLess(ranks, unknown, "APIService")
            && KindLess(ranks, "APIService", "Namespace")
            && KindLess(ranks, "Namespace", unknown)
  {
    assert order[0] == "APIService" && order[|order| - 1] == "Namespace";
    forall j | 0 < j < |order| ensures order[j] != "APIService" {
      UninstallOrderStartsWithApiService(j);
    }
    CycleWith(order, "APIService", "Namespace", unknown);
  }

  lemma UninstallOrderStartsWithApiService(j: nat)
    requires 0 < j < |UNINSTALL_ORDER|
    ensures UNINSTALL_ORDER[j] != "APIService"
  {
    assert UNINSTALL_ORDER[j][0] != 'A';
  }

  /** Where the kind at a place of the install order stands in the uninstall order. */
  function MirrorPlace(k: nat): int {
    if k <= 9 || k >= 25 then 27 - k else if k <= 14 || k == 24 then 28 - k else 29 - k
  }

  /** Uninstalling goes in the reverse order of installing, but for custom resource definitions and services, which
      go earlier. */
  lemma UninstallReversesInstall(i: nat, j: nat)
    requires i < j < |INSTALL_ORDER| && i !in {10, 15} && j !in {10, 15}
    ensures INSTALL_ORDER[10] == "CustomResourceDefinition" && INSTALL_ORDER[15] == "Service"
    ensures 0 <= MirrorPlace(j) < MirrorPlace(i) < |UNINSTALL_ORDER|
    ensures UNINSTALL_ORDER[MirrorPlace(i)] == INSTALL_ORDER[i]
    ensures UNINSTALL_ORDER[MirrorPlace(j)] == INSTALL_ORDER[j]
    ensures UNINSTALL_ORDER[3] == "CustomResourceDefinition" && UNINSTALL_ORDER[5] == "Service"
  {
    MirrorIs(i);
    MirrorIs(j);
  }

  lemma MirrorIs(k: nat)
    requires k < |INSTALL_ORDER| && k !in {10, 15}
    ensures 0 <= MirrorPlace(k) < |UNINSTALL_ORDER| && UNINSTALL_ORDER[MirrorPlace(k)] == INSTALL_ORDER[k]
  {
  }

  // ----- sorted sequences -----

  ghost predicate Sorted(ranks: Ranks, kinds: seq<string>) {
    forall i, j | 0 <= i < j < |kinds| :: !KindLess(ranks, kinds[j], kinds[i])
  }

  /** Only kinds on which the comparison is transitive can be sorted by it at all. */
  lemma SortedIsTransitive(ranks: Ranks, kinds: seq<string>)
    requires Sorted(ranks, kinds)
    ensures Transitive(ranks, set k | k in kinds)
  {
    forall a, b, c | a in kinds && b in kinds && c in kinds && KindLess(ranks, a, b) && KindLess(ranks, b, c)
      ensures KindLess(ranks, a, c)
    {
      var i, j, k :| 0 <= i < |kinds| && 0 <= j < |kinds| && 0 <= k < |kinds|
                     && kinds[i] == a && kinds[j] == b && kinds[k] == c;
      KindLessTrichotomy(ranks, a, b);
      KindLessTrichotomy(ranks, b, c);
      KindLessTrichotomy(ranks, a, c);
    }
  }

  lemma SortedHead(ranks: Ranks, xs: seq<string>, y: string)
    requires Sorted(ranks, xs) && y in xs
    ensures xs[0] == y || KindLess(ranks, xs[0], y)
  {
    var j :| 0 <= j < |xs| && xs[j] == y;
    KindLessTrichotomy(ranks, xs[0], y);
  }

  lemma TailMultiset<T>(xs: seq<T>)
    requires xs != []
    ensures multiset(xs[1..]) == multiset(xs) - multiset{xs[0]}
  {
    assert xs == [xs[0]] + xs[1..];
  }

  /** Whatever algorithm sorts by this comparison, the resulting sequence of kinds is the same. */
  lemma {:induction false} SortedIsUnique(ranks: Ranks, xs: seq<string>, ys: seq<string>)
    requires multiset(xs) == multiset(ys) && Sorted(ranks, xs) && Sorted(ranks, ys)
    ensures xs == ys
  {
    assert |xs| == |multiset(xs)| == |multiset(ys)| == |ys|;
    if xs != [] {
      assert xs[0] in multiset(ys) && ys[0] in multiset(xs);
      SortedHead(ranks, xs, ys[0]);
      SortedHead(ranks, ys, xs[0]);
      KindLessTrichotomy(ranks, xs[0], ys[0]);
      TailMultiset(xs);
      TailMultiset(ys);
      SortedIsUnique(ranks, xs[1..], ys[1..]);
      assert xs == [xs[0]] + xs[1..] && ys == [ys[0]] + ys[1..];
    }
  }

  /** In a sorted sequence whose unknown kinds are after the first kind, known kinds come first, in
      the order of the ordering, and unknown kinds follow alphabetically. */
  lemma SortedMeans(ranks: Ranks, kinds: seq<string>, i: nat, j: nat)
    requires Sorted(ranks, kinds) && UnknownsAfterFirst(ranks, set k | k in kinds) && i < j < |kinds|
    ensures kinds[j] in ranks ==> kinds[i] in ranks && ranks[kinds[i]] <= ranks[kinds[j]]
    ensures kinds[i] !in ranks ==> kinds[j] !in ranks && !Less(kinds[j], kinds[i])
  {
  }
}
