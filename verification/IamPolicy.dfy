/** Rewriting a project's IAM policy (pkg/utils/iamutils.go). */
module IamPolicy {
  import opened Wrappers

  datatype Binding = Binding(role: string, members: seq<string>)

  /** A cloud policy object, updated in place. */
  class Policy {
    var bindings: seq<Binding>
    var etag: string

    constructor (bindings: seq<Binding>, etag: string)
      ensures this.bindings == bindings && this.etag == etag
    {
      this.bindings, this.etag := bindings, etag;
    }
  }

  /** The (role, member) relation of a policy. */
  function Pairs(bs: seq<Binding>): set<(string, string)> {
    set b, m | b in bs && m in b.members :: (b.role, m)
  }

  function Roles(bs: seq<Binding>): set<string> {
    set b | b in bs :: b.role
  }

  predicate UniqueRoles(bs: seq<Binding>) {
    forall i, j | 0 <= i < j < |bs| :: bs[i].role != bs[j].role
  }

  function Elements(xs: seq<string>): set<string> {
    set x | x in xs
  }

  // ----- clearing -----

  /** The service accounts of one deployment. */
  function DeploymentAccounts(deployName: string, project: string): set<string> {
    var at := "@" + project + ".iam.gserviceaccount.com";
    {"serviceAccount:" + deployName + "-admin" + at,
     "serviceAccount:" + deployName + "-user" + at,
     "serviceAccount:" + deployName + "-vm" + at}
  }

  function Without(members: seq<string>, accounts: set<string>): (r: seq<string>)
    ensures forall m :: m in r <==> m in members && m !in accounts
  {
    if members == [] then []
    else
      var n := |members| - 1;
      Without(members[..n], accounts) + (if members[n] in accounts then [] else [members[n]])
  }

  function Cleared(bs: seq<Binding>, accounts: set<string>): (r: seq<Binding>)
    ensures |r| == |bs|
    ensures forall i | 0 <= i < |bs| :: r[i] == Binding(bs[i].role, Without(bs[i].members, accounts))
  {
    seq(|bs|, i requires 0 <= i < |bs| => Binding(bs[i].role, Without(bs[i].members, accounts)))
  }

  lemma WithoutSnoc(members: seq<string>, member: string, accounts: set<string>)
    ensures Without(members + [member], accounts)
         == Without(members, accounts) + (if member in accounts then [] else [member])
  {
    assert (members + [member])[..|members + [member]| - 1] == members;
  }

  /** The members that stay keep their order. */
  lemma {:induction false} WithoutConcat(members: seq<string>, more: seq<string>, accounts: set<string>)
    ensures Without(members + more, accounts) == Without(members, accounts) + Without(more, accounts)
    decreases |more|
  {
    assert Without([], accounts) == [];
    hide Without;
    if more == [] {
      assert members + more == members && more == [];
    } else {
      var n := |more| - 1;
      WithoutConcat(members, more[..n], accounts);
      WithoutSnoc(members + more[..n], more[n], accounts);
      WithoutSnoc(more[..n], more[n], accounts);
      assert more == more[..n] + [more[n]] && members + more == members + more[..n] + [more[n]];
    }
  }

  method ClearIamPolicy(currentPolicy: Policy, deployName: string, project: string)
    modifies currentPolicy`bindings
    ensures currentPolicy.bindings == Cleared(old(currentPolicy.bindings), DeploymentAccounts(deployName, project))
  {
    var serviceAccounts := DeploymentAccounts(deployName, project);
    var newBindings: seq<Binding> := [];
    for i := 0 to |currentPolicy.bindings|
      invariant newBindings == Cleared(currentPolicy.bindings, serviceAccounts)[..i]
    {
      var binding := currentPolicy.bindings[i];
      var kept: seq<string> := [];
      for j := 0 to |binding.members|
        invariant kept == Without(binding.members[..j], serviceAccounts)
      {
        assert binding.members[..j + 1][..j] == binding.members[..j];
        if binding.members[j] !in serviceAccounts {
          kept := kept + [binding.members[j]];
        }
      }
      assert binding.members[..|binding.members|] == binding.members;
      newBindings := newBindings + [Binding(binding.role, kept)];
    }
    currentPolicy.bindings := newBindings;
  }

  /** Clearing takes exactly the deployment's accounts out of the relation and keeps every role. */
  lemma ClearedMeans(bs: seq<Binding>, accounts: set<string>)
    ensures Pairs(Cleared(bs, accounts)) == set p | p in Pairs(bs) && p.1 !in accounts
    ensures Roles(Cleared(bs, accounts)) == Roles(bs)
    ensures UniqueRoles(bs) ==> UniqueRoles(Cleared(bs, accounts))
  {
  }

  const SERVICE_ACCOUNT := "serviceAccount:"
  const ACCOUNT_DOMAIN := ".iam.gserviceaccount.com"

  /** Clearing takes exactly the admin, user and vm accounts of the deployment away. */
  lemma ClearedAccounts(bs: seq<Binding>, deployName: string, project: string, role: string, member: string)
    ensures (role, member) in Pairs(Cleared(bs, DeploymentAccounts(deployName, project)))
            <==> && (role, member) in Pairs(bs)
                 && forall suffix | suffix in {"-admin", "-user", "-vm"} ::
                      member != SERVICE_ACCOUNT + deployName + suffix + ("@" + project + ACCOUNT_DOMAIN)
  {
    ClearedMeans(bs, DeploymentAccounts(deployName, project));
    hide Cleared, Pairs;
  }

  lemma MiddleIs(start: string, middle: string, end: string)
    ensures (start + middle + end)[|start|..][..|middle|] == middle
  {
  }

  lemma AccountsApart(a: string, s: string, b: string, t: string, at: string)
    requires SERVICE_ACCOUNT + a + s + at == SERVICE_ACCOUNT + b + t + at
    requires s in {"-admin", "-user", "-vm"} && t in {"-admin", "-user", "-vm"}
    ensures a == b && s == t
  {
    var x, y := SERVICE_ACCOUNT + a + s, SERVICE_ACCOUNT + b + t;
    assert (x + at)[..|x|] == x && (y + at)[..|y|] == y;
    assert x[|x| - 1] == s[|s| - 1] && y[|y| - 1] == t[|t| - 1];
    MiddleIs(SERVICE_ACCOUNT, a, s);
    MiddleIs(SERVICE_ACCOUNT, b, t);
  }

  /** Two deployments in one project have no account in common, so clearing for one spares the other. */
  lemma DeploymentsAreApart(deployName: string, other: string, project: string)
    requires deployName != other
    ensures DeploymentAccounts(deployName, project) !! DeploymentAccounts(other, project)
  {
    var at := "@" + project + ACCOUNT_DOMAIN;
    forall s, t | s in {"-admin", "-user", "-vm"} && t in {"-admin", "-user", "-vm"}
      ensures SERVICE_ACCOUNT + deployName + s + at != SERVICE_ACCOUNT + other + t + at
    {
      if SERVICE_ACCOUNT + deployName + s + at == SERVICE_ACCOUNT + other + t + at {
        AccountsApart(deployName, s, other, t, at);
      }
    }
  }

  // ----- rewriting -----

  type RoleMap = map<string, set<string>>

  /** The first loop: each binding of a role resets that role. */
  function LastBindings(bs: seq<Binding>): RoleMap {
    if bs == [] then map[]
    else
      var n := |bs| - 1;
      LastBindings(bs[..n])[bs[n].role := Elements(bs[n].members)]
  }

  /** The second loop: members are added one at a time; a binding without members adds no role. */
  function Added(m: RoleMap, bs: seq<Binding>): RoleMap {
    if bs == [] then m
    else
      var n := |bs| - 1;
      var before := Added(m, bs[..n]);
      if bs[n].members == [] then before else before[bs[n].role := Get(before, bs[n].role) + Elements(bs[n].members)]
  }

  function Get(m: RoleMap, role: string): set<string> {
    if role in m then m[role] else {}
  }

  function MapPairs(m: RoleMap): set<(string, string)> {
    set r, x | r in m && x in m[r] :: (r, x)
  }

  /** The bindings list every role of the map once, with its members in some order, each once. */
  ghost predicate Represents(bs: seq<Binding>, m: RoleMap) {
    && UniqueRoles(bs) && Roles(bs) == m.Keys
    && forall b | b in bs :: NoDuplicates(b.members) && Elements(b.members) == m[b.role]
  }

  method ListMembers(memberSet: set<string>) returns (members: seq<string>)
    ensures NoDuplicates(members) && Elements(members) == memberSet
  {
    members := [];
    var rest := memberSet;
    while rest != {}
      invariant rest <= memberSet && NoDuplicates(members) && Elements(members) == memberSet - rest
      decreases |rest|
    {
      var member :| member in rest;
      assert member !in Elements(members);
      assert Elements(members + [member]) == Elements(members) + {member};
      members := members + [member];
      rest := rest - {member};
    }
  }

  /** The current policy as a map; a role met again starts afresh. */
  method CollectRoles(bindings: seq<Binding>) returns (policyMap: RoleMap)
    ensures policyMap == LastBindings(bindings)
  {
    policyMap := map[];
    for i := 0 to |bindings|
      invariant policyMap == LastBindings(bindings[..i])
    {
      var binding := bindings[i];
      ghost var before := policyMap;
      policyMap := policyMap[binding.role := {}];
      assert Elements(binding.members[..0]) == {};
      for j := 0 to |binding.members|
        invariant policyMap == before[binding.role := Elements(binding.members[..j])]
      {
        assert Elements(binding.members[..j + 1]) == Elements(binding.members[..j]) + {binding.members[j]};
        policyMap := policyMap[binding.role := policyMap[binding.role] + {binding.members[j]}];
      }
      assert binding.members[..|binding.members|] == binding.members;
      assert bindings[..i + 1][..i] == bindings[..i];
    }
    assert bindings[..|bindings|] == bindings;
  }

  method AddMembers(current: RoleMap, role: string, members: seq<string>) returns (policyMap: RoleMap)
    ensures policyMap == if members == [] then current else current[role := Get(current, role) + Elements(members)]
  {
    policyMap := current;
    assert Elements(members[..0]) == {};
    for j := 0 to |members|
      invariant Get(policyMap, role) == Get(current, role) + Elements(members[..j])
      invariant policyMap == if j == 0 then current else current[role := Get(policyMap, role)]
    {
      assert Elements(members[..j + 1]) == Elements(members[..j]) + {members[j]};
      if role !in policyMap {
        policyMap := policyMap[role := {}];
      }
      policyMap := policyMap[role := policyMap[role] + {members[j]}];
    }
    assert members[..|members|] == members;
  }

  lemma RepresentsSnoc(bs: seq<Binding>, m: RoleMap, role: string, members: seq<string>)
    requires Represents(bs, m) && role !in m && NoDuplicates(members)
    ensures Represents(bs + [Binding(role, members)], m[role := Elements(members)])
  {
    var b := Binding(role, members);
    assert Roles(bs + [b]) == Roles(bs) + {role};
    assert forall c | c in bs :: c.role in Roles(bs);
  }

  /** Go iterates over the map in any order; so does the choice here. */
  method ListBindings(policyMap: RoleMap) returns (bindings: seq<Binding>)
    ensures Represents(bindings, policyMap)
  {
    bindings := [];
    ghost var done: RoleMap := map[];
    var rest := policyMap.Keys;
    while rest != {}
      invariant rest <= policyMap.Keys && done == policyMap - rest && Represents(bindings, done)
      decreases |rest|
    {
      hide Represents;
      var role :| role in rest;
      var members := ListMembers(policyMap[role]);
      RepresentsSnoc(bindings, done, role, members);
      bindings, done := bindings + [Binding(role, members)], done[role := policyMap[role]];
      rest := rest - {role};
    }
    assert policyMap - {} == policyMap;
  }

  method RewriteIamPolicy(currentPolicy: Policy, adding: Policy)
    modifies currentPolicy`bindings
    ensures Represents(currentPolicy.bindings,
                       Added(LastBindings(old(currentPolicy.bindings)), old(adding.bindings)))
  {
    var policyMap := CollectRoles(currentPolicy.bindings);
    ghost var current := policyMap;
    var more := adding.bindings;
    for i := 0 to |more|
      invariant policyMap == Added(current, more[..i])
    {
      assert more[..i + 1][..i] == more[..i];
      policyMap := AddMembers(policyMap, more[i].role, more[i].members);
    }
    assert more[..|more|] == more;
    currentPolicy.bindings := ListBindings(policyMap);
  }

  /** A represented map can be read off the relation and the roles. */
  lemma RepresentsMeans(bs: seq<Binding>, m: RoleMap)
    requires Represents(bs, m)
    ensures Pairs(bs) == MapPairs(m) && Roles(bs) == m.Keys
    ensures LastBindings(bs) == m
  {
    forall r, x ensures (r, x) in Pairs(bs) <==> (r, x) in MapPairs(m) {
      if (r, x) in Pairs(bs) {
        var b :| b in bs && b.role == r && x in b.members;
        assert b.role in Roles(bs) && x in Elements(b.members);
      }
      if (r, x) in MapPairs(m) {
        assert r in Roles(bs);
        var b :| b in bs && b.role == r;
        assert x in Elements(b.members);
      }
    }
    LastRoles(bs);
    var last := LastBindings(bs);
    forall r | r in m.Keys ensures r in last && last[r] == m[r] {
      assert r in Roles(bs);
      var b :| b in bs && b.role == r;
      LastOfUnique(bs, b);
    }
    forall r | r in last ensures r in m {
      assert r in Roles(bs);
    }
  }

  lemma {:induction false} LastRoles(bs: seq<Binding>)
    ensures LastBindings(bs).Keys == Roles(bs)
  {
    if bs != [] {
      var n := |bs| - 1;
      LastRoles(bs[..n]);
      assert bs == bs[..n] + [bs[n]];
      PairsSnoc(bs[..n], bs[n]);
      hide Roles;
    }
  }

  lemma {:induction false} LastOfUnique(bs: seq<Binding>, b: Binding)
    requires UniqueRoles(bs) && b in bs
    ensures b.role in LastBindings(bs) && LastBindings(bs)[b.role] == Elements(b.members)
  {
    hide Elements;
    var n := |bs| - 1;
    if b != bs[n] {
      var i :| 0 <= i < |bs| && bs[i] == b;
      assert bs[..n][i] == b;
      LastOfUnique(bs[..n], b);
    }
  }

  lemma PairsSnoc(bs: seq<Binding>, b: Binding)
    ensures Pairs(bs + [b]) == Pairs(bs) + set x | x in b.members :: (b.role, x)
    ensures Roles(bs + [b]) == Roles(bs) + {b.role}
  {
  }

  lemma MapPairsUpdate(m: RoleMap, role: string, more: set<string>)
    ensures MapPairs(m[role := Get(m, role) + more]) == MapPairs(m) + set x | x in more :: (role, x)
  {
  }

  lemma {:induction false} AddedMeans(m: RoleMap, bs: seq<Binding>)
    ensures MapPairs(Added(m, bs)) == MapPairs(m) + Pairs(bs)
  {
    if bs != [] {
      var n := |bs| - 1;
      var init, last := bs[..n], bs[n];
      AddedMeans(m, init);
      assert bs == init + [last];
      PairsSnoc(init, last);
      MapPairsUpdate(Added(m, init), last.role, Elements(last.members));
      assert (set x | x in last.members :: (last.role, x)) == set x | x in Elements(last.members) :: (last.role, x);
      hide Pairs, MapPairs, Roles, Elements;
    }
  }

  /** Roles of bindings that have members. */
  function PopulatedRoles(bs: seq<Binding>): set<string> {
    set b | b in bs && b.members != [] :: b.role
  }

  lemma {:induction false} AddedRoles(m: RoleMap, bs: seq<Binding>)
    ensures Added(m, bs).Keys == m.Keys + PopulatedRoles(bs)
  {
    if bs != [] {
      var n := |bs| - 1;
      AddedRoles(m, bs[..n]);
      assert bs == bs[..n] + [bs[n]];
      assert PopulatedRoles(bs) == PopulatedRoles(bs[..n]) + (if bs[n].members == [] then {} else {bs[n].role});
      hide PopulatedRoles;
    }
  }

  /** Rewriting keeps every role and adds those of the new bindings that have members. */
  lemma RewriteRoles(current: seq<Binding>, adding: seq<Binding>, result: seq<Binding>, role: string)
    requires Represents(result, Added(LastBindings(current), adding))
    ensures role in Roles(result)
            <==> role in Roles(current) || exists b :: b in adding && b.members != [] && b.role == role
  {
    RepresentsMeans(result, Added(LastBindings(current), adding));
    AddedRoles(LastBindings(current), adding);
    LastRoles(current);
    hide Represents, Added, LastBindings, Roles;
  }

  /** The relation of the last binding of every role: all that rewriting reads of the old policy. */
  lemma {:induction false} LastPairs(bs: seq<Binding>)
    ensures MapPairs(LastBindings(bs)) <= Pairs(bs)
  {
    if bs != [] {
      var n := |bs| - 1;
      LastPairs(bs[..n]);
      assert bs == bs[..n] + [bs[n]];
      forall r, x | (r, x) in MapPairs(LastBindings(bs)) ensures (r, x) in Pairs(bs) {
        if r == bs[n].role {
          assert x in Elements(bs[n].members);
          assert bs[n] in bs && x in bs[n].members;
        } else {
          assert (r, x) in MapPairs(LastBindings(bs[..n]));
          assert (r, x) in Pairs(bs[..n]);
        }
      }
    }
  }

  /** Rewriting keeps the old relation and adds the new one if and only if no member is lost with an
      earlier binding of a repeated role. */
  lemma RewriteAddsIff(current: seq<Binding>, adding: seq<Binding>, result: seq<Binding>)
    requires Represents(result, Added(LastBindings(current), adding))
    ensures Pairs(result) == Pairs(current) + Pairs(adding)
            <==> forall b, x | b in current && x in b.members ::
                   x in Get(LastBindings(current), b.role) || (b.role, x) in Pairs(adding)
    ensures UniqueRoles(current) ==> Pairs(result) == Pairs(current) + Pairs(adding)
  {
    var last := LastBindings(current);
    RepresentsMeans(result, Added(last, adding));
    AddedMeans(last, adding);
    LastPairs(current);
    assert Pairs(result) == MapPairs(last) + Pairs(adding);
    forall b, x | b in current && x in b.members
      ensures (b.role, x) in Pairs(current)
      ensures x in Get(last, b.role) <==> (b.role, x) in MapPairs(last)
    {
    }
    if forall b, x | b in current && x in b.members :: x in Get(last, b.role) || (b.role, x) in Pairs(adding) {
      assert Pairs(current) <= MapPairs(last) + Pairs(adding);
    }
    if UniqueRoles(current) {
      forall b, x | b in current && x in b.members ensures x in Get(last, b.role) {
        LastOfUnique(current, b);
      }
    }
  }

  /** One deployment cycle: clear, then rewrite with the deployment's own policy. */
  ghost predicate Cycle(before: seq<Binding>, accounts: set<string>, adding: seq<Binding>, after: seq<Binding>) {
    Represents(after, Added(LastBindings(Cleared(before, accounts)), adding))
  }

  /** For one binding per role the cycle is exact policy algebra, and it always leaves one binding per
      role without duplicate members. */
  lemma CycleMeans(before: seq<Binding>, accounts: set<string>, adding: seq<Binding>, after: seq<Binding>)
    requires Cycle(before, accounts, adding, after)
    ensures UniqueRoles(after) && forall b | b in after :: NoDuplicates(b.members)
    ensures UniqueRoles(before) ==>
              Pairs(after) == (set p | p in Pairs(before) && p.1 !in accounts) + Pairs(adding)
  {
    ClearedMeans(before, accounts);
    RewriteAddsIff(Cleared(before, accounts), adding, after);
  }

  /** Repeating the cycle with the same added policy changes nothing, whatever the first policy was. */
  lemma CycleIsIdempotent(before: seq<Binding>, accounts: set<string>, adding: seq<Binding>,
                          once: seq<Binding>, twice: seq<Binding>)
    requires Cycle(before, accounts, adding, once) && Cycle(once, accounts, adding, twice)
    ensures Pairs(twice) == Pairs(once) && Roles(twice) == Roles(once)
  {
    var cleared, again := Cleared(before, accounts), Cleared(once, accounts);
    RepresentsMeans(once, Added(LastBindings(cleared), adding));
    AddedMeans(LastBindings(cleared), adding);
    AddedRoles(LastBindings(cleared), adding);
    LastPairs(cleared);
    ClearedMeans(before, accounts);
    CycleMeans(once, accounts, adding, twice);
    ClearedMeans(once, accounts);
    LastRoles(again);
    AddedRoles(LastBindings(again), adding);
  }

  /** Without unique roles the earlier bindings of a repeated role are lost. */
  lemma RepeatedRoleLosesMembers(after: seq<Binding>)
    requires Cycle([Binding("r", ["a"]), Binding("r", ["b"])], {}, [], after)
    ensures ("r", "a") in Pairs([Binding("r", ["a"]), Binding("r", ["b"])]) && ("r", "a") !in Pairs(after)
  {
    var before := [Binding("r", ["a"]), Binding("r", ["b"])];
    assert before[0] in before && "a" in before[0].members;
    var cleared := Cleared(before, {});
    assert cleared[1].members == ["b"] by {
      assert Without(["b"], {}) == Without([], {}) + ["b"];
    }
    RepresentsMeans(after, Added(LastBindings(cleared), []));
    assert LastBindings(cleared)["r"] == Elements(["b"]);
    assert "a" !in Elements(["b"]);
  }
}
