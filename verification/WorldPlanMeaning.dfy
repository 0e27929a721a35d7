// What it means for a plan to be valid, in terms of the definitions themselves.

module WorldPlanMeaning {
  import opened Words
  import opened OrdinalOrder
  import opened WorldPlanGraph
  import opened WorldPlanSort
  import opened WorldPlanLayers
  import opened WorldPlanClosure
  import opened WorldPlanInput
  import opened WorldPlanIssues
  import opened WorldPlanValidator

  predicate DistinctIds(rs: seq<ResourceInput>) { forall i, j :: 0 <= i < j < |rs| ==> rs[i].id != rs[j].id }

  predicate SharesNone(a: seq<Text>, b: seq<Text>) { forall n :: n in a ==> n !in b }

  /** No name is claimed by two definitions. */
  predicate SingleOwner(rs: seq<ResourceInput>, kind: Kind) {
    forall i, j :: 0 <= i < j < |rs| ==> SharesNone(Claims(rs[i], kind), Claims(rs[j], kind))
  }

  /** The definitions taken together, without regard to the order they are read in. */
  predicate Consistent(rs: seq<ResourceInput>) {
    && (forall r :: r in rs ==> ResourceOk(r))
    && DistinctIds(rs) && SingleOwner(rs, Provides) && SingleOwner(rs, Mutates)
  }

  lemma {:induction false} OwnersAre(rs: seq<ResourceInput>, kind: Kind, s: string)
    requires forall r :: r in rs ==> ResourceOk(r)
    ensures s in Owners(rs, kind) <==> exists j :: 0 <= j < |rs| && Some(s) in Claims(rs[j], kind)
  {
    if rs != [] {
      var init, r := rs[..|rs| - 1], rs[|rs| - 1];
      OwnersAre(init, kind, s);
      ClaimedIs(Owners(init, kind), Claims(r, kind), r.id);
      assert ResourceOk(r);
      hide Identifier, Claimed, Owners, Digest;
      assert s in Owners(rs, kind) <==> s in Owners(init, kind) || Some(s) in Claims(r, kind) by {
        OwnersStep(rs, kind, s);
      }
      if Some(s) in Claims(r, kind) { assert Some(s) in Claims(rs[|rs| - 1], kind); }
      assert forall j :: 0 <= j < |init| ==> init[j] == rs[j];
    }
  }

  lemma OwnersStep(rs: seq<ResourceInput>, kind: Kind, s: string)
    requires rs != [] && ResourceOk(rs[|rs| - 1])
    ensures var init, r := rs[..|rs| - 1], rs[|rs| - 1];
            && (s in Owners(rs, kind) <==> s in Owners(init, kind) || Some(s) in Claims(r, kind))
            && (s in Owners(rs, kind) ==>
                  Owners(rs, kind)[s] == if s in Owners(init, kind) then Owners(init, kind)[s] else r.id)
  {
    var init, r := rs[..|rs| - 1], rs[|rs| - 1];
    ClaimedIs(Owners(init, kind), Claims(r, kind), r.id);
    assert forall n :: n in Claims(r, kind) ==> Identifier(n);
    hide Identifier, Claimed, Digest;
  }

  /** On a well-formed list nothing is taken exactly when no name was taken before. */
  lemma FreshIs(m: map<string, string>, names: seq<Text>, owner: string)
    requires NamesOk(names)
    ensures ClaimsFresh(m, names, owner) <==> forall n :: n in names ==> n.Some? && n.value !in m
  {
    forall n | n in names ensures n.Some? { assert Identifier(n); }
    forall i | 0 <= i < |names|
      ensures names[i].Some? && (names[i].value in Claimed(m, names[..i], owner) <==> names[i].value in m)
    {
      ClaimedIs(m, names[..i], owner);
      assert names[i] in names;
      assert forall j :: 0 <= j < i ==> names[j] != names[i];
    }
    hide Identifier, Claimed;
  }

  lemma PrefixConsistent(rs: seq<ResourceInput>, k: nat)
    requires k <= |rs| && Consistent(rs)
    ensures Consistent(rs[..k])
  {
    hide ResourceOk, SharesNone;
  }

  lemma FreshAgainst(rs: seq<ResourceInput>, k: nat, kind: Kind)
    requires k < |rs| && forall j :: 0 <= j <= k ==> ResourceOk(rs[j])
    ensures ClaimsFresh(Owners(rs[..k], kind), Claims(rs[k], kind), rs[k].id) <==>
              forall j :: 0 <= j < k ==> SharesNone(Claims(rs[j], kind), Claims(rs[k], kind))
  {
    var m, names := Owners(rs[..k], kind), Claims(rs[k], kind);
    assert NamesOk(names);
    FreshIs(m, names, rs[k].id);
    hide ClaimsFresh, Owners, Digest;
    forall n | n in names ensures n.Some? { assert Identifier(n); }
    hide Identifier;
    forall n | n in names
      ensures n.value in m <==> exists j :: 0 <= j < k && n in Claims(rs[j], kind)
    {
      OwnersAre(rs[..k], kind, n.value);
      assert forall j :: 0 <= j < k ==> rs[..k][j] == rs[j];
      assert Some(n.value) == n;
    }
  }

  lemma FirstSeen(rs: seq<ResourceInput>, k: nat)
    requires k < |rs| && forall j :: 0 <= j <= k ==> Identifier(Some(rs[j].id))
    ensures rs[k].id !in Registered(rs[..k]) <==> forall j :: 0 <= j < k ==> rs[j].id != rs[k].id
  {
    RegisteredIds(rs[..k]);
    hide Registered, Identifier;
    if rs[k].id in Registered(rs[..k]) {
      var r := Registered(rs[..k])[rs[k].id];
      var j :| 0 <= j < k && rs[..k][j] == r;
    }
    forall j | 0 <= j < k ensures rs[j].id in Registered(rs[..k]) { assert rs[..k][j] == rs[j]; }
  }

  predicate Unrelated(a: ResourceInput, b: ResourceInput) {
    a.id != b.id && SharesNone(a.provided, b.provided) && SharesNone(a.mutates, b.mutates)
  }

  lemma QuietAt(rs: seq<ResourceInput>, k: nat)
    requires k < |rs| && forall r :: r in rs ==> ResourceOk(r)
    ensures ResourceQuiet(rs, k) <==> forall j :: 0 <= j < k ==> Unrelated(rs[j], rs[k])
  {
    forall r ensures ResourceOk(r) ==> Identifier(Some(r.id)) {}
    hide Registered, Owners, ClaimsFresh, SharesNone, Identifier, ResourceOk;
    FirstSeen(rs, k);
    FreshAgainst(rs, k, Provides);
    FreshAgainst(rs, k, Mutates);
  }

  /** Reading front to back reports nothing exactly when the definitions are consistent. */
  lemma QuietIsConsistent(rs: seq<ResourceInput>)
    ensures ResourcesQuiet(rs) <==> Consistent(rs)
  {
    hide Registered, Owners, ClaimsFresh, SharesNone, ResourceOk;
    if forall r :: r in rs ==> ResourceOk(r) {
      forall k | 0 <= k < |rs| ensures ResourceQuiet(rs, k) <==> forall j :: 0 <= j < k ==> Unrelated(rs[j], rs[k]) {
        QuietAt(rs, k);
      }
      hide ResourceQuiet;
      assert ResourcesQuiet(rs) <==> forall j, k :: 0 <= j < k < |rs| ==> Unrelated(rs[j], rs[k]);
    } else {
      var r :| r in rs && !ResourceOk(r);
      var k :| 0 <= k < |rs| && rs[k] == r;
      assert !ResourceQuiet(rs, k);
    }
  }

  /** The graph of consistent definitions, edge by edge. */
  lemma {:induction false} RegisteredAre(rs: seq<ResourceInput>, k: nat)
    requires Consistent(rs) && k < |rs|
    ensures rs[k].id in Registered(rs) && Registered(rs)[rs[k].id] == rs[k]
  {
    hide ResourceOk, SharesNone;
    RegisteredIds(rs);
    assert ResourceOk(rs[k]);
    assert Identifier(Some(rs[k].id)) by { OkIdentifier(rs[k]); }
    hide Registered, Identifier;
    var r := Registered(rs)[rs[k].id];
    var j :| 0 <= j < |rs| && rs[j] == r;
    assert j < k || j == k || k < j;
  }

  lemma OkIdentifier(r: ResourceInput)
    requires ResourceOk(r)
    ensures Identifier(Some(r.id))
  {}

  lemma {:induction false} OwnerOf(rs: seq<ResourceInput>, kind: Kind, k: nat, n: Text)
    requires Consistent(rs) && k < |rs| && n in Claims(rs[k], kind)
    ensures n.Some? && Identifier(n) && n.value in Owners(rs, kind) && Owners(rs, kind)[n.value] == rs[k].id
    decreases |rs|
  {
    ClaimIsName(rs[k], kind, n);
    PrefixConsistent(rs, |rs| - 1);
    hide Identifier, ResourceOk, Owners;
    var init, r := rs[..|rs| - 1], rs[|rs| - 1];
    OwnersStep(rs, kind, n.value);
    if k < |init| {
      assert init[k] == rs[k];
      OwnerOf(init, kind, k, n);
    } else {
      OwnersAre(init, kind, n.value);
      assert forall j :: 0 <= j < |init| ==> init[j] == rs[j] && SharesNone(Claims(rs[j], kind), Claims(r, kind));
    }
  }

  lemma ClaimIsName(r: ResourceInput, kind: Kind, n: Text)
    requires ResourceOk(r) && n in Claims(r, kind)
    ensures n.Some? && Identifier(n)
  {}

  // ---- Valid plans -----------------------------------------------------------------

  /** A valid plan has consistent resources, and its order places every resource once, behind
      all it depends on and all that provide what it requires. */
  lemma ValidResourceOrder(p: WorldPlanInput, order: seq<string>, i: nat, j: nat, n: Text)
    requires Complete(p) && PlanValid(p) && order == Order(ResourceGraph(p), {})
    requires i < |p.resources| && j < |p.resources| && i != j
    ensures var rs := Values(p.resources);
            && NoRepeats(order) && Consistent(rs) && rs[i].id in order
            && (n == Some(rs[j].id) && n in rs[i].dependencies ==> Precedes(order, rs[j].id, rs[i].id))
            && (n in rs[j].provided && n in rs[i].needs ==> Precedes(order, rs[j].id, rs[i].id))
  {
    hide Order, HasCycle, AssetsValid, AssetGraph, LinksQuiet, NoRepeats, Precedes;
    var rs := Values(p.resources);
    QuietIsConsistent(rs);
    ResourceEdgesClosed(rs);
    hide ResourcesQuiet, ResourceEdges;
    RegisteredAre(rs, i);
    OrderPlaces(ResourceGraph(p), order, rs[i].id);
    if n == Some(rs[j].id) && n in rs[i].dependencies { DependencyEdge(rs, i, j); }
    if n in rs[j].provided && n in rs[i].needs { ProviderEdge(rs, i, j, n); }
  }

  lemma DependencyEdge(rs: seq<ResourceInput>, i: nat, j: nat)
    requires Consistent(rs) && i < |rs| && j < |rs| && Some(rs[j].id) in rs[i].dependencies
    ensures var g := ResourceEdges(Registered(rs), Owners(rs, Provides)); rs[i].id in g && rs[j].id in g[rs[i].id]
  {
    RegisteredAre(rs, i);
    RegisteredAre(rs, j);
    OkIdentifier(rs[j]);
    hide Registered, Owners, Consistent;
    EdgeOfDependency(Registered(rs), Owners(rs, Provides), rs[i].id, Some(rs[j].id));
  }

  lemma ProviderEdge(rs: seq<ResourceInput>, i: nat, j: nat, n: Text)
    requires Consistent(rs) && i < |rs| && j < |rs| && i != j && n in rs[j].provided && n in rs[i].needs
    ensures var g := ResourceEdges(Registered(rs), Owners(rs, Provides)); rs[i].id in g && rs[j].id in g[rs[i].id]
  {
    RegisteredAre(rs, i);
    OwnerOf(rs, Provides, j, n);
    assert rs[i].id != rs[j].id by { assert i < j || j < i; }
    hide Registered, Owners, Consistent, Identifier;
    EdgeOfProvider(Registered(rs), Owners(rs, Provides), rs[i].id, n, rs[j].id);
  }

  predicate Precedes(order: seq<string>, a: string, b: string) {
    exists x, y :: 0 <= x < y < |order| && order[x] == a && order[y] == b
  }

  lemma OrderPlaces(g: Graph, order: seq<string>, k: string)
    requires Closed(g) && !HasCycle(g) && order == Order(g, {}) && k in g
    ensures NoRepeats(order) && k in order && forall d :: d in g[k] ==> Precedes(order, d, k)
  {
    OrderFresh(g, {});
    hide Order, HasCycle, Closed;
    var cycle := if Elements(order) == g.Keys then None else Some(Listing(g.Keys - Elements(order)));
    CycleReportedIffCycle(g, order, cycle);
    AcyclicIsPermutation(g, order, cycle);
    assert k in Elements(order);
    var y :| 0 <= y < |order| && order[y] == k;
    forall d | d in g[k] ensures Precedes(order, d, k) {
      assert d in order[..y];
      var x :| 0 <= x < y && order[..y][x] == d;
      assert order[x] == d;
    }
  }

  lemma EdgeOfDependency(resources: map<string, ResourceInput>, services: map<string, string>, id: string, n: Text)
    requires id in resources && n in resources[id].dependencies && n.Some? && Identifier(n) && n.value in resources
    ensures n.value in ResourceEdges(resources, services)[id]
  {}

  lemma EdgeOfProvider(resources: map<string, ResourceInput>, services: map<string, string>, id: string, n: Text,
                       owner: string)
    requires id in resources && n in resources[id].needs && n.Some? && Identifier(n)
    requires n.value in services && services[n.value] == owner && owner != id
    ensures owner in ResourceEdges(resources, services)[id]
  {}

  /** Nothing a valid plan names is missing: each dependency is a resource of the plan, each
      requirement is provided by one. */
  lemma ValidResourceLinks(p: WorldPlanInput, i: nat, n: Text)
    requires Complete(p) && PlanValid(p) && i < |p.resources|
    ensures var rs := Values(p.resources);
            && (n in rs[i].dependencies ==> exists j :: 0 <= j < |rs| && n == Some(rs[j].id))
            && (n in rs[i].needs ==> exists j :: 0 <= j < |rs| && n in rs[j].provided)
  {
    hide Order, HasCycle, AssetsValid, AssetGraph, NoRepeats, ResourceGraph;
    var rs := Values(p.resources);
    QuietIsConsistent(rs);
    RegisteredAre(rs, i);
    assert ResourceOk(rs[i]);
    LinkOf(rs, i, n);
  }

  lemma LinkOf(rs: seq<ResourceInput>, i: nat, n: Text)
    requires Consistent(rs) && i < |rs| && LinkQuiet(Registered(rs), Owners(rs, Provides), rs[i])
    ensures n in rs[i].dependencies ==> exists j :: 0 <= j < |rs| && n == Some(rs[j].id)
    ensures n in rs[i].needs ==> exists j :: 0 <= j < |rs| && n in rs[j].provided
  {
    RegisteredIds(rs);
    assert ResourceOk(rs[i]);
    if n in rs[i].dependencies || n in rs[i].needs {
      assert Identifier(n);
      OwnersAre(rs, Provides, n.value);
      hide Registered, Owners, Identifier, Consistent, ResourceOk;
      if n in rs[i].dependencies {
        var r := Registered(rs)[n.value];
        var j :| 0 <= j < |rs| && rs[j] == r;
        assert n == Some(rs[j].id);
      }
      if n in rs[i].needs {
        var j :| 0 <= j < |rs| && Some(n.value) in Claims(rs[j], Provides);
        assert n in rs[j].provided;
      }
    }
  }

  lemma {:induction false} RegisteredAssetsAre(xs: seq<AssetInput>, k: nat)
    requires AssetsQuiet(xs) && k < |xs|
    ensures xs[k].id in RegisteredAssets(xs) && RegisteredAssets(xs)[xs[k].id] == xs[k]
    decreases |xs|
  {
    var init := xs[..|xs| - 1];
    assert AssetQuiet(xs, |xs| - 1);
    if k < |init| {
      forall j | 0 <= j < |init| ensures AssetQuiet(init, j) {
        assert AssetQuiet(xs, j) && init[..j] == xs[..j];
      }
      RegisteredAssetsAre(init, k);
    }
  }

  /** A chain of definitions: it starts at a gameplay-critical asset and every link names the
      next one as a dependency. */
  predicate RequiredChain(xs: seq<AssetInput>, chain: seq<nat>) {
    && chain != [] && (forall t :: 0 <= t < |chain| ==> chain[t] < |xs|)
    && xs[chain[0]].gameplayCritical
    && (forall t :: 0 <= t < |chain| - 1 ==> Some(xs[chain[t + 1]].id) in xs[chain[t]].dependencies)
  }

  lemma AssetEdge(xs: seq<AssetInput>, i: nat, j: nat)
    requires AssetsQuiet(xs) && i < |xs| && j < |xs| && Some(xs[j].id) in xs[i].dependencies
    ensures var g := AssetEdges(RegisteredAssets(xs)); xs[i].id in g && xs[j].id in g[xs[i].id]
  {
    RegisteredAssetsAre(xs, i);
    RegisteredAssetsAre(xs, j);
    assert AssetQuiet(xs, j);
    assert AssetIdentifier(Some(xs[j].id));
    hide RegisteredAssets, AssetIdentifier;
    assert Some(xs[j].id).value == xs[j].id;
  }

  function ChainIds(xs: seq<AssetInput>, chain: seq<nat>): (p: seq<string>)
    requires forall t :: 0 <= t < |chain| ==> chain[t] < |xs|
    ensures |p| == |chain| && forall t :: 0 <= t < |chain| ==> p[t] == xs[chain[t]].id
  {
    seq(|chain|, t requires 0 <= t < |chain| => xs[chain[t]].id)
  }

  lemma ChainIsPath(xs: seq<AssetInput>, chain: seq<nat>)
    requires AssetsQuiet(xs) && RequiredChain(xs, chain)
    ensures Path(AssetEdges(RegisteredAssets(xs)), ChainIds(xs, chain))
    ensures ChainIds(xs, chain)[0] in Critical(RegisteredAssets(xs))
  {
    var g, path := AssetEdges(RegisteredAssets(xs)), ChainIds(xs, chain);
    RegisteredAssetsAre(xs, chain[0]);
    hide RegisteredAssets, AssetsQuiet, AssetEdges, ChainIds;
    forall t | 0 <= t < |chain| ensures path[t] in g {
      RegisteredAssetsAre(xs, chain[t]);
      EdgesOf(RegisteredAssets(xs));
    }
    forall t | 0 <= t < |chain| - 1 ensures path[t + 1] in g[path[t]] { AssetEdge(xs, chain[t], chain[t + 1]); }
  }

  lemma EdgesOf(assets: map<string, AssetInput>)
    ensures AssetEdges(assets).Keys == assets.Keys
  {}

  /** Nothing along a chain of requirements is an optional download in a valid plan. */
  lemma ValidClosure(p: WorldPlanInput, chain: seq<nat>)
    requires Complete(p) && PlanValid(p) && RequiredChain(Values(p.assets), chain)
    ensures !Values(p.assets)[chain[|chain| - 1]].optionalDownload
  {
    hide ResourcesValid, ResourceGraph, HasCycle, Values, AssetsQuiet, RegisteredAssets, AssetEdges, ChainIds, Path;
    var xs := Values(p.assets);
    var assets, path := RegisteredAssets(xs), ChainIds(xs, chain);
    ChainIsPath(xs, chain);
    var last := |chain| - 1;
    RegisteredAssetsAre(xs, chain[last]);
    EdgesOf(assets);
    assert Reachable(AssetGraph(p), Critical(assets), path[last]);
    assert path[last] !in OptionalOnes(assets);
  }

  // ---- Assets ------------------------------------------------------------------------

  /** Asset definitions taken together, without regard to the order they are read in. */
  predicate ConsistentAssets(xs: seq<AssetInput>) {
    && (forall x :: x in xs ==> AssetOk(x))
    && (forall i, j :: 0 <= i < j < |xs| ==> xs[i].id != xs[j].id)
  }

  lemma {:induction false} RegisteredAssetIds(xs: seq<AssetInput>)
    ensures forall id :: id in RegisteredAssets(xs) ==>
              RegisteredAssets(xs)[id] in xs && RegisteredAssets(xs)[id].id == id && AssetIdentifier(Some(id))
    ensures forall x :: x in xs && AssetIdentifier(Some(x.id)) ==> x.id in RegisteredAssets(xs)
  {
    if xs != [] {
      RegisteredAssetIds(xs[..|xs| - 1]);
      assert xs == xs[..|xs| - 1] + [xs[|xs| - 1]];
      hide AssetIdentifier;
    }
  }

  lemma AssetFirstSeen(xs: seq<AssetInput>, k: nat)
    requires k < |xs| && forall j :: 0 <= j <= k ==> AssetIdentifier(Some(xs[j].id))
    ensures xs[k].id !in RegisteredAssets(xs[..k]) <==> forall j :: 0 <= j < k ==> xs[j].id != xs[k].id
  {
    RegisteredAssetIds(xs[..k]);
    hide RegisteredAssets, AssetIdentifier;
    if xs[k].id in RegisteredAssets(xs[..k]) {
      var x := RegisteredAssets(xs[..k])[xs[k].id];
      var j :| 0 <= j < k && xs[..k][j] == x;
    }
    forall j | 0 <= j < k ensures xs[j].id in RegisteredAssets(xs[..k]) { assert xs[..k][j] == xs[j]; }
  }

  lemma OkAssetIdentifier(x: AssetInput)
    requires AssetOk(x)
    ensures AssetIdentifier(Some(x.id))
  {}

  /** Reading the assets front to back reports nothing exactly when they are consistent. */
  lemma AssetsQuietIsConsistent(xs: seq<AssetInput>)
    ensures AssetsQuiet(xs) <==> ConsistentAssets(xs)
  {
    hide RegisteredAssets, AssetOk;
    if forall x :: x in xs ==> AssetOk(x) {
      forall k | 0 <= k < |xs| ensures AssetIdentifier(Some(xs[k].id)) { OkAssetIdentifier(xs[k]); }
      hide AssetIdentifier;
      forall k | 0 <= k < |xs| ensures AssetQuiet(xs, k) <==> forall j :: 0 <= j < k ==> xs[j].id != xs[k].id {
        AssetFirstSeen(xs, k);
      }
      hide AssetQuiet;
      assert AssetsQuiet(xs) <==> forall j, k :: 0 <= j < k < |xs| ==> xs[j].id != xs[k].id;
    } else {
      var x :| x in xs && !AssetOk(x);
      var k :| 0 <= k < |xs| && xs[k] == x;
      assert !AssetQuiet(xs, k);
    }
  }

  /** In a valid plan the asset order places every asset once, behind all it depends on. */
  lemma ValidAssetOrder(p: WorldPlanInput, order: seq<string>, i: nat, j: nat)
    requires Complete(p) && PlanValid(p) && order == Order(AssetGraph(p), {})
    requires i < |p.assets| && j < |p.assets|
    ensures var xs := Values(p.assets);
            && NoRepeats(order) && ConsistentAssets(xs) && xs[i].id in order
            && (Some(xs[j].id) in xs[i].dependencies ==> Precedes(order, xs[j].id, xs[i].id))
  {
    hide Order, HasCycle, ResourcesValid, ResourceGraph, NoRepeats, Precedes;
    var xs := Values(p.assets);
    AssetsQuietIsConsistent(xs);
    AssetEdgesClosed(xs);
    RegisteredAssetsAre(xs, i);
    EdgesOf(RegisteredAssets(xs));
    if Some(xs[j].id) in xs[i].dependencies { AssetEdge(xs, i, j); }
    hide AssetsQuiet, AssetEdges, RegisteredAssets, ConsistentAssets;
    OrderPlaces(AssetGraph(p), order, xs[i].id);
  }

  /** And every dependency it names exists. */
  lemma ValidAssetLinks(p: WorldPlanInput, i: nat, n: Text)
    requires Complete(p) && PlanValid(p) && i < |p.assets| && n in Values(p.assets)[i].dependencies
    ensures var xs := Values(p.assets); exists j :: 0 <= j < |xs| && n == Some(xs[j].id)
  {
    hide HasCycle, ResourcesValid, ResourceGraph, AssetIdentifier;
    var xs := Values(p.assets);
    RegisteredAssetsAre(xs, i);
    RegisteredAssetIds(xs);
    assert AssetQuiet(xs, i);
    AssetIdentifierIsText(n);
    hide RegisteredAssets;
    var x := RegisteredAssets(xs)[n.value];
    var j :| 0 <= j < |xs| && xs[j] == x;
    assert n == Some(xs[j].id);
  }
}
