// The validator itself: what it reports on any plan, and what a valid plan is.

module WorldPlanValidator {
  import opened Words
  import opened OrdinalOrder
  import opened WorldPlanGraph
  import opened WorldPlanSort
  import opened WorldPlanLayers
  import opened WorldPlanClosure
  import opened WorldPlanInput
  import opened WorldPlanIssues

  datatype PlanValidation = PlanValidation(valid: bool, productionEligible: bool, sourceDigest: string,
                                           resourceOrder: seq<string>, assetOrder: seq<string>,
                                           diagnostics: seq<Diagnostic>)

  /** A dictionary's keys in some order. */
  method Enumerate(keys: set<string>) returns (s: seq<string>)
    ensures NoRepeats(s) && Elements(s) == keys
  {
    s := [];
    var rest := keys;
    while rest != {}
      invariant rest <= keys && Elements(s) == keys - rest && NoRepeats(s)
      decreases rest
    {
      var k :| k in rest;
      ElementsLast(s, k);
      s := s + [k];
      rest := rest - {k};
    }
  }

  method CheckNames(names: seq<Text>, path: string) returns (found: Issues)
    ensures found == NamesIssues(names, path)
  {
    hide Identifier;
    found := [];
    if |names| > 128 || exists n :: n in names && !Identifier(n) {
      found := found + [Diagnostic("invalid_names", path, "Invalid/bounded name list required.")];
    }
    if !Distinct(names) {
      found := found + [Diagnostic("duplicate_name", path, "Repeated identifier.")];
    }
  }

  /** Enter the identifiers of a list for an owner, reporting those already taken. */
  method Claim(m: map<string, string>, names: seq<Text>, owner: string, code: string, path: string)
    returns (claimed: map<string, string>, found: Issues)
    ensures claimed == Claimed(m, names, owner)
    ensures found == Conflicts(m, names, owner, code, path)
  {
    hide Identifier, Claimed, Conflicts, ClaimsFresh;
    NothingClaimed(m, owner);
    NoConflicts(m, owner, code, path);
    claimed, found := m, [];
    for i := 0 to |names|
      invariant claimed == Claimed(m, names[..i], owner)
      invariant found == Conflicts(m, names[..i], owner, code, path)
    {
      ClaimsNext(m, names, owner, i);
      ConflictsNext(m, names, owner, code, path, i);
      if Identifier(names[i]) {
        IdentifierIsText(names[i]);
        if names[i].value in claimed {
          found := found + [Diagnostic(code, path, names[i].value)];
        } else {
          claimed := claimed[names[i].value := owner];
        }
      }
    }
    assert names[..|names|] == names;
  }

  method CheckResource(r: ResourceInput, path: string) returns (found: Issues)
    ensures found == OwnIssues(r, path)
  {
    hide NamesIssues, Digest;
    found := [];
    if !Digest(r.artifactDigest) {
      found := found + [Diagnostic("invalid_digest", path, "Expected lower-case SHA-256.")];
    }
    var a := CheckNames(r.dependencies, path + "/dependencies");
    var b := CheckNames(r.needs, path + "/requires");
    var c := CheckNames(r.provided, path + "/provides");
    var d := CheckNames(r.mutates, path + "/mutates");
    found := found + a + b + c + d;
  }

  method ReadResources(rs: seq<ResourceInput>)
    returns (resources: map<string, ResourceInput>, services: map<string, string>, issues: Issues)
    ensures resources == Registered(rs) && services == Owners(rs, Provides)
    ensures issues == ResourceIssues(rs)
  {
    hide Identifier, OwnIssues, Conflicts, Claimed;
    resources, services, issues := map[], map[], [];
    var mutators: map<string, string> := map[];
    for k := 0 to |rs|
      invariant resources == Registered(rs[..k])
      invariant services == Owners(rs[..k], Provides) && mutators == Owners(rs[..k], Mutates)
      invariant issues == ResourceIssues(rs[..k])
    {
      var r := rs[k];
      var path := "resources/" + r.id;
      assert rs[..k + 1][..k] == rs[..k] && rs[..k + 1][k] == r;
      if !Identifier(Some(r.id)) {
        issues := issues + [Diagnostic("invalid_identifier", path, "Invalid resource identifier.")];
        continue;
      }
      var found: Issues := [];
      if r.id in resources {
        found := [Diagnostic("duplicate_resource", path, "Resource IDs must be unique.")];
      } else {
        resources := resources[r.id := r];
      }
      var a := CheckResource(r, path);
      var b, c;
      services, b := Claim(services, r.provided, r.id, "provider_conflict", path + "/provides");
      mutators, c := Claim(mutators, r.mutates, r.id, "mutator_conflict", path + "/mutates");
      assert ResourceRaises(rs[..k], r) == found + a + b + c;
      issues := issues + (found + a + b + c);
    }
    assert rs[..|rs|] == rs;
  }

  lemma MissingNext(names: seq<Text>, keys: set<string>, code: string, path: string, i: nat)
    requires i < |names|
    ensures Missing(names[..i + 1], keys, code, path) ==
              Missing(names[..i], keys, code, path) +
              if Identifier(names[i]) && names[i].value !in keys then [Diagnostic(code, path, names[i].value)] else []
  {
    hide Identifier;
    assert names[..i + 1][..i] == names[..i];
  }

  lemma KnownNext(names: seq<Text>, keys: set<string>, i: nat)
    requires i < |names|
    ensures Known(names[..i + 1], keys) ==
              Known(names[..i], keys) + if Identifier(names[i]) && names[i].value in keys then {names[i].value} else {}
  {
    assert names[..i + 1] == names[..i] + [names[i]];
    assert forall n :: n in names[..i + 1] <==> n in names[..i] || n == names[i];
    forall n | Identifier(n) ensures n.Some? {}
    hide Identifier;
  }

  lemma ProvidersNext(id: string, names: seq<Text>, services: map<string, string>, i: nat)
    requires i < |names|
    ensures Providers(id, names[..i + 1], services) ==
              Providers(id, names[..i], services) +
              if Identifier(names[i]) && names[i].value in services && services[names[i].value] != id
              then {services[names[i].value]} else {}
  {
    assert names[..i + 1] == names[..i] + [names[i]];
    assert forall n :: n in names[..i + 1] <==> n in names[..i] || n == names[i];
    forall n | Identifier(n) ensures n.Some? {}
    hide Identifier;
  }

  /** The edges of one resource, entered one at a time. */
  method Link(id: string, r: ResourceInput, resources: map<string, ResourceInput>, services: map<string, string>)
    returns (edges: set<string>, found: Issues)
    ensures edges == Known(r.dependencies, resources.Keys) + Providers(id, r.needs, services)
    ensures found == LinkIssues(id, r, resources.Keys, services.Keys)
  {
    NoNames(id, resources.Keys, services);
    hide Identifier, Known, Providers, Missing;
    edges, found := {}, [];
    for i := 0 to |r.dependencies|
      invariant edges == Known(r.dependencies[..i], resources.Keys)
      invariant found == Missing(r.dependencies[..i], resources.Keys, "missing_dependency", "resources/" + id)
    {
      var n := r.dependencies[i];
      KnownNext(r.dependencies, resources.Keys, i);
      MissingNext(r.dependencies, resources.Keys, "missing_dependency", "resources/" + id, i);
      if Identifier(n) {
        IdentifierIsText(n);
        if n.value !in resources {
          found := found + [Diagnostic("missing_dependency", "resources/" + id, n.value)];
        } else {
          edges := edges + {n.value};
        }
      }
    }
    assert r.dependencies[..|r.dependencies|] == r.dependencies;
    ghost var known, missing := edges, found;
    for i := 0 to |r.needs|
      invariant edges == known + Providers(id, r.needs[..i], services)
      invariant found == missing + Missing(r.needs[..i], services.Keys, "missing_provider", "resources/" + id)
    {
      var n := r.needs[i];
      ProvidersNext(id, r.needs, services, i);
      MissingNext(r.needs, services.Keys, "missing_provider", "resources/" + id, i);
      if Identifier(n) {
        IdentifierIsText(n);
        if n.value !in services {
          found := found + [Diagnostic("missing_provider", "resources/" + id, n.value)];
        } else if services[n.value] != id {
          edges := edges + {services[n.value]};
        }
      }
    }
    assert r.needs[..|r.needs|] == r.needs;
  }

  lemma NoNames(id: string, keys: set<string>, services: map<string, string>)
    ensures Known([], keys) == {} && Providers(id, [], services) == {}
    ensures Missing([], keys, "missing_dependency", "resources/" + id) == []
    ensures Missing([], services.Keys, "missing_provider", "resources/" + id) == []
  {}

  /** A diagnostic about a name that resource id mentions. */
  predicate LinkRaises(resources: map<string, ResourceInput>, services: map<string, string>, id: string,
                       d: Diagnostic) {
    id in resources && d in LinkIssues(id, resources[id], resources.Keys, services.Keys)
  }

  /** The edges of the resources visited so far, and what they raised. */
  ghost predicate Linked(resources: map<string, ResourceInput>, services: map<string, string>, visited: set<string>,
                         edges: Graph, issues: Issues)
  {
    && edges.Keys == visited && visited <= resources.Keys
    && (forall id :: id in edges ==> edges[id] == ResourceEdges(resources, services)[id])
    && (forall d :: d in issues <==> exists id :: id in visited && LinkRaises(resources, services, id, d))
  }

  lemma LinkNext(resources: map<string, ResourceInput>, services: map<string, string>, visited: set<string>,
                 edges: Graph, issues: Issues, id: string, found: Issues)
    requires Linked(resources, services, visited, edges, issues) && id in resources
    requires found == LinkIssues(id, resources[id], resources.Keys, services.Keys)
    ensures Linked(resources, services, visited + {id}, edges[id := ResourceEdges(resources, services)[id]],
                   issues + found)
  {
    hide ResourceEdges, LinkIssues;
    forall d ensures d in issues + found <==> exists k :: k in visited + {id} && LinkRaises(resources, services, k, d) {
      assert d in found <==> LinkRaises(resources, services, id, d);
    }
  }

  lemma AllLinked(resources: map<string, ResourceInput>, services: map<string, string>, edges: Graph, issues: Issues)
    requires Linked(resources, services, resources.Keys, edges, issues)
    ensures edges == ResourceEdges(resources, services)
  {
    hide Known, Providers, LinkRaises;
  }

  method LinkResources(resources: map<string, ResourceInput>, services: map<string, string>)
    returns (edges: Graph, issues: Issues)
    ensures edges == ResourceEdges(resources, services)
    ensures forall d :: d in issues <==> exists id :: LinkRaises(resources, services, id, d)
  {
    hide Known, Providers, LinkIssues, Linked, Elements, NoRepeats;
    var keys := Enumerate(resources.Keys);
    Members(keys, resources.Keys);
    edges, issues := map[], [];
    assert Linked(resources, services, Elements(keys[..0]), edges, issues) by { NothingLinked(resources, services); }
    for i := 0 to |keys|
      invariant Linked(resources, services, Elements(keys[..i]), edges, issues)
    {
      var id := keys[i];
      ElementsNext(keys, i);
      assert id in keys;
      var dependencies, found := Link(id, resources[id], resources, services);
      LinkNext(resources, services, Elements(keys[..i]), edges, issues, id, found);
      edges := edges[id := dependencies];
      issues := issues + found;
    }
    assert keys[..|keys|] == keys;
    AllLinked(resources, services, edges, issues);
    LinkedRaises(resources, services, edges, issues);
  }

  lemma LinkedRaises(resources: map<string, ResourceInput>, services: map<string, string>, edges: Graph, issues: Issues)
    requires Linked(resources, services, resources.Keys, edges, issues)
    ensures forall d :: d in issues <==> exists id :: LinkRaises(resources, services, id, d)
  {
    hide ResourceEdges, LinkIssues;
  }

  lemma NothingLinked(resources: map<string, ResourceInput>, services: map<string, string>)
    ensures Linked(resources, services, Elements([]), map[], [])
  {}

  /** Something missing is raised, and only that. */
  lemma LoudLink(resources: map<string, ResourceInput>, services: map<string, string>, id: string)
      returns (d: Diagnostic)
    requires id in resources && !LinkQuiet(resources, services, resources[id])
    ensures LinkRaises(resources, services, id, d)
  {
    var raised := LinkIssues(id, resources[id], resources.Keys, services.Keys);
    LinkSilent(id, resources[id], resources, services);
    hide LinkIssues, LinkQuiet;
    d := raised[0];
    assert d in raised;
  }

  lemma QuietLink(resources: map<string, ResourceInput>, services: map<string, string>, id: string, d: Diagnostic)
    requires LinkRaises(resources, services, id, d)
    ensures id in resources && !LinkQuiet(resources, services, resources[id])
  {
    LinkSilent(id, resources[id], resources, services);
    hide LinkIssues, LinkQuiet;
  }

  /** Nothing is raised exactly when nothing is missing. */
  lemma LinksSilent(resources: map<string, ResourceInput>, services: map<string, string>, issues: Issues)
    requires forall d :: d in issues <==> exists id :: LinkRaises(resources, services, id, d)
    ensures issues == [] <==> LinksQuiet(resources, services)
  {
    hide LinkRaises, LinkQuiet;
    if !LinksQuiet(resources, services) {
      var id :| id in resources && !LinkQuiet(resources, services, resources[id]);
      var d := LoudLink(resources, services, id);
      assert d in issues;
    }
    if issues != [] {
      var d := issues[0];
      assert d in issues;
      var id :| LinkRaises(resources, services, id, d);
      QuietLink(resources, services, id, d);
    }
  }

  method ReadAssets(xs: seq<AssetInput>) returns (assets: map<string, AssetInput>, issues: Issues)
    ensures assets == RegisteredAssets(xs)
    ensures issues == AssetIssues(xs)
  {
    hide AssetIdentifier, OwnAssetIssues;
    assets, issues := map[], [];
    for k := 0 to |xs|
      invariant assets == RegisteredAssets(xs[..k])
      invariant issues == AssetIssues(xs[..k])
    {
      var x := xs[k];
      var path := "assets/" + x.id;
      assert xs[..k + 1][..k] == xs[..k] && xs[..k + 1][k] == x;
      if !AssetIdentifier(Some(x.id)) {
        issues := issues + [Diagnostic("invalid_asset_id", path, "Invalid namespaced AssetRef.")];
        continue;
      }
      var found: Issues := [];
      if x.id in assets {
        found := found + [Diagnostic("duplicate_asset", path, "AssetRef must be unique.")];
      } else {
        assets := assets[x.id := x];
      }
      var more := CheckAsset(x, path);
      assert AssetRaises(xs[..k], x) == found + more;
      issues := issues + (found + more);
    }
    assert xs[..|xs|] == xs;
  }

  method CheckAsset(x: AssetInput, path: string) returns (found: Issues)
    ensures found == OwnAssetIssues(x, path)
  {
    hide AssetIdentifier, Digest;
    found := [];
    if !Digest(x.artifactDigest) {
      found := found + [Diagnostic("invalid_digest", path, "Expected lower-case SHA-256.")];
    }
    if x.gameplayCritical && x.optionalDownload {
      found := found + [Diagnostic("critical_optional_asset", path, "Gameplay closure cannot be optional.")];
    }
    if |x.dependencies| > 256 || exists n :: n in x.dependencies && !AssetIdentifier(n) {
      found := found + [Diagnostic("invalid_dependencies", path, "Invalid/bounded dependency list required.")];
    }
    if !Distinct(x.dependencies) {
      found := found + [Diagnostic("duplicate_dependency", path, "Repeated dependency.")];
    }
  }

  lemma AssetLinksNext(id: string, names: seq<Text>, keys: set<string>, i: nat)
    requires i < |names|
    ensures KnownAssets(names[..i + 1], keys) ==
              KnownAssets(names[..i], keys) +
              if AssetIdentifier(names[i]) && names[i].value in keys then {names[i].value} else {}
    ensures MissingAssets(id, names[..i + 1], keys) ==
              MissingAssets(id, names[..i], keys) +
              if AssetIdentifier(names[i]) && names[i].value !in keys
              then [Diagnostic("missing_asset", "assets/" + id, names[i].value)] else []
  {
    assert names[..i + 1][..i] == names[..i];
    assert names[..i + 1] == names[..i] + [names[i]];
    assert forall n :: n in names[..i + 1] <==> n in names[..i] || n == names[i];
    forall n | AssetIdentifier(n) ensures n.Some? {}
    hide AssetIdentifier;
  }

  method LinkAsset(id: string, x: AssetInput, assets: map<string, AssetInput>)
      returns (edges: set<string>, found: Issues)
    ensures edges == KnownAssets(x.dependencies, assets.Keys)
    ensures found == MissingAssets(id, x.dependencies, assets.Keys)
  {
    NoAssetNames(id, assets.Keys);
    hide AssetIdentifier, MissingAssets, KnownAssets;
    edges, found := {}, [];
    for i := 0 to |x.dependencies|
      invariant edges == KnownAssets(x.dependencies[..i], assets.Keys)
      invariant found == MissingAssets(id, x.dependencies[..i], assets.Keys)
    {
      var n := x.dependencies[i];
      AssetLinksNext(id, x.dependencies, assets.Keys, i);
      if AssetIdentifier(n) {
        AssetIdentifierIsText(n);
        if n.value !in assets {
          found := found + [Diagnostic("missing_asset", "assets/" + id, n.value)];
        } else {
          edges := edges + {n.value};
        }
      }
    }
    assert x.dependencies[..|x.dependencies|] == x.dependencies;
  }

  lemma NoAssetNames(id: string, keys: set<string>)
    ensures KnownAssets([], keys) == {} && MissingAssets(id, [], keys) == []
  {}

  predicate AssetLinkRaises(assets: map<string, AssetInput>, id: string, d: Diagnostic) {
    id in assets && d in MissingAssets(id, assets[id].dependencies, assets.Keys)
  }

  ghost predicate AssetsLinked(assets: map<string, AssetInput>, visited: set<string>, edges: Graph, issues: Issues) {
    && edges.Keys == visited && visited <= assets.Keys
    && (forall id :: id in edges ==> edges[id] == AssetEdges(assets)[id])
    && (forall d :: d in issues <==> exists id :: id in visited && AssetLinkRaises(assets, id, d))
  }

  lemma AssetLinkNext(assets: map<string, AssetInput>, visited: set<string>, edges: Graph, issues: Issues,
                      id: string, found: Issues)
    requires AssetsLinked(assets, visited, edges, issues) && id in assets
    requires found == MissingAssets(id, assets[id].dependencies, assets.Keys)
    ensures AssetsLinked(assets, visited + {id}, edges[id := AssetEdges(assets)[id]], issues + found)
  {
    hide AssetEdges, MissingAssets;
    forall d ensures d in issues + found <==> exists k :: k in visited + {id} && AssetLinkRaises(assets, k, d) {
      assert d in found <==> AssetLinkRaises(assets, id, d);
    }
  }

  lemma AllAssetsLinked(assets: map<string, AssetInput>, edges: Graph, issues: Issues)
    requires AssetsLinked(assets, assets.Keys, edges, issues)
    ensures edges == AssetEdges(assets)
    ensures forall d :: d in issues <==> exists id :: AssetLinkRaises(assets, id, d)
  {
    hide KnownAssets, MissingAssets;
  }

  lemma NoAssetsLinked(assets: map<string, AssetInput>)
    ensures AssetsLinked(assets, Elements([]), map[], [])
  {}

  method LinkAssets(assets: map<string, AssetInput>) returns (edges: Graph, issues: Issues)
    ensures edges == AssetEdges(assets)
    ensures forall d :: d in issues <==> exists id :: AssetLinkRaises(assets, id, d)
  {
    hide KnownAssets, MissingAssets, AssetsLinked, Elements, NoRepeats;
    var keys := Enumerate(assets.Keys);
    Members(keys, assets.Keys);
    edges, issues := map[], [];
    assert AssetsLinked(assets, Elements(keys[..0]), edges, issues) by { NoAssetsLinked(assets); }
    for i := 0 to |keys|
      invariant AssetsLinked(assets, Elements(keys[..i]), edges, issues)
    {
      var id := keys[i];
      ElementsNext(keys, i);
      assert id in keys;
      var dependencies, found := LinkAsset(id, assets[id], assets);
      AssetLinkNext(assets, Elements(keys[..i]), edges, issues, id, found);
      edges := edges[id := dependencies];
      issues := issues + found;
    }
    assert keys[..|keys|] == keys;
    AllAssetsLinked(assets, edges, issues);
  }

  lemma LoudAsset(assets: map<string, AssetInput>, id: string) returns (d: Diagnostic)
    requires id in assets && !AssetLinkQuiet(assets, assets[id])
    ensures AssetLinkRaises(assets, id, d)
  {
    var raised := MissingAssets(id, assets[id].dependencies, assets.Keys);
    AssetIsQuiet(assets, id);
    hide MissingAssets, AssetLinkQuiet;
    d := raised[0];
    assert d in raised;
  }

  lemma AssetIsQuiet(assets: map<string, AssetInput>, id: string)
    requires id in assets
    ensures MissingAssets(id, assets[id].dependencies, assets.Keys) == [] <==> AssetLinkQuiet(assets, assets[id])
  {
    MissingAssetsSilent(id, assets[id], assets[id].dependencies, assets);
    assert assets[id].(dependencies := assets[id].dependencies) == assets[id];
    hide MissingAssets, AssetLinkQuiet;
  }

  lemma QuietAsset(assets: map<string, AssetInput>, id: string, d: Diagnostic)
    requires AssetLinkRaises(assets, id, d)
    ensures id in assets && !AssetLinkQuiet(assets, assets[id])
  {
    AssetIsQuiet(assets, id);
    hide MissingAssets, AssetLinkQuiet;
  }

  lemma AssetLinksSilent(assets: map<string, AssetInput>, issues: Issues)
    requires forall d :: d in issues <==> exists id :: AssetLinkRaises(assets, id, d)
    ensures issues == [] <==> forall id :: id in assets ==> AssetLinkQuiet(assets, assets[id])
  {
    hide AssetLinkRaises, AssetLinkQuiet;
    if id :| id in assets && !AssetLinkQuiet(assets, assets[id]) {
      var d := LoudAsset(assets, id);
      assert d in issues;
    }
    if issues != [] {
      var d := issues[0];
      assert d in issues;
      var id :| AssetLinkRaises(assets, id, d);
      QuietAsset(assets, id, d);
    }
  }

  // ---- The whole plan --------------------------------------------------------------

  method CheckCapabilities(required: seq<Text>, available: seq<Text>) returns (issues: Issues)
    ensures issues == CapabilityIssues(required, available)
  {
    hide Identifier, NamesIssues;
    var a := CheckNames(required, "requiredCapabilities");
    var b := CheckNames(available, "availableCapabilities");
    issues := a + b;
    for i := 0 to |required|
      invariant issues == a + b + Unmet(required[..i], available)
    {
      var n := required[i];
      assert required[..i + 1][..i] == required[..i];
      if Identifier(n) && n !in available {
        IdentifierIsText(n);
        issues := issues + [Diagnostic("missing_capability", "requiredCapabilities", n.value)];
      }
    }
    assert required[..|required|] == required;
  }

  function Join(names: seq<string>): string {
    if names == [] then "" else if |names| == 1 then names[0] else names[0] + ", " + Join(names[1..])
  }

  /** One sorted graph: the order, and the one diagnostic a cycle raises, which names exactly
      the keys that can reach it. */
  method SortGraph(g: Graph, path: string) returns (order: seq<string>, issues: Issues)
    requires Closed(g)
    ensures order == Order(g, {})
    ensures CycleIssues(g, path, issues)
  {
    hide *;
    var keys := Enumerate(g.Keys);
    var cycle;
    order, cycle := Sort(keys, g);
    OrderReported(g, order, cycle);
    CycleReportedIffCycle(g, order, cycle);
    CycleIssuesAre(g, path, cycle);
    issues := if cycle.Some? then [Diagnostic("dependency_cycle", path, Join(cycle.value))] else [];
  }

  lemma CycleIssuesAre(g: Graph, path: string, cycle: Option<seq<string>>)
    requires cycle.Some? <==> HasCycle(g)
    requires cycle.Some? ==> cycle.value == Listing(CycleReachers(g))
    ensures CycleIssues(g, path, if cycle.Some? then [Diagnostic("dependency_cycle", path, Join(cycle.value))] else [])
  {
    hide HasCycle, Listing, CycleReachers, Join;
  }

  lemma OrderReported(g: Graph, order: seq<string>, cycle: Option<seq<string>>)
    requires Reports(g, order, cycle)
    ensures order == Order(g, {})
  {}

  lemma CriticalAreKeys(assets: map<string, AssetInput>)
    ensures Critical(assets) <= assets.Keys
  {}

  lemma ReportedAre(reported: seq<string>, critical: set<string>, optional: set<string>)
    requires Reported(reported, critical, optional)
    ensures forall id :: id in reported <==> id in critical && id in optional
  {
    forall id ensures id in reported <==> id in critical && id in optional {
      assert id in Elements(reported) <==> id in reported;
    }
  }

  ghost predicate ClosureRaises(assets: map<string, AssetInput>, g: Graph, id: string, d: Diagnostic) {
    id in ReachableSet(g, Critical(assets)) && id in OptionalOnes(assets) && d == ClosureIssue(id)
  }

  /** Spreading requiredness over the assets: one diagnostic for each optional asset that a
      critical one reaches. */
  method CheckClosure(assets: map<string, AssetInput>, g: Graph) returns (issues: Issues)
    requires Closed(g) && g.Keys == assets.Keys
    ensures forall d :: d in issues <==> exists id :: ClosureRaises(assets, g, id, d)
  {
    CriticalAreKeys(assets);
    hide Closed, Critical, OptionalOnes, ReachableSet, Elements, NoRepeats, Reported, ClosureIssue;
    var roots := Enumerate(Critical(assets));
    var critical, reported := Close(roots, g, OptionalOnes(assets));
    ReportedAre(reported, critical, OptionalOnes(assets));
    issues := [];
    for i := 0 to |reported|
      invariant |issues| == i && forall k :: 0 <= k < i ==> issues[k] == ClosureIssue(reported[k])
    {
      issues := issues + [ClosureIssue(reported[i])];
    }
    forall id, d | ClosureRaises(assets, g, id, d) ensures d in issues {
      var k :| 0 <= k < |reported| && reported[k] == id;
      assert issues[k] == d;
    }
    forall d | d in issues ensures exists id :: ClosureRaises(assets, g, id, d) {
      var k :| 0 <= k < |issues| && issues[k] == d;
      assert ClosureRaises(assets, g, reported[k], d);
    }
  }

  lemma ClosureSilent(assets: map<string, AssetInput>, g: Graph, issues: Issues)
    requires forall d :: d in issues <==> exists id :: ClosureRaises(assets, g, id, d)
    ensures issues == [] <==> ReachableSet(g, Critical(assets)) !! OptionalOnes(assets)
  {
    hide ReachableSet, Critical, OptionalOnes, ClosureIssue;
    if issues != [] {
      assert issues[0] in issues;
      var id :| ClosureRaises(assets, g, id, issues[0]);
    } else {
      forall id | id in ReachableSet(g, Critical(assets)) ensures id !in OptionalOnes(assets) {
        assert ClosureIssue(id) !in issues;
        assert !ClosureRaises(assets, g, id, ClosureIssue(id));
      }
    }
  }

  function Values<T>(s: seq<Option<T>>): (r: seq<T>)
    requires forall x :: x in s ==> x.Some?
    ensures |r| == |s| && forall i :: 0 <= i < |s| ==> s[i] == Some(r[i])
  {
    if s == [] then [] else [s[0].value] + Values(s[1..])
  }

  predicate TooLarge(p: WorldPlanInput) {
    |p.resources| > 64 || |p.assets| > 256 || |p.requiredCapabilities| > 128 || |p.availableCapabilities| > 128
  }

  predicate Complete(p: WorldPlanInput) {
    (forall x :: x in p.resources ==> x.Some?) && (forall x :: x in p.assets ==> x.Some?)
  }

  function ResourceGraph(p: WorldPlanInput): Graph
    requires Complete(p)
  {
    ResourceEdges(Registered(Values(p.resources)), Owners(Values(p.resources), Provides))
  }

  function AssetGraph(p: WorldPlanInput): Graph
    requires Complete(p)
  {
    AssetEdges(RegisteredAssets(Values(p.assets)))
  }

  ghost predicate ResourcesValid(p: WorldPlanInput)
    requires Complete(p)
  {
    var rs := Values(p.resources);
    ResourcesQuiet(rs) && LinksQuiet(Registered(rs), Owners(rs, Provides))
  }

  ghost predicate AssetsValid(p: WorldPlanInput)
    requires Complete(p)
  {
    var xs := Values(p.assets);
    var assets := RegisteredAssets(xs);
    && AssetsQuiet(xs) && (forall id :: id in assets ==> AssetLinkQuiet(assets, assets[id]))
    && ReachableSet(AssetGraph(p), Critical(assets)) !! OptionalOnes(assets)
  }

  /** Everything a plan has to be. */
  ghost predicate PlanValid(p: WorldPlanInput)
    requires Complete(p)
  {
    && p.schemaVersion == 1 && Identifier(Some(p.worldId))
    && ResourcesValid(p) && AssetsValid(p)
    && NamesOk(p.requiredCapabilities) && NamesOk(p.availableCapabilities)
    && CapabilitiesMet(p.requiredCapabilities, p.availableCapabilities) && BudgetOk(p.recovery)
    && !HasCycle(ResourceGraph(p)) && !HasCycle(AssetGraph(p))
  }

  /** What the resources of a plan raise, and what its assets raise. */
  ghost predicate ResourcesRaise(p: WorldPlanInput, d: Diagnostic)
    requires Complete(p)
  {
    var rs := Values(p.resources);
    d in ResourceIssues(rs) || exists id :: LinkRaises(Registered(rs), Owners(rs, Provides), id, d)
  }

  ghost predicate AssetsRaise(p: WorldPlanInput, d: Diagnostic)
    requires Complete(p)
  {
    var xs := Values(p.assets);
    || d in AssetIssues(xs)
    || (exists id :: AssetLinkRaises(RegisteredAssets(xs), id, d))
    || exists id :: ClosureRaises(RegisteredAssets(xs), AssetGraph(p), id, d)
  }

  function SchemaIssues(p: WorldPlanInput): Issues {
    (if p.schemaVersion != 1
     then [Diagnostic("unsupported_schema", "schemaVersion", "D1 foundation accepts version 1 only.")] else []) +
    (if !Identifier(Some(p.worldId))
     then [Diagnostic("invalid_identifier", "worldId", "Use a bounded lower-case identifier.")] else [])
  }

  function BudgetIssues(p: WorldPlanInput): Issues {
    if !BudgetOk(p.recovery)
    then [Diagnostic("invalid_recovery_budget", "recovery", "D1 bounded profile or hierarchy violated.")] else []
  }

  /** A cycle raises one diagnostic, which names exactly the keys that can reach it. */
  ghost predicate CycleIssues(g: Graph, path: string, issues: Issues) {
    issues == if HasCycle(g) then [Diagnostic("dependency_cycle", path, Join(Listing(CycleReachers(g))))] else []
  }

  ghost predicate CycleRaises(g: Graph, path: string, d: Diagnostic) {
    HasCycle(g) && d == Diagnostic("dependency_cycle", path, Join(Listing(CycleReachers(g))))
  }

  /** Everything a plan is reported for. */
  ghost predicate Raises(p: WorldPlanInput, d: Diagnostic)
    requires Complete(p)
  {
    || d in SchemaIssues(p) || ResourcesRaise(p, d) || AssetsRaise(p, d)
    || d in CapabilityIssues(p.requiredCapabilities, p.availableCapabilities) || d in BudgetIssues(p)
    || CycleRaises(ResourceGraph(p), "resources", d) || CycleRaises(AssetGraph(p), "assets", d)
  }

  method CheckResources(p: WorldPlanInput) returns (g: Graph, issues: Issues)
    requires Complete(p)
    ensures g == ResourceGraph(p) && Closed(g)
    ensures forall d :: d in issues <==> ResourcesRaise(p, d)
    ensures issues == [] <==> ResourcesValid(p)
  {
    hide Registered, Owners, ResourceEdges, ResourcesQuiet, LinksQuiet, Closed, ResourceIssues, LinkRaises;
    var rs := Values(p.resources);
    var resources, services, a := ReadResources(rs);
    var b;
    g, b := LinkResources(resources, services);
    ResourceEdgesClosed(rs);
    ResourcesSilent(rs);
    LinksSilent(resources, services, b);
    issues := a + b;
  }

  method CheckAssets(p: WorldPlanInput) returns (g: Graph, issues: Issues)
    requires Complete(p)
    ensures g == AssetGraph(p) && Closed(g)
    ensures forall d :: d in issues <==> AssetsRaise(p, d)
    ensures issues == [] <==> AssetsValid(p)
  {
    var xs := Values(p.assets);
    EdgeKeys(RegisteredAssets(xs));
    hide RegisteredAssets, AssetEdges, AssetsQuiet, Closed, AssetLinkQuiet, ReachableSet, Critical, OptionalOnes,
         AssetIssues, AssetLinkRaises, ClosureRaises;
    var assets, a := ReadAssets(xs);
    var b;
    g, b := LinkAssets(assets);
    AssetEdgesClosed(xs);
    var c := CheckClosure(assets, g);
    AssetsSilent(xs);
    AssetLinksSilent(assets, b);
    ClosureSilent(assets, g, c);
    issues := a + b + c;
  }

  lemma EdgeKeys(assets: map<string, AssetInput>)
    ensures AssetEdges(assets).Keys == assets.Keys
  {}

  /** What the decoder makes of the bytes: a document, or the message of its exception. */
  datatype Decoding = Undecodable(message: string) | Decoded(plan: WorldPlanInput)

  function Unread(digest: string, issue: Diagnostic): PlanValidation {
    PlanValidation(false, false, digest, [], [], [issue])
  }

  /** Validate; the digest is that of the bytes. */
  method Validate(document: Decoding, digest: string) returns (r: PlanValidation)
    ensures document.Undecodable? ==> r == Unread("", Diagnostic("invalid_document", "$", document.message))
    ensures document.Decoded? && TooLarge(document.plan) ==>
              r == Unread(digest, Diagnostic("collection_limit", "$", "Plan cardinality exceeded."))
    ensures document.Decoded? && !TooLarge(document.plan) && !Complete(document.plan) ==>
              r == Unread(digest, Diagnostic("null_element", "$", "Null definition is not allowed."))
    ensures document.Decoded? && !TooLarge(document.plan) && Complete(document.plan) ==>
              var p := document.plan;
              && (r.valid <==> PlanValid(p)) && (r.valid <==> r.diagnostics == []) && !r.productionEligible
              && (forall d :: d in r.diagnostics <==> Raises(p, d)) && r.sourceDigest == digest
              && r.resourceOrder == Order(ResourceGraph(p), {}) && r.assetOrder == Order(AssetGraph(p), {})
  {
    hide PlanValid, Raises, ResourcesValid, AssetsValid, HasCycle, ResourceGraph, AssetGraph, Order, Closed,
         ResourcesRaise, AssetsRaise, CapabilityIssues, SchemaIssues, BudgetIssues, CycleIssues;
    if document.Undecodable? {
      return PlanValidation(false, false, "", [], [], [Diagnostic("invalid_document", "$", document.message)]);
    }
    var p := document.plan;
    var issues := CheckSchema(p);
    if |p.resources| > 64 || |p.assets| > 256 || |p.requiredCapabilities| > 128 || |p.availableCapabilities| > 128 {
      return PlanValidation(false, false, digest, [], [],
                            [Diagnostic("collection_limit", "$", "Plan cardinality exceeded.")]);
    }
    if (exists x :: x in p.resources && x.None?) || (exists x :: x in p.assets && x.None?) {
      return PlanValidation(false, false, digest, [], [],
                            [Diagnostic("null_element", "$", "Null definition is not allowed.")]);
    }
    var edges, a := CheckResources(p);
    var assetEdges, b := CheckAssets(p);
    var c := CheckCapabilities(p.requiredCapabilities, p.availableCapabilities);
    var f := CheckBudget(p);
    var order, d := SortGraph(edges, "resources");
    var assetOrder, e := SortGraph(assetEdges, "assets");
    AllRaised(p, issues, a, b, c, f, d, e);
    issues := issues + a + b + c + f + d + e;
    return PlanValidation(|issues| == 0, false, digest, order, assetOrder, issues);
  }

  method CheckSchema(p: WorldPlanInput) returns (issues: Issues)
    ensures issues == SchemaIssues(p)
  {
    hide Identifier;
    issues := [];
    if p.schemaVersion != 1 {
      issues := issues + [Diagnostic("unsupported_schema", "schemaVersion", "D1 foundation accepts version 1 only.")];
    }
    if !Identifier(Some(p.worldId)) {
      issues := issues + [Diagnostic("invalid_identifier", "worldId", "Use a bounded lower-case identifier.")];
    }
  }

  method CheckBudget(p: WorldPlanInput) returns (issues: Issues)
    ensures issues == BudgetIssues(p)
  {
    hide BudgetOk;
    issues := [];
    if !BudgetOk(p.recovery) {
      issues := issues
        + [Diagnostic("invalid_recovery_budget", "recovery", "D1 bounded profile or hierarchy violated.")];
    }
  }

  /** The parts together: they are what the plan raises, and silent exactly for a valid one. */
  lemma AllRaised(p: WorldPlanInput, s: Issues, a: Issues, b: Issues, c: Issues, f: Issues, d: Issues, e: Issues)
    requires Complete(p) && s == SchemaIssues(p) && f == BudgetIssues(p)
    requires c == CapabilityIssues(p.requiredCapabilities, p.availableCapabilities)
    requires (forall x :: x in a <==> ResourcesRaise(p, x)) && (a == [] <==> ResourcesValid(p))
    requires (forall x :: x in b <==> AssetsRaise(p, x)) && (b == [] <==> AssetsValid(p))
    requires CycleIssues(ResourceGraph(p), "resources", d) && CycleIssues(AssetGraph(p), "assets", e)
    ensures forall x :: x in s + a + b + c + f + d + e <==> Raises(p, x)
    ensures s + a + b + c + f + d + e == [] <==> PlanValid(p)
  {
    CapabilitiesSilent(p.requiredCapabilities, p.availableCapabilities);
    SchemaSilent(p);
    BudgetSilent(p);
    hide Identifier, ResourcesValid, AssetsValid, NamesOk, CapabilitiesMet, HasCycle, ResourceGraph, AssetGraph,
         Listing, CycleReachers, Join, ResourcesRaise, AssetsRaise, CapabilityIssues, BudgetOk, SchemaIssues,
         BudgetIssues;
  }

  lemma SchemaSilent(p: WorldPlanInput)
    ensures SchemaIssues(p) == [] <==> p.schemaVersion == 1 && Identifier(Some(p.worldId))
  {
    hide Identifier;
  }

  lemma BudgetSilent(p: WorldPlanInput)
    ensures BudgetIssues(p) == [] <==> BudgetOk(p.recovery)
  {
    hide BudgetOk;
  }
}
