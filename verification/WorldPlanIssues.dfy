// What the validator reports, as functions of the plan: every list of
// diagnostics the source fills, and the proof that each is empty exactly when
// the part it is about is in order.

module WorldPlanIssues {
  import opened Words
  import opened WorldPlanInput

  datatype Diagnostic = Diagnostic(code: string, path: string, message: string)

  type Issues = seq<Diagnostic>

  function NamesIssues(names: seq<Text>, path: string): Issues {
    (if |names| > 128 || exists n :: n in names && !Identifier(n)
     then [Diagnostic("invalid_names", path, "Invalid/bounded name list required.")] else []) +
    (if !Distinct(names) then [Diagnostic("duplicate_name", path, "Repeated identifier.")] else [])
  }

  lemma NamesSilent(names: seq<Text>, path: string)
    ensures NamesIssues(names, path) == [] <==> NamesOk(names)
  {
    hide Identifier;
  }

  // ---- Claims ----------------------------------------------------------------

  /** The names of a list that were taken when their turn came. */
  function Conflicts(m: map<string, string>, names: seq<Text>, owner: string, code: string, path: string): Issues {
    if names == [] then []
    else
      var init, n := names[..|names| - 1], names[|names| - 1];
      Conflicts(m, init, owner, code, path) +
      if Identifier(n) && n.value in Claimed(m, init, owner) then [Diagnostic(code, path, n.value)] else []
  }

  lemma NothingClaimed(m: map<string, string>, owner: string)
    ensures Claimed(m, [], owner) == m && ClaimsFresh(m, [], owner)
  {}

  lemma NoConflicts(m: map<string, string>, owner: string, code: string, path: string)
    ensures Conflicts(m, [], owner, code, path) == []
  {}

  lemma ClaimsNext(m: map<string, string>, names: seq<Text>, owner: string, i: nat)
    requires i < |names|
    ensures var c, n := Claimed(m, names[..i], owner), names[i];
            && Claimed(m, names[..i + 1], owner) == (if !Identifier(n) || n.value in c then c else c[n.value := owner])
            && (ClaimsFresh(m, names[..i + 1], owner) <==>
                  ClaimsFresh(m, names[..i], owner) && (Identifier(n) ==> n.value !in c))
  {
    hide Identifier;
    var b := names[..i + 1];
    assert b[..i] == names[..i] && b[i] == names[i];
    assert forall k :: 0 <= k < i ==> b[..k] == names[..i][..k] && b[k] == names[..i][k];
    if Identifier(names[i]) { IdentifierIsText(names[i]); }
    forall k | 0 <= k <= i && Identifier(b[k]) ensures b[k].Some? { IdentifierIsText(b[k]); }
  }

  lemma ConflictsNext(m: map<string, string>, names: seq<Text>, owner: string, code: string, path: string, i: nat)
    requires i < |names|
    ensures Conflicts(m, names[..i + 1], owner, code, path) ==
              Conflicts(m, names[..i], owner, code, path) +
              if Identifier(names[i]) && names[i].value in Claimed(m, names[..i], owner)
              then [Diagnostic(code, path, names[i].value)] else []
  {
    hide Identifier, Claimed;
    assert names[..i + 1][..i] == names[..i];
  }

  lemma {:induction false} ConflictsSilent(m: map<string, string>, names: seq<Text>, owner: string, code: string,
                                           path: string)
    ensures Conflicts(m, names, owner, code, path) == [] <==> ClaimsFresh(m, names, owner)
  {
    if names == [] {
      NothingClaimed(m, owner);
    } else {
      var last := |names| - 1;
      assert names[..last + 1] == names;
      ConflictsSilent(m, names[..last], owner, code, path);
      ClaimsNext(m, names, owner, last);
      ConflictsNext(m, names, owner, code, path, last);
      hide Identifier, Claimed, ClaimsFresh, Conflicts;
    }
  }

  // ---- Resources -----------------------------------------------------------------

  /** What a definition raises on its own. */
  function OwnIssues(r: ResourceInput, path: string): Issues {
    (if !Digest(r.artifactDigest) then [Diagnostic("invalid_digest", path, "Expected lower-case SHA-256.")] else []) +
    NamesIssues(r.dependencies, path + "/dependencies") + NamesIssues(r.needs, path + "/requires") +
    NamesIssues(r.provided, path + "/provides") + NamesIssues(r.mutates, path + "/mutates")
  }

  lemma OwnSilent(r: ResourceInput, path: string)
    ensures OwnIssues(r, path) == [] && Identifier(Some(r.id)) <==> ResourceOk(r)
  {
    NamesSilent(r.dependencies, path + "/dependencies");
    NamesSilent(r.needs, path + "/requires");
    NamesSilent(r.provided, path + "/provides");
    NamesSilent(r.mutates, path + "/mutates");
    hide Identifier, NamesOk, NamesIssues, Digest;
  }

  /** What the definition r raises behind the definitions before. */
  function ResourceRaises(before: seq<ResourceInput>, r: ResourceInput): Issues {
    var path := "resources/" + r.id;
    if !Identifier(Some(r.id)) then [Diagnostic("invalid_identifier", path, "Invalid resource identifier.")]
    else
      (if r.id in Registered(before)
       then [Diagnostic("duplicate_resource", path, "Resource IDs must be unique.")]
       else []) +
      OwnIssues(r, path) +
      Conflicts(Owners(before, Provides), r.provided, r.id, "provider_conflict", path + "/provides") +
      Conflicts(Owners(before, Mutates), r.mutates, r.id, "mutator_conflict", path + "/mutates")
  }

  function ResourceIssues(rs: seq<ResourceInput>): Issues {
    if rs == [] then [] else ResourceIssues(rs[..|rs| - 1]) + ResourceRaises(rs[..|rs| - 1], rs[|rs| - 1])
  }

  lemma ResourceSilent(rs: seq<ResourceInput>, k: nat)
    requires k < |rs|
    ensures ResourceRaises(rs[..k], rs[k]) == [] <==> ResourceQuiet(rs, k)
  {
    var r, path := rs[k], "resources/" + rs[k].id;
    OwnSilent(r, path);
    ConflictsSilent(Owners(rs[..k], Provides), r.provided, r.id, "provider_conflict", path + "/provides");
    ConflictsSilent(Owners(rs[..k], Mutates), r.mutates, r.id, "mutator_conflict", path + "/mutates");
    hide Identifier, OwnIssues, Conflicts, Registered, Owners, ClaimsFresh, ResourceOk;
  }

  lemma {:induction false} ResourcesSilent(rs: seq<ResourceInput>)
    ensures ResourceIssues(rs) == [] <==> ResourcesQuiet(rs)
  {
    if rs != [] {
      var last := |rs| - 1;
      var init := rs[..last];
      ResourcesSilent(init);
      ResourceSilent(rs, last);
      QuietLast(rs);
      hide ResourceRaises, ResourceQuiet, ResourcesQuiet;
    }
  }

  lemma QuietLast(rs: seq<ResourceInput>)
    requires rs != []
    ensures ResourcesQuiet(rs) <==> ResourcesQuiet(rs[..|rs| - 1]) && ResourceQuiet(rs, |rs| - 1)
  {
    hide ResourceQuiet;
    var last := |rs| - 1;
    forall k | 0 <= k < last ensures ResourceQuiet(rs[..last], k) <==> ResourceQuiet(rs, k) { SamePrefix(rs, last, k); }
  }

  lemma SamePrefix(rs: seq<ResourceInput>, n: nat, k: nat)
    requires k < n <= |rs|
    ensures ResourceQuiet(rs[..n], k) <==> ResourceQuiet(rs, k)
  {
    hide ResourceOk, Registered, Owners, ClaimsFresh;
    assert rs[..n][..k] == rs[..k] && rs[..n][k] == rs[k];
  }

  // ---- Links ---------------------------------------------------------------------

  /** The identifiers of a list that are no keys, in its order. */
  function Missing(names: seq<Text>, keys: set<string>, code: string, path: string): Issues {
    if names == [] then []
    else
      var n := names[|names| - 1];
      Missing(names[..|names| - 1], keys, code, path) +
      if Identifier(n) && n.value !in keys then [Diagnostic(code, path, n.value)] else []
  }

  predicate AllIn(names: seq<Text>, keys: set<string>) { forall n :: n in names && Identifier(n) ==> n.value in keys }

  lemma {:induction false} MissingSilent(names: seq<Text>, keys: set<string>, code: string, path: string)
    ensures Missing(names, keys, code, path) == [] <==> AllIn(names, keys)
  {
    if names != [] {
      var init, n := names[..|names| - 1], names[|names| - 1];
      MissingSilent(init, keys, code, path);
      assert names == init + [n];
      assert forall x :: x in names <==> x in init || x == n;
      forall x | Identifier(x) ensures x.Some? { IdentifierIsText(x); }
      hide Identifier;
    }
  }

  function LinkIssues(id: string, r: ResourceInput, keys: set<string>, services: set<string>): Issues {
    Missing(r.dependencies, keys, "missing_dependency", "resources/" + id) +
    Missing(r.needs, services, "missing_provider", "resources/" + id)
  }

  lemma LinkSilent(id: string, r: ResourceInput, resources: map<string, ResourceInput>, services: map<string, string>)
    ensures LinkIssues(id, r, resources.Keys, services.Keys) == [] <==> LinkQuiet(resources, services, r)
  {
    MissingSilent(r.dependencies, resources.Keys, "missing_dependency", "resources/" + id);
    MissingSilent(r.needs, services.Keys, "missing_provider", "resources/" + id);
    hide Identifier, Missing;
  }

  // ---- Assets ----------------------------------------------------------------------

  function OwnAssetIssues(x: AssetInput, path: string): Issues {
    (if !Digest(x.artifactDigest) then [Diagnostic("invalid_digest", path, "Expected lower-case SHA-256.")] else []) +
    (if x.gameplayCritical && x.optionalDownload
     then [Diagnostic("critical_optional_asset", path, "Gameplay closure cannot be optional.")] else []) +
    (if |x.dependencies| > 256 || exists n :: n in x.dependencies && !AssetIdentifier(n)
     then [Diagnostic("invalid_dependencies", path, "Invalid/bounded dependency list required.")] else []) +
    (if !Distinct(x.dependencies) then [Diagnostic("duplicate_dependency", path, "Repeated dependency.")] else [])
  }

  function AssetRaises(before: seq<AssetInput>, x: AssetInput): Issues {
    var path := "assets/" + x.id;
    if !AssetIdentifier(Some(x.id)) then [Diagnostic("invalid_asset_id", path, "Invalid namespaced AssetRef.")]
    else
      (if x.id in RegisteredAssets(before)
       then [Diagnostic("duplicate_asset", path, "AssetRef must be unique.")]
       else []) +
      OwnAssetIssues(x, path)
  }

  function AssetIssues(xs: seq<AssetInput>): Issues {
    if xs == [] then [] else AssetIssues(xs[..|xs| - 1]) + AssetRaises(xs[..|xs| - 1], xs[|xs| - 1])
  }

  lemma OwnAssetSilent(x: AssetInput, path: string)
    ensures OwnAssetIssues(x, path) == [] && AssetIdentifier(Some(x.id)) <==> AssetOk(x)
  {
    hide AssetIdentifier, Digest;
  }

  lemma AssetSilent(xs: seq<AssetInput>, k: nat)
    requires k < |xs|
    ensures AssetRaises(xs[..k], xs[k]) == [] <==> AssetQuiet(xs, k)
  {
    OwnAssetSilent(xs[k], "assets/" + xs[k].id);
    hide AssetIdentifier, OwnAssetIssues, RegisteredAssets, AssetOk;
  }

  lemma {:induction false} AssetsSilent(xs: seq<AssetInput>)
    ensures AssetIssues(xs) == [] <==> AssetsQuiet(xs)
  {
    if xs != [] {
      var last := |xs| - 1;
      var init := xs[..last];
      AssetsSilent(init);
      AssetSilent(xs, last);
      AssetQuietLast(xs);
      hide AssetRaises, AssetQuiet, AssetsQuiet;
    }
  }

  lemma AssetQuietLast(xs: seq<AssetInput>)
    requires xs != []
    ensures AssetsQuiet(xs) <==> AssetsQuiet(xs[..|xs| - 1]) && AssetQuiet(xs, |xs| - 1)
  {
    hide AssetQuiet;
    var last := |xs| - 1;
    forall k | 0 <= k < last ensures AssetQuiet(xs[..last], k) <==> AssetQuiet(xs, k) { SameAssetPrefix(xs, last, k); }
  }

  lemma SameAssetPrefix(xs: seq<AssetInput>, n: nat, k: nat)
    requires k < n <= |xs|
    ensures AssetQuiet(xs[..n], k) <==> AssetQuiet(xs, k)
  {
    hide AssetOk, RegisteredAssets;
    assert xs[..n][..k] == xs[..k] && xs[..n][k] == xs[k];
  }

  function MissingAssets(id: string, names: seq<Text>, keys: set<string>): Issues {
    if names == [] then []
    else
      var n := names[|names| - 1];
      MissingAssets(id, names[..|names| - 1], keys) +
      if AssetIdentifier(n) && n.value !in keys then [Diagnostic("missing_asset", "assets/" + id, n.value)] else []
  }

  predicate AssetLinkQuiet(assets: map<string, AssetInput>, x: AssetInput) {
    forall n :: n in x.dependencies && AssetIdentifier(n) ==> n.value in assets
  }

  lemma NoAssetLinks(assets: map<string, AssetInput>, x: AssetInput)
    ensures AssetLinkQuiet(assets, x.(dependencies := []))
  {
  }

  lemma AssetLinkLast(assets: map<string, AssetInput>, x: AssetInput, init: seq<Text>, n: Text)
    ensures AssetLinkQuiet(assets, x.(dependencies := init + [n])) <==>
              AssetLinkQuiet(assets, x.(dependencies := init)) && (AssetIdentifier(n) ==> n.value in assets)
  {
    forall y | AssetIdentifier(y) ensures y.Some? { AssetIdentifierIsText(y); }
    hide AssetIdentifier;
    assert forall y :: y in init + [n] <==> y in init || y == n;
  }

  lemma {:induction false} MissingAssetsSilent(id: string, x: AssetInput, names: seq<Text>,
                                               assets: map<string, AssetInput>)
    ensures MissingAssets(id, names, assets.Keys) == [] <==> AssetLinkQuiet(assets, x.(dependencies := names))
    decreases |names|
  {
    hide AssetIdentifier, AssetLinkQuiet;
    if names == [] {
      NoAssetLinks(assets, x);
    } else {
      var init, n := names[..|names| - 1], names[|names| - 1];
      MissingAssetsSilent(id, x, init, assets);
      AssetLinkLast(assets, x, init, n);
      assert names == init + [n];
    }
  }

  function ClosureIssue(id: string): Diagnostic {
    Diagnostic("critical_optional_asset", "assets/" + id, "Required by gameplay closure.")
  }

  // ---- Capabilities ------------------------------------------------------------------

  function Unmet(required: seq<Text>, available: seq<Text>): Issues {
    if required == [] then []
    else
      var n := required[|required| - 1];
      Unmet(required[..|required| - 1], available) +
      if Identifier(n) && n !in available then [Diagnostic("missing_capability", "requiredCapabilities", n.value)]
      else []
  }

  function CapabilityIssues(required: seq<Text>, available: seq<Text>): Issues {
    NamesIssues(required, "requiredCapabilities") + NamesIssues(available, "availableCapabilities") +
    Unmet(required, available)
  }

  lemma {:induction false} UnmetSilent(required: seq<Text>, available: seq<Text>)
    ensures Unmet(required, available) == [] <==> CapabilitiesMet(required, available)
  {
    if required != [] {
      var init, n := required[..|required| - 1], required[|required| - 1];
      UnmetSilent(init, available);
      assert required == init + [n];
      assert forall x :: x in required <==> x in init || x == n;
      forall x | Identifier(x) ensures x.Some? { IdentifierIsText(x); }
      hide Identifier;
    }
  }

  lemma CapabilitiesSilent(required: seq<Text>, available: seq<Text>)
    ensures CapabilityIssues(required, available) == [] <==>
              NamesOk(required) && NamesOk(available) && CapabilitiesMet(required, available)
  {
    NamesSilent(required, "requiredCapabilities");
    NamesSilent(available, "availableCapabilities");
    UnmetSilent(required, available);
    hide NamesOk, NamesIssues, Unmet, CapabilitiesMet;
  }
}
