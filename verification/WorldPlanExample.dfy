// Plans that are accepted: one resource and one asset with any names and any digests;
// and what one wrong digit does to them.

module WorldPlanExample {
  import opened Words
  import opened OrdinalOrder
  import opened WorldPlanGraph
  import opened WorldPlanClosure
  import opened WorldPlanInput
  import opened WorldPlanIssues
  import opened WorldPlanValidator
  import opened WorldPlanMeaning
  import opened WorldPlanPatterns
  import opened WorldPlanCauses

  function Small(world: string, resource: ResourceInput, asset: AssetInput, recovery: RecoveryInput): WorldPlanInput {
    WorldPlanInput(1, world, [Some(resource)], [Some(asset)], [], [], recovery)
  }

  function Plain(id: string, digest: string): ResourceInput { ResourceInput(id, digest, [], [], [], []) }

  function PlainAsset(id: string, digest: string, critical: bool): AssetInput {
    AssetInput(id, digest, [], critical, !critical)
  }

  /** Whatever the names and whatever the artifacts, rendered in lower-case hexadecimal. */
  lemma SmallPlansAreValid(world: string, r: string, rd: seq<byte>, a: string, ad: seq<byte>, critical: bool,
                           recovery: RecoveryInput)
    requires Identifier(Some(world)) && Identifier(Some(r)) && AssetIdentifier(Some(a)) && WithinProfile(recovery)
    requires |rd| == 32 && |ad| == 32
    ensures var p := Small(world, Plain(r, HexLower(rd)), PlainAsset(a, HexLower(ad), critical), recovery);
            Complete(p) && !TooLarge(p) && PlanValid(p)
  {
    var p := Small(world, Plain(r, HexLower(rd)), PlainAsset(a, HexLower(ad), critical), recovery);
    DigestMeans(HexLower(rd));
    DigestMeans(HexLower(ad));
    ValidMeansFaultless(p);
    assert p.resources[0].Some? && p.assets[0].Some?;
    forall d ensures !Fault(p, d) { NoFaultInSmall(p, d); }
  }

  lemma NoFaultInSmall(p: WorldPlanInput, d: Diagnostic)
    requires Complete(p) && |p.resources| == 1 && |p.assets| == 1
    requires p.schemaVersion == 1 && Identifier(Some(p.worldId)) && WithinProfile(p.recovery)
    requires p.requiredCapabilities == [] && p.availableCapabilities == []
    requires var r := Values(p.resources)[0];
             Identifier(Some(r.id)) && Digest(r.artifactDigest) && r == Plain(r.id, r.artifactDigest)
    requires var x := Values(p.assets)[0];
             && AssetIdentifier(Some(x.id)) && Digest(x.artifactDigest)
             && x == PlainAsset(x.id, x.artifactDigest, x.gameplayCritical)
    ensures !Fault(p, d)
  {
    var rs, xs := Values(p.resources), Values(p.assets);
    NoResourceFault(rs, d);
    NoAssetFault(xs, d);
    NoEdges(ResourceGraph(p));
    NoEdges(AssetGraph(p));
    hide Identifier, AssetIdentifier, Digest, HasCycle, WithinProfile, ResourcesFault, AssetsFault;
    EmptyGraphs(p);
  }

  lemma NoResourceFault(rs: seq<ResourceInput>, d: Diagnostic)
    requires |rs| == 1 && Identifier(Some(rs[0].id)) && Digest(rs[0].artifactDigest)
    requires rs[0] == Plain(rs[0].id, rs[0].artifactDigest)
    ensures !ResourcesFault(rs, d)
  {
    hide Identifier, Digest;
  }

  lemma NoAssetFault(xs: seq<AssetInput>, d: Diagnostic)
    requires |xs| == 1 && AssetIdentifier(Some(xs[0].id)) && Digest(xs[0].artifactDigest)
    requires xs[0] == PlainAsset(xs[0].id, xs[0].artifactDigest, xs[0].gameplayCritical)
    ensures !AssetsFault(xs, d)
  {
    hide AssetIdentifier, Digest;
    if k: nat :| k < |xs| && ClosureFault(xs, k, d) {
      var chain :| Requires(xs, chain) && chain[|chain| - 1] == k;
      assert FirstAsset(xs, chain[0]) && FirstAsset(xs, chain[|chain| - 1]);
    }
  }

  lemma NoEdges(g: Graph)
    ensures (forall k :: k in g ==> g[k] == {}) ==> !HasCycle(g)
  {
    if p :| Path(g, p) && |p| >= 2 && p[0] == p[|p| - 1] {
      assert p[0] in g && p[1] in g[p[0]];
    }
  }

  lemma EmptyGraphs(p: WorldPlanInput)
    requires Complete(p) && |p.resources| == 1 && |p.assets| == 1
    requires var r := Values(p.resources)[0]; Identifier(Some(r.id)) && r == Plain(r.id, r.artifactDigest)
    requires var x := Values(p.assets)[0];
             AssetIdentifier(Some(x.id)) && x == PlainAsset(x.id, x.artifactDigest, x.gameplayCritical)
    ensures forall k :: k in ResourceGraph(p) ==> ResourceGraph(p)[k] == {}
    ensures forall k :: k in AssetGraph(p) ==> AssetGraph(p)[k] == {}
  {
    hide Identifier, AssetIdentifier, Registered, RegisteredAssets, Owners;
    var rs, xs := Values(p.resources), Values(p.assets);
    RegisteredIds(rs);
    RegisteredAssetIds(xs);
    forall k | k in Registered(rs) ensures Registered(rs)[k] == rs[0] { assert Registered(rs)[k] in rs; }
    forall k | k in RegisteredAssets(xs) ensures RegisteredAssets(xs)[k] == xs[0] {
      assert RegisteredAssets(xs)[k] in xs;
    }
  }

  /** The same plan with any other digest string is refused, and says so. */
  lemma OtherDigestsAreRefused(world: string, r: string, digest: string, a: AssetInput, recovery: RecoveryInput)
    requires Identifier(Some(r)) && !exists b: seq<byte> :: |b| == 32 && digest == HexLower(b)
    ensures var p := Small(world, Plain(r, digest), a, recovery);
            && Complete(p) && !PlanValid(p)
            && Raises(p, Diagnostic("invalid_digest", "resources/" + r, "Expected lower-case SHA-256."))
  {
    var p := Small(world, Plain(r, digest), a, recovery);
    var d := Diagnostic("invalid_digest", "resources/" + r, "Expected lower-case SHA-256.");
    SmallIsComplete(world, Plain(r, digest), a, recovery);
    DigestMeans(digest);
    DigestIsFault(Values(p.resources), r, digest, d);
    ResourceFaultCounts(p, d);
  }

  lemma SmallIsComplete(world: string, r: ResourceInput, a: AssetInput, recovery: RecoveryInput)
    ensures var p := Small(world, r, a, recovery); Complete(p) && Values(p.resources) == [r] && Values(p.assets) == [a]
  {
    var p := Small(world, r, a, recovery);
    assert p.resources[0].Some? && p.assets[0].Some?;
  }

  lemma ResourceFaultCounts(p: WorldPlanInput, d: Diagnostic)
    requires Complete(p) && ResourcesFault(Values(p.resources), d)
    ensures Raises(p, d) && !PlanValid(p)
  {
    assert Fault(p, d);
    hide *;
    RaisesMeans(p, d);
    ValidMeansFaultless(p);
  }

  lemma DigestIsFault(rs: seq<ResourceInput>, r: string, digest: string, d: Diagnostic)
    requires rs != [] && rs[0] == Plain(r, digest) && Identifier(Some(r)) && !Digest(digest)
    requires d == Diagnostic("invalid_digest", "resources/" + r, "Expected lower-case SHA-256.")
    ensures ResourcesFault(rs, d)
  {
    hide Identifier, Digest, BadList, TakenSays;
    assert ResourceFault(rs, 0, d);
  }
}
