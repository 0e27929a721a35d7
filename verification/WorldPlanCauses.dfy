// What each diagnostic says about the plan: which fault of which definition it stands
// for, told on the definitions as they are written, without any bookkeeping.

module WorldPlanCauses {
  import opened Words
  import opened OrdinalOrder
  import opened WorldPlanGraph
  import opened WorldPlanClosure
  import opened WorldPlanInput
  import opened WorldPlanIssues
  import opened WorldPlanValidator
  import opened WorldPlanMeaning

  // ---- Faults of lists ------------------------------------------------------------

  ghost predicate BadList(names: seq<Text>, path: string, d: Diagnostic) {
    || (d == Diagnostic("invalid_names", path, "Invalid/bounded name list required.")
        && (|names| > 128 || exists n :: n in names && !Identifier(n)))
    || (d == Diagnostic("duplicate_name", path, "Repeated identifier.")
        && exists i, j :: 0 <= i < j < |names| && names[i] == names[j])
  }

  lemma NamesMean(names: seq<Text>, path: string, d: Diagnostic)
    ensures d in NamesIssues(names, path) <==> BadList(names, path, d)
  {
    hide Identifier;
  }

  // ---- Faults of resources ----------------------------------------------------------

  ghost predicate Proper(rs: seq<ResourceInput>, k: nat) { k < |rs| && Identifier(Some(rs[k].id)) }

  /** The first proper definition of its identifier. */
  ghost predicate First(rs: seq<ResourceInput>, k: nat) {
    Proper(rs, k) && forall j :: 0 <= j < k ==> rs[j].id != rs[k].id
  }

  /** The i-th claim of definition k is a name that an earlier one, or an earlier place of
      the same list, has taken. */
  ghost predicate Taken(rs: seq<ResourceInput>, kind: Kind, k: nat, i: nat)
    requires k < |rs|
  {
    && i < |Claims(rs[k], kind)| && Identifier(Claims(rs[k], kind)[i])
    && ((exists j: nat :: j < k && Proper(rs, j) && Claims(rs[k], kind)[i] in Claims(rs[j], kind))
        || exists h :: 0 <= h < i && Claims(rs[k], kind)[h] == Claims(rs[k], kind)[i])
  }

  ghost predicate TakenSays(rs: seq<ResourceInput>, kind: Kind, k: nat, code: string, path: string, d: Diagnostic)
    requires k < |rs|
  {
    exists i: nat :: Taken(rs, kind, k, i) && Claims(rs[k], kind)[i].Some?
                     && d == Diagnostic(code, path, Claims(rs[k], kind)[i].value)
  }

  /** What definition k is reported for when it is read. */
  ghost predicate ResourceFault(rs: seq<ResourceInput>, k: nat, d: Diagnostic)
    requires k < |rs|
  {
    var r, path := rs[k], "resources/" + rs[k].id;
    if !Proper(rs, k) then d == Diagnostic("invalid_identifier", path, "Invalid resource identifier.")
    else
      || (d == Diagnostic("duplicate_resource", path, "Resource IDs must be unique.") && !First(rs, k))
      || (d == Diagnostic("invalid_digest", path, "Expected lower-case SHA-256.") && !Digest(r.artifactDigest))
      || BadList(r.dependencies, path + "/dependencies", d) || BadList(r.needs, path + "/requires", d)
      || BadList(r.provided, path + "/provides", d) || BadList(r.mutates, path + "/mutates", d)
      || TakenSays(rs, Provides, k, "provider_conflict", path + "/provides", d)
      || TakenSays(rs, Mutates, k, "mutator_conflict", path + "/mutates", d)
  }

  /** A proper definition claims the name. */
  ghost predicate ClaimedBy(rs: seq<ResourceInput>, kind: Kind, s: string) {
    Identifier(Some(s)) && exists j: nat :: Proper(rs, j) && Some(s) in Claims(rs[j], kind)
  }

  /** What the first definition of an identifier is reported for when it is linked. */
  ghost predicate LinkFault(rs: seq<ResourceInput>, k: nat, d: Diagnostic)
    requires k < |rs|
  {
    && First(rs, k) && d.path == "resources/" + rs[k].id && Identifier(Some(d.message))
    && ((d.code == "missing_dependency" && Some(d.message) in rs[k].dependencies
         && forall j :: 0 <= j < |rs| ==> rs[j].id != d.message)
        || (d.code == "missing_provider" && Some(d.message) in rs[k].needs && !ClaimedBy(rs, Provides, d.message)))
  }

  lemma {:induction false} OwnersMean(rs: seq<ResourceInput>, kind: Kind, s: string)
    ensures s in Owners(rs, kind) <==> ClaimedBy(rs, kind, s)
  {
    if rs != [] {
      var init, last := rs[..|rs| - 1], |rs| - 1;
      OwnersMean(init, kind, s);
      ClaimedIs(Owners(init, kind), Claims(rs[last], kind), rs[last].id);
      hide Identifier, Claimed, Owners;
      assert s in Owners(rs, kind) <==>
               s in Owners(init, kind) || (Proper(rs, last) && Some(s) in Claims(rs[last], kind) && Identifier(Some(s)))
      by { OwnersLast(rs, kind); }
      ClaimedLast(rs, kind, s);
    }
  }

  lemma OwnersLast(rs: seq<ResourceInput>, kind: Kind)
    requires rs != []
    ensures var init, r := rs[..|rs| - 1], rs[|rs| - 1];
            Owners(rs, kind) == if Identifier(Some(r.id)) then Claimed(Owners(init, kind), Claims(r, kind), r.id)
                                else Owners(init, kind)
  {
    hide Identifier, Claimed;
  }

  lemma ClaimedLast(rs: seq<ResourceInput>, kind: Kind, s: string)
    requires rs != []
    ensures var init, last := rs[..|rs| - 1], |rs| - 1;
            ClaimedBy(rs, kind, s) <==>
              ClaimedBy(init, kind, s) || (Proper(rs, last) && Some(s) in Claims(rs[last], kind) && Identifier(Some(s)))
  {
    hide Identifier;
    var init, last := rs[..|rs| - 1], |rs| - 1;
    forall j: nat | j < last ensures init[j] == rs[j] && (Proper(init, j) <==> Proper(rs, j)) {}
    if ClaimedBy(rs, kind, s) {
      var j: nat :| Proper(rs, j) && Some(s) in Claims(rs[j], kind);
      if j < last { assert Proper(init, j) && Some(s) in Claims(init[j], kind); }
    }
    if ClaimedBy(init, kind, s) {
      var j: nat :| Proper(init, j) && Some(s) in Claims(init[j], kind);
      assert Proper(rs, j) && Some(s) in Claims(rs[j], kind);
    }
  }

  lemma RegisteredMeans(rs: seq<ResourceInput>, s: string)
    requires Identifier(Some(s))
    ensures s in Registered(rs) <==> exists j :: 0 <= j < |rs| && rs[j].id == s
  {
    RegisteredIds(rs);
    hide Registered, Identifier;
    if s in Registered(rs) {
      var r := Registered(rs)[s];
      var j :| 0 <= j < |rs| && rs[j] == r;
    }
    if j :| 0 <= j < |rs| && rs[j].id == s { assert rs[j] in rs; }
  }

  lemma {:induction false} ConflictsMean(m: map<string, string>, names: seq<Text>, owner: string, code: string,
                                         path: string, d: Diagnostic)
    ensures d in Conflicts(m, names, owner, code, path) <==> exists i :: ConflictAt(m, names, i, code, path, d)
  {
    hide Identifier;
    if names != [] {
      var last := |names| - 1;
      var init := names[..last];
      assert names[..last + 1] == names;
      ConflictsMean(m, init, owner, code, path, d);
      ConflictsNext(m, names, owner, code, path, last);
      ClaimedIs(m, init, owner);
      hide Conflicts, Claimed;
      forall i | 0 <= i < last
        ensures ConflictAt(m, init, i, code, path, d) <==> ConflictAt(m, names, i, code, path, d)
      {
        ConflictPrefix(m, names, i, code, path, d);
      }
      LastConflict(m, names, owner, code, path, d);
      if Identifier(names[last]) { IdentifierIsText(names[last]); }
      assert d in Conflicts(m, names, owner, code, path) <==>
               d in Conflicts(m, init, owner, code, path) || ConflictAt(m, names, last, code, path, d);
      if i :| ConflictAt(m, names, i, code, path, d) {
        if i < last { assert ConflictAt(m, init, i, code, path, d); }
      }
      if i :| ConflictAt(m, init, i, code, path, d) { assert ConflictAt(m, names, i, code, path, d); }
    }
  }

  /** The i-th name is in m or stands earlier in the list, and d names it. */
  ghost predicate ConflictAt(m: map<string, string>, names: seq<Text>, i: int, code: string, path: string,
                             d: Diagnostic)
  {
    && 0 <= i < |names| && Identifier(names[i]) && names[i].Some?
    && (names[i].value in m || exists h :: 0 <= h < i && names[h] == names[i])
    && d == Diagnostic(code, path, names[i].value)
  }

  lemma ConflictPrefix(m: map<string, string>, names: seq<Text>, i: nat, code: string, path: string, d: Diagnostic)
    requires i < |names| - 1
    ensures ConflictAt(m, names[..|names| - 1], i, code, path, d) <==> ConflictAt(m, names, i, code, path, d)
  {
    hide Identifier;
    var init := names[..|names| - 1];
    assert forall h :: 0 <= h <= i ==> init[h] == names[h];
  }

  lemma LastConflict(m: map<string, string>, names: seq<Text>, owner: string, code: string, path: string,
                     d: Diagnostic)
    requires names != []
    ensures var last := |names| - 1;
            ConflictAt(m, names, last, code, path, d) <==>
              && Identifier(names[last]) && names[last].Some? && names[last].value in Claimed(m, names[..last], owner)
              && d == Diagnostic(code, path, names[last].value)
  {
    var last := |names| - 1;
    var init := names[..last];
    ClaimedIs(m, init, owner);
    hide Identifier, Claimed;
    if names[last].Some? {
      assert Some(names[last].value) == names[last];
      assert names[last] in init <==> exists h :: 0 <= h < last && names[h] == names[last] by {
        assert forall h :: 0 <= h < last ==> init[h] == names[h];
      }
    }
  }

  lemma TakenMeans(rs: seq<ResourceInput>, kind: Kind, k: nat, code: string, path: string, d: Diagnostic)
    requires k < |rs|
    ensures d in Conflicts(Owners(rs[..k], kind), Claims(rs[k], kind), rs[k].id, code, path) <==>
              TakenSays(rs, kind, k, code, path, d)
  {
    var m, names := Owners(rs[..k], kind), Claims(rs[k], kind);
    ConflictsMean(m, names, rs[k].id, code, path, d);
    forall i: nat | i < |names| && names[i].Some? && Identifier(names[i])
      ensures names[i].value in m <==> exists j: nat :: j < k && Proper(rs, j) && names[i] in Claims(rs[j], kind)
    {
      OwnersMean(rs[..k], kind, names[i].value);
      assert Some(names[i].value) == names[i];
      BeforeMeans(rs, kind, k, names[i]);
    }
    forall n ensures Identifier(n) ==> n.Some? {}
    hide Identifier, Conflicts, Owners;
    if i :| ConflictAt(m, names, i, code, path, d) { assert Taken(rs, kind, k, i); }
    if i: nat :| Taken(rs, kind, k, i) && names[i].Some? && d == Diagnostic(code, path, names[i].value) {
      assert ConflictAt(m, names, i, code, path, d);
    }
  }

  lemma BeforeMeans(rs: seq<ResourceInput>, kind: Kind, k: nat, n: Text)
    requires k <= |rs|
    ensures (exists j: nat :: Proper(rs[..k], j) && n in Claims(rs[..k][j], kind)) <==>
              exists j: nat :: j < k && Proper(rs, j) && n in Claims(rs[j], kind)
  {
    hide Identifier;
    var before := rs[..k];
    forall j: nat | j < k ensures before[j] == rs[j] && (Proper(before, j) <==> Proper(rs, j)) {}
    if j: nat :| Proper(before, j) && n in Claims(before[j], kind) { assert Proper(rs, j); }
    if j: nat :| j < k && Proper(rs, j) && n in Claims(rs[j], kind) { assert Proper(before, j); }
  }

  /** What one definition raises is what is wrong with it. */
  lemma RaisedIsFault(rs: seq<ResourceInput>, k: nat, d: Diagnostic)
    requires k < |rs|
    ensures d in ResourceRaises(rs[..k], rs[k]) <==> ResourceFault(rs, k, d)
  {
    hide Identifier, NamesIssues, BadList, Conflicts, TakenSays, Owners, Registered, First, Digest;
    var r, path := rs[k], "resources/" + rs[k].id;
    NamesMean(r.dependencies, path + "/dependencies", d);
    NamesMean(r.needs, path + "/requires", d);
    NamesMean(r.provided, path + "/provides", d);
    NamesMean(r.mutates, path + "/mutates", d);
    TakenMeans(rs, Provides, k, "provider_conflict", path + "/provides", d);
    TakenMeans(rs, Mutates, k, "mutator_conflict", path + "/mutates", d);
    if Proper(rs, k) { SeenMeans(rs, k); }
  }

  lemma SeenMeans(rs: seq<ResourceInput>, k: nat)
    requires Proper(rs, k)
    ensures rs[k].id in Registered(rs[..k]) <==> !First(rs, k)
  {
    RegisteredMeans(rs[..k], rs[k].id);
    hide Identifier, Registered;
    assert forall j :: 0 <= j < k ==> rs[..k][j] == rs[j];
  }

  lemma {:induction false} ReadingMeans(rs: seq<ResourceInput>, n: nat, d: Diagnostic)
    requires n <= |rs|
    ensures d in ResourceIssues(rs[..n]) <==> exists k: nat :: k < n && ResourceFault(rs, k, d)
  {
    hide ResourceRaises, ResourceFault;
    if n > 0 {
      assert rs[..n][..n - 1] == rs[..n - 1] && rs[..n][n - 1] == rs[n - 1];
      ReadingMeans(rs, n - 1, d);
      RaisedIsFault(rs, n - 1, d);
    }
  }

  // ---- Links of resources --------------------------------------------------------------

  lemma {:induction false} MissingMeans(names: seq<Text>, keys: set<string>, code: string, path: string, d: Diagnostic)
    ensures d in Missing(names, keys, code, path) <==>
              d.code == code && d.path == path && Some(d.message) in names && Identifier(Some(d.message))
              && d.message !in keys
  {
    if names != [] {
      var init, n := names[..|names| - 1], names[|names| - 1];
      MissingMeans(init, keys, code, path, d);
      assert names == init + [n];
      if Identifier(n) { IdentifierIsText(n); assert n == Some(n.value); }
      hide Identifier;
    }
  }

  lemma {:induction false} RegisteredIsFirst(rs: seq<ResourceInput>, k: nat)
    requires First(rs, k)
    ensures rs[k].id in Registered(rs) && Registered(rs)[rs[k].id] == rs[k]
  {
    var last := |rs| - 1;
    var init := rs[..last];
    hide Identifier;
    if k < last {
      assert First(init, k);
      RegisteredIsFirst(init, k);
    } else {
      SeenMeans(rs, last);
    }
  }

  lemma {:induction false} SomeFirst(rs: seq<ResourceInput>, s: string, n: nat) returns (k: nat)
    requires n <= |rs| && Identifier(Some(s)) && exists j :: 0 <= j < n && rs[j].id == s
    ensures First(rs, k) && k < n && rs[k].id == s
  {
    hide Identifier;
    if exists j :: 0 <= j < n - 1 && rs[j].id == s { k := SomeFirst(rs, s, n - 1); } else { k := n - 1; }
  }

  ghost predicate LinkRaised(rs: seq<ResourceInput>, d: Diagnostic) {
    exists id :: LinkRaises(Registered(rs), Owners(rs, Provides), id, d)
  }

  lemma LinkingMeans(rs: seq<ResourceInput>, d: Diagnostic)
    ensures LinkRaised(rs, d) <==> exists k: nat :: k < |rs| && LinkFault(rs, k, d)
  {
    var resources, services := Registered(rs), Owners(rs, Provides);
    if id :| LinkRaises(resources, services, id, d) {
      RegisteredIds(rs);
      RegisteredMeans(rs, id);
      var k := SomeFirst(rs, id, |rs|);
      LinkIsFault(rs, k, d);
    }
    if k: nat :| k < |rs| && LinkFault(rs, k, d) { LinkIsFault(rs, k, d); }
    hide Identifier;
  }

  lemma LinkIsFault(rs: seq<ResourceInput>, k: nat, d: Diagnostic)
    requires First(rs, k)
    ensures LinkRaises(Registered(rs), Owners(rs, Provides), rs[k].id, d) <==> LinkFault(rs, k, d)
  {
    var resources, services := Registered(rs), Owners(rs, Provides);
    RegisteredIsFirst(rs, k);
    MissingMeans(rs[k].dependencies, resources.Keys, "missing_dependency", "resources/" + rs[k].id, d);
    MissingMeans(rs[k].needs, services.Keys, "missing_provider", "resources/" + rs[k].id, d);
    if Identifier(Some(d.message)) { RegisteredMeans(rs, d.message); }
    OwnersMean(rs, Provides, d.message);
    hide Identifier, Registered, Owners, Missing, ClaimedBy;
  }

  // ---- Faults of assets -----------------------------------------------------------------

  ghost predicate FirstAsset(xs: seq<AssetInput>, k: nat) {
    k < |xs| && AssetIdentifier(Some(xs[k].id)) && forall j :: 0 <= j < k ==> xs[j].id != xs[k].id
  }

  /** What asset definition k is reported for when it is read. */
  ghost predicate AssetFault(xs: seq<AssetInput>, k: nat, d: Diagnostic)
    requires k < |xs|
  {
    var x, path := xs[k], "assets/" + xs[k].id;
    if !AssetIdentifier(Some(x.id)) then d == Diagnostic("invalid_asset_id", path, "Invalid namespaced AssetRef.")
    else
      || (d == Diagnostic("duplicate_asset", path, "AssetRef must be unique.") && !FirstAsset(xs, k))
      || (d == Diagnostic("invalid_digest", path, "Expected lower-case SHA-256.") && !Digest(x.artifactDigest))
      || (d == Diagnostic("critical_optional_asset", path, "Gameplay closure cannot be optional.")
          && x.gameplayCritical && x.optionalDownload)
      || (d == Diagnostic("invalid_dependencies", path, "Invalid/bounded dependency list required.")
          && (|x.dependencies| > 256 || exists n :: n in x.dependencies && !AssetIdentifier(n)))
      || (d == Diagnostic("duplicate_dependency", path, "Repeated dependency.")
          && exists i, j :: 0 <= i < j < |x.dependencies| && x.dependencies[i] == x.dependencies[j])
  }

  /** What the first definition of a reference is reported for when it is linked. */
  ghost predicate AssetLinkFault(xs: seq<AssetInput>, k: nat, d: Diagnostic)
    requires k < |xs|
  {
    && FirstAsset(xs, k) && d.path == "assets/" + xs[k].id && d.code == "missing_asset"
    && Some(d.message) in xs[k].dependencies && AssetIdentifier(Some(d.message))
    && forall j :: 0 <= j < |xs| ==> xs[j].id != d.message
  }

  lemma AssetsRegistered(xs: seq<AssetInput>, s: string)
    requires AssetIdentifier(Some(s))
    ensures s in RegisteredAssets(xs) <==> exists j :: 0 <= j < |xs| && xs[j].id == s
  {
    RegisteredAssetIds(xs);
    hide RegisteredAssets, AssetIdentifier;
    if s in RegisteredAssets(xs) {
      var x := RegisteredAssets(xs)[s];
      var j :| 0 <= j < |xs| && xs[j] == x;
    }
    if j :| 0 <= j < |xs| && xs[j].id == s { assert xs[j] in xs; }
  }

  lemma AssetSeen(xs: seq<AssetInput>, k: nat)
    requires k < |xs| && AssetIdentifier(Some(xs[k].id))
    ensures xs[k].id in RegisteredAssets(xs[..k]) <==> !FirstAsset(xs, k)
  {
    AssetsRegistered(xs[..k], xs[k].id);
    hide AssetIdentifier, RegisteredAssets;
    assert forall j :: 0 <= j < k ==> xs[..k][j] == xs[j];
  }

  lemma AssetRaisedIsFault(xs: seq<AssetInput>, k: nat, d: Diagnostic)
    requires k < |xs|
    ensures d in AssetRaises(xs[..k], xs[k]) <==> AssetFault(xs, k, d)
  {
    hide AssetIdentifier, RegisteredAssets, FirstAsset, Digest;
    if AssetIdentifier(Some(xs[k].id)) { AssetSeen(xs, k); }
  }

  lemma {:induction false} AssetReadingMeans(xs: seq<AssetInput>, n: nat, d: Diagnostic)
    requires n <= |xs|
    ensures d in AssetIssues(xs[..n]) <==> exists k: nat :: k < n && AssetFault(xs, k, d)
  {
    hide AssetRaises, AssetFault;
    if n > 0 {
      assert xs[..n][..n - 1] == xs[..n - 1] && xs[..n][n - 1] == xs[n - 1];
      AssetReadingMeans(xs, n - 1, d);
      AssetRaisedIsFault(xs, n - 1, d);
    }
  }

  lemma {:induction false} MissingAssetsMean(id: string, names: seq<Text>, keys: set<string>, d: Diagnostic)
    ensures d in MissingAssets(id, names, keys) <==>
              d.code == "missing_asset" && d.path == "assets/" + id && Some(d.message) in names
              && AssetIdentifier(Some(d.message)) && d.message !in keys
  {
    hide AssetIdentifier;
    if names != [] {
      var init, n := names[..|names| - 1], names[|names| - 1];
      MissingAssetsMean(id, init, keys, d);
      assert names == init + [n];
      if AssetIdentifier(n) { AssetIdentifierIsText(n); assert n == Some(n.value); }
    }
  }

  lemma {:induction false} AssetIsFirst(xs: seq<AssetInput>, k: nat)
    requires FirstAsset(xs, k)
    ensures xs[k].id in RegisteredAssets(xs) && RegisteredAssets(xs)[xs[k].id] == xs[k]
  {
    var last := |xs| - 1;
    var init := xs[..last];
    hide AssetIdentifier;
    if k < last {
      assert FirstAsset(init, k);
      AssetIsFirst(init, k);
    } else {
      AssetSeen(xs, last);
    }
  }

  lemma {:induction false} SomeFirstAsset(xs: seq<AssetInput>, s: string, n: nat) returns (k: nat)
    requires n <= |xs| && AssetIdentifier(Some(s)) && exists j :: 0 <= j < n && xs[j].id == s
    ensures FirstAsset(xs, k) && k < n && xs[k].id == s
  {
    hide AssetIdentifier;
    if exists j :: 0 <= j < n - 1 && xs[j].id == s { k := SomeFirstAsset(xs, s, n - 1); } else { k := n - 1; }
  }

  lemma AssetLinkIsFault(xs: seq<AssetInput>, k: nat, d: Diagnostic)
    requires FirstAsset(xs, k)
    ensures AssetLinkRaises(RegisteredAssets(xs), xs[k].id, d) <==> AssetLinkFault(xs, k, d)
  {
    AssetIsFirst(xs, k);
    MissingAssetsMean(xs[k].id, xs[k].dependencies, RegisteredAssets(xs).Keys, d);
    if AssetIdentifier(Some(d.message)) { AssetsRegistered(xs, d.message); }
    hide AssetIdentifier, RegisteredAssets, MissingAssets;
  }

  ghost predicate AssetLinkRaised(xs: seq<AssetInput>, d: Diagnostic) {
    exists id :: AssetLinkRaises(RegisteredAssets(xs), id, d)
  }

  lemma AssetLinkingMeans(xs: seq<AssetInput>, d: Diagnostic)
    ensures AssetLinkRaised(xs, d) <==> exists k: nat :: k < |xs| && AssetLinkFault(xs, k, d)
  {
    if id :| AssetLinkRaises(RegisteredAssets(xs), id, d) {
      RegisteredAssetIds(xs);
      AssetsRegistered(xs, id);
      var k := SomeFirstAsset(xs, id, |xs|);
      AssetLinkIsFault(xs, k, d);
    }
    if k: nat :| k < |xs| && AssetLinkFault(xs, k, d) { AssetLinkIsFault(xs, k, d); }
    hide AssetIdentifier;
  }

  /** An optional asset, by its first definition, that a critical one reaches. */
  ghost predicate ClosureFault(xs: seq<AssetInput>, k: nat, d: Diagnostic)
    requires k < |xs|
  {
    && FirstAsset(xs, k) && xs[k].optionalDownload
    && d == Diagnostic("critical_optional_asset", "assets/" + xs[k].id, "Required by gameplay closure.")
    && exists chain :: Requires(xs, chain) && chain[|chain| - 1] == k
  }

  /** First definitions, the first of them critical, each naming the next as a dependency. */
  ghost predicate Requires(xs: seq<AssetInput>, chain: seq<nat>) {
    && chain != [] && (forall i :: 0 <= i < |chain| ==> FirstAsset(xs, chain[i]))
    && xs[chain[0]].gameplayCritical
    && forall i :: 0 <= i < |chain| - 1 ==> Some(xs[chain[i + 1]].id) in xs[chain[i]].dependencies
  }

  ghost predicate IsFirstOf(xs: seq<AssetInput>, k: nat, s: string) { FirstAsset(xs, k) && xs[k].id == s }

  /** The first definition of a registered reference. */
  ghost function FirstOf(xs: seq<AssetInput>, s: string): (k: nat)
    requires s in RegisteredAssets(xs)
    ensures IsFirstOf(xs, k, s) && RegisteredAssets(xs)[s] == xs[k]
  {
    assert exists k: nat :: IsFirstOf(xs, k, s) by {
      RegisteredAssetIds(xs);
      AssetsRegistered(xs, s);
      var k := SomeFirstAsset(xs, s, |xs|);
      assert IsFirstOf(xs, k, s);
    }
    var k: nat :| IsFirstOf(xs, k, s);
    AssetIsFirst(xs, k);
    k
  }

  /** An edge of the asset graph, between first definitions. */
  lemma EdgeMeans(xs: seq<AssetInput>, i: nat, j: nat)
    requires FirstAsset(xs, i) && FirstAsset(xs, j)
    ensures var g := AssetEdges(RegisteredAssets(xs));
            xs[i].id in g && (xs[j].id in g[xs[i].id] <==> Some(xs[j].id) in xs[i].dependencies)
  {
    AssetIsFirst(xs, i);
    AssetIsFirst(xs, j);
    hide RegisteredAssets;
    assert FirstAsset(xs, j) ==> AssetIdentifier(Some(xs[j].id));
    KnownMeans(xs[i].dependencies, RegisteredAssets(xs).Keys, xs[j].id);
    hide AssetIdentifier, KnownAssets;
  }

  lemma KnownMeans(names: seq<Text>, keys: set<string>, s: string)
    ensures s in KnownAssets(names, keys) <==> Some(s) in names && AssetIdentifier(Some(s)) && s in keys
  {
    forall n ensures AssetIdentifier(n) ==> n.Some? {}
    hide AssetIdentifier;
    if Some(s) in names && AssetIdentifier(Some(s)) && s in keys { assert Some(s).value == s; }
  }

  /** The references along a chain. */
  function Along(xs: seq<AssetInput>, chain: seq<nat>): (p: seq<string>)
    requires forall i :: 0 <= i < |chain| ==> chain[i] < |xs|
    ensures |p| == |chain| && forall i :: 0 <= i < |chain| ==> p[i] == xs[chain[i]].id
  {
    seq(|chain|, i requires 0 <= i < |chain| => xs[chain[i]].id)
  }

  lemma ChainReaches(xs: seq<AssetInput>, chain: seq<nat>)
    requires Requires(xs, chain)
    ensures var assets := RegisteredAssets(xs);
            Reachable(AssetEdges(assets), Critical(assets), xs[chain[|chain| - 1]].id)
  {
    var g, p := AssetEdges(RegisteredAssets(xs)), Along(xs, chain);
    AssetIsFirst(xs, chain[0]);
    assert p[0] in Critical(RegisteredAssets(xs));
    hide RegisteredAssets, AssetEdges, FirstAsset, AssetIdentifier, Critical, Along;
    forall i | 0 <= i < |p| ensures p[i] in g { EdgeMeans(xs, chain[i], chain[i]); }
    forall i | 0 <= i < |p| - 1 ensures p[i + 1] in g[p[i]] { EdgeMeans(xs, chain[i], chain[i + 1]); }
    assert Path(g, p);
  }

  lemma PathIsChain(xs: seq<AssetInput>, p: seq<string>) returns (chain: seq<nat>)
    requires var assets := RegisteredAssets(xs); Path(AssetEdges(assets), p) && p[0] in Critical(assets)
    ensures Requires(xs, chain) && xs[chain[|chain| - 1]].id == p[|p| - 1]
  {
    var assets := RegisteredAssets(xs);
    EdgesOf(assets);
    chain := seq(|p|, i requires 0 <= i < |p| => FirstOf(xs, p[i]));
    hide RegisteredAssets, AssetEdges, FirstAsset;
    forall i | 0 <= i < |p| - 1 ensures Some(xs[chain[i + 1]].id) in xs[chain[i]].dependencies {
      EdgeMeans(xs, chain[i], chain[i + 1]);
    }
  }

  ghost predicate ClosureRaised(xs: seq<AssetInput>, d: Diagnostic) {
    exists id :: ClosureRaises(RegisteredAssets(xs), AssetEdges(RegisteredAssets(xs)), id, d)
  }

  /** What the spread of requiredness raises. */
  lemma ClosureMeans(xs: seq<AssetInput>, d: Diagnostic)
    ensures ClosureRaised(xs, d) <==> exists k: nat :: k < |xs| && ClosureFault(xs, k, d)
  {
    hide RegisteredAssets, AssetEdges, ClosureRaises, ClosureFault;
    var assets := RegisteredAssets(xs);
    if id :| ClosureRaises(assets, AssetEdges(assets), id, d) { var k := RaisedHasChain(xs, id, d); }
    if k: nat :| k < |xs| && ClosureFault(xs, k, d) { ChainIsRaised(xs, k, d); }
  }

  lemma RaisedHasChain(xs: seq<AssetInput>, id: string, d: Diagnostic) returns (k: nat)
    requires ClosureRaises(RegisteredAssets(xs), AssetEdges(RegisteredAssets(xs)), id, d)
    ensures k < |xs| && ClosureFault(xs, k, d)
  {
    hide RegisteredAssets, AssetEdges, FirstAsset;
    var assets := RegisteredAssets(xs);
    var p :| Path(AssetEdges(assets), p) && p[0] in Critical(assets) && p[|p| - 1] == id;
    var chain := PathIsChain(xs, p);
    hide Path, Critical;
    k := chain[|chain| - 1];
    assert FirstAsset(xs, k);
    FirstExists(xs, k);
    AssetIsFirst(xs, k);
  }

  lemma FirstExists(xs: seq<AssetInput>, k: nat)
    requires FirstAsset(xs, k)
    ensures k < |xs|
  {}

  lemma ChainIsRaised(xs: seq<AssetInput>, k: nat, d: Diagnostic)
    requires k < |xs| && ClosureFault(xs, k, d)
    ensures ClosureRaises(RegisteredAssets(xs), AssetEdges(RegisteredAssets(xs)), xs[k].id, d)
  {
    hide RegisteredAssets, AssetEdges, FirstAsset, Reachable;
    var assets := RegisteredAssets(xs);
    EdgesOf(assets);
    var chain :| Requires(xs, chain) && chain[|chain| - 1] == k;
    ChainReaches(xs, chain);
    hide Requires;
    AssetIsFirst(xs, k);
  }

  // ---- The plan -----------------------------------------------------------------------------

  /** A required capability that is not available. */
  lemma {:induction false} UnmetMeans(required: seq<Text>, available: seq<Text>, d: Diagnostic)
    ensures d in Unmet(required, available) <==>
              d.code == "missing_capability" && d.path == "requiredCapabilities" && Some(d.message) in required
              && Identifier(Some(d.message)) && Some(d.message) !in available
  {
    hide Identifier;
    if required != [] {
      var init, n := required[..|required| - 1], required[|required| - 1];
      UnmetMeans(init, available, d);
      assert required == init + [n];
      if Identifier(n) { IdentifierIsText(n); assert n == Some(n.value); }
    }
  }

  ghost predicate ResourcesFault(rs: seq<ResourceInput>, d: Diagnostic) {
    exists k: nat :: k < |rs| && (ResourceFault(rs, k, d) || LinkFault(rs, k, d))
  }

  ghost predicate AssetsFault(xs: seq<AssetInput>, d: Diagnostic) {
    exists k: nat :: k < |xs| && (AssetFault(xs, k, d) || AssetLinkFault(xs, k, d) || ClosureFault(xs, k, d))
  }

  ghost predicate CapabilityFault(required: seq<Text>, available: seq<Text>, d: Diagnostic) {
    || BadList(required, "requiredCapabilities", d) || BadList(available, "availableCapabilities", d)
    || (d.code == "missing_capability" && d.path == "requiredCapabilities" && Some(d.message) in required
        && Identifier(Some(d.message)) && Some(d.message) !in available)
  }

  ghost predicate CycleFault(g: Graph, path: string, d: Diagnostic) {
    HasCycle(g) && d == Diagnostic("dependency_cycle", path, WorldPlanValidator.Join(Listing(CycleReachers(g))))
  }

  /** Every fault of a plan and the diagnostic it is reported as. */
  ghost predicate Fault(p: WorldPlanInput, d: Diagnostic)
    requires Complete(p)
  {
    || (d == Diagnostic("unsupported_schema", "schemaVersion", "D1 foundation accepts version 1 only.")
        && p.schemaVersion != 1)
    || (d == Diagnostic("invalid_identifier", "worldId", "Use a bounded lower-case identifier.")
        && !Identifier(Some(p.worldId)))
    || ResourcesFault(Values(p.resources), d) || AssetsFault(Values(p.assets), d)
    || CapabilityFault(p.requiredCapabilities, p.availableCapabilities, d)
    || (d == Diagnostic("invalid_recovery_budget", "recovery", "D1 bounded profile or hierarchy violated.")
        && !WithinProfile(p.recovery))
    || CycleFault(ResourceGraph(p), "resources", d) || CycleFault(AssetGraph(p), "assets", d)
  }

  /** The largest budget of the profile; every accepted one is positive, grows from actors to
      the process, and is at most this one in every field. */
  const LARGEST: RecoveryInput := RecoveryInput(32, 128, 1024, 4096, 0x80_0000, 0x80_0000, 30_000, 2, 3)

  predicate AtMost(a: RecoveryInput, b: RecoveryInput) {
    && a.maxActorOperations <= b.maxActorOperations && a.maxResourceOperations <= b.maxResourceOperations
    && a.maxWorldOperations <= b.maxWorldOperations && a.maxProcessOperations <= b.maxProcessOperations
    && a.maxQueuedBytes <= b.maxQueuedBytes && a.maxBaselineBytes <= b.maxBaselineBytes
    && a.syncTimeoutMilliseconds <= b.syncTimeoutMilliseconds && a.maxSyncRestarts <= b.maxSyncRestarts
    && a.maxWorkerRestarts <= b.maxWorkerRestarts
  }

  predicate WithinProfile(b: RecoveryInput) {
    && AtMost(RecoveryInput(1, 1, 1, 1, 1, 1, 1, 0, 0), b) && AtMost(b, LARGEST)
    && b.maxActorOperations <= b.maxResourceOperations <= b.maxWorldOperations <= b.maxProcessOperations
  }

  lemma BudgetMeans(b: RecoveryInput)
    ensures BudgetOk(b) <==> WithinProfile(b)
  {}

  /** The diagnostics of a plan are its faults: each one that is raised stands for a fault of
      some definition, and every fault is raised. */
  lemma RaisesMeans(p: WorldPlanInput, d: Diagnostic)
    requires Complete(p)
    ensures Raises(p, d) <==> Fault(p, d)
  {
    hide ResourcesRaise, ResourcesFault, AssetsRaise, AssetsFault, CapabilityIssues, CapabilityFault, Identifier,
         BudgetOk, WithinProfile, ResourceGraph, AssetGraph, HasCycle, CycleReachers, Listing, WorldPlanValidator.Join;
    ResourcesMean(p, d);
    AssetsMean(p, d);
    CapabilitiesMean(p.requiredCapabilities, p.availableCapabilities, d);
    BudgetMeans(p.recovery);
  }

  lemma ResourcesMean(p: WorldPlanInput, d: Diagnostic)
    requires Complete(p)
    ensures ResourcesRaise(p, d) <==> ResourcesFault(Values(p.resources), d)
  {
    hide ResourceIssues, LinkRaises, ResourceFault, LinkFault, Values;
    var rs := Values(p.resources);
    assert ResourcesRaise(p, d) <==> d in ResourceIssues(rs) || LinkRaised(rs, d);
    hide ResourcesRaise, LinkRaised;
    assert rs[..|rs|] == rs;
    ReadingMeans(rs, |rs|, d);
    LinkingMeans(rs, d);
  }

  lemma AssetsMean(p: WorldPlanInput, d: Diagnostic)
    requires Complete(p)
    ensures AssetsRaise(p, d) <==> AssetsFault(Values(p.assets), d)
  {
    hide RegisteredAssets, AssetEdges, AssetIssues, AssetLinkRaises, ClosureRaises, AssetFault, AssetLinkFault,
         ClosureFault, Values;
    var xs := Values(p.assets);
    assert AssetGraph(p) == AssetEdges(RegisteredAssets(xs));
    assert AssetsRaise(p, d) <==> d in AssetIssues(xs) || AssetLinkRaised(xs, d) || ClosureRaised(xs, d);
    hide AssetsRaise, AssetLinkRaised, ClosureRaised;
    assert xs[..|xs|] == xs;
    AssetReadingMeans(xs, |xs|, d);
    AssetLinkingMeans(xs, d);
    ClosureMeans(xs, d);
  }

  lemma CapabilitiesMean(required: seq<Text>, available: seq<Text>, d: Diagnostic)
    ensures d in CapabilityIssues(required, available) <==> CapabilityFault(required, available, d)
  {
    hide Identifier, NamesIssues, BadList, Unmet;
    NamesMean(required, "requiredCapabilities", d);
    NamesMean(available, "availableCapabilities", d);
    UnmetMeans(required, available, d);
  }

  lemma NoLinkRaised(resources: map<string, ResourceInput>, services: map<string, string>)
    ensures LinksQuiet(resources, services) <==> forall id, d :: !LinkRaises(resources, services, id, d)
  {
    hide LinkQuiet, LinkIssues;
    forall id | id in resources
      ensures LinkIssues(id, resources[id], resources.Keys, services.Keys) == [] <==>
                LinkQuiet(resources, services, resources[id])
    {
      LinkSilent(id, resources[id], resources, services);
    }
    if !LinksQuiet(resources, services) {
      var id :| id in resources && !LinkQuiet(resources, services, resources[id]);
      var d := LinkIssues(id, resources[id], resources.Keys, services.Keys)[0];
      assert LinkRaises(resources, services, id, d);
    }
  }

  lemma NoAssetLinkRaised(assets: map<string, AssetInput>)
    ensures (forall id :: id in assets ==> AssetLinkQuiet(assets, assets[id])) <==>
              forall id, d :: !AssetLinkRaises(assets, id, d)
  {
    hide AssetLinkQuiet, MissingAssets;
    forall id | id in assets
      ensures MissingAssets(id, assets[id].dependencies, assets.Keys) == [] <==> AssetLinkQuiet(assets, assets[id])
    {
      MissingAssetsSilent(id, assets[id], assets[id].dependencies, assets);
      assert assets[id].(dependencies := assets[id].dependencies) == assets[id];
    }
    if id :| id in assets && !AssetLinkQuiet(assets, assets[id]) {
      var d := MissingAssets(id, assets[id].dependencies, assets.Keys)[0];
      assert AssetLinkRaises(assets, id, d);
    }
  }

  lemma NoClosureRaised(assets: map<string, AssetInput>, g: Graph)
    ensures ReachableSet(g, Critical(assets)) !! OptionalOnes(assets) <==>
              forall id, d :: !ClosureRaises(assets, g, id, d)
  {
    hide ReachableSet, Critical, OptionalOnes;
    if id :| id in ReachableSet(g, Critical(assets)) && id in OptionalOnes(assets) {
      assert ClosureRaises(assets, g, id, ClosureIssue(id));
    }
  }

  lemma ValidIsSilent(p: WorldPlanInput, d: Diagnostic)
    requires Complete(p) && PlanValid(p)
    ensures !Raises(p, d)
  {
    hide Identifier, ResourcesValid, AssetsValid, NamesOk, CapabilitiesMet, HasCycle, ResourceGraph, AssetGraph,
         Listing, CycleReachers, WorldPlanValidator.Join, ResourcesRaise, AssetsRaise, CapabilityIssues, BudgetOk,
         SchemaIssues, BudgetIssues;
    ResourcesSilence(p);
    AssetsSilence(p);
    CapabilitiesSilent(p.requiredCapabilities, p.availableCapabilities);
    SchemaSilent(p);
    BudgetSilent(p);
  }

  lemma SilentIsValid(p: WorldPlanInput)
    requires Complete(p) && forall d :: !Raises(p, d)
    ensures PlanValid(p)
  {
    hide Identifier, ResourcesValid, AssetsValid, NamesOk, CapabilitiesMet, HasCycle, ResourceGraph, AssetGraph,
         ResourcesRaise, AssetsRaise, CapabilityIssues, BudgetOk, SchemaIssues, BudgetIssues, CycleRaises;
    ResourcesSilence(p);
    AssetsSilence(p);
    CapabilitiesSilent(p.requiredCapabilities, p.availableCapabilities);
    SchemaSilent(p);
    BudgetSilent(p);
    CycleSaid(p, ResourceGraph(p), "resources");
    CycleSaid(p, AssetGraph(p), "assets");
    forall d ensures !ResourcesRaise(p, d) && !AssetsRaise(p, d) { assert !Raises(p, d); }
    forall d ensures d !in SchemaIssues(p) && d !in BudgetIssues(p) { assert !Raises(p, d); }
    forall d ensures d !in CapabilityIssues(p.requiredCapabilities, p.availableCapabilities) { assert !Raises(p, d); }
    EmptyUnlessRaised(SchemaIssues(p));
    EmptyUnlessRaised(BudgetIssues(p));
    EmptyUnlessRaised(CapabilityIssues(p.requiredCapabilities, p.availableCapabilities));
  }

  lemma EmptyUnlessRaised(s: Issues)
    ensures s == [] || exists d :: d in s
  {
    if s != [] { assert s[0] in s; }
  }

  lemma NothingRaised(p: WorldPlanInput)
    requires Complete(p)
    ensures PlanValid(p) <==> forall d :: !Raises(p, d)
  {
    hide *;
    if PlanValid(p) {
      forall d ensures !Raises(p, d) { ValidIsSilent(p, d); }
    }
    if forall d :: !Raises(p, d) { SilentIsValid(p); }
  }

  lemma CycleSaid(p: WorldPlanInput, g: Graph, path: string)
    requires Complete(p)
    requires (g == ResourceGraph(p) && path == "resources") || (g == AssetGraph(p) && path == "assets")
    ensures HasCycle(g) ==> exists d :: Raises(p, d)
  {
    hide HasCycle, ResourceGraph, AssetGraph, Listing, CycleReachers, WorldPlanValidator.Join, ResourcesRaise,
         AssetsRaise, CapabilityIssues, SchemaIssues, BudgetIssues;
    if HasCycle(g) {
      var d := Diagnostic("dependency_cycle", path, WorldPlanValidator.Join(Listing(CycleReachers(g))));
      assert CycleRaises(g, path, d);
      assert Raises(p, d);
    }
  }

  lemma ResourcesSilence(p: WorldPlanInput)
    requires Complete(p)
    ensures ResourcesValid(p) <==> forall d :: !ResourcesRaise(p, d)
  {
    hide Registered, Owners, ResourcesQuiet, LinksQuiet, ResourceIssues, LinkRaises;
    var rs := Values(p.resources);
    ResourcesSilent(rs);
    NoLinkRaised(Registered(rs), Owners(rs, Provides));
    if ResourceIssues(rs) != [] { assert ResourcesRaise(p, ResourceIssues(rs)[0]); }
    if id, d :| LinkRaises(Registered(rs), Owners(rs, Provides), id, d) { assert ResourcesRaise(p, d); }
  }

  lemma AssetsSilence(p: WorldPlanInput)
    requires Complete(p)
    ensures AssetsValid(p) <==> forall d :: !AssetsRaise(p, d)
  {
    hide RegisteredAssets, AssetEdges, AssetsQuiet, AssetLinkQuiet, ReachableSet, Critical, OptionalOnes, AssetIssues,
         AssetLinkRaises, ClosureRaises, AssetGraph;
    var xs := Values(p.assets);
    var assets := RegisteredAssets(xs);
    AssetsSilent(xs);
    NoAssetLinkRaised(assets);
    NoClosureRaised(assets, AssetGraph(p));
    if AssetIssues(xs) != [] { assert AssetsRaise(p, AssetIssues(xs)[0]); }
    if id, d :| AssetLinkRaises(assets, id, d) { assert AssetsRaise(p, d); }
    if id, d :| ClosureRaises(assets, AssetGraph(p), id, d) { assert AssetsRaise(p, d); }
  }

  /** So a plan is valid exactly when it has no fault. */
  lemma ValidMeansFaultless(p: WorldPlanInput)
    requires Complete(p)
    ensures PlanValid(p) <==> forall d :: !Fault(p, d)
  {
    hide *;
    NothingRaised(p);
    forall d ensures Raises(p, d) <==> Fault(p, d) { RaisesMeans(p, d); }
  }

  /** The message of a cycle: the names in order, with a comma and a space between. */
  lemma JoinMeans(a: seq<string>, b: seq<string>)
    requires a != [] && b != []
    ensures WorldPlanValidator.Join(a + b) == WorldPlanValidator.Join(a) + ", " + WorldPlanValidator.Join(b)
    ensures |a| == 1 ==> WorldPlanValidator.Join(a) == a[0]
  {
    JoinAppends(a, b);
  }

  lemma {:induction false} JoinAppends(a: seq<string>, b: seq<string>)
    requires a != [] && b != []
    ensures WorldPlanValidator.Join(a + b) == WorldPlanValidator.Join(a) + ", " + WorldPlanValidator.Join(b)
  {
    assert (a + b)[1..] == a[1..] + b;
    if |a| > 1 { JoinAppends(a[1..], b); } else { assert a[1..] + b == b; }
  }
}
