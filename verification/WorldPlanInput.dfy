// The world plan as the validator reads it: identifiers, definitions, and what
// the specification makes of a list of definitions read front to back.

module WorldPlanInput {
  import opened Words
  import opened WorldPlanGraph

  /** A string element of a collection, which may be null. */
  type Text = Option<string>

  datatype ResourceInput = ResourceInput(id: string, artifactDigest: string, dependencies: seq<Text>,
                                         provided: seq<Text>, needs: seq<Text>, mutates: seq<Text>)

  datatype AssetInput = AssetInput(id: string, artifactDigest: string, dependencies: seq<Text>,
                                   gameplayCritical: bool, optionalDownload: bool)

  datatype RecoveryInput = RecoveryInput(maxActorOperations: int, maxResourceOperations: int, maxWorldOperations: int,
                                         maxProcessOperations: int, maxQueuedBytes: int, maxBaselineBytes: int,
                                         syncTimeoutMilliseconds: int, maxSyncRestarts: int, maxWorkerRestarts: int)

  datatype WorldPlanInput = WorldPlanInput(schemaVersion: int, worldId: string, resources: seq<Option<ResourceInput>>,
                                           assets: seq<Option<AssetInput>>, requiredCapabilities: seq<Text>,
                                           availableCapabilities: seq<Text>, recovery: RecoveryInput)

  // ---- Identifiers -----------------------------------------------------------

  predicate HeadChar(c: char) { 'a' <= c <= 'z' || '0' <= c <= '9' }
  predicate NameChar(c: char) { HeadChar(c) || c == '.' || c == '_' || c == '-' }

  /** [a-z0-9][a-z0-9._-]* */
  predicate NameShape(s: string) { s != [] && HeadChar(s[0]) && forall i :: 0 <= i < |s| ==> NameChar(s[i]) }

  /** [a-z0-9][a-z0-9._/-]* */
  predicate PathShape(s: string) {
    s != [] && HeadChar(s[0]) && forall i :: 0 <= i < |s| ==> NameChar(s[i]) || s[i] == '/'
  }

  predicate AssetShape(s: string) {
    exists i :: 0 <= i < |s| && s[i] == ':' && NameShape(s[..i]) && PathShape(s[i + 1..])
  }

  /** The part the patterns see: $ also matches in front of one final line feed. */
  function Body(s: string): string {
    if s != [] && s[|s| - 1] == '\n' then s[..|s| - 1] else s
  }

  predicate Doubled(s: string, c: char) { exists i :: 0 <= i < |s| - 1 && s[i] == c && s[i + 1] == c }

  predicate Identifier(t: Text) {
    t.Some? && 0 < |t.value| <= 128 && NameShape(Body(t.value)) && !Doubled(t.value, '.')
  }

  predicate AssetIdentifier(t: Text) {
    && t.Some? && 0 < |t.value| <= 192 && AssetShape(Body(t.value))
    && !Doubled(t.value, '.') && !Doubled(t.value, '/') && t.value[|t.value| - 1] != '/'
  }

  predicate Digest(s: string) { |s| == 64 && forall i :: 0 <= i < 64 ==> '0' <= s[i] <= '9' || 'a' <= s[i] <= 'f' }

  predicate Distinct(names: seq<Text>) { forall i, j :: 0 <= i < j < |names| ==> names[i] != names[j] }

  predicate NamesOk(names: seq<Text>) {
    |names| <= 128 && (forall n :: n in names ==> Identifier(n)) && Distinct(names)
  }

  predicate BudgetOk(b: RecoveryInput) {
    && 0 < b.maxActorOperations <= b.maxResourceOperations <= b.maxWorldOperations <= b.maxProcessOperations
    && b.maxActorOperations <= 32 && b.maxResourceOperations <= 128
    && b.maxWorldOperations <= 1024 && b.maxProcessOperations <= 4096
    && 0 < b.maxQueuedBytes <= 8 * 1024 * 1024 && 0 < b.maxBaselineBytes <= 8 * 1024 * 1024
    && 0 < b.syncTimeoutMilliseconds <= 30000 && 0 <= b.maxSyncRestarts <= 2 && 0 <= b.maxWorkerRestarts <= 3
  }

  /** An accepted identifier consists of the pattern's characters exactly when it does not
      end in a line feed, which the end anchor lets through. */
  lemma IdentifierCharacters(s: string)
    requires Identifier(Some(s))
    ensures (forall i :: 0 <= i < |s| ==> NameChar(s[i])) <==> s[|s| - 1] != '\n'
  {
    assert NameShape(Body(s));
    if s[|s| - 1] == '\n' {
      assert !NameChar(s[|s| - 1]);
    }
  }

  /** Such identifiers exist: the pattern's promise fails on this one. */
  lemma LineFeedAccepted()
    ensures Identifier(Some("a\n")) && !NameChar("a\n"[1])
  {
    var s := "a\n";
    assert Body(s) == "a";
    assert !Doubled(s, '.');
  }

  /** An accepted asset reference ends in a character of the pattern other than a slash
      exactly when it does not end in a line feed; and the part the pattern sees ends in
      a slash exactly when the reference ends in a slash and a line feed. */
  lemma AssetPathEnds(s: string)
    requires AssetIdentifier(Some(s))
    ensures NameChar(s[|s| - 1]) <==> s[|s| - 1] != '\n'
    ensures Body(s) != []
    ensures Body(s)[|Body(s)| - 1] == '/' <==> |s| >= 2 && s[|s| - 2] == '/' && s[|s| - 1] == '\n'
  {
    var b := Body(s);
    var i :| 0 <= i < |b| && b[i] == ':' && NameShape(b[..i]) && PathShape(b[i + 1..]);
    assert b[i + 1..][|b| - i - 2] == b[|b| - 1];
  }

  /** Behind a line feed the path may end in a slash. */
  lemma HiddenSlash()
    ensures AssetIdentifier(Some("a:b/\n"))
  {
    var s := "a:b/\n";
    var b := Body(s);
    assert b == "a:b/" && b[1] == ':' && b[..1] == "a" && b[2..] == "b/";
    assert NameShape(b[..1]) && PathShape(b[2..]);
    assert !Doubled(s, '.') && !Doubled(s, '/');
  }

  // ---- Resources ---------------------------------------------------------------

  datatype Kind = Provides | Mutates

  function Claims(r: ResourceInput, kind: Kind): seq<Text> { if kind == Provides then r.provided else r.mutates }

  /** The first definition of every well-formed identifier. */
  function Registered(rs: seq<ResourceInput>): map<string, ResourceInput> {
    if rs == [] then map[]
    else
      var m, r := Registered(rs[..|rs| - 1]), rs[|rs| - 1];
      if !Identifier(Some(r.id)) || r.id in m then m else m[r.id := r]
  }

  /** The names of one list entered for an owner, first come first served. */
  function Claimed(m: map<string, string>, names: seq<Text>, owner: string): map<string, string> {
    if names == [] then m
    else
      var c, n := Claimed(m, names[..|names| - 1], owner), names[|names| - 1];
      if !Identifier(n) || n.value in c then c else c[n.value := owner]
  }

  /** Who provides a service, or mutates a field. */
  function Owners(rs: seq<ResourceInput>, kind: Kind): map<string, string> {
    if rs == [] then map[]
    else
      var m, r := Owners(rs[..|rs| - 1], kind), rs[|rs| - 1];
      if !Identifier(Some(r.id)) then m else Claimed(m, Claims(r, kind), r.id)
  }

  predicate ClaimsFresh(m: map<string, string>, names: seq<Text>, owner: string) {
    forall i :: 0 <= i < |names| && Identifier(names[i]) ==> names[i].value !in Claimed(m, names[..i], owner)
  }

  predicate ResourceOk(r: ResourceInput) {
    && Identifier(Some(r.id)) && Digest(r.artifactDigest)
    && NamesOk(r.dependencies) && NamesOk(r.needs) && NamesOk(r.provided) && NamesOk(r.mutates)
  }

  /** The k-th definition raises nothing. */
  predicate ResourceQuiet(rs: seq<ResourceInput>, k: nat)
    requires k < |rs|
  {
    && ResourceOk(rs[k]) && rs[k].id !in Registered(rs[..k])
    && ClaimsFresh(Owners(rs[..k], Provides), rs[k].provided, rs[k].id)
    && ClaimsFresh(Owners(rs[..k], Mutates), rs[k].mutates, rs[k].id)
  }

  predicate ResourcesQuiet(rs: seq<ResourceInput>) { forall k :: 0 <= k < |rs| ==> ResourceQuiet(rs, k) }

  // ---- Edges ------------------------------------------------------------------

  function Known(names: seq<Text>, keys: set<string>): set<string> {
    set n | n in names && Identifier(n) && n.value in keys :: n.value
  }

  function Providers(id: string, names: seq<Text>, services: map<string, string>): set<string> {
    set n | n in names && Identifier(n) && n.value in services && services[n.value] != id :: services[n.value]
  }

  /** Known dependencies, and the other resources that provide what is required. */
  function ResourceEdges(resources: map<string, ResourceInput>, services: map<string, string>): Graph {
    map id | id in resources ::
      Known(resources[id].dependencies, resources.Keys) + Providers(id, resources[id].needs, services)
  }

  ghost predicate LinksQuiet(resources: map<string, ResourceInput>, services: map<string, string>) {
    forall id :: id in resources ==> LinkQuiet(resources, services, resources[id])
  }

  predicate LinkQuiet(resources: map<string, ResourceInput>, services: map<string, string>, r: ResourceInput) {
    && (forall n :: n in r.dependencies && Identifier(n) ==> n.value in resources)
    && (forall n :: n in r.needs && Identifier(n) ==> n.value in services)
  }

  // ---- Assets -----------------------------------------------------------------

  function RegisteredAssets(xs: seq<AssetInput>): map<string, AssetInput> {
    if xs == [] then map[]
    else
      var m, x := RegisteredAssets(xs[..|xs| - 1]), xs[|xs| - 1];
      if !AssetIdentifier(Some(x.id)) || x.id in m then m else m[x.id := x]
  }

  predicate AssetOk(x: AssetInput) {
    && AssetIdentifier(Some(x.id)) && Digest(x.artifactDigest) && !(x.gameplayCritical && x.optionalDownload)
    && |x.dependencies| <= 256 && (forall n :: n in x.dependencies ==> AssetIdentifier(n)) && Distinct(x.dependencies)
  }

  predicate AssetQuiet(xs: seq<AssetInput>, k: nat)
    requires k < |xs|
  {
    AssetOk(xs[k]) && xs[k].id !in RegisteredAssets(xs[..k])
  }

  predicate AssetsQuiet(xs: seq<AssetInput>) { forall k :: 0 <= k < |xs| ==> AssetQuiet(xs, k) }

  function KnownAssets(names: seq<Text>, keys: set<string>): set<string> {
    set n | n in names && AssetIdentifier(n) && n.value in keys :: n.value
  }

  function AssetEdges(assets: map<string, AssetInput>): Graph {
    map id | id in assets :: KnownAssets(assets[id].dependencies, assets.Keys)
  }

  function Critical(assets: map<string, AssetInput>): set<string> {
    set id | id in assets && assets[id].gameplayCritical
  }

  function OptionalOnes(assets: map<string, AssetInput>): set<string> {
    set id | id in assets && assets[id].optionalDownload
  }

  predicate CapabilitiesMet(required: seq<Text>, available: seq<Text>) {
    forall n :: n in required && Identifier(n) ==> n in available
  }

  // ---- Facts ------------------------------------------------------------------

  lemma IdentifierIsText(t: Text)
    requires Identifier(t)
    ensures t.Some?
  {}

  lemma AssetIdentifierIsText(t: Text)
    requires AssetIdentifier(t)
    ensures t.Some?
  {}


  lemma {:induction false} RegisteredIds(rs: seq<ResourceInput>)
    ensures forall id :: id in Registered(rs) ==>
              Registered(rs)[id] in rs && Registered(rs)[id].id == id && Identifier(Some(id))
    ensures forall r :: r in rs && Identifier(Some(r.id)) ==> r.id in Registered(rs)
  {
    if rs != [] {
      RegisteredIds(rs[..|rs| - 1]);
      assert rs == rs[..|rs| - 1] + [rs[|rs| - 1]];
      hide Identifier;
    }
  }

  lemma {:induction false} ClaimedIs(m: map<string, string>, names: seq<Text>, owner: string)
    ensures m.Keys <= Claimed(m, names, owner).Keys
    ensures forall s :: s in Claimed(m, names, owner) <==> s in m || (Some(s) in names && Identifier(Some(s)))
    ensures forall s :: s in Claimed(m, names, owner) ==> Claimed(m, names, owner)[s] == if s in m then m[s] else owner
  {
    if names != [] {
      var init, n := names[..|names| - 1], names[|names| - 1];
      ClaimedIs(m, init, owner);
      assert names == init + [n];
      assert forall x :: x in names <==> x in init || x == n;
      hide Identifier;
    }
  }

  /** Every owner is a registered resource that makes the claim. */
  lemma {:induction false} OwnersRegistered(rs: seq<ResourceInput>, kind: Kind)
    ensures forall s :: s in Owners(rs, kind) ==> Owners(rs, kind)[s] in Registered(rs)
  {
    if rs != [] {
      var init, r := rs[..|rs| - 1], rs[|rs| - 1];
      OwnersRegistered(init, kind);
      if Identifier(Some(r.id)) {
        ClaimedIs(Owners(init, kind), Claims(r, kind), r.id);
      }
      hide Identifier, Claimed;
    }
  }

  /** All edges end at keys. */
  lemma ResourceEdgesClosed(rs: seq<ResourceInput>)
    ensures Closed(ResourceEdges(Registered(rs), Owners(rs, Provides)))
  {
    OwnersRegistered(rs, Provides);
    hide Registered, Owners, Identifier;
  }

  lemma AssetEdgesClosed(xs: seq<AssetInput>)
    ensures Closed(AssetEdges(RegisteredAssets(xs)))
  {
    hide RegisteredAssets, AssetIdentifier;
  }
}
