// Validation of a deployment manifest: the checks that must pass before anything
// is deployed.
module Manifest {
  import opened Options
  import opened Json
  import opened DependencyCycle
  import opened ManifestSchema

  datatype ManifestError =
    | BadNetwork
    | BadAdmin
    | NoContracts
    | EntryNotObject(name: string)
    | BadPackage(name: string)
    | BadVersion(name: string)
    | BadAddress(name: string)
    | DependsOnNotObject(name: string)
    | DependsOnItself(name: string)
    | UnknownDependency(name: string, dep: string)
    | DependencyNotObject(name: string, dep: string)
    | BadMinVersion(name: string, dep: string)
    | VersionTooLow(name: string, dep: string, minVersion: int, version: int)
    | CircularDependency(cycle: seq<string>)

  // ---- What a valid manifest is --------------------------------------------------

  predicate IsStrKey(value: Json, version: Crc16.Byte) {
    value.Str? && StrKey.Error(value.s, version) == None
  }

  predicate HasContracts(data: Json) {
    data.Get("contracts").Object? && data.Get("contracts").keys != []
  }

  predicate TopLevelOk(data: Json) {
    && data.Get("network").IsNonBlankString()
    && IsStrKey(data.Get("admin"), StrKey.VERSION_ACCOUNT)
    && HasContracts(data)
  }

  /** The dependency `dep` of `name` is another contract of the manifest, with a positive version. */
  predicate DependencyOk(contracts: Json, name: string, dep: string) {
    var spec := contracts.Get(name).GetOrEmpty("depends_on").Get(dep);
    && dep != name
    && contracts.Has(dep)
    && spec.Object?
    && spec.Get("min_version").IsPositiveInt()
  }

  predicate EntryOk(contracts: Json, name: string) {
    var entry := contracts.Get(name);
    && entry.Object?
    && entry.Get("package").IsNonBlankString()
    && entry.Get("version").IsPositiveInt()
    && (entry.Get("address").Null? || IsStrKey(entry.Get("address"), StrKey.VERSION_CONTRACT))
    && entry.GetOrEmpty("depends_on").Object?
    && forall dep | dep in entry.GetOrEmpty("depends_on").keys :: DependencyOk(contracts, name, dep)
  }

  /** The names an entry depends on; a malformed entry has none. */
  function DependsOn(contracts: Json, name: string): seq<string> {
    var entry := contracts.Get(name);
    if entry.Object? && entry.GetOrEmpty("depends_on").Object? then entry.GetOrEmpty("depends_on").keys else []
  }

  /** What the version check of one dependency accepts, skipping what another check reports. */
  predicate VersionAccepted(contracts: Json, name: string, dep: string) {
    var spec := contracts.Get(name).GetOrEmpty("depends_on").Get(dep);
    var target := contracts.Get(dep);
    target.Object? && spec.Object?
      && spec.Get("min_version").IsPythonInt() && target.Get("version").IsPythonInt()
    ==> spec.Get("min_version").PythonInt() <= target.Get("version").PythonInt()
  }

  function DependencyGraph(contracts: Json): Graph<string>
    requires contracts.Object?
  {
    Graph(contracts.keys, map name | name in contracts.keys :: DependsOn(contracts, name))
  }

  ghost predicate ValidManifest(data: Json) {
    && TopLevelOk(data)
    && var contracts := data.Get("contracts");
       && (forall name | name in contracts.keys :: EntryOk(contracts, name))
       && (forall name | name in contracts.keys :: VersionsAccepted(contracts, name))
       && DependencyGraph(contracts).Acyclic()
  }

  predicate VersionsAccepted(contracts: Json, name: string) {
    forall dep | dep in DependsOn(contracts, name) :: VersionAccepted(contracts, name, dep)
  }

  /** The source reads the dependencies of an entry in full. */
  lemma DependsOnIff(contracts: Json, name: string, dep: string)
    ensures dep in DependsOn(contracts, name) <==> DependsUpon(contracts, name, dep)
  {
  }

  lemma CycleIffClosedWalk(contracts: Json, walk: seq<string>)
    requires contracts.Object?
    ensures DependencyGraph(contracts).IsCycle(walk) <==> ClosedWalk(contracts, walk)
  {
    var g := DependencyGraph(contracts);
    forall i | 0 <= i < |walk| - 1
      ensures g.Edge(walk[i], walk[i + 1]) <==> Link(contracts, walk[i], walk[i + 1])
    {
      DependsOnIff(contracts, walk[i], walk[i + 1]);
    }
  }

  lemma KeyIffAccepted(value: Json)
    ensures IsStrKey(value, StrKey.VERSION_ACCOUNT) <==> IsKey(value, 'G', StrKey.VERSION_ACCOUNT)
    ensures IsStrKey(value, StrKey.VERSION_CONTRACT) <==> IsKey(value, 'C', StrKey.VERSION_CONTRACT)
  {
    if value.Str? {
      StrKey.AcceptedIff(value.s, StrKey.VERSION_ACCOUNT);
      StrKey.AcceptedIff(value.s, StrKey.VERSION_CONTRACT);
      StrKey.FirstLetter(value.s);
    }
  }

  /** Where an integer is compared, the source takes true for one and false for zero. */
  lemma BooleansAreNumbers(contracts: Json, name: string, dep: string)
    requires contracts.Get(dep).Object? && contracts.Get(name).GetOrEmpty("depends_on").Get(dep).Object?
    ensures var accepted := VersionAccepted(contracts, name, dep);
            var spec, version := contracts.Get(name).GetOrEmpty("depends_on").Get(dep), Version(contracts, dep);
            var asked := spec.Get("min_version");
            && (asked.Bool? && version.Bool? ==> (accepted <==> (asked.b ==> version.b)))
            && (asked.Int? && version.Bool? ==> (accepted <==> asked.n <= 0 || (version.b && asked.n == 1)))
            && (asked.Int? && version.Int? ==> (accepted <==> asked.n <= version.n))
  {
  }

  /** The dependencies of one entry pass both checks exactly when they follow the schema. */
  lemma EntryIff(contracts: Json, name: string)
    requires contracts.Object?
    requires forall other | other in contracts.keys :: Version(contracts, other).Int? && contracts.Get(other).Object?
    ensures EntryOk(contracts, name) && VersionsAccepted(contracts, name) <==> EntryFollows(contracts, name)
  {
    KeyIffAccepted(contracts.Get(name).Get("address"));
    forall dep
      ensures dep in DependsOn(contracts, name) <==> DependsUpon(contracts, name, dep)
    {
      DependsOnIff(contracts, name, dep);
    }
    if EntryFollows(contracts, name) {
      forall dep | dep in contracts.Get(name).GetOrEmpty("depends_on").keys
        ensures DependencyOk(contracts, name, dep) && VersionAccepted(contracts, name, dep)
      {
        assert DependsUpon(contracts, name, dep);
        assert VersionMet(contracts, name, dep);
      }
    }
    if EntryOk(contracts, name) && VersionsAccepted(contracts, name) {
      forall dep | DependsUpon(contracts, name, dep)
        ensures VersionMet(contracts, name, dep)
      {
        assert DependencyOk(contracts, name, dep) && VersionAccepted(contracts, name, dep);
      }
    }
  }

  /** What the checks accept is exactly what the schema documents. */
  lemma ValidIffSchema(data: Json)
    ensures ValidManifest(data) <==> FollowsSchema(data)
  {
    KeyIffAccepted(data.Get("admin"));
    if HasContracts(data) {
      CyclesAreClosedWalks(data.Get("contracts"));
      EntriesIff(data.Get("contracts"));
    }
  }

  lemma EntriesIff(contracts: Json)
    requires contracts.Object?
    ensures (forall name | name in contracts.keys :: EntryOk(contracts, name) && VersionsAccepted(contracts, name))
       <==> forall name | contracts.Has(name) :: EntryFollows(contracts, name)
  {
    if forall name | name in contracts.keys :: EntryOk(contracts, name) && VersionsAccepted(contracts, name) {
      forall name | contracts.Has(name)
        ensures EntryFollows(contracts, name)
      {
        assert forall other | other in contracts.keys :: EntryOk(contracts, other);
        EntryIff(contracts, name);
      }
    }
    if forall name | contracts.Has(name) :: EntryFollows(contracts, name) {
      forall name | name in contracts.keys
        ensures EntryOk(contracts, name) && VersionsAccepted(contracts, name)
      {
        assert forall other | other in contracts.keys :: contracts.Has(other) && EntryFollows(contracts, other);
        EntryIff(contracts, name);
      }
    }
  }

  // ---- What a valid manifest promises ------------------------------------------------

  /** In a valid manifest, a deployment order meets every dependency in time and in version. */
  lemma OrderIsReady(data: Json, order: seq<string>)
    requires ValidManifest(data)
    requires DependencyGraph(data.Get("contracts")).IsDeploymentOrder(order)
    ensures DeploysEverything(data.Get("contracts"), order)
  {
    ValidIffSchema(data);
    var contracts := data.Get("contracts");
    var g := DependencyGraph(contracts);
    forall i, dep | 0 <= i < |order| && DependsUpon(contracts, order[i], dep)
      ensures dep in order[..i] && VersionMet(contracts, order[i], dep)
    {
      assert order[i] in g.names && EntryFollows(contracts, order[i]);
      DependsOnIff(contracts, order[i], dep);
      assert g.Edge(order[i], dep);
    }
  }

  /** One contract entry that asks for one dependency. */
  function EntryAsking(dep: string, minVersion: int): Json {
    var spec := Object(["min_version"], map["min_version" := Int(minVersion)]);
    Object(["package", "version", "depends_on"],
           map["package" := Str("p"), "version" := Int(1), "depends_on" := Object([dep], map[dep := spec])])
  }

  /** Two contracts that depend on each other, each at a version the other does not have. */
  function MutualContracts(): Json {
    Object(["a", "b"], map["a" := EntryAsking("b", 7), "b" := EntryAsking("a", 7)])
  }

  lemma MutualRefused(contracts: Json)
    requires contracts == MutualContracts()
    ensures DependsUpon(contracts, "a", "b") && DependsUpon(contracts, "b", "a")
    ensures !VersionAccepted(contracts, "a", "b") && !VersionAccepted(contracts, "b", "a")
  {
    assert contracts.Get("a") == EntryAsking("b", 7) && contracts.Get("b") == EntryAsking("a", 7);
  }

  /** Such contracts are refused, whatever else the manifest says. */
  lemma MutualContractsRefused(data: Json)
    requires data.Get("contracts") == MutualContracts()
    ensures !FollowsSchema(data) && ClosedWalk(data.Get("contracts"), ["a", "b", "a"])
    ensures !VersionAccepted(data.Get("contracts"), "a", "b") && !VersionAccepted(data.Get("contracts"), "b", "a")
  {
    MutualRefused(data.Get("contracts"));
  }

  function ManifestWith(network: string, admin: string, contracts: Json): Json {
    Object(["network", "admin", "contracts"],
           map["network" := Str(network), "admin" := Str(admin), "contracts" := contracts])
  }

  lemma FieldsOfManifest(network: string, admin: string, contracts: Json)
    ensures var data := ManifestWith(network, admin, contracts);
            && data.Get("network") == Str(network) && data.Get("admin") == Str(admin)
            && data.Get("contracts") == contracts
  {
    assert |"network"| == 7 && |"admin"| == 5 && |"contracts"| == 9;
  }

  /** A manifest of one contract without dependencies. */
  function SmallManifest(payload: seq<Crc16.Byte>): Json
    requires |payload| == 32
  {
    ManifestWith("testnet", StrKey.Encode(StrKey.VERSION_ACCOUNT, payload), Object(["a"], map["a" := SmallEntry()]))
  }

  function SmallEntry(): Json {
    Object(["package", "version"], map["package" := Str("p"), "version" := Int(1)])
  }

  lemma SmallEntryOk(contracts: Json)
    requires contracts == Object(["a"], map["a" := SmallEntry()])
    ensures EntryOk(contracts, "a") && DependsOn(contracts, "a") == []
  {
    assert contracts.Get("a") == SmallEntry();
    assert "p"[0] == 'p' && !IsSpace('p');
    assert SmallEntry().Get("package") == Str("p") && SmallEntry().Get("version") == Int(1);
  }

  lemma TopLevelOkOf(network: string, admin: string, contracts: Json)
    requires network != "" && !IsSpace(network[0]) && contracts.Object? && contracts.keys != []
    requires StrKey.Error(admin, StrKey.VERSION_ACCOUNT) == None
    ensures TopLevelOk(ManifestWith(network, admin, contracts))
  {
    FieldsOfManifest(network, admin, contracts);
  }

  lemma NoDependenciesNoCycle(contracts: Json)
    requires contracts.Object? && forall name | name in contracts.keys :: DependsOn(contracts, name) == []
    ensures DependencyGraph(contracts).Acyclic()
  {
    forall walk
      ensures !DependencyGraph(contracts).IsCycle(walk)
    {
      if |walk| >= 2 {
        assert !DependencyGraph(contracts).Edge(walk[0], walk[1]);
      }
    }
  }

  /** It is accepted, whoever the admin. */
  lemma SmallManifestAccepted(payload: seq<Crc16.Byte>)
    requires |payload| == 32
    ensures ValidManifest(SmallManifest(payload))
  {
    var admin, contracts := StrKey.Encode(StrKey.VERSION_ACCOUNT, payload), Object(["a"], map["a" := SmallEntry()]);
    StrKey.EncodedIsAccepted(StrKey.VERSION_ACCOUNT, payload);
    assert "testnet"[0] == 't' && !IsSpace('t');
    TopLevelOkOf("testnet", admin, contracts);
    FieldsOfManifest("testnet", admin, contracts);
    SmallEntryOk(contracts);
    assert forall name | name in contracts.keys :: name == "a";
    NoDependenciesNoCycle(contracts);
  }

  // ---- The validator ---------------------------------------------------------------------

  /** The top-level faults of a manifest. */
  ghost predicate TopLevelFault(data: Json, e: ManifestError) {
    match e
    case BadNetwork => !data.Get("network").IsNonBlankString()
    case BadAdmin => !IsKey(data.Get("admin"), 'G', StrKey.VERSION_ACCOUNT)
    case NoContracts => !(data.Get("contracts").Object? && data.Get("contracts").keys != [])
    case _ => false
  }

  /** A number of the source: an integer, or a boolean counted as one or zero. */
  predicate IsNumber(value: Json, n: int) {
    value == Int(n) || (value == Bool(true) && n == 1) || (value == Bool(false) && n == 0)
  }

  /** The fault `e` of the dependency of `name` upon `dep`. */
  predicate DependencyFault(contracts: Json, name: string, dep: string, e: ManifestError) {
    var spec := contracts.Get(name).GetOrEmpty("depends_on").Get(dep);
    match e
    case DependsOnItself(n) => n == name && dep == name
    case UnknownDependency(n, d) => n == name && d == dep && !contracts.Has(dep)
    case DependencyNotObject(n, d) => n == name && d == dep && !spec.Object?
    case BadMinVersion(n, d) => n == name && d == dep && spec.Object? && !spec.Get("min_version").IsPositiveInt()
    case _ => false
  }

  /** The version fault `e` of the dependency of `name` upon `dep`, where both versions are numbers. */
  predicate VersionFault(contracts: Json, name: string, dep: string, e: ManifestError) {
    var spec, target := contracts.Get(name).GetOrEmpty("depends_on").Get(dep), contracts.Get(dep);
    match e
    case VersionTooLow(n, d, minVersion, version) =>
      && n == name && d == dep && spec.Object? && target.Object? && version < minVersion
      && IsNumber(spec.Get("min_version"), minVersion) && IsNumber(target.Get("version"), version)
    case _ => false
  }

  /** The faults of one entry, those of its dependencies included. */
  ghost predicate EntryFault(contracts: Json, name: string, e: ManifestError) {
    var entry := contracts.Get(name);
    || (e == EntryNotObject(name) && !entry.Object?)
    || (e == BadPackage(name) && entry.Object? && !entry.Get("package").IsNonBlankString())
    || (e == BadVersion(name) && entry.Object? && !entry.Get("version").IsPositiveInt())
    || (e == BadAddress(name) && entry.Object? && !entry.Get("address").Null?
        && !IsKey(entry.Get("address"), 'C', StrKey.VERSION_CONTRACT))
    || (e == DependsOnNotObject(name) && entry.Object? && !entry.GetOrEmpty("depends_on").Object?)
    || (exists dep :: DependsUpon(contracts, name, dep) && DependencyFault(contracts, name, dep, e))
  }

  ghost predicate EntryVersionFault(contracts: Json, name: string, e: ManifestError) {
    exists dep :: DependsUpon(contracts, name, dep) && VersionFault(contracts, name, dep, e)
  }

  method TopLevelErrors(data: Json) returns (errors: seq<ManifestError>)
    ensures errors == [] <==> TopLevelOk(data)
    ensures forall e :: e in errors <==> TopLevelFault(data, e)
  {
    KeyIffAccepted(data.Get("admin"));
    errors := [];
    if !data.Get("network").IsNonBlankString() {
      errors := errors + [BadNetwork];
    }
    if !IsStrKey(data.Get("admin"), StrKey.VERSION_ACCOUNT) {
      errors := errors + [BadAdmin];
    }
    if !HasContracts(data) {
      errors := errors + [NoContracts];
    }
  }

  /** A fault of one of the first `n` dependencies. */
  ghost predicate FaultBefore(contracts: Json, name: string, deps: seq<string>, n: nat, e: ManifestError)
    requires n <= |deps|
  {
    exists k :: 0 <= k < n && DependencyFault(contracts, name, deps[k], e)
  }

  lemma FaultsGrow(contracts: Json, name: string, deps: seq<string>, n: nat)
    requires n < |deps|
    ensures forall e :: FaultBefore(contracts, name, deps, n + 1, e) <==>
                          FaultBefore(contracts, name, deps, n, e) || DependencyFault(contracts, name, deps[n], e)
  {
  }

  /** One turn of the loop over the dependencies of an entry. */
  method OneDependencyErrors(contracts: Json, name: string, dep: string, spec: Json)
    returns (errors: seq<ManifestError>)
    requires spec == contracts.Get(name).GetOrEmpty("depends_on").Get(dep)
    ensures errors == [] <==> DependencyOk(contracts, name, dep)
    ensures forall e :: e in errors <==> DependencyFault(contracts, name, dep, e)
  {
    errors := [];
    if dep == name {
      errors := errors + [DependsOnItself(name)];
    }
    if !contracts.Has(dep) {
      errors := errors + [UnknownDependency(name, dep)];
    }
    if !spec.Object? {
      errors := errors + [DependencyNotObject(name, dep)];
    } else if !spec.Get("min_version").IsPositiveInt() {
      errors := errors + [BadMinVersion(name, dep)];
    }
  }

  method DependencyErrors(contracts: Json, name: string, dependsOn: Json) returns (errors: seq<ManifestError>)
    requires dependsOn == contracts.Get(name).GetOrEmpty("depends_on") && dependsOn.Object?
    ensures errors == [] <==> forall dep | dep in dependsOn.keys :: DependencyOk(contracts, name, dep)
    ensures forall e :: e in errors <==> exists dep :: dep in dependsOn.keys && DependencyFault(contracts, name, dep, e)
  {
    errors := [];
    for i := 0 to |dependsOn.keys|
      invariant forall e :: e in errors <==> FaultBefore(contracts, name, dependsOn.keys, i, e)
      invariant errors == [] <==> forall k | 0 <= k < i :: DependencyOk(contracts, name, dependsOn.keys[k])
    {
      var dep := dependsOn.keys[i];
      FaultsGrow(contracts, name, dependsOn.keys, i);
      var more := OneDependencyErrors(contracts, name, dep, dependsOn.Get(dep));
      errors := errors + more;
    }
  }

  method EntryErrors(contracts: Json, name: string) returns (errors: seq<ManifestError>)
    ensures errors == [] <==> EntryOk(contracts, name)
    ensures forall e :: e in errors <==> EntryFault(contracts, name, e)
  {
    var entry := contracts.Get(name);
    KeyIffAccepted(entry.Get("address"));
    if !entry.Object? {
      return [EntryNotObject(name)];
    }
    errors := [];
    if !entry.Get("package").IsNonBlankString() {
      errors := errors + [BadPackage(name)];
    }
    if !entry.Get("version").IsPositiveInt() {
      errors := errors + [BadVersion(name)];
    }
    if !entry.Get("address").Null? && !IsStrKey(entry.Get("address"), StrKey.VERSION_CONTRACT) {
      errors := errors + [BadAddress(name)];
    }
    var dependsOn := entry.GetOrEmpty("depends_on");
    if !dependsOn.Object? {
      errors := errors + [DependsOnNotObject(name)];
      return;
    }
    var more := DependencyErrors(contracts, name, dependsOn);
    errors := errors + more;
  }

  /** A fault of one of the first `n` entries. */
  ghost predicate EntryFaultBefore(contracts: Json, n: nat, e: ManifestError)
    requires contracts.Object? && n <= |contracts.keys|
  {
    exists k :: 0 <= k < n && EntryFault(contracts, contracts.keys[k], e)
  }

  lemma EntryFaultsGrow(contracts: Json, n: nat)
    requires contracts.Object? && n < |contracts.keys|
    ensures forall e :: EntryFaultBefore(contracts, n + 1, e) <==>
                          EntryFaultBefore(contracts, n, e) || EntryFault(contracts, contracts.keys[n], e)
  {
  }

  method ContractErrors(contracts: Json) returns (errors: seq<ManifestError>)
    requires contracts.Object?
    ensures errors == [] <==> forall name | name in contracts.keys :: EntryOk(contracts, name)
    ensures forall e :: e in errors <==> exists name :: contracts.Has(name) && EntryFault(contracts, name, e)
  {
    errors := [];
    for i := 0 to |contracts.keys|
      invariant forall e :: e in errors <==> EntryFaultBefore(contracts, i, e)
      invariant errors == [] <==> forall k | 0 <= k < i :: EntryOk(contracts, contracts.keys[k])
    {
      EntryFaultsGrow(contracts, i);
      var more := EntryErrors(contracts, contracts.keys[i]);
      errors := errors + more;
    }
  }

  /** A version fault of one of the first `n` dependencies. */
  ghost predicate VersionFaultBefore(contracts: Json, name: string, deps: seq<string>, n: nat, e: ManifestError)
    requires n <= |deps|
  {
    exists k :: 0 <= k < n && VersionFault(contracts, name, deps[k], e)
  }

  lemma VersionFaultsGrow(contracts: Json, name: string, deps: seq<string>, n: nat)
    requires n < |deps|
    ensures forall e :: VersionFaultBefore(contracts, name, deps, n + 1, e) <==>
                          VersionFaultBefore(contracts, name, deps, n, e) || VersionFault(contracts, name, deps[n], e)
  {
  }

  /** One turn of the loop over the versions asked for. */
  method OneVersionErrors(contracts: Json, name: string, dep: string) returns (errors: seq<ManifestError>)
    ensures errors == [] <==> VersionAccepted(contracts, name, dep)
    ensures forall e :: e in errors <==> VersionFault(contracts, name, dep, e)
  {
    var target, spec := contracts.Get(dep), contracts.Get(name).GetOrEmpty("depends_on").Get(dep);
    errors := [];
    if target.Object? && spec.Object? {
      var minVersion, version := spec.Get("min_version"), target.Get("version");
      if minVersion.IsPythonInt() && version.IsPythonInt() && version.PythonInt() < minVersion.PythonInt() {
        errors := [VersionTooLow(name, dep, minVersion.PythonInt(), version.PythonInt())];
      }
    }
  }

  /** The errors are exactly the version faults; there are none exactly when every version is accepted. */
  method VersionErrorsOf(contracts: Json, name: string) returns (errors: seq<ManifestError>)
    ensures errors == [] <==> forall dep | DependsUpon(contracts, name, dep) :: VersionAccepted(contracts, name, dep)
    ensures forall e :: e in errors <==> EntryVersionFault(contracts, name, e)
  {
    forall dep
      ensures dep in DependsOn(contracts, name) <==> DependsUpon(contracts, name, dep)
    {
      DependsOnIff(contracts, name, dep);
    }
    errors := [];
    var dependsOn := DependsOn(contracts, name);
    for i := 0 to |dependsOn|
      invariant errors == [] <==> forall k | 0 <= k < i :: VersionAccepted(contracts, name, dependsOn[k])
      invariant forall e :: e in errors <==> VersionFaultBefore(contracts, name, dependsOn, i, e)
    {
      VersionFaultsGrow(contracts, name, dependsOn, i);
      var more := OneVersionErrors(contracts, name, dependsOn[i]);
      errors := errors + more;
    }
  }

  lemma AllDependenciesAsked(contracts: Json, name: string)
    ensures VersionsAccepted(contracts, name)
       <==> forall dep | DependsUpon(contracts, name, dep) :: VersionAccepted(contracts, name, dep)
  {
    forall dep
      ensures dep in DependsOn(contracts, name) <==> DependsUpon(contracts, name, dep)
    {
      DependsOnIff(contracts, name, dep);
    }
  }

  ghost predicate EntryVersionFaultBefore(contracts: Json, n: nat, e: ManifestError)
    requires contracts.Object? && n <= |contracts.keys|
  {
    exists k :: 0 <= k < n && EntryVersionFault(contracts, contracts.keys[k], e)
  }

  lemma EntryVersionFaultsGrow(contracts: Json, n: nat)
    requires contracts.Object? && n < |contracts.keys|
    ensures forall e :: EntryVersionFaultBefore(contracts, n + 1, e) <==>
                          EntryVersionFaultBefore(contracts, n, e) || EntryVersionFault(contracts, contracts.keys[n], e)
  {
  }

  method VersionErrors(contracts: Json) returns (errors: seq<ManifestError>)
    requires contracts.Object?
    ensures errors == [] <==> forall name | name in contracts.keys :: VersionsAccepted(contracts, name)
    ensures forall e :: e in errors <==> exists name :: contracts.Has(name) && EntryVersionFault(contracts, name, e)
  {
    errors := [];
    for i := 0 to |contracts.keys|
      invariant forall e :: e in errors <==> EntryVersionFaultBefore(contracts, i, e)
      invariant errors == [] <==> forall k | 0 <= k < i :: VersionsAccepted(contracts, contracts.keys[k])
    {
      AllDependenciesAsked(contracts, contracts.keys[i]);
      EntryVersionFaultsGrow(contracts, i);
      var more := VersionErrorsOf(contracts, contracts.keys[i]);
      errors := errors + more;
    }
  }

  /** A fault of the manifest other than a cycle; without contracts only the top level is looked at. */
  ghost predicate Fault(data: Json, e: ManifestError) {
    var contracts := data.Get("contracts");
    || TopLevelFault(data, e)
    || exists name :: contracts.Has(name) && (EntryFault(contracts, name, e) || EntryVersionFault(contracts, name, e))
  }

  /**
   * No error is reported exactly for a manifest that follows the documented schema. Then some order deploys
   * every contract once, after all its dependencies, with every minimum version met. A closed walk of
   * dependencies ends in an error that names one, and all other errors are exactly the faults of the manifest.
   */
  method ValidateManifest(data: Json) returns (errors: seq<ManifestError>)
    requires data.Object?
    ensures errors == [] <==> FollowsSchema(data)
    ensures errors == [] ==> exists order :: DeploysEverything(data.Get("contracts"), order)
    ensures HasContracts(data) && (exists walk :: ClosedWalk(data.Get("contracts"), walk)) ==>
              && errors != [] && errors[|errors| - 1].CircularDependency?
              && ClosedWalk(data.Get("contracts"), errors[|errors| - 1].cycle)
    ensures forall e: ManifestError | !e.CircularDependency? :: e in errors <==> Fault(data, e)
  {
    ValidIffSchema(data);
    errors := TopLevelErrors(data);
    if !HasContracts(data) {
      return;
    }
    var contracts := data.Get("contracts");
    var more := ContractErrors(contracts);
    errors := errors + more;
    more := VersionErrors(contracts);
    errors := errors + more;
    var cycle := FindDependencyCycle(DependencyGraph(contracts));
    CyclesAreClosedWalks(contracts);
    if cycle.Some? {
      errors := errors + [CircularDependency(cycle.value)];
    } else if errors == [] {
      ghost var order :| DependencyGraph(contracts).IsDeploymentOrder(order);
      OrderIsReady(data, order);
    }
  }

  lemma CyclesAreClosedWalks(contracts: Json)
    requires contracts.Object?
    ensures forall walk :: DependencyGraph(contracts).IsCycle(walk) <==> ClosedWalk(contracts, walk)
  {
    forall walk
      ensures DependencyGraph(contracts).IsCycle(walk) <==> ClosedWalk(contracts, walk)
    {
      CycleIffClosedWalk(contracts, walk);
    }
  }
}
