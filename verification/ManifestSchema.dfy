// The documented schema of a deployment manifest, read off the JSON itself.
module ManifestSchema {
  import opened Json
  import Crc16
  import StrKey

  /** The entry of `name` lists `dep` under `depends_on`. */
  predicate DependsUpon(contracts: Json, name: string, dep: string) {
    contracts.Get(name).Object? && contracts.Get(name).GetOrEmpty("depends_on").Has(dep)
  }

  /** The version of `dep` that the entry of `name` asks for. */
  function MinVersion(contracts: Json, name: string, dep: string): Json {
    contracts.Get(name).Get("depends_on").Get(dep).Get("min_version")
  }

  function Version(contracts: Json, name: string): Json {
    contracts.Get(name).Get("version")
  }

  /** The version asked for is a positive integer that the dependency's own version reaches. */
  predicate VersionMet(contracts: Json, name: string, dep: string) {
    var minVersion, version := MinVersion(contracts, name, dep), Version(contracts, dep);
    minVersion.Int? && version.Int? && 0 < minVersion.n <= version.n
  }

  /** One dependency between two contracts of the manifest. */
  predicate Link(contracts: Json, name: string, dep: string) {
    contracts.Has(name) && contracts.Has(dep) && DependsUpon(contracts, name, dep)
  }

  /** A path of dependencies among the contracts of the manifest that ends where it starts. */
  ghost predicate ClosedWalk(contracts: Json, walk: seq<string>) {
    && |walk| >= 2 && walk[0] == walk[|walk| - 1]
    && forall i | 0 <= i < |walk| - 1 :: Link(contracts, walk[i], walk[i + 1])
  }

  /** A key of SEP-0023 that starts with `letter`. */
  ghost predicate IsKey(value: Json, letter: char, version: Crc16.Byte) {
    && value.Str? && value.s != "" && value.s[0] == letter
    && exists payload: seq<Crc16.Byte> :: |payload| == 32 && value.s == StrKey.Encode(version, payload)
  }

  ghost predicate EntryFollows(contracts: Json, name: string) {
    var entry := contracts.Get(name);
    && entry.Object?
    && entry.Get("package").IsNonBlankString()
    && Version(contracts, name).Int? && Version(contracts, name).n > 0
    && (entry.Get("address").Null? || IsKey(entry.Get("address"), 'C', StrKey.VERSION_CONTRACT))
    && (entry.Has("depends_on") ==> entry.Get("depends_on").Object?)
    && forall dep | DependsUpon(contracts, name, dep) ::
         && dep != name && contracts.Has(dep)
         && entry.Get("depends_on").Get(dep).Object?
         && VersionMet(contracts, name, dep)
  }

  ghost predicate FollowsSchema(data: Json) {
    var contracts := data.Get("contracts");
    && data.Get("network").IsNonBlankString()
    && IsKey(data.Get("admin"), 'G', StrKey.VERSION_ACCOUNT)
    && contracts.Object? && contracts.keys != []
    && (forall name | contracts.Has(name) :: EntryFollows(contracts, name))
    && forall walk :: !ClosedWalk(contracts, walk)
  }

  // ---- Deployment --------------------------------------------------------------------------

  ghost predicate Distinct(order: seq<string>) {
    forall i, j | 0 <= i < j < |order| :: order[i] != order[j]
  }

  /** Everything `name` depends upon is in place before it, at the version asked for. */
  ghost predicate ReadyToDeploy(contracts: Json, name: string, deployed: seq<string>) {
    forall dep | DependsUpon(contracts, name, dep) :: dep in deployed && VersionMet(contracts, name, dep)
  }

  /** `order` deploys every contract of the manifest once, each when it is ready. */
  ghost predicate DeploysEverything(contracts: Json, order: seq<string>) {
    && Distinct(order)
    && (forall name :: name in order <==> contracts.Has(name))
    && (forall i | 0 <= i < |order| :: ReadyToDeploy(contracts, order[i], order[..i]))
  }
}
