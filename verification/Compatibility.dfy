/** The compatibility registry's records, as far as validating, installing and selecting read them. */
module Compatibility {
  import opened Collections

  datatype SnapshotKind = Full | FullCore | FullJit | FullAot | Unrecognized

  datatype TargetArch = Arm64 | Unsupported(text: string)

  function ArchText(a: TargetArch): string {
    match a
    case Arm64 => "arm64"
    case Unsupported(text) => text
  }

  /** What a header's features say about pointers: one mode, nothing, or both. */
  datatype PointerCompression = Compressed | Uncompressed | Unstated | Conflicting

  datatype Variant = Variant(hostOs: string, hostArch: string, path: string, size: nat, sha256: string,
                             provenance: string)

  datatype SdkAlias = SdkAlias(ecosystem: string, version: string, provenance: string)

  datatype Record = Record(
    snapshotHash: string,
    snapshotKind: SnapshotKind,
    targetArch: TargetArch,
    features: seq<string>,
    featureFingerprint: string,
    knownFeatures: seq<string>,
    forbiddenFeatures: seq<string>,
    sdkAliases: seq<SdkAlias>,
    parserFamilyId: string,
    parserFamilySha256: Option<string>,
    profileId: string,
    profilePath: string,
    profileSha256: string,
    artifactId: string,
    variants: seq<Variant>,
    evidenceSource: string,
    evidenceProvenance: string,
    protocolMajor: nat,
    modelMajor: nat)

  const MODEL_VERSION: nat := 4

  /** The protocol and model this host speaks. */
  predicate SupportedMajors(r: Record) {
    r.protocolMajor == 1 && r.modelMajor == MODEL_VERSION
  }
}
