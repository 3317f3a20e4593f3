/** Values shared by the media store and the ingest protocol. Hashes are modelled by what they hash. */
module MediaTypes {
  newtype byte = x: int | 0 <= x < 256

  type Bytes = seq<byte>

  /** A SHA-256 digest of file contents; two files have one digest only when they are equal. */
  datatype Digest = Sha256(contents: Bytes)

  /** The managed paths of the media directory. */
  datatype Path =
    | Staging(ingestKey: string)
    | AcceptedMedia(digest: Digest)
    | QuarantineMedia(ingestKey: string, fingerprint: Fingerprint)
    | QuarantinePartial(ingestKey: string, fingerprint: Fingerprint)

  /** A sidecar's declared metadata; `details` holds its device times, clock fields, media type and version. */
  datatype Sidecar = Sidecar(collector: string, sourceKey: string, details: string, size: nat, digest: Digest)

  /** What identifies a source generation: its name, the raw sidecar, or the canonical sidecar. */
  datatype Fingerprint = OfName(name: string) | OfRaw(raw: string) | OfSidecar(sidecar: Sidecar)

  /** What ffprobe reports of a file. */
  datatype Probe = Probe(info: string, typeMatches: bool, tooLong: bool)

  /** The verified metadata of a segment, without the source identity. */
  datatype Metadata = Metadata(details: string, size: nat, digest: Digest, probe: string)

  datatype Status = Discovered | Pending | Validated | Quarantined | Accepted | Failed

  /** Error codes; the sidecar parser and the prober report their own. */
  datatype Code =
    | NoError
    | SidecarMissing | SidecarIncomplete | SourceMissing | FileGrowing | TooLarge
    | SizeMismatch | HashMismatch | TypeInvalid | DurationInvalid
    | IdempotencyConflict | MetadataConflict
    | StorageFailed | StorageProtected | DatabaseFailed | QuarantineFailed
    | Reported(text: string)

  function MetadataOf(s: Sidecar, p: Probe): Metadata {
    Metadata(s.details, s.size, s.digest, p.info)
  }
}
