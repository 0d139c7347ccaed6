/**
 * The entities the duplicate-upload engine works on: rooms, uploads, the
 * per-room ledger and the enforcement actions, with the constants of index.js.
 */
module Domain {
  import opened Wrappers

  /**
   * Items processed at once by the intake pool (POOL_LIMIT). It only documents
   * the constant: each call is one atomic step, and `Race` interleaves two.
   */
  const PoolLimit := 2
  /** Uploads of at most this many bytes are ignored (SIZE_SMALL_LIMIT). */
  const SizeSmallLimit := 50
  /** Largest image, in MiB, that is normalised before hashing (SIZE_EXIF_LIMIT_MB). */
  const SizeExifLimitMb := 10
  /** SIZE_EXIF_LIMIT, JavaScript's 32-bit `10 << 20`. */
  const SizeExifLimit: int := ((SizeExifLimitMb as bv32) << 20) as int
  /** The allow-list `OK` as deployed: no fingerprint is exempt. */
  const AllowedHashes: set<Key> := {}

  /** Minutes an uploader is silenced in an owner-moderated room. */
  const TimeoutMinutes := 5
  /** Duration, in hours, of the ban in a privileged room. */
  const BanHours: real := 0.1
  const BanReason := "Dupe"

  /** Keys and fingerprints share one namespace in a room's store. */
  type Key = string

  /**
   * What the ledger holds under a key: `Seen` is the `true` put under an
   * upload's id; `Owner(id)` is the id put under a fingerprint.
   */
  datatype Value = Seen | Owner(id: string)

  /** A room's store, as the map it denotes. */
  type Ledger = map<Key, Value>

  /** A recorded owner that JavaScript treats as false (the empty string). */
  predicate Falsy(v: Value) {
    v == Owner("")
  }

  datatype Room = Room(id: string, owner: bool, privileged: bool)

  /**
   * An upload event's file. `checksum` is what `infos()` reports; `ip` is
   * absent for some uploaders.
   */
  datatype Upload = Upload(
    id: string,
    size: int,
    kind: string,
    uploader: string,
    ip: Option<string>,
    checksum: Option<string>)

  /** A string field that is present and not empty: JavaScript's truthiness. */
  predicate Truthy(s: Option<string>) {
    s.Some? && s.value != ""
  }

  /** The side effects on the room and the file, recorded in order. */
  datatype Action =
    | Timeout(fileId: string, minutes: int)
    | Ban(ip: string, hours: real, reason: string, isBan: bool)
    | Chat(text: string)
    | Delete(fileId: string)

  /** A ledger that keeps every entry of `before`, with the same value. */
  ghost predicate Extends(before: Ledger, after: Ledger) {
    forall k :: k in before ==> k in after && after[k] == before[k]
  }
}
