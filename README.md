# node-r9k duplicate-upload engine, modelled in Dafny

The r9k command watches the uploads to a room and punishes re-uploads of
content the room has already seen. For every upload, `onfile` runs a fixed
pipeline:

1. It ignores tiny files.
2. It skips an upload whose id the room's ledger already holds.
3. It fingerprints the file.
4. It lets allow-listed fingerprints through.
5. It resolves who owns the fingerprint.
6. On a confirmed duplicate only, it enforces: a timeout or a ban, then a chat
   notice and the deletion of the file.

The ledger is one key-value store per room. Two kinds of key share its
namespace: an upload's id maps to `true` ("seen"), and a fingerprint maps to
the id of the first upload that produced it (its "owner").

The model has eight modules:

- `Wrappers`: Option and Result.
- `Domain`: rooms, uploads, ledger values, actions, and the constants
  `SIZE_SMALL_LIMIT`, `SIZE_EXIF_LIMIT` (JavaScript's 32-bit `10 << 20`, written
  as a `bv32` shift), `OK`, the timeout of 5 minutes and the 0.1-hour "Dupe" ban.
- `Fingerprint`: `getHash` as the function `GetHash`. The metadata-stripping
  hash is an uninterpreted, possibly failing function value `strip`. The
  checksum reported by `infos()` is an optional field.
- `Stores`: `DBS` and the promisified LevelDB handles.
  - `Store` is a class whose `entries` map is the ledger. Its `Get` answers
    found, not found, or a disk error. Its `Put` may fail.
  - Which keys fail is the store's `faults`, a parameter standing for the disk.
  - `Registry` is the lazy get-or-create cache of stores, keyed by path. A
    store opened for the first time starts from what the disk at its path
    already holds (`disk(path).contents`), as LevelDB reopens what earlier runs
    wrote.
- `Intake`: `onfile`.
  - The pure specification `Step` is the read phase `Decide` followed by the
    write-and-act phase `Commit`.
  - The class `R9k` runs the same pipeline imperatively: it opens the room's
    store through the registry, mutates it, and appends to a log of actions.
    Its methods are proved to produce exactly the effect `Step` describes.
- `Replay`: successive `onfile` calls on one room, each one atomic, and the
  invariants they keep.
- `Race`: two interleavings of two calls that the atomic model cannot
  produce, one for each write order after both reads (see Findings).
- `Scenarios`: two worked examples for one room, replayed.

Ledger values are modelled as the JavaScript values written: `Seen` for
`true`, `Owner(id)` for an id. An owner is falsy exactly when it is the empty
string. A `Seen` marker found under a fingerprint key is truthy and differs
from every id, so the source treats it as a duplicate, and so does the model.

Two behaviours of the code are easy to get wrong; the model follows the code:

- One might expect a re-delivered upload to be enforced at most once. The code
  never marks a duplicate as seen, so re-delivering a duplicate enforces
  again. `Replay.StepTwice` proves what the code does: the second call leaves
  the ledger as the first left it and fires exactly the actions the first
  fired, under the same disk faults.
- Nothing makes the two-key update atomic. The code awaits `put(hash)` and
  then `put(id)`. If the second put fails, the fingerprint stays claimed and
  the upload stays unseen. `Intake.Step` states this case.

## Model

| member | source | states |
|---|---|---|
| `Fingerprint.GetHash` | index.js:59-78 | A successfully stripped hash of an image of at most `10 << 20` bytes is the fingerprint. Otherwise the normaliser plays no part: the fingerprint is `infos().checksum`, and there is one exactly when the checksum is present and non-empty ("no hash" otherwise). Every fingerprint comes from one of the two provenances. |
| `Fingerprint.NormaliserUnusedWhenSkipped` | index.js:61-66 | A file that is not an image, or is larger than `SIZE_EXIF_LIMIT`, gets the same fingerprint whichever normaliser is supplied. |
| `Stores.Store.Get` | index.js:50-53 | A lookup reports a disk error exactly on a failing key, "not found" exactly when the key is absent and readable, and otherwise the stored value. |
| `Stores.Store.Put` | index.js:50-53 | A put either fails and changes nothing, or stores the value under the key. |
| `Stores.Registry.Get` | index.js:44-56 | A cached path returns the same store and leaves the cache unchanged. An uncached path gets a fresh store holding what the disk at that path holds, which is cached from then on. No two paths ever share a store. |
| `Stores.StorePathInjective` | index.js:91 | Two room ids with the same store path `dir/<id>.hashes` are equal, so rooms never share a ledger. |
| `Intake.Enforcement` | index.js:115-127 | An owner-moderated room times the uploader out for 5 minutes. Otherwise a privileged room with a truthy ip bans that ip for 0.1 hours, reason "Dupe", as a ban. In every case a notice naming the uploader and file id follows, then the file's deletion. |
| `Intake.Decide` | index.js:87-110 | A filtered-out upload never reaches a write. The fingerprint is claimed only when its lookup said "not found". "Same owner" holds exactly when the recorded owner is falsy or this upload. |
| `Intake.Commit` | index.js:110-134 | Actions are fired exactly on a duplicate, which writes nothing. Writes touch only the upload's id (as seen) and the claimed fingerprint (owned by the upload). |
| `Intake.Step` | index.js:86-142 | Existing entries are never changed or removed. Each new entry is the upload's seen marker or its claim on its own fingerprint. Enforcement happens exactly on a duplicate, which leaves the ledger unchanged and the upload unseen. Per path: a small file, a seen-lookup error (propagated), a seen id, a missing fingerprint and an allow-listed fingerprint all leave the ledger unchanged with no action. A new fingerprint adds `hash → id` and `id → true`. A falsy or own owner adds only `id → true`. A store error while resolving ownership is swallowed, fires nothing and leaves the upload unseen: a failed hash lookup or `put(hash)` changes nothing, a failed `put(id)` after `put(hash)` leaves only `hash → id`, and a failed `put(id)` for a falsy or own owner changes nothing. |
| `Intake.R9k.OnFile` | index.js:86-91 | A small upload opens no store and changes nothing. Any other upload uses its room's cached store, or one newly opened over its disk's contents, and takes that store to `Step`'s ledger, appends `Step`'s actions and ends on `Step`'s path. Every other room's store is untouched. |
| `Intake.R9k.Resolve` | index.js:92-141 | The seen lookup, fingerprinting, allow-list and ownership resolution on an open store have exactly the effect `Step` gives for that store's contents and faults. |
| `Replay.RunPair` | index.js:86-142 | Helper: two successive calls compose as two `Step`s. |
| `Replay.RunExtends` | index.js:109-132 | Over any sequence of uploads, the ledger only gains entries: a seen id stays seen, and a fingerprint keeps the owner first written for it. |
| `Replay.RunSparesSeen` | index.js:92-95 | Over any sequence of uploads, no upload whose id was already in the ledger is ever timed out or deleted. |
| `Replay.RunOwnerOrigin` | index.js:129-132 | Every owner recorded for a new fingerprint during a run is an upload of that run whose fingerprint it is. |
| `Replay.StepTwice` | index.js:92-132 | Under the same disk faults and the same normaliser result, including after a half-done claim, a second delivery of the same upload leaves the ledger as the first left it and fires exactly what the first fired. |
| `Race.InterleavedClaimOverwritesOwner` | index.js:109-131 | If two different new uploads with the same fingerprint both look it up before either writes, the second replaces the first as owner and nothing is enforced. Run one after the other, the first keeps ownership and only the second is enforced against. |
| `Race.InterleavedReverseMarksDuplicateSeen` | index.js:109-132 | With both lookups first and the second upload writing first, the first keeps the fingerprint, the second is marked seen, and nothing is enforced. |
| `Scenarios.DuplicateImageInOwnedRoom` | index.js:86-142 | Images a then b with the same stripped hash H, in an owner room: the ledger ends as `H → a, a → true`, and b's uploader is timed out, noticed and deleted. |
| `Scenarios.NoticeForImageB` | index.js:126 | The notice reads `bob: pls, no dupes, not even @b`. |
| `Scenarios.VideoFallsBackToChecksum` | index.js:61-76 | Video c with checksum c1, in an empty room: `c1 → c` and `c → true` are added, with no action, whatever the normaliser. |

## Findings

| source | as written | input that shows it | evidently intended | confidence | as-written member | corrected member |
|---|---|---|---|---|---|---|
| index.js:83-131 | The fingerprint lookup (`db.get(hash)`, line 109) and the put that claims it (line 131) are separate awaits, and the pool runs two calls at once. | Empty ledger. Two 1000-byte images `a` and `b` whose stripped hash is `H`, processed in the two pool slots. Both lookups of `H` say "not found" before either put. | The first upload owns `H` and the second is enforced against as a duplicate. | plausible, not executed | `Race.InterleavedClaimOverwritesOwner` | `Intake.Step` (one atomic step, used by `Intake.R9k.OnFile` and `Replay`; `Replay.RunExtends` proves no owner is ever overwritten) |

## Left out

- `fetch_file_exif` (index.js:19-41) is not part of this model. Spawning exiftool, piping the content through it and hashing with SHA-256 are external process, stream and crypto I/O. They are the function parameter `strip`, where `None` stands for any failure.
- Whether `fetch_file_exif` resolves with the digest or with the unfinished hash object (the `exit` event can come before the pipe's `finish`) is not modelled: `strip` returns a fingerprint or fails.
- LevelUp/LevelDown, value encoding and `promisify` (index.js:50-53) are not modelled. A store is the in-memory map `entries`, opened over the path's earlier contents (`disk(path).contents`). Writes are not traced back to disk across restarts, and the model compares the values that were written, not their on-disk encoding.
- Opening a store at a path cannot fail in the model.
- `Replay.StepTwice`: a key's read or write failure lasts for the store's lifetime (`Store.faults` is fixed), and exiftool's result is a fixed function `strip` of the upload, so errors that come and go between two deliveries of the same upload are not modelled.
- `PromisePool` (index.js:83) is not modelled. Each `onfile` call is one atomic step. The only interleaving modelled is the two-phase one in `Race`.
- Console logging and colours are not modelled. That includes the observability report of a failed normalisation.
- The room and file side effects (`chat`, `ban`, `timeout`, `delete`) are recorded as `Action` values. They are assumed not to throw, and their own failures are not modelled.
- A rejection of `infos()` is not told apart from a missing checksum. Both end with the error caught at index.js:139 and no change.
- `OK.has(hash)` is modelled as set membership by value. JavaScript's `Set` compares a Buffer digest by identity. This makes no difference for the deployed `OK`, which is empty.
- Command registration (index.js:145-147) is not modelled.
