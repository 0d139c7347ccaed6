/**
 * The decision engine run once per upload (onfile): size filter, "already
 * seen" lookup, fingerprint, allow-list, ownership resolution against the
 * room's ledger and, on a confirmed duplicate only, enforcement.
 *
 * The specification is the pure function Step, split into the part that only
 * reads the ledger (Decide) and the part that writes it and acts (Commit); the
 * class R9k runs the same pipeline imperatively over the cached stores.
 */
module Intake {
  import opened Wrappers
  import opened Domain
  import opened Fingerprint
  import opened Stores

  /** How one call of onfile ends. */
  datatype Path =
    | Small               // at most SizeSmallLimit bytes: ignored
    | AlreadySeen         // the upload's id is in the ledger
    | Thrown(key: Key)    // the seen lookup failed: the error leaves onfile
    | Unhashable          // getHash threw "no hash": caught and logged
    | AllowListed         // the fingerprint is exempt
    | Swallowed(key: Key) // a store error while resolving ownership: caught and logged
    | Added               // first occurrence of the fingerprint
    | Same                // the fingerprint's owner is falsy or this very upload
    | Dupe                // the fingerprint belongs to another upload

  /** What the read-only part of onfile settles on. */
  datatype Decision =
    | Finish(path: Path)  // return before any write
    | Claim(hash: Key)    // the fingerprint lookup said "not found"
    | MarkSeen            // the recorded owner is falsy or this upload
    | Enforce             // the recorded owner is another upload

  /** The effect of one onfile call: the ledger afterwards, the actions it fired, how it ended. */
  datatype Effect = Effect(ledger: Ledger, actions: seq<Action>, path: Path)

  /** The public notice posted about a duplicate. */
  function Notice(file: Upload): string {
    file.uploader + ": pls, no dupes, not even @" + file.id
  }

  /**
   * The actions fired against a duplicate: a timeout for the uploader in an
   * owner-moderated room, or else a ban of the uploader's address in a
   * privileged room, and in every case the notice and the deletion.
   */
  function Enforcement(room: Room, file: Upload): (acts: seq<Action>)
    ensures 2 <= |acts| <= 3
    ensures acts[|acts| - 2..] == [Chat(Notice(file)), Delete(file.id)]
    ensures |acts| == 3 <==> room.owner || (room.privileged && Truthy(file.ip))
    ensures room.owner ==> acts[0] == Timeout(file.id, TimeoutMinutes)
    ensures !room.owner && room.privileged && Truthy(file.ip) ==>
      acts[0] == Ban(file.ip.value, BanHours, BanReason, true)
  {
    var escalation :=
      if room.owner then [Timeout(file.id, TimeoutMinutes)]
      else if room.privileged && Truthy(file.ip) then [Ban(file.ip.value, BanHours, BanReason, true)]
      else [];
    escalation + [Chat(Notice(file)), Delete(file.id)]
  }

  /** The upload got past the size filter and the seen lookup. */
  predicate Admitted(file: Upload, ledger: Ledger, faults: Faults) {
    file.size > SizeSmallLimit && file.id !in faults.unreadable && file.id !in ledger
  }

  /** The reads of onfile, up to the choice between first occurrence, same owner and duplicate. */
  function Decide(file: Upload, strip: Upload -> Option<Key>, allow: set<Key>,
                  ledger: Ledger, faults: Faults): (d: Decision)
    // nothing is written for an upload that is filtered out
    ensures !Admitted(file, ledger, faults) ==> d.Finish?
    // the fingerprint is claimed only when its lookup said "not found"
    ensures d.Claim? ==>
      && Admitted(file, ledger, faults)
      && GetHash(file, strip) == Success(d.hash)
      && d.hash !in allow && d.hash !in faults.unreadable && d.hash !in ledger
    // same owner and duplicate are told apart only on a recorded owner
    ensures d.MarkSeen? || d.Enforce? ==>
      && Admitted(file, ledger, faults)
      && GetHash(file, strip).Success?
      && var h := GetHash(file, strip).value;
      && h !in allow && h !in faults.unreadable && h in ledger
      && (d.MarkSeen? <==> Falsy(ledger[h]) || ledger[h] == Owner(file.id))
  {
    if file.size <= SizeSmallLimit then Finish(Small)
    else if file.id in faults.unreadable then Finish(Thrown(file.id))
    else if file.id in ledger then Finish(AlreadySeen)
    else
      match GetHash(file, strip)
      case Failure(_) => Finish(Unhashable)
      case Success(h) =>
        if h in allow then Finish(AllowListed)
        else if h in faults.unreadable then Finish(Swallowed(h))
        else if h !in ledger then Claim(h)
        else if Falsy(ledger[h]) || ledger[h] == Owner(file.id) then MarkSeen
        else Enforce
  }

  /** The writes and side effects of onfile, carrying out decision `d` on `ledger`. */
  function Commit(room: Room, file: Upload, ledger: Ledger, faults: Faults, d: Decision): (r: Effect)
    // enforcement happens exactly on a duplicate, and a duplicate writes nothing
    ensures r.actions != [] <==> d.Enforce?
    ensures d.Enforce? ==> r == Effect(ledger, Enforcement(room, file), Dupe)
    // writes touch at most the upload's id and the claimed fingerprint
    ensures forall k :: k in r.ledger && (k !in ledger || r.ledger[k] != ledger[k]) ==>
      (k == file.id && r.ledger[k] == Seen) || (d.Claim? && k == d.hash && r.ledger[k] == Owner(file.id))
    ensures ledger.Keys <= r.ledger.Keys
  {
    match d
    case Finish(path) => Effect(ledger, [], path)
    case Claim(h) =>
      if h in faults.unwritable then Effect(ledger, [], Swallowed(h))
      else if file.id in faults.unwritable then Effect(ledger[h := Owner(file.id)], [], Swallowed(file.id))
      else Effect(ledger[h := Owner(file.id)][file.id := Seen], [], Added)
    case MarkSeen =>
      if file.id in faults.unwritable then Effect(ledger, [], Swallowed(file.id))
      else Effect(ledger[file.id := Seen], [], Same)
    case Enforce => Effect(ledger, Enforcement(room, file), Dupe)
  }

  /** One call of onfile on a room whose store holds `ledger` and whose disk fails as `faults` says. */
  function Step(room: Room, file: Upload, strip: Upload -> Option<Key>, allow: set<Key>,
                ledger: Ledger, faults: Faults): (r: Effect)
    // no entry already in the ledger is ever changed or removed
    ensures Extends(ledger, r.ledger)
    // each new entry is this upload's seen marker or its claim on its own fingerprint
    ensures forall k :: k in r.ledger && k !in ledger ==>
      || (k == file.id && r.ledger[k] == Seen)
      || (GetHash(file, strip) == Success(k) && r.ledger[k] == Owner(file.id))
    // enforcement happens exactly on a confirmed duplicate, which leaves the ledger as it was
    ensures r.actions != [] <==> r.path == Dupe
    ensures r.path == Dupe ==> r.ledger == ledger && r.actions == Enforcement(room, file)
    // the upload is newly marked seen exactly when it is a first occurrence or its own owner
    ensures (file.id !in ledger && file.id in r.ledger) <==> (r.path == Added || r.path == Same)
    // size filter: no lookup, no write, no action
    ensures file.size <= SizeSmallLimit ==> r == Effect(ledger, [], Small)
    // the seen lookup: its error propagates, a hit ends the call
    ensures file.size > SizeSmallLimit && file.id in faults.unreadable ==>
      r == Effect(ledger, [], Thrown(file.id))
    ensures file.size > SizeSmallLimit && file.id !in faults.unreadable && file.id in ledger ==>
      r == Effect(ledger, [], AlreadySeen)
    // no fingerprint: nothing written, nothing fired
    ensures Admitted(file, ledger, faults) && GetHash(file, strip).Failure? ==>
      r == Effect(ledger, [], Unhashable)
    // the outcomes of ownership resolution, with each put able to fail
    ensures Admitted(file, ledger, faults) && GetHash(file, strip).Success? ==>
      var h := GetHash(file, strip).value;
      && (h in allow ==> r == Effect(ledger, [], AllowListed))
      && (h !in allow && h in faults.unreadable ==> r == Effect(ledger, [], Swallowed(h)))
      // a new fingerprint: put(hash) then put(id), and a failed put ends the call
      && (h !in allow && h !in faults.unreadable && h !in ledger ==>
          && (h in faults.unwritable ==> r == Effect(ledger, [], Swallowed(h)))
          && (h !in faults.unwritable && file.id in faults.unwritable ==>
                r == Effect(ledger[h := Owner(file.id)], [], Swallowed(file.id)))
          && (h !in faults.unwritable && file.id !in faults.unwritable ==>
                r == Effect(ledger[h := Owner(file.id)][file.id := Seen], [], Added)))
      // a falsy or own owner: put(id) alone
      && (h !in allow && h !in faults.unreadable && h in ledger &&
          (Falsy(ledger[h]) || ledger[h] == Owner(file.id)) ==>
          && (file.id in faults.unwritable ==> r == Effect(ledger, [], Swallowed(file.id)))
          && (file.id !in faults.unwritable ==> r == Effect(ledger[file.id := Seen], [], Same)))
      && (h !in allow && h !in faults.unreadable && h in ledger &&
          !Falsy(ledger[h]) && ledger[h] != Owner(file.id) ==>
            r == Effect(ledger, Enforcement(room, file), Dupe))
    // a caught store error fires nothing and leaves the upload unseen
    ensures r.path.Swallowed? ==> r.actions == [] && file.id !in r.ledger
  {
    Commit(room, file, ledger, faults, Decide(file, strip, allow, ledger, faults))
  }

  /**
   * The command, with the registry of per-room stores it opens and the log of
   * the actions it has fired. In the source each call is admitted by a pool of
   * PoolLimit workers; here each call is one atomic step. Under the pool the
   * lookup of a fingerprint and the put that claims it are separate awaits, so
   * two uploads of the same content can interleave between them (see Race).
   */
  class R9k {
    /** The directory the stores live in (`__dirname`). */
    const dir: string
    /** The metadata-stripping hash of an upload's content; `None` when it fails. */
    const strip: Upload -> Option<Key>
    /** Fingerprints exempt from deduplication. */
    const allowList: set<Key>
    const dbs: Registry
    /** Every action fired so far, in order. */
    var actions: seq<Action>

    ghost predicate Valid()
      reads dbs
    {
      dbs.Valid()
    }

    /** The path of `room`'s store. */
    function Location(room: Room): string {
      StorePath(dir, room.id)
    }

    constructor (dir: string, strip: Upload -> Option<Key>, allowList: set<Key>, disk: string -> Disk)
      ensures Valid() && fresh(dbs)
      ensures this.dir == dir && this.strip == strip && this.allowList == allowList
      ensures dbs.disk == disk && dbs.stores == map[] && actions == []
    {
      this.dir := dir;
      this.strip := strip;
      this.allowList := allowList;
      dbs := new Registry(disk);
      actions := [];
    }

    /** `onfile(room, file)`. */
    method OnFile(room: Room, file: Upload) returns (path: Path)
      requires Valid()
      modifies this, dbs, dbs.stores.Values
      ensures Valid()
      // a small upload opens no store, reads nothing and writes nothing
      ensures file.size <= SizeSmallLimit ==>
        path == Small && dbs.stores == old(dbs.stores) && actions == old(actions)
      ensures file.size > SizeSmallLimit ==>
        && Location(room) in dbs.stores
        && dbs.stores == old(dbs.stores)[Location(room) := dbs.stores[Location(room)]]
        && (Location(room) in old(dbs.stores) ==> dbs.stores[Location(room)] == old(dbs.stores[Location(room)]))
      // the room's store goes from its old contents (what its disk held, if it was just opened) to what Step says
      ensures file.size > SizeSmallLimit ==>
        var db := dbs.stores[Location(room)];
        var e := Step(room, file, strip, allowList, old(dbs.LedgerAt(Location(room))), db.faults);
        && db.faults == (if Location(room) in old(dbs.stores) then old(dbs.stores[Location(room)].faults)
                         else dbs.disk(Location(room)).faults)
        && db.entries == e.ledger && actions == old(actions) + e.actions && path == e.path
      // every other room's store is untouched
      ensures forall p :: p in old(dbs.stores) && (file.size <= SizeSmallLimit || p != Location(room)) ==>
        dbs.stores[p].entries == old(dbs.stores[p].entries)
    {
      if file.size <= SizeSmallLimit {
        return Small;
      }
      var db := dbs.Get(Location(room));
      path := Resolve(room, file, db);
    }

    /** The body of onfile once the upload is past the size filter and its room's store is open. */
    method Resolve(room: Room, file: Upload, db: Store) returns (path: Path)
      requires file.size > SizeSmallLimit
      modifies this, db
      ensures var e := Step(room, file, strip, allowList, old(db.entries), db.faults);
        db.entries == e.ledger && actions == old(actions) + e.actions && path == e.path
    {
      ghost var d := Decide(file, strip, allowList, db.entries, db.faults);
      var seen := db.Get(file.id);
      match seen {
        case Found(_) => return AlreadySeen;
        case Failed => return Thrown(file.id);
        case NotFound =>
      }
      var hash := GetHash(file, strip);
      if hash.Failure? {
        return Unhashable;
      }
      var h := hash.value;
      if h in allowList {
        return AllowListed;
      }
      var existing := db.Get(h);
      match existing {
        case Failed =>
          return Swallowed(h);
        case NotFound =>
          assert d == Claim(h);
          var ok := db.Put(h, Owner(file.id));
          if !ok {
            return Swallowed(h);
          }
          ok := db.Put(file.id, Seen);
          if !ok {
            return Swallowed(file.id);
          }
          return Added;
        case Found(owner) =>
          if Falsy(owner) || owner == Owner(file.id) {
            assert d == MarkSeen;
            var ok := db.Put(file.id, Seen);
            if !ok {
              return Swallowed(file.id);
            }
            return Same;
          }
          assert d == Enforce;
          actions := actions + Enforcement(room, file);
          return Dupe;
      }
    }
  }
}
