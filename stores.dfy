/**
 * The per-room stores: one key-value store per room, opened on first use
 * and cached for the life of the process (DBS).
 */
module Stores {
  import opened Domain

  /**
   * The keys on which the disk layer reports an error other than "not
   * found", for reads and for writes.
   */
  datatype Faults = Faults(unreadable: set<Key>, unwritable: set<Key>)

  /** What the disk holds at a store's path when the store is opened, and how it fails. */
  datatype Disk = Disk(contents: Ledger, faults: Faults)

  /** The answer to a point lookup. */
  datatype Lookup = Found(value: Value) | NotFound | Failed

  /** One room's store: its contents and how its disk behaves. */
  class Store {
    var entries: Ledger
    const faults: Faults

    /** Opens a store over what earlier runs left on disk. */
    constructor (contents: Ledger, faults: Faults)
      ensures entries == contents && this.faults == faults
    {
      entries := contents;
      this.faults := faults;
    }

    /** `get(key)`: the value under `k`, "not found", or a disk error. */
    method Get(k: Key) returns (r: Lookup)
      ensures r.Failed? <==> k in faults.unreadable
      ensures r.NotFound? <==> k !in faults.unreadable && k !in entries
      ensures r.Found? ==> k in entries && r.value == entries[k]
    {
      if k in faults.unreadable {
        r := Failed;
      } else if k in entries {
        r := Found(entries[k]);
      } else {
        r := NotFound;
      }
    }

    /** `put(key, value)`: a point insert that either happens or reports an error. */
    method Put(k: Key, v: Value) returns (ok: bool)
      modifies this
      ensures ok <==> k !in faults.unwritable
      ensures entries == if ok then old(entries)[k := v] else old(entries)
    {
      ok := k !in faults.unwritable;
      if ok {
        entries := entries[k := v];
      }
    }
  }

  /** The registry of open stores, keyed by path. */
  class Registry {
    /** What the disk behind each path holds and how it fails once a store is opened there. */
    const disk: string -> Disk
    var stores: map<string, Store>

    /** No two paths share a store object. */
    ghost predicate Valid()
      reads this
    {
      forall p, q :: p in stores && q in stores && p != q ==> stores[p] != stores[q]
    }

    /** The contents of the store at `path`, or what its disk holds if none is open yet. */
    ghost function LedgerAt(path: string): Ledger
      reads this, stores.Values
    {
      if path in stores then stores[path].entries else disk(path).contents
    }

    constructor (disk: string -> Disk)
      ensures Valid() && stores == map[] && this.disk == disk
    {
      this.disk := disk;
      stores := map[];
    }

    /**
     * `DBS.get(key)`: the cached store for `path`, or a store newly opened
     * over the path's disk contents, cached from now on.
     */
    method Get(path: string) returns (s: Store)
      requires Valid()
      modifies this
      ensures Valid()
      ensures path in stores && stores[path] == s
      ensures path in old(stores) ==> s == old(stores[path]) && stores == old(stores)
      ensures path !in old(stores) ==>
        && fresh(s) && s.entries == disk(path).contents && s.faults == disk(path).faults
        && stores == old(stores)[path := s]
    {
      if path in stores {
        return stores[path];
      }
      s := new Store(disk(path).contents, disk(path).faults);
      stores := stores[path := s];
    }
  }

  /** The path of a room's store: `${__dirname}/${room.id}.hashes`. */
  function StorePath(dir: string, roomId: string): string {
    dir + "/" + roomId + ".hashes"
  }

  /** Two rooms of the same installation never share a store path. */
  lemma StorePathInjective(dir: string, a: string, b: string)
    requires StorePath(dir, a) == StorePath(dir, b)
    ensures a == b
  {
    var p := StorePath(dir, a);
    assert |a| == |b|;
    assert a == p[|dir| + 1 .. |p| - 7];
    assert b == StorePath(dir, b)[|dir| + 1 .. |p| - 7];
  }
}
