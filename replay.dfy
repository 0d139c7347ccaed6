/**
 * Successive onfile calls on one room, each an atomic step, and what they
 * keep true of the room's ledger between calls.
 */
module Replay {
  import opened Wrappers
  import opened Domain
  import opened Fingerprint
  import opened Stores
  import opened Intake

  /** The ledger and the actions after `files` are processed one after another. */
  function Run(room: Room, strip: Upload -> Option<Key>, allow: set<Key>, faults: Faults,
               ledger: Ledger, files: seq<Upload>): (Ledger, seq<Action>)
    decreases |files|
  {
    if files == [] then (ledger, [])
    else
      var e := Step(room, files[0], strip, allow, ledger, faults);
      var rest := Run(room, strip, allow, faults, e.ledger, files[1..]);
      (rest.0, e.actions + rest.1)
  }

  /** Two uploads in a row (a helper for unfolding Run). */
  lemma RunPair(room: Room, strip: Upload -> Option<Key>, allow: set<Key>, faults: Faults,
                ledger: Ledger, x: Upload, y: Upload)
    ensures var ex := Step(room, x, strip, allow, ledger, faults);
      var ey := Step(room, y, strip, allow, ex.ledger, faults);
      Run(room, strip, allow, faults, ledger, [x, y]) == (ey.ledger, ex.actions + ey.actions)
  {
    var ex := Step(room, x, strip, allow, ledger, faults);
    var ey := Step(room, y, strip, allow, ex.ledger, faults);
    assert [x, y][1..] == [y] && [y][1..] == [];
    assert Run(room, strip, allow, faults, ey.ledger, []) == (ey.ledger, []);
    assert ey.actions + [] == ey.actions;
  }

  /** Entries are only ever added: a seen id stays seen and a fingerprint keeps its first owner. */
  lemma {:induction false} RunExtends(room: Room, strip: Upload -> Option<Key>, allow: set<Key>,
                                      faults: Faults, ledger: Ledger, files: seq<Upload>)
    ensures Extends(ledger, Run(room, strip, allow, faults, ledger, files).0)
    decreases |files|
  {
    if files != [] {
      var e := Step(room, files[0], strip, allow, ledger, faults);
      RunExtends(room, strip, allow, faults, e.ledger, files[1..]);
    }
  }

  /** No upload whose id the ledger already holds is ever timed out or deleted. */
  lemma {:induction false} RunSparesSeen(room: Room, strip: Upload -> Option<Key>, allow: set<Key>,
                                         faults: Faults, ledger: Ledger, files: seq<Upload>)
    ensures forall a :: a in Run(room, strip, allow, faults, ledger, files).1 && (a.Delete? || a.Timeout?) ==>
      a.fileId !in ledger
    decreases |files|
  {
    if files != [] {
      var e := Step(room, files[0], strip, allow, ledger, faults);
      RunSparesSeen(room, strip, allow, faults, e.ledger, files[1..]);
    }
  }

  /** Every owner recorded for a new fingerprint is an upload of the run whose fingerprint it is. */
  lemma {:induction false} RunOwnerOrigin(room: Room, strip: Upload -> Option<Key>, allow: set<Key>,
                                          faults: Faults, ledger: Ledger, files: seq<Upload>,
                                          h: Key, owner: string)
    requires h !in ledger
    requires h in Run(room, strip, allow, faults, ledger, files).0
    requires Run(room, strip, allow, faults, ledger, files).0[h] == Owner(owner)
    ensures exists i :: 0 <= i < |files| && files[i].id == owner && GetHash(files[i], strip) == Success(h)
    decreases |files|
  {
    var e := Step(room, files[0], strip, allow, ledger, faults);
    RunExtends(room, strip, allow, faults, e.ledger, files[1..]);
    if h in e.ledger {
      assert files[0].id == owner && GetHash(files[0], strip) == Success(h);
    } else {
      RunOwnerOrigin(room, strip, allow, faults, e.ledger, files[1..], h, owner);
      var i :| 0 <= i < |files[1..]| && files[1..][i].id == owner && GetHash(files[1..][i], strip) == Success(h);
      assert files[i + 1] == files[1..][i];
    }
  }

  /**
   * Delivering the same upload twice: the second call leaves the ledger as the
   * first left it and fires exactly what the first fired (nothing, unless the
   * upload was a duplicate, which is never marked seen). This holds after a
   * half-done claim too: the fingerprint already names this upload, and the
   * put of its id fails again. Both deliveries meet the same faults and the
   * same normaliser.
   */
  lemma StepTwice(room: Room, file: Upload, strip: Upload -> Option<Key>, allow: set<Key>,
                  ledger: Ledger, faults: Faults)
    ensures var first := Step(room, file, strip, allow, ledger, faults);
            var second := Step(room, file, strip, allow, first.ledger, faults);
            second.ledger == first.ledger && second.actions == first.actions
  {
  }
}
