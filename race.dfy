/**
 * The check-then-put on a fingerprint is not atomic under the intake pool:
 * onfile awaits the fingerprint lookup and only then awaits the put that
 * claims it, and PoolLimit uploads are in flight at once. This module runs
 * two uploads with the same fingerprint in one of the orders the atomic model
 * never produces: both look the fingerprint up before either writes, then
 * the first writes, then the second.
 */
module Race {
  import opened Wrappers
  import opened Domain
  import opened Fingerprint
  import opened Stores
  import opened Intake
  import opened Replay

  /**
   * Uploads `a` and `b` in the pool's two slots: each decides against the
   * same ledger, then `a` writes, then `b` writes over what `a` left.
   */
  function Interleaved(room: Room, a: Upload, b: Upload, strip: Upload -> Option<Key>, allow: set<Key>,
                       ledger: Ledger, faults: Faults): (Ledger, seq<Action>)
  {
    var da := Decide(a, strip, allow, ledger, faults);
    var db := Decide(b, strip, allow, ledger, faults);
    var ea := Commit(room, a, ledger, faults, da);
    var eb := Commit(room, b, ea.ledger, faults, db);
    (eb.ledger, ea.actions + eb.actions)
  }

  /**
   * Two different uploads of the same new content, interleaved: the second
   * overwrites the first one's ownership of the fingerprint and neither is
   * caught, where running them one after the other enforces against the second.
   */
  lemma InterleavedClaimOverwritesOwner(room: Room, a: Upload, b: Upload, strip: Upload -> Option<Key>,
                                        allow: set<Key>, ledger: Ledger, faults: Faults, h: Key)
    requires a.id != "" && a.id != b.id && h != a.id && h != b.id
    requires Admitted(a, ledger, faults) && Admitted(b, ledger, faults)
    requires GetHash(a, strip) == Success(h) && GetHash(b, strip) == Success(h)
    requires h !in allow && h !in ledger && h !in faults.unreadable && faults.unwritable == {}
    ensures var (after, acts) := Interleaved(room, a, b, strip, allow, ledger, faults);
      && h in after && after[h] == Owner(b.id)
      && a.id in after && b.id in after
      && acts == []
    ensures var (after, acts) := Run(room, strip, allow, faults, ledger, [a, b]);
      && h in after && after[h] == Owner(a.id)
      && b.id !in after
      && acts == Enforcement(room, b)
  {
    var first := Step(room, a, strip, allow, ledger, faults);
    assert first.ledger == ledger[h := Owner(a.id)][a.id := Seen];
    var second := Step(room, b, strip, allow, first.ledger, faults);
    assert Admitted(b, first.ledger, faults) && first.ledger[h] == Owner(a.id);
    assert second == Effect(first.ledger, Enforcement(room, b), Dupe);
    RunPair(room, strip, allow, faults, ledger, a, b);
  }

  /**
   * The same two decisions written in the other order (`b` first, then `a`):
   * `a` keeps the fingerprint, but `b` is marked seen and is never enforced
   * against, so a later re-delivery of `b` is skipped as already seen.
   */
  lemma InterleavedReverseMarksDuplicateSeen(room: Room, a: Upload, b: Upload, strip: Upload -> Option<Key>,
                                             allow: set<Key>, ledger: Ledger, faults: Faults, h: Key)
    requires a.id != b.id && h != a.id && h != b.id
    requires Admitted(a, ledger, faults) && Admitted(b, ledger, faults)
    requires GetHash(a, strip) == Success(h) && GetHash(b, strip) == Success(h)
    requires h !in allow && h !in ledger && h !in faults.unreadable && faults.unwritable == {}
    ensures var (after, acts) := Interleaved(room, b, a, strip, allow, ledger, faults);
      && h in after && after[h] == Owner(a.id)
      && a.id in after && b.id in after && after[b.id] == Seen
      && acts == []
  {
    assert Decide(a, strip, allow, ledger, faults) == Claim(h);
    assert Decide(b, strip, allow, ledger, faults) == Claim(h);
  }
}
