/** Two worked examples for one room, replayed on the model. */
module Scenarios {
  import opened Wrappers
  import opened Domain
  import opened Fingerprint
  import opened Stores
  import opened Intake
  import opened Replay

  const NoFaults := Faults({}, {})
  /** An owner-moderated room. */
  const R1 := Room("r1", true, false)
  const ImageA := Upload("a", 1000, "image", "alice", None, None)
  const ImageB := Upload("b", 1000, "image", "bob", None, None)
  const VideoC := Upload("c", 2000, "video", "carol", None, Some("c1"))

  /**
   * Image a is new and claims fingerprint H; image b strips to the same H, so
   * its uploader is timed out, a notice names b, b is deleted, and b is not
   * marked seen.
   */
  lemma DuplicateImageInOwnedRoom(strip: Upload -> Option<Key>)
    requires strip(ImageA) == Some("H") && strip(ImageB) == Some("H")
    ensures Run(R1, strip, AllowedHashes, NoFaults, map[], [ImageA, ImageB]) ==
      (map["H" := Owner("a"), "a" := Seen],
       [Timeout("b", TimeoutMinutes), Chat(Notice(ImageB)), Delete("b")])
  {
    var first := Step(R1, ImageA, strip, AllowedHashes, map[], NoFaults);
    var second := Step(R1, ImageB, strip, AllowedHashes, first.ledger, NoFaults);
    assert first == Effect(map["H" := Owner("a"), "a" := Seen], [], Added) by {
      assert Normalisable(ImageA);
    }
    assert second == Effect(first.ledger, Enforcement(R1, ImageB), Dupe) by {
      assert Normalisable(ImageB);
      assert Admitted(ImageB, first.ledger, NoFaults) && first.ledger["H"] == Owner("a") != Owner("b");
    }
    assert Enforcement(R1, ImageB) ==
      [Timeout("b", TimeoutMinutes), Chat(Notice(ImageB)), Delete("b")];
    RunPair(R1, strip, AllowedHashes, NoFaults, map[], ImageA, ImageB);
    assert [] + Enforcement(R1, ImageB) == Enforcement(R1, ImageB);
  }

  /** The notice about b names its uploader and its id. */
  lemma NoticeForImageB()
    ensures Notice(ImageB) == "bob: pls, no dupes, not even @b"
  {
  }

  /** Video c is never normalised: its checksum c1 becomes the fingerprint it owns. */
  lemma VideoFallsBackToChecksum(strip: Upload -> Option<Key>)
    ensures Step(R1, VideoC, strip, AllowedHashes, map[], NoFaults) ==
      Effect(map["c1" := Owner("c"), "c" := Seen], [], Added)
  {
  }
}
