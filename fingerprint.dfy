/**
 * Fingerprint selection (getHash): a small image is hashed after its
 * metadata is stripped; everything else, and every image whose stripping
 * fails, falls back to the checksum the file reports.
 */
module Fingerprint {
  import opened Wrappers
  import opened Domain

  /** The only way getHash fails: neither provenance gave a fingerprint. */
  datatype HashError = NoHash

  /** An upload that is worth normalising: an image of at most SizeExifLimit bytes. */
  predicate Normalisable(file: Upload) {
    file.kind == "image" && file.size <= SizeExifLimit
  }

  /**
   * The fingerprint of `file`. `strip` stands for running exiftool over the
   * file's content and hashing its output; `None` is any failure of that
   * pipeline (spawn error, non-zero exit, stream error).
   */
  function GetHash(file: Upload, strip: Upload -> Option<Key>): (r: Result<Key, HashError>)
    // a successful normalisation of a normalisable file is always preferred
    ensures Normalisable(file) && strip(file).Some? ==> r == Success(strip(file).value)
    // otherwise the normaliser plays no part: the fingerprint is the checksum,
    // and there is one exactly when the checksum is present and not empty
    ensures !Normalisable(file) || strip(file).None? ==>
      && (r.Success? <==> Truthy(file.checksum))
      && (r.Success? ==> file.checksum == Some(r.value))
    // every fingerprint comes from one of the two provenances
    ensures r.Success? ==> Some(r.value) == strip(file) || Some(r.value) == file.checksum
  {
    var normalised := if Normalisable(file) then strip(file) else None;
    match normalised
    case Some(digest) => Success(digest)
    case None =>
      if Truthy(file.checksum) then Success(file.checksum.value) else Failure(NoHash)
  }

  /** A file that is not normalisable gets the same fingerprint whatever the normaliser does. */
  lemma NormaliserUnusedWhenSkipped(file: Upload, s1: Upload -> Option<Key>, s2: Upload -> Option<Key>)
    requires !Normalisable(file)
    ensures GetHash(file, s1) == GetHash(file, s2)
  {
  }
}
