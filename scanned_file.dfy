/** The record the index stores for one hashed file. */
module ScannedFiles {
  import HashComparer = ScannedFileHashComparer

  /** `ScannedFile`: the content hash, the full path and the file name. */
  datatype ScannedFile = ScannedFile(hash: HashComparer.ByteArray, path: string, name: string)

  /**
   * `ScannedFile.Equals`: the names, the paths and, by content, the hashes must
   * all match. With the hash compared by content this is equality of the
   * whole record.
   */
  function Equals(self: ScannedFile, other: ScannedFile): (r: bool)
    ensures r <==> self == other
  {
    var isEqual := self.name == other.name;
    var isEqual := isEqual && self.path == other.path;
    isEqual && HashComparer.Equals(self.hash, other.hash)
  }

  /** `ScannedFile.GetHashCode`: the hash code of the path, for any string hash. */
  function GetHashCode(self: ScannedFile, stringHash: string -> int): int {
    stringHash(self.path)
  }

  /** The hash code depends on the path alone: records at one path collide whatever their hash and name. */
  lemma HashCodeOfPathAlone(a: ScannedFile, b: ScannedFile, stringHash: string -> int)
    requires a.path == b.path
    ensures GetHashCode(a, stringHash) == GetHashCode(b, stringHash)
  {
  }

  /** Equal records have equal hash codes, whatever the string hash. */
  lemma EqualRecordsHashAlike(a: ScannedFile, b: ScannedFile, stringHash: string -> int)
    requires Equals(a, b)
    ensures GetHashCode(a, stringHash) == GetHashCode(b, stringHash)
  {
  }

  lemma DifferentHashesUnequal(hash: seq<HashComparer.byte>, other: seq<HashComparer.byte>, path: string, name: string, k: nat)
    requires |hash| == |other| && k < |hash| && hash[k] != other[k]
    ensures !Equals(ScannedFile(HashComparer.Array(hash), path, name), ScannedFile(HashComparer.Array(other), path, name))
  {
    assert hash != other;
  }

  lemma DifferentNamesUnequal(hash: HashComparer.ByteArray, path: string, name: string, other: string)
    requires name != other
    ensures !Equals(ScannedFile(hash, path, name), ScannedFile(hash, path, other))
  {
  }

  lemma DifferentPathsUnequal(hash: HashComparer.ByteArray, path: string, other: string, name: string)
    requires path != other
    ensures !Equals(ScannedFile(hash, path, name), ScannedFile(hash, other, name))
  {
  }
}
