/** The name the upload storage engine gives a new file: sixteen random
    bytes in lowercase hexadecimal followed by the original extension,
    stored in the `uploads` bucket. */
module Upload {
  import opened Wrappers
  import opened Octets
  import Hex
  import PathExt

  const RandomByteCount: nat := 16
  const BucketName: string := "uploads"

  /** What the system's random source hands back: the bytes, or an error. */
  datatype RandomBytes = Generated(buf: Bytes) | RandomError(reason: string)

  /** The file information the storage engine resolves with. */
  datatype FileInfo = FileInfo(filename: string, bucketName: string)

  /** Builds the stored file's name and bucket from the random bytes and the
      client's original file name; a random-source error rejects. */
  function MakeFileInfo(random: RandomBytes, originalName: string): (r: Result<FileInfo, string>)
    requires random.Generated? ==> |random.buf| == RandomByteCount
    ensures r.Failure? <==> random.RandomError?
    ensures random.RandomError? ==> r.error == random.reason
    ensures r.Success? ==>
      && r.value.bucketName == BucketName
      && |r.value.filename| == 2 * RandomByteCount + |PathExt.Extname(originalName)|
      && (forall i :: 0 <= i < 2 * RandomByteCount ==> Hex.IsHexDigit(r.value.filename[i]))
      && Hex.Decode(r.value.filename[..2 * RandomByteCount]) == Some(random.buf)
      && r.value.filename[2 * RandomByteCount..] == PathExt.Extname(originalName)
  {
    match random
    case RandomError(reason) => Failure(reason)
    case Generated(buf) =>
      var hex := Hex.Encode(buf);
      var ext := PathExt.Extname(originalName);
      PathExt.ExtnameShape(originalName);
      var name := hex + ext;
      Hex.DecodeEncode(buf);
      assert |hex| == 2 * RandomByteCount;
      assert name[..|hex|] == hex && name[|hex|..] == ext;
      Success(FileInfo(name, BucketName))
  }

  /** Different random bytes give different stored names, whatever the
      original names were. */
  lemma DistinctRandomDistinctNames(r1: RandomBytes, n1: string, r2: RandomBytes, n2: string)
    requires r1.Generated? && |r1.buf| == RandomByteCount
    requires r2.Generated? && |r2.buf| == RandomByteCount
    requires r1.buf != r2.buf
    ensures MakeFileInfo(r1, n1).value.filename != MakeFileInfo(r2, n2).value.filename
  {
  }

  /** The stored name keeps the original extension: `report.pdf` becomes
      thirty-two hexadecimal digits followed by `.pdf`. */
  lemma KeepsOriginalExtension(random: RandomBytes, stem: string, ext: string)
    requires random.Generated? && |random.buf| == RandomByteCount
    requires |stem| > 0 && '/' !in stem && '/' !in ext && '.' !in ext
    requires stem + "." + ext != ".."
    ensures MakeFileInfo(random, stem + "." + ext).value.filename
      == Hex.Encode(random.buf) + "." + ext
  {
    var name := stem + "." + ext;
    var e := PathExt.Extname(name);
    assert e == "." + ext by {
      PathExt.ExtnameOfStemAndSuffix(stem, ext);
    }
    var hex := Hex.Encode(random.buf);
    var r := MakeFileInfo(random, name);
    assert r.value.filename == hex + e;
  }
}
