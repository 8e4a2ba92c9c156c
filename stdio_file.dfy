/**
 * The stdio stream the POFF reader seeks and reads in: the file's bytes,
 * the offsets at which fseek fails, the positions whose byte fread cannot
 * read, and the stream position.
 */
module StdioFile {

  /**
   * The contents of a file, the offsets at which fseek reports failure and
   * the positions whose byte fread cannot read (an I/O error).
   */
  datatype FileImage = FileImage(contents: seq<bv8>, seekFailures: set<nat>, readFailures: set<nat>)

  /** Whether fread of `n` bytes from position `pos` delivers all of them. */
  predicate ReadsWhole(img: FileImage, pos: nat, n: nat) {
    n == 0 || (pos + n <= |img.contents| && forall f :: pos <= f < pos + n ==> f !in img.readFailures)
  }

  /** The first position from `pos` on, but before `hi`, whose byte cannot be read; `hi` if there is none. */
  function ReadableEnd(img: FileImage, pos: nat, hi: nat): (e: nat)
    requires pos <= hi
    ensures pos <= e <= hi
    ensures forall f :: pos <= f < e ==> f !in img.readFailures
    ensures e < hi ==> e in img.readFailures
    decreases hi - pos
  {
    if pos == hi || pos in img.readFailures then pos else ReadableEnd(img, pos + 1, hi)
  }

  /**
   * What fread of `n` bytes delivers from position `pos`: the bytes there,
   * cut short at the end of the file or at the first byte that meets an
   * I/O error (and none at all past the end).
   */
  function Slice(img: FileImage, pos: nat, n: nat): (bytes: seq<bv8>)
    ensures |bytes| <= n
    ensures |bytes| == n <==> ReadsWhole(img, pos, n)
    // what is delivered is the file's bytes from `pos` on, none of them failing
    ensures |bytes| > 0 ==> pos + |bytes| <= |img.contents| && bytes == img.contents[pos..pos + |bytes|]
    ensures forall f :: pos <= f < pos + |bytes| ==> f !in img.readFailures
    // a short read stopped at the end of the file or at a byte that failed
    ensures |bytes| < n ==> pos + |bytes| >= |img.contents| || pos + |bytes| in img.readFailures
  {
    var len := |img.contents|;
    var lo := if pos < len then pos else len;
    var hi := if pos + n < len then pos + n else len;
    img.contents[lo..ReadableEnd(img, lo, hi)]
  }

  class File {
    const image: FileImage
    var position: nat

    constructor (image: FileImage)
      ensures this.image == image && position == 0
    {
      this.image := image;
      position := 0;
    }

    /** fseek(file, offset, SEEK_SET): true when it succeeds. */
    method Seek(offset: nat) returns (ok: bool)
      modifies this
      ensures ok == (offset !in image.seekFailures)
      ensures position == if ok then offset else old(position)
    {
      ok := offset !in image.seekFailures;
      if ok {
        position := offset;
      }
    }

    /** fread of `n` bytes: the bytes delivered; the position moves past them. */
    method Read(n: nat) returns (bytes: seq<bv8>)
      modifies this
      ensures bytes == Slice(image, old(position), n)
      ensures position == old(position) + |bytes|
    {
      bytes := Slice(image, position, n);
      position := position + |bytes|;
    }
  }
}
