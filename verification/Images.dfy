/** Image files of the block devices: a header, then blocks of 1024 words. */
module Images {
  import opened Words
  import opened Dma

  /** Images under 2^31 bytes, so that the emulator's signed file offsets are exact. */
  type Image = i: seq<Word> | 4 * |i| < 0x8000_0000 witness []

  function BlockAt(header: nat, n: nat): nat { header + n * BLOCKSIZE }

  predicate Holds(image: Image, header: nat, n: nat) { BlockAt(header, n) + BLOCKSIZE <= |image| }

  function ReadBlock(image: Image, header: nat, n: nat): Block
    requires Holds(image, header, n)
  {
    image[BlockAt(header, n)..BlockAt(header, n) + BLOCKSIZE]
  }

  function WriteBlock(image: Image, header: nat, n: nat, b: Block): (r: Image)
    requires Holds(image, header, n)
    ensures |r| == |image|
  {
    image[..BlockAt(header, n)] + b + image[BlockAt(header, n) + BLOCKSIZE..]
  }

  lemma BlocksApart(header: nat, n: nat, m: nat)
    requires n != m
    ensures BlockAt(header, n) + BLOCKSIZE <= BlockAt(header, m) || BlockAt(header, m) + BLOCKSIZE <= BlockAt(header, n)
  {
  }

  /** A written block reads back, every other block reads as before, and the header is untouched. */
  lemma WrittenBlock(image: Image, header: nat, n: nat, m: nat, b: Block)
    requires Holds(image, header, n) && Holds(image, header, m)
    ensures Holds(WriteBlock(image, header, n, b), header, m)
    ensures ReadBlock(WriteBlock(image, header, n, b), header, m) == if m == n then b else ReadBlock(image, header, m)
    ensures WriteBlock(image, header, n, b)[..header] == image[..header]
  {
    var r := WriteBlock(image, header, n, b);
    if m != n {
      BlocksApart(header, n, m);
      var at, am := BlockAt(header, n), BlockAt(header, m);
      hide BlockAt;
      assert forall k :: am <= k < am + BLOCKSIZE ==> r[k] == image[k];
      assert r[am..am + BLOCKSIZE] == image[am..am + BLOCKSIZE];
    }
  }

  /** The byte offset as the emulator computes it, in 32-bit words. */
  function ByteOffset(header: nat, n: nat): Word { (header + n * BLOCKSIZE) * 4 % TWO32 }

  /** For blocks the image holds it neither wraps nor turns negative as a signed word. */
  lemma ByteOffsetExact(image: Image, header: nat, n: nat)
    requires Holds(image, header, n)
    ensures ByteOffset(header, n) == 4 * BlockAt(header, n) < 0x8000_0000
  {
  }
}
