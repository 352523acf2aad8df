/**
 The fixed-width integers of the firmware and the packets that travel between coordinator and nodes.
 */
module Wire {
  type U8 = x: int | 0 <= x < 0x100
  type U16 = x: int | 0 <= x < 0x1_0000
  type U32 = x: int | 0 <= x < 0x1_0000_0000

  /** The all-ones word that stands for "no page", "no sector" and "no slot". */
  const NONE: U32 := 0xFFFF_FFFF

  const PAGE_SIZE: U32 := 4096
  const CHUNK_SIZE: U32 := 64

  const START_ACCEPTED: U8 := 0
  const START_REJECTED_VERSION: U8 := 1
  const START_REJECTED_TARGET: U8 := 2
  const START_REJECTED_SAME_SLOT: U8 := 3

  datatype Option<+T> = None | Some(value: T)

  /** A packet of the coordinator. START carries the file size in `offset` and the security version in
      `length`; PAGE_END carries the page checksum in `length`; VERIFY the image checksum in `offset`. */
  datatype Packet =
    | Start(fileSize: U32, secVer: U16, slot: U8)
    | Data(offset: U32, length: U16, slot: U8, data: seq<bv8>)
    | PageEnd(offset: U32, crc: bv16, slot: U8)
    | Verify(crc: bv16, slot: U8)

  /** A bitmap report: the chunks of one page the node claims to hold. */
  datatype Report = Report(page: U32, chunks: set<nat>)

  function MinLen(a: int, b: int): int {
    if a > b then b else a
  }

  /** The page an offset lies in. */
  function PageOf(offset: nat): (page: nat)
    ensures page <= offset < page + 4096 && page % 4096 == 0
  {
    offset - offset % 4096
  }

  lemma PageAt(offset: nat)
    ensures PageOf(offset) == 4096 * (offset / 4096)
  {
  }

  lemma PageWithin(q: nat, t: nat)
    requires t < 4096
    ensures PageOf(4096 * q + t) == 4096 * q
  {
    assert (4096 * q + t) % 4096 == t;
  }

  /** A piece of a slice. */
  lemma SubSlice(image: seq<bv8>, base: nat, size: nat, at: nat, n: nat)
    requires base + size <= |image| && at + n <= size
    ensures image[base + at..base + at + n] == image[base..base + size][at..at + n]
  {
    var page, slice := image[base..base + size], image[base + at..base + at + n];
    forall j | 0 <= j < n
      ensures slice[j] == page[at..at + n][j]
    {
      assert page[at..at + n][j] == page[at + j] == image[base + at + j];
    }
  }
}
