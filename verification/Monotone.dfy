/**
 Facts about the distributed bytes survive the distribution of further pages.
 */
module Monotone {
  import opened Wire
  import opened Checksum16
  import opened Sensor
  import opened SensorRuns
  import opened PageTruth
  import opened PageDone

  /** `more` extends `sent` within a file of `size` bytes. */
  predicate Extends(sent: seq<bv8>, more: seq<bv8>, size: nat) {
    |sent| <= |more| <= size && more[..|sent|] == sent
  }

  lemma Same(sent: seq<bv8>, more: seq<bv8>, size: nat)
    requires Extends(sent, more, size)
    ensures forall i :: 0 <= i < |sent| ==> more[i] == sent[i]
  {
    forall i | 0 <= i < |sent| ensures more[i] == sent[i] {
      assert more[..|sent|][i] == more[i];
    }
  }

  lemma SliceSame(sent: seq<bv8>, more: seq<bv8>, size: nat, a: nat, b: nat)
    requires Extends(sent, more, size) && a <= b <= |sent|
    ensures more[a..b] == sent[a..b]
  {
    Same(sent, more, size);
  }

  lemma ShapedStays(p: Packet, size: nat, target: U8, sent: seq<bv8>, more: seq<bv8>)
    requires Extends(sent, more, size) && Shaped(p, size, target, sent)
    ensures Shaped(p, size, target, more)
  {
    hide Crc16;
    if ShapedData(p, size, target, sent) {
      SliceSame(sent, more, size, p.offset, p.offset + p.length);
    } else {
      SliceSame(sent, more, size, p.offset, p.offset + PageLen(size, p.offset));
    }
  }

  lemma TruthStays(n: Node, size: nat, target: U8, sent: seq<bv8>, more: seq<bv8>)
    requires Extends(sent, more, size) && Truth(n, size, target, sent)
    ensures Truth(n, size, target, more)
  {
    hide Cell, Covers, BlankCells, Extends;
    Same(sent, more, size);
    ExtendsLen(sent, more, size);
    if n.cur != NONE {
      forall c | c in n.chunks
        ensures n.cur + 64 * c + ChunkLen(size, n.cur + 64 * c) <= |more|
        ensures HoldsChunk(n, size, more, n.cur + 64 * c)
      {
        assert HoldsChunk(n, size, sent, n.cur + 64 * c);
        ChunkInPage(size, sent, n.cur, c);
      }
    }
  }

  lemma ExtendsLen(sent: seq<bv8>, more: seq<bv8>, size: nat)
    requires Extends(sent, more, size)
    ensures |sent| <= |more| <= size
  {
  }

  lemma DoneStays(n: Node, cs: seq<Commit>, q: nat, sent: seq<bv8>, more: seq<bv8>)
    requires Extends(sent, more, n.fileSize) && Done(n, cs, q, sent)
    ensures Done(n, cs, q, more)
  {
    hide Cell, Extends, Committed, FullBitmap;
    Same(sent, more, n.fileSize);
    ExtendsLen(sent, more, n.fileSize);
  }

  lemma PeerStays(n: Node, cs: seq<Commit>, size: nat, target: U8, sent: seq<bv8>, more: seq<bv8>)
    requires Extends(sent, more, size) && PeerInv(n, cs, size, target, sent)
    ensures PeerInv(n, cs, size, target, more)
    ensures n.fileSize == size
  {
    hide CommitInv, Crc16;
    TruthStays(n, size, target, sent, more);
    forall k | 0 <= k < |cs|
      ensures CommitShaped(cs[k], size, more)
    {
      SliceSame(sent, more, size, cs[k].page, cs[k].page + PageLen(size, cs[k].page));
    }
  }
}
