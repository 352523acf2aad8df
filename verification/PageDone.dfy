/**
 When a page is done on a node, why a full bitmap report proves it, and why it stays done.
 */
module PageDone {
  import opened Wire
  import opened TargetFlash
  import opened Checksum16
  import opened Sensor
  import opened SensorRuns
  import opened PageTruth

  /** The bytes of the page at `p` as they were distributed. */
  function SentBytes(size: nat, sent: seq<bv8>, p: nat): seq<bv8>
    requires SentPage(size, sent, p)
  {
    sent[p..p + PageLen(size, p)]
  }

  // ---------------------------------------------------------------- PAGE_END

  /** In session, the page length and the page bytes of the code are those of the file. */
  lemma PageBytesInSession(n: Node, target: U8, sent: seq<bv8>)
    requires Truth(n, n.fileSize, target, sent) && n.cur != NONE
    ensures CurrentPageLen(n) == PageLen(n.fileSize, n.cur) > 0
    ensures PageBytes(n).Some? && |PageBytes(n).value| == PageLen(n.fileSize, n.cur)
    ensures forall i :: 0 <= i < PageLen(n.fileSize, n.cur) ==> PageBytes(n).value[i] == Cell(n, n.cur + i)
  {
    hide CoversPage, HoldsChunk, BlankCells;
    FileFits(n, n.cur);
  }

  lemma PageEndTruth(n: Node, p: Packet, target: U8, sent: seq<bv8>)
    requires Truth(n, n.fileSize, target, sent) && p.PageEnd?
    ensures Truth(HandlePageEnd(n, p.offset, p.crc, p.slot).0, n.fileSize, target, sent)
  {
    hide CoversPage, HoldsChunk, BlankCells, Crc16, PageBytes;
    var m := HandlePageEnd(n, p.offset, p.crc, p.slot).0;
    CellsKept(n, m, n.fileSize, sent);
  }

  /** Without a flash change every statement about cells carries over. */
  lemma CellsKept(n: Node, m: Node, size: nat, sent: seq<bv8>)
    requires m.flash == n.flash && m.target == n.target
    ensures forall i: nat :: Cell(m, i) == Cell(n, i)
    ensures forall o: nat :: o + ChunkLen(size, o) <= |sent| && HoldsChunk(n, size, sent, o) ==>
      HoldsChunk(m, size, sent, o)
    ensures forall p: nat :: p + PageLen(size, p) <= |sent| && CoversPage(n, size, sent, p) ==>
      CoversPage(m, size, sent, p)
    ensures forall a: nat, b: nat :: BlankCells(n, a, b) ==> BlankCells(m, a, b)
  {
    hide Covers;
  }

  // ---------------------------------------------------------------- commits

  ghost predicate Committed(cs: seq<Commit>, p: nat) {
    exists k :: 0 <= k < |cs| && cs[k].page == p
  }

  /** A commit of a distributed page: the right length, and the checksum of what was sent. */
  predicate CommitShaped(c: Commit, size: nat, sent: seq<bv8>) {
    && SentPage(size, sent, c.page) && |c.bytes| == PageLen(size, c.page)
    && Crc16(0, c.bytes) == Crc16(0, SentBytes(size, sent, c.page))
  }

  ghost predicate CommitsShaped(cs: seq<Commit>, size: nat, sent: seq<bv8>) {
    forall k :: 0 <= k < |cs| ==> CommitShaped(cs[k], size, sent)
  }

  lemma CommitOfShaped(n: Node, p: Packet, target: U8, sent: seq<bv8>, cs: seq<Commit>)
    requires Truth(n, n.fileSize, target, sent) && CommitsShaped(cs, n.fileSize, sent)
    requires Shaped(p, n.fileSize, target, sent)
    ensures CommitsShaped(cs + CommitOf(n, p), n.fileSize, sent)
  {
    hide Truth, PageBytes, Crc16;
    TruthCursor(n, target, sent);
    if CommitOf(n, p) != [] {
      NoPageAtNone(n, p.crc);
      PageBytesInSession(n, target, sent);
    }
  }

  lemma TruthCursor(n: Node, target: U8, sent: seq<bv8>)
    requires Truth(n, n.fileSize, target, sent)
    ensures SessionOk(n) && n.active && n.target == target && (n.cur != NONE ==> SentPage(n.fileSize, sent, n.cur))
  {
  }

  // ---------------------------------------------------------------- done

  /** Every chunk of the page is marked. */
  predicate FullBitmap(chunks: set<nat>, size: nat, p: nat) {
    forall c: nat :: c < 64 && 64 * c < PageLen(size, p) ==> c in chunks
  }

  /** The page at `p` is in flash as it was sent, has been committed, and cannot be disturbed any more. */
  ghost predicate Done(n: Node, cs: seq<Commit>, p: nat, sent: seq<bv8>) {
    && SentPage(n.fileSize, sent, p) && n.cur != NONE && p <= n.cur
    && HoldsPage(n, n.fileSize, sent, p) && Committed(cs, p)
    && (p == n.cur ==> FullBitmap(n.chunks, n.fileSize, p))
  }

  /** A full true bitmap means the flash page is the sent page. */
  lemma FullMeansHeld(n: Node, target: U8, sent: seq<bv8>)
    requires Truth(n, n.fileSize, target, sent) && n.cur != NONE && FullBitmap(n.chunks, n.fileSize, n.cur)
    ensures HoldsPage(n, n.fileSize, sent, n.cur)
  {
    hide Cell, CoversPage, BlankCells;
    forall i | n.cur <= i < n.cur + PageLen(n.fileSize, n.cur)
      ensures Cell(n, i) == sent[i]
    {
      var c: nat := (i - n.cur) / 64;
      assert c in n.chunks;
      assert HoldsChunk(n, n.fileSize, sent, n.cur + 64 * c);
    }
  }

  /** A page that is held passes its check. */
  lemma HeldMatches(n: Node, p: Packet, target: U8, sent: seq<bv8>)
    requires Truth(n, n.fileSize, target, sent) && ShapedEnd(p, n.fileSize, target, sent) && p.offset == n.cur
    requires HoldsPage(n, n.fileSize, sent, n.cur)
    ensures PageMatches(n, p.crc)
  {
    hide Crc16, Truth, PageBytes, Cell;
    TruthCursor(n, target, sent);
    PageBytesInSession(n, target, sent);
    assert PageBytes(n).value == SentBytes(n.fileSize, sent, n.cur);
  }

  /** The PAGE_END check cannot fail on a full bitmap. */
  lemma FullBitmapMatches(n: Node, p: Packet, target: U8, sent: seq<bv8>)
    requires Truth(n, n.fileSize, target, sent) && ShapedEnd(p, n.fileSize, target, sent) && p.offset == n.cur
    requires FullBitmap(n.chunks, n.fileSize, n.cur)
    ensures PageMatches(n, p.crc) && HandlePageEnd(n, p.offset, p.crc, p.slot).0.chunks == n.chunks
  {
    hide PageMatches;
    FullMeansHeld(n, target, sent);
    HeldMatches(n, p, target, sent);
  }

  /** A report names exactly the chunks the node holds if and only if the page check passed or it held none: a failed
      check reports every held chunk as missing, too. */
  lemma MissingChunksReportedIff(n: Node, p: Packet, target: U8, sent: seq<bv8>)
    requires Truth(n, n.fileSize, target, sent) && ShapedEnd(p, n.fileSize, target, sent) && p.offset == n.cur
    ensures var report := HandlePageEnd(n, p.offset, p.crc, p.slot).1;
      && report.Some? && report.value.page == n.cur
      && (report.value.chunks == n.chunks <==> PageMatches(n, p.crc) || n.chunks == {})
      && (report.value.chunks != n.chunks ==> report.value.chunks == {})
  {
    hide Truth, PageBytes, Crc16;
    TruthCursor(n, target, sent);
  }

  /** A full bitmap report is only ever sent for a page that is done. */
  lemma FullReportMeansDone(n: Node, p: Packet, target: U8, sent: seq<bv8>, cs: seq<Commit>)
    requires Truth(n, n.fileSize, target, sent) && ShapedEnd(p, n.fileSize, target, sent) && CommitInv(n, cs)
    ensures var (m, report) := HandlePageEnd(n, p.offset, p.crc, p.slot);
      report.Some? ==>
        && report.value.page == n.cur == p.offset && SentPage(n.fileSize, sent, p.offset)
        && (FullBitmap(report.value.chunks, n.fileSize, p.offset) ==> Done(m, cs + CommitOf(n, p), p.offset, sent))
  {
    hide PageBytes, Crc16, HoldsPage, CoversPage, HoldsChunk, BlankCells;
    var (m, report) := HandlePageEnd(n, p.offset, p.crc, p.slot);
    if report.Some? && FullBitmap(report.value.chunks, n.fileSize, p.offset) {
      assert 0 in report.value.chunks;
      FullMeansHeld(n, target, sent);
      CellsKept(n, m, n.fileSize, sent);
      PageKept(n, m, n.fileSize, sent, p.offset);
      var added := CommitOf(n, p);
      if added == [] {
        assert cs[|cs| - 1].page == p.offset;
        assert cs + added == cs;
      } else {
        assert (cs + added)[|cs|].page == p.offset;
      }
    }
  }

  lemma PageKept(n: Node, m: Node, size: nat, sent: seq<bv8>, p: nat)
    requires p + PageLen(size, p) <= |sent| && HoldsPage(n, size, sent, p)
    requires forall i :: p <= i < p + PageLen(size, p) ==> Cell(m, i) == Cell(n, i)
    ensures HoldsPage(m, size, sent, p)
  {
    hide Cell;
  }

  // ---------------------------------------------------------------- stability

  /** DATA does not disturb a page that is done. */
  lemma DoneAfterData(n: Node, cs: seq<Commit>, q: nat, p: Packet, target: U8, sent: seq<bv8>, hw: Hardware)
    requires Truth(n, n.fileSize, target, sent) && ShapedData(p, n.fileSize, target, sent) && hw.eraseOk
    requires Done(n, cs, q, sent)
    ensures Done(HandleData(n, p.offset, p.length, p.slot, p.data, hw), cs, q, sent)
  {
    hide SelectPage, StoreChunk, HoldsPage, Cell, Truth;
    TruthCursor(n, target, sent);
    ShapedAdmitted(n, p, target, sent);
    var page := PageOf(p.offset);
    SectorOrder(page, p.offset);
    if page > n.cur {
      SelectTruth(n, page, target, sent, hw);
      SelectCells(n, page, target, sent, hw);
      var s := SelectPage(n, page, SectorOf(page), hw).0;
      DoneAfterSelect(n, s, cs, q, page, sent);
      DoneAfterStore(s, cs, q, p, target, sent, hw);
    } else {
      SelectStays(n, page, p.offset - p.offset % 0x2000, hw);
      if page == n.cur {
        DoneAfterStore(n, cs, q, p, target, sent, hw);
      }
    }
  }

  lemma DoneAfterSelect(n: Node, s: Node, cs: seq<Commit>, q: nat, page: nat, sent: seq<bv8>)
    requires Done(n, cs, q, sent) && Selected(n, s, page) && n.cur < page < NONE && n.cur % 4096 == 0
    ensures Done(s, cs, q, sent) && q < s.cur
  {
    hide Cell;
  }

  lemma DoneAfterStore(n: Node, cs: seq<Commit>, q: nat, p: Packet, target: U8, sent: seq<bv8>, hw: Hardware)
    requires Truth(n, n.fileSize, target, sent) && ShapedData(p, n.fileSize, target, sent) && n.cur == PageOf(p.offset)
    requires Done(n, cs, q, sent)
    ensures Done(StoreChunk(n, p.offset, p.length, p.data, hw), cs, q, sent)
  {
    var chunk: nat := p.offset % 4096 / 64;
    if chunk in n.chunks {
      assert StoreChunk(n, p.offset, p.length, p.data, hw) == n;
    } else {
      hide StoreChunk, Cell, Truth;
      TruthCursor(n, target, sent);
      assert p.offset == n.cur + 64 * chunk;
      assert q != n.cur;
      StoreCells(n, p, target, sent, hw);
      StoredBelow(n, StoreChunk(n, p.offset, p.length, p.data, hw), cs, q, p, sent, hw.programOk);
    }
  }

  lemma StoredBelow(n: Node, m: Node, cs: seq<Commit>, q: nat, p: Packet, sent: seq<bv8>, ok: bool)
    requires p.Data? && p.offset + p.length <= |sent| && Stored(n, m, p, sent, ok)
    requires Done(n, cs, q, sent) && q < n.cur <= p.offset && n.cur % 4096 == 0
    ensures Done(m, cs, q, sent)
  {
    hide Cell, Covers;
  }

  /** PAGE_END does not disturb a page that is done: its check matches again. */
  lemma DoneAfterEnd(n: Node, cs: seq<Commit>, q: nat, p: Packet, target: U8, sent: seq<bv8>)
    requires Truth(n, n.fileSize, target, sent) && ShapedEnd(p, n.fileSize, target, sent)
    requires Done(n, cs, q, sent)
    ensures Done(HandlePageEnd(n, p.offset, p.crc, p.slot).0, cs + CommitOf(n, p), q, sent)
  {
    hide Truth, PageMatches, HoldsPage, PageBytes, Crc16;
    TruthCursor(n, target, sent);
    var m := HandlePageEnd(n, p.offset, p.crc, p.slot).0;
    if p.offset == n.cur && q == n.cur {
      HeldMatches(n, p, target, sent);
    }
    CellsKept(n, m, n.fileSize, sent);
    PageKept(n, m, n.fileSize, sent, q);
    var k :| 0 <= k < |cs| && cs[k].page == q;
    assert (cs + CommitOf(n, p))[k].page == q;
  }

  // ---------------------------------------------------------------- one packet of the session

  /** The invariant of one node in session. */
  ghost predicate PeerInv(n: Node, cs: seq<Commit>, size: nat, target: U8, sent: seq<bv8>) {
    Truth(n, size, target, sent) && CommitInv(n, cs) && CommitsShaped(cs, size, sent)
  }

  lemma PeerStep(n: Node, cs: seq<Commit>, e: Event, target: U8, sent: seq<bv8>)
    requires PeerInv(n, cs, n.fileSize, target, sent) && Shaped(e.packet, n.fileSize, target, sent)
    requires e.packet.Data? ==> e.hw.eraseOk
    ensures Step(n, e).fileSize == n.fileSize
    ensures PeerInv(Step(n, e), cs + CommitOf(n, e.packet), n.fileSize, target, sent)
    ensures forall q: nat :: Done(n, cs, q, sent) ==> Done(Step(n, e), cs + CommitOf(n, e.packet), q, sent)
  {
    hide Truth, HandleData, HandlePageEnd, CommitInv, CommitsShaped, Done, SentPage, CommitOf;
    TruthCursor(n, target, sent);
    CommitOfShaped(n, e.packet, target, sent, cs);
    StepCommits(n, e, cs);
    if e.packet.Data? {
      DataKeepsSession(n, e.packet.offset, e.packet.length, e.packet.slot, e.packet.data, e.hw);
      DataCommitsNothing(n, e.packet);
      DataTruth(n, e.packet, target, sent, e.hw);
      forall q: nat | Done(n, cs, q, sent)
        ensures Done(Step(n, e), cs + CommitOf(n, e.packet), q, sent)
      {
        DoneAfterData(n, cs, q, e.packet, target, sent, e.hw);
        assert cs + CommitOf(n, e.packet) == cs;
      }
    } else {
      EndKeepsSession(n, e.packet);
      PageEndTruth(n, e.packet, target, sent);
      forall q: nat | Done(n, cs, q, sent)
        ensures Done(Step(n, e), cs + CommitOf(n, e.packet), q, sent)
      {
        DoneAfterEnd(n, cs, q, e.packet, target, sent);
      }
    }
  }

  lemma DataCommitsNothing(n: Node, p: Packet)
    requires |n.flash.bytes| == FLASH_END && p.Data?
    ensures CommitOf(n, p) == []
  {
  }

  lemma EndKeepsSession(n: Node, p: Packet)
    requires |n.flash.bytes| == FLASH_END && p.PageEnd?
    ensures HandlePageEnd(n, p.offset, p.crc, p.slot).0.fileSize == n.fileSize
  {
  }
}
