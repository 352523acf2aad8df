/**
 What the flash of a node in session holds, when the packets it receives are those of the coordinator: the
 bitmap never lies, a page that was reported in full stays equal to what was sent, and the committed pages add
 up to the checksum of what was sent.

 `sent` is the byte string the coordinator has distributed so far, indexed by file offset.
 */
module PageTruth {
  import opened Wire
  import opened TargetFlash
  import opened Checksum16
  import opened Sensor
  import opened SensorRuns

  // ---------------------------------------------------------------- geometry and packet shape

  /** The length of the page at offset `p` of a file of `size` bytes. */
  function PageLen(size: nat, p: nat): nat {
    if size <= p then 0 else if size - p > 4096 then 4096 else size - p
  }

  /** The length of the chunk at offset `o`. */
  function ChunkLen(size: nat, o: nat): nat {
    if size <= o then 0 else if size - o > 64 then 64 else size - o
  }

  /** A page of the file that has been distributed. */
  predicate SentPage(size: nat, sent: seq<bv8>, p: nat) {
    p % 4096 == 0 && p < size && p + PageLen(size, p) <= |sent| <= size
  }

  /** A DATA packet that carries a chunk of a distributed page. */
  ghost predicate ShapedData(p: Packet, size: nat, target: U8, sent: seq<bv8>) {
    && p.Data? && p.slot == target && p.offset % 64 == 0
    && SentPage(size, sent, PageOf(p.offset)) && p.offset < size
    && p.length == |p.data| == ChunkLen(size, p.offset)
    && p.data == sent[p.offset..p.offset + p.length]
  }

  /** A PAGE_END packet that carries the checksum of a distributed page. */
  predicate ShapedEnd(p: Packet, size: nat, target: U8, sent: seq<bv8>) {
    && p.PageEnd? && p.slot == target && SentPage(size, sent, p.offset)
    && p.crc == Crc16(0, sent[p.offset..p.offset + PageLen(size, p.offset)])
  }

  ghost predicate Shaped(p: Packet, size: nat, target: U8, sent: seq<bv8>) {
    ShapedData(p, size, target, sent) || ShapedEnd(p, size, target, sent)
  }

  // ---------------------------------------------------------------- NOR cells

  /** `a` has every bit of `d`: programming can still turn `a` into `d`. */
  predicate Covers(a: bv8, d: bv8) {
    a & d == d
  }

  lemma BlankCovers(d: bv8)
    ensures Covers(0xFF, d)
  {
  }

  /** Programming `d` keeps a covering cell covering, and makes it `d` when it succeeds. */
  lemma ProgramCovers(was: bv8, d: bv8, ok: bool, kept: bv8)
    requires Covers(was, d)
    ensures Covers(ProgramByte(was, d, ok, kept), d)
    ensures ok ==> ProgramByte(was, d, ok, kept) == d
    ensures was == d ==> ProgramByte(was, d, ok, kept) == d
  {
    assert was & (d | kept) == (was & d) | (was & kept);
    assert (d | (was & kept)) & d == d;
  }

  /** Padding with 0xFF programs nothing. */
  lemma PaddingKeeps(was: bv8, ok: bool, kept: bv8)
    ensures ProgramByte(was, 0xFF, ok, kept) == was
  {
    assert 0xFF | kept == 0xFF;
    assert was & 0xFF == was;
  }

  /** The flash byte at file offset `i` of the target slot. */
  function Cell(n: Node, i: nat): bv8 {
    At(n.flash.bytes, SlotStart(n.target) + i, 0)
  }

  // ---------------------------------------------------------------- the invariant

  ghost predicate CoversPage(n: Node, size: nat, sent: seq<bv8>, p: nat)
    requires p + PageLen(size, p) <= |sent|
  {
    forall i :: p <= i < p + PageLen(size, p) ==> Covers(Cell(n, i), sent[i])
  }

  ghost predicate HoldsChunk(n: Node, size: nat, sent: seq<bv8>, o: nat)
    requires o + ChunkLen(size, o) <= |sent|
  {
    forall i :: o <= i < o + ChunkLen(size, o) ==> Cell(n, i) == sent[i]
  }

  ghost predicate HoldsPage(n: Node, size: nat, sent: seq<bv8>, p: nat)
    requires p + PageLen(size, p) <= |sent|
  {
    forall i :: p <= i < p + PageLen(size, p) ==> Cell(n, i) == sent[i]
  }

  ghost predicate BlankCells(n: Node, from: nat, to: nat) {
    forall i :: from <= i < to ==> Cell(n, i) == 0xFF
  }

  /** The bits of the bitmap are true, and every byte of the current page can still become what was sent. */
  ghost predicate PageState(n: Node, size: nat, sent: seq<bv8>) {
    && SentPage(size, sent, n.cur)
    && n.flash.memo == SlotStart(n.target) + SectorOf(n.cur)
    && CoversPage(n, size, sent, n.cur)
    && (forall c :: c in n.chunks ==>
         n.cur + 64 * c < n.cur + PageLen(size, n.cur) && HoldsChunk(n, size, sent, n.cur + 64 * c))
    && (n.cur % 0x2000 == 0 ==> BlankCells(n, n.cur + 4096, n.cur + 0x2000))
  }

  /** The state of a node that accepted START for this file and has since received only its packets. */
  ghost predicate Truth(n: Node, size: nat, target: U8, sent: seq<bv8>) {
    && SessionOk(n) && n.active && n.target == target && n.fileSize == size && n.page0Erased && |sent| <= size
    && (n.cur == NONE ==> n.flash.memo == SlotStart(target) && BlankCells(n, 0, 0x2000))
    && (n.cur != NONE ==> PageState(n, size, sent))
  }

  lemma ChunkInPage(size: nat, sent: seq<bv8>, p: nat, c: nat)
    requires SentPage(size, sent, p) && 64 * c < PageLen(size, p)
    ensures c < 64 && p + 64 * c + ChunkLen(size, p + 64 * c) <= p + PageLen(size, p) <= |sent|
    ensures PageOf(p + 64 * c) == p && ChunkLen(size, p + 64 * c) > 0
  {
  }

  lemma FileFits(n: Node, o: nat)
    requires SessionOk(n) && n.active && o < n.fileSize
    ensures SectorOf(o) + 0x2000 <= SlotSize(n.target) && o < SlotSize(n.target)
    ensures SlotStart(n.target) + SlotSize(n.target) <= FLASH_END
  {
  }

  // ---------------------------------------------------------------- DATA

  lemma ChunkBounds(p: Packet, size: nat, target: U8, sent: seq<bv8>)
    requires ShapedData(p, size, target, sent)
    ensures p.offset + p.length <= size && 0 < p.length <= 64 && p.offset % 64 == 0
    ensures p.offset + p.length <= |sent|
    ensures p.offset + (p.length + 3) / 4 * 4 <= PageOf(p.offset) + 4096
  {
    assert p.offset + 64 <= PageOf(p.offset) + 4096;
  }

  /** The target range is admitted. */
  lemma ShapedAdmitted(n: Node, p: Packet, target: U8, sent: seq<bv8>)
    requires Truth(n, n.fileSize, target, sent) && ShapedData(p, n.fileSize, target, sent)
    ensures Admits(n, p.offset, p.length, p.slot) && 0 < p.length <= 64
    ensures Programs(target, p.offset, p.length)
    ensures p.offset + (p.length + 3) / 4 * 4 <= PageOf(p.offset) + 4096
  {
    hide PageState, BlankCells, ChunkLen, SentPage;
    ChunkBounds(p, n.fileSize, target, sent);
    TruthSize(n, n.fileSize, target, sent);
    FileFits(n, p.offset + p.length - 1);
  }

  /** An erase blanks exactly its sector. */
  lemma EraseCells(n: Node, sector: U32, hw: Hardware)
    requires SessionOk(n) && n.active && Erases(n.flash, n.target, sector) && hw.eraseOk
    ensures var m := n.(flash := EraseTarget(n.flash, n.target, sector, hw).0);
      && BlankCells(m, sector, sector + 0x2000)
      && (forall i: nat :: !(sector <= i < sector + 0x2000) ==> Cell(m, i) == Cell(n, i))
      && m.flash.memo == SlotStart(n.target) + sector
  {
  }

  /** A new current page always goes through an erase request for its sector. */
  lemma SelectIsErase(n: Node, page: U32, sector: U32, hw: Hardware)
    requires Advances(n, page) && n.page0Erased && sector % 0x2000 == 0 && (page == 0 ==> sector == 0)
    requires n.cur == NONE ==> n.flash.memo == SlotStart(n.target)
    requires BoundsOk(n.target, sector, SECTOR_SIZE)
    ensures var e := EraseTarget(n.flash, n.target, sector, hw);
      SelectPage(n, page, sector, hw) == (n.(cur := page, chunks := {}, flash := e.0), e.1)
  {
    hide EraseBytes;
  }

  /** The cells of the sector from `page` on are blank, and cells below the cursor's end are as they were. */
  ghost predicate Selected(n: Node, m: Node, page: nat) {
    && |m.flash.bytes| == FLASH_END
    && m == n.(cur := m.cur, chunks := {}, flash := m.flash) && m.cur == page
    && m.flash.memo == SlotStart(n.target) + SectorOf(page)
    && BlankCells(m, page, SectorOf(page) + 0x2000)
    && (forall i: nat :: n.cur != NONE && i < n.cur + 4096 ==> Cell(m, i) == Cell(n, i))
  }

  /** What `SelectPage` does to the cells when the page of a shaped packet becomes current. */
  lemma SelectCells(n: Node, page: U32, target: U8, sent: seq<bv8>, hw: Hardware)
    requires Truth(n, n.fileSize, target, sent) && hw.eraseOk
    requires page % 4096 == 0 && page < n.fileSize && Advances(n, page)
    ensures var (m, ready) := SelectPage(n, page, SectorOf(page), hw);
      ready && Selected(n, m, page)
  {
    hide EraseTarget, Cell, SelectPage;
    var sector := SectorOf(page);
    FileFits(n, page);
    SelectIsErase(n, page, sector, hw);
    EraseAnswers(n.flash, target, sector, hw);
    PageInSector(page);
    if n.cur != NONE {
      SameSector(n.cur, page);
    }
    if Erases(n.flash, target, sector) {
      EraseCells(n, sector, hw);
      CellOf(n, SelectPage(n, page, sector, hw).0, n.(flash := EraseTarget(n.flash, n.target, sector, hw).0));
    } else {
      CellOf(n, SelectPage(n, page, sector, hw).0, n);
    }
  }

  /** Cells depend on the flash and the target only. */
  lemma CellOf(n: Node, m: Node, k: Node)
    requires m.flash == k.flash && m.target == k.target
    ensures forall i: nat :: Cell(m, i) == Cell(k, i)
  {
  }

  lemma EraseAnswers(f: Flash, slot: U8, sector: U32, hw: Hardware)
    requires sector % 0x2000 == 0 && BoundsOk(slot, sector, SECTOR_SIZE) && hw.eraseOk
    ensures EraseTarget(f, slot, sector, hw).1
    ensures !Erases(f, slot, sector) ==> EraseTarget(f, slot, sector, hw).0 == f
  {
  }

  lemma SelectTruth(n: Node, page: U32, target: U8, sent: seq<bv8>, hw: Hardware)
    requires Truth(n, n.fileSize, target, sent) && hw.eraseOk
    requires SentPage(n.fileSize, sent, page) && Advances(n, page)
    ensures var (m, ready) := SelectPage(n, page, SectorOf(page), hw);
      ready && Truth(m, n.fileSize, target, sent) && m.cur == page
  {
    hide SelectPage, Cell, Covers;
    SelectCells(n, page, target, sent, hw);
    var m := SelectPage(n, page, SectorOf(page), hw).0;
    PageInSector(page);
    forall i | page <= i < page + PageLen(n.fileSize, page)
      ensures Covers(Cell(m, i), sent[i])
    {
      BlankCovers(sent[i]);
    }
  }

  lemma PageInSector(page: nat)
    requires page % 4096 == 0
    ensures page + 4096 <= SectorOf(page) + 0x2000
    ensures page % 0x2000 == 0 ==> SectorOf(page) == page
  {
  }

  /** What storing the chunk of a packet does to the cells. */
  ghost predicate Stored(n: Node, m: Node, p: Packet, sent: seq<bv8>, ok: bool)
    requires p.Data? && p.offset + p.length <= |sent|
  {
    && (forall i: nat :: !(p.offset <= i < p.offset + p.length) ==> Cell(m, i) == Cell(n, i))
    && (forall i: nat :: p.offset <= i < p.offset + p.length ==>
         Covers(Cell(m, i), sent[i]) && (ok ==> Cell(m, i) == sent[i]))
    && m == n.(flash := m.flash, chunks := m.chunks) && |m.flash.bytes| == FLASH_END && m.flash.memo == n.flash.memo
    && m.chunks == (if ok then n.chunks + {p.offset % 4096 / 64} else n.chunks)
  }

  /** A write that reaches the hardware programs the padded words and nothing else. */
  lemma WriteCell(n: Node, offset: U32, data: seq<bv8>, length: U16, hw: Hardware, i: nat)
    requires |n.flash.bytes| == FLASH_END && Programs(n.target, offset, length)
    ensures Cell(n.(flash := WriteTarget(n.flash, n.target, offset, data, length, hw).0), i) ==
      if offset <= i < offset + (length + 3) / 4 * 4
      then ProgramByte(Cell(n, i), Words(data, length)[i - offset], hw.programOk, At(hw.programKept, i - offset, 0))
      else Cell(n, i)
  {
    hide ProgramByte, Words;
  }

  lemma StoreCell(n: Node, p: Packet, target: U8, sent: seq<bv8>, hw: Hardware, i: nat)
    requires p.Data? && p.offset + p.length <= |sent|
    requires Truth(n, n.fileSize, target, sent) && ShapedData(p, n.fileSize, target, sent) && n.cur == PageOf(p.offset)
    requires Programs(target, p.offset, p.length)
    ensures var m := n.(flash := WriteTarget(n.flash, target, p.offset, p.data, p.length, hw).0);
      if p.offset <= i < p.offset + p.length
      then Covers(Cell(m, i), sent[i]) && (hw.programOk ==> Cell(m, i) == sent[i])
      else Cell(m, i) == Cell(n, i)
  {
    hide ProgramByte, Covers, Cell, WriteTarget, Programs, HoldsChunk, BlankCells;
    WriteCell(n, p.offset, p.data, p.length, hw, i);
    var kept := At(hw.programKept, i - p.offset, 0);
    if p.offset <= i < p.offset + p.length {
      ProgramCovers(Cell(n, i), sent[i], hw.programOk, kept);
    } else if p.offset <= i < p.offset + (p.length + 3) / 4 * 4 {
      PaddingKeeps(Cell(n, i), hw.programOk, kept);
    }
  }

  lemma StoreCells(n: Node, p: Packet, target: U8, sent: seq<bv8>, hw: Hardware)
    requires Truth(n, n.fileSize, target, sent) && ShapedData(p, n.fileSize, target, sent) && n.cur == PageOf(p.offset)
    requires (p.offset % 4096 / 64) !in n.chunks
    ensures Stored(n, StoreChunk(n, p.offset, p.length, p.data, hw), p, sent, hw.programOk)
  {
    hide Covers, Cell, Truth;
    ShapedAdmitted(n, p, target, sent);
    ChunkBounds(p, n.fileSize, target, sent);
    var m := StoreChunk(n, p.offset, p.length, p.data, hw);
    var w := n.(flash := WriteTarget(n.flash, target, p.offset, p.data, p.length, hw).0);
    TruthSize(n, n.fileSize, target, sent);
    CellOf(n, m, w);
    forall i: nat
      ensures if p.offset <= i < p.offset + p.length
        then Covers(Cell(w, i), sent[i]) && (hw.programOk ==> Cell(w, i) == sent[i])
        else Cell(w, i) == Cell(n, i)
    {
      StoreCell(n, p, target, sent, hw, i);
    }
  }

  lemma TruthSize(n: Node, size: nat, target: U8, sent: seq<bv8>)
    requires Truth(n, size, target, sent)
    ensures n.fileSize == size && n.active && n.target == target && SessionOk(n)
  {
  }

  lemma StoreTruth(n: Node, p: Packet, target: U8, sent: seq<bv8>, hw: Hardware)
    requires Truth(n, n.fileSize, target, sent) && ShapedData(p, n.fileSize, target, sent) && n.cur == PageOf(p.offset)
    ensures Truth(StoreChunk(n, p.offset, p.length, p.data, hw), n.fileSize, target, sent)
  {
    if (p.offset % 4096 / 64) !in n.chunks {
      hide StoreChunk, CoversPage, HoldsChunk, BlankCells, Stored, Truth;
      TruthSize(n, n.fileSize, target, sent);
      StoreCells(n, p, target, sent, hw);
      var m := StoreChunk(n, p.offset, p.length, p.data, hw);
      StoredFields(n, m, p, sent, hw.programOk);
      StoredPage(n, m, p, target, sent, hw.programOk);
      StoredChunks(n, m, p, target, sent, hw.programOk);
      SamePage(n, m, target, sent);
    }
  }

  /** A change of the flash and the bitmap alone needs only the facts about the cells again. */
  lemma SamePage(n: Node, m: Node, target: U8, sent: seq<bv8>)
    requires Truth(n, n.fileSize, target, sent) && n.cur != NONE
    requires m == n.(flash := m.flash, chunks := m.chunks)
    requires |m.flash.bytes| == FLASH_END && m.flash.memo == n.flash.memo
    requires CoversPage(m, n.fileSize, sent, n.cur)
    requires forall c :: c in m.chunks ==>
      n.cur + 64 * c < n.cur + PageLen(n.fileSize, n.cur) && HoldsChunk(m, n.fileSize, sent, n.cur + 64 * c)
    requires n.cur % 0x2000 == 0 ==> BlankCells(m, n.cur + 4096, n.cur + 0x2000)
    ensures Truth(m, n.fileSize, target, sent)
  {
    hide CoversPage, HoldsChunk, BlankCells;
  }

  lemma StoredFields(n: Node, m: Node, p: Packet, sent: seq<bv8>, ok: bool)
    requires p.Data? && p.offset + p.length <= |sent| && Stored(n, m, p, sent, ok)
    ensures m == n.(flash := m.flash, chunks := m.chunks)
    ensures |m.flash.bytes| == FLASH_END && m.flash.memo == n.flash.memo
  {
  }

  lemma StoredPage(n: Node, m: Node, p: Packet, target: U8, sent: seq<bv8>, ok: bool)
    requires Truth(n, n.fileSize, target, sent) && ShapedData(p, n.fileSize, target, sent) && n.cur == PageOf(p.offset)
    requires Stored(n, m, p, sent, ok)
    ensures CoversPage(m, n.fileSize, sent, n.cur)
    ensures n.cur % 0x2000 == 0 ==> BlankCells(m, n.cur + 4096, n.cur + 0x2000)
  {
    hide Cell, Covers, HoldsChunk;
  }

  lemma StoredChunk(n: Node, m: Node, p: Packet, target: U8, sent: seq<bv8>, ok: bool, c: nat)
    requires Truth(n, n.fileSize, target, sent) && ShapedData(p, n.fileSize, target, sent) && n.cur == PageOf(p.offset)
    requires Stored(n, m, p, sent, ok) && (p.offset % 4096 / 64) !in n.chunks && c in m.chunks
    ensures n.cur + 64 * c < n.cur + PageLen(n.fileSize, n.cur)
    ensures n.cur + 64 * c + ChunkLen(n.fileSize, n.cur + 64 * c) <= |sent|
    ensures HoldsChunk(m, n.fileSize, sent, n.cur + 64 * c)
  {
    hide Cell, Covers, CoversPage, BlankCells;
    var chunk := p.offset % 4096 / 64;
    assert p.offset == n.cur + 64 * chunk;
    if c in n.chunks {
      assert HoldsChunk(n, n.fileSize, sent, n.cur + 64 * c);
      assert c < chunk || c > chunk;
    }
    ChunkInPage(n.fileSize, sent, n.cur, c);
  }

  lemma StoredChunks(n: Node, m: Node, p: Packet, target: U8, sent: seq<bv8>, ok: bool)
    requires Truth(n, n.fileSize, target, sent) && ShapedData(p, n.fileSize, target, sent) && n.cur == PageOf(p.offset)
    requires Stored(n, m, p, sent, ok) && (p.offset % 4096 / 64) !in n.chunks
    ensures forall c :: c in m.chunks ==>
      n.cur + 64 * c < n.cur + PageLen(n.fileSize, n.cur) && HoldsChunk(m, n.fileSize, sent, n.cur + 64 * c)
  {
    hide Truth, ShapedData, Stored, HoldsChunk;
    forall c | c in m.chunks
      ensures n.cur + 64 * c < n.cur + PageLen(n.fileSize, n.cur)
      ensures n.cur + 64 * c + ChunkLen(n.fileSize, n.cur + 64 * c) <= |sent|
      ensures HoldsChunk(m, n.fileSize, sent, n.cur + 64 * c)
    {
      StoredChunk(n, m, p, target, sent, ok, c);
    }
  }

  /** The bitmap stays true, and the page stays reachable, over every coordinator-shaped DATA packet. */
  lemma DataTruth(n: Node, p: Packet, target: U8, sent: seq<bv8>, hw: Hardware)
    requires Truth(n, n.fileSize, target, sent) && ShapedData(p, n.fileSize, target, sent) && hw.eraseOk
    ensures Truth(HandleData(n, p.offset, p.length, p.slot, p.data, hw), n.fileSize, target, sent)
  {
    hide SelectPage, StoreChunk, Truth, ShapedData, Admits, SectorOf, PageOf, HandleData;
    ShapedAdmitted(n, p, target, sent);
    ShapedPage(p, n.fileSize, target, sent);
    DataSteps(n, p, hw);
    var page: U32 := PageOf(p.offset);
    if Advances(n, page) {
      SectorOrder(page, p.offset);
      SelectTruth(n, page, target, sent, hw);
      TruthSize(SelectPage(n, page, SectorOf(page), hw).0, n.fileSize, target, sent);
      StoreTruth(SelectPage(n, page, SectorOf(page), hw).0, p, target, sent, hw);
    } else if page == n.cur {
      StoreTruth(n, p, target, sent, hw);
    }
  }

  /** The two halves of the DATA handler. */
  lemma DataSteps(n: Node, p: Packet, hw: Hardware)
    requires p.Data? && Admits(n, p.offset, p.length, p.slot)
    ensures var page: U32 := PageOf(p.offset);
      HandleData(n, p.offset, p.length, p.slot, p.data, hw) ==
      if Advances(n, page) then
        var (m, ready) := SelectPage(n, page, SectorOf(p.offset), hw);
        if ready then StoreChunk(m, p.offset, p.length, p.data, hw) else m
      else if page == n.cur then StoreChunk(n, p.offset, p.length, p.data, hw)
      else n
  {
    hide StoreChunk, PageOf, Admits;
    if !Advances(n, PageOf(p.offset)) {
      SelectStays(n, PageOf(p.offset), p.offset - p.offset % 0x2000, hw);
    }
  }

  lemma ShapedPage(p: Packet, size: nat, target: U8, sent: seq<bv8>)
    requires ShapedData(p, size, target, sent)
    ensures p.Data? && SentPage(size, sent, PageOf(p.offset)) && p.offset % 64 == 0
  {
  }

  lemma SelectStays(n: Node, page: U32, sector: U32, hw: Hardware)
    requires !Advances(n, page)
    ensures SelectPage(n, page, sector, hw) == (n, page == n.cur)
  {
  }
}
