/**
 What the receive machine keeps over whole runs, for packets of any shape and any behaviour of the flash
 hardware: confinement of flash writes, the meaning of the cumulative checksum, and the erase discipline.
 */
module SensorRuns {
  import opened Wire
  import opened TargetFlash
  import opened Checksum16
  import opened Sensor

  /** One delivery: the packet, the answers of the flash hardware, and the metadata staging would leave. */
  datatype Event = Event(packet: Packet, hw: Hardware, metadata: seq<bv8>)

  function Step(n: Node, e: Event): (m: Node)
    requires |n.flash.bytes| == FLASH_END
    ensures |m.flash.bytes| == FLASH_END && m.slot == n.slot
  {
    Receive(n, e.packet, e.hw, e.metadata)
  }

  function Run(n: Node, es: seq<Event>): (m: Node)
    requires |n.flash.bytes| == FLASH_END
    ensures |m.flash.bytes| == FLASH_END && m.slot == n.slot
  {
    if es == [] then n else Step(Run(n, es[..|es| - 1]), es[|es| - 1])
  }

  // ---------------------------------------------------------------- confinement

  function OtherSlot(slot: U8): U8 {
    if slot == SLOT_A then SLOT_B else SLOT_A
  }

  /** An active session targets the slot that is not running, with an image that fits it. */
  predicate SessionOk(n: Node) {
    && |n.flash.bytes| == FLASH_END
    && n.slot <= SLOT_B
    && (n.active ==> n.target == OtherSlot(n.slot) && 0 < n.fileSize <= SlotSize(n.target))
  }

  predicate InSlot(slot: U8, i: int) {
    SlotStart(slot) <= i < SlotStart(slot) + SlotSize(slot)
  }

  predicate InMetadata(i: int) {
    METADATA_START <= i < METADATA_START + 0x2000
  }

  /** `g` differs from `f` at most inside a slot. */
  ghost predicate OnlySlotChanged(f: seq<bv8>, g: seq<bv8>, slot: U8) {
    |f| == |g| && forall i :: 0 <= i < |f| && !InSlot(slot, i) ==> f[i] == g[i]
  }

  /** Nothing outside the other slot and the metadata sector changes. */
  ghost predicate Confined(f: seq<bv8>, g: seq<bv8>, slot: U8) {
    |f| == |g| && forall i :: 0 <= i < |f| && !InSlot(OtherSlot(slot), i) && !InMetadata(i) ==> f[i] == g[i]
  }

  /** An erase request changes only its sector, which lies inside the slot. */
  lemma EraseConfined(f: Flash, slot: U8, sector: U32, hw: Hardware)
    ensures OnlySlotChanged(f.bytes, EraseTarget(f, slot, sector, hw).0.bytes, slot)
  {
    if Erases(f, slot, sector) {
      assert SlotStart(slot) + sector + 0x2000 <= SlotStart(slot) + SlotSize(slot);
    }
  }

  /** A write request, padded to whole words, changes only bytes of the slot. */
  lemma WriteConfined(f: Flash, slot: U8, offset: U32, data: seq<bv8>, length: U16, hw: Hardware)
    ensures OnlySlotChanged(f.bytes, WriteTarget(f, slot, offset, data, length, hw).0.bytes, slot)
  {
    hide ProgramByte;
    if Programs(slot, offset, length) {
      assert offset + |Words(data, length)| <= SlotSize(slot);
    }
  }

  lemma DataConfined(n: Node, offset: U32, length: U16, target: U8, data: seq<bv8>, hw: Hardware)
    ensures OnlySlotChanged(n.flash.bytes, HandleData(n, offset, length, target, data, hw).flash.bytes, n.target)
  {
    hide EraseTarget, WriteTarget;
    if Admits(n, offset, length, target) {
      var sector := offset - offset % 0x2000;
      EraseConfined(n.flash, n.target, 0, hw);
      EraseConfined(n.flash, n.target, sector, hw);
      var (m, ready) := SelectPage(n, PageOf(offset), sector, hw);
      assert OnlySlotChanged(n.flash.bytes, m.flash.bytes, n.target);
      WriteConfined(m.flash, n.target, offset, data, length, hw);
    }
  }

  /** The verdict a VERIFY packet would get; packets of other kinds are not verdicts. */
  predicate Stages(n: Node, e: Event) {
    e.packet.Verify? && HandleVerify(n, e.packet.crc, e.packet.slot, e.metadata).2 == Matched
  }

  /** One packet, whatever its fields and whatever the hardware does. */
  lemma StepConfined(n: Node, e: Event)
    requires SessionOk(n)
    ensures SessionOk(Step(n, e))
    ensures Confined(n.flash.bytes, Step(n, e).flash.bytes, n.slot)
    ensures !Stages(n, e) ==> OnlySlotChanged(n.flash.bytes, Step(n, e).flash.bytes, OtherSlot(n.slot))
  {
    hide EraseTarget, HandleData, PageMatches;
    match e.packet
    case Start(size, secVer, target) =>
      EraseConfined(n.flash.(memo := NONE), target, 0, e.hw);
    case Data(offset, length, target, data) =>
      DataConfined(n, offset, length, target, data, e.hw);
      DataKeepsSession(n, offset, length, target, data, e.hw);
    case PageEnd(_, _, _) =>
    case Verify(_, _) =>
  }

  lemma DataKeepsSession(n: Node, offset: U32, length: U16, target: U8, data: seq<bv8>, hw: Hardware)
    ensures var m := HandleData(n, offset, length, target, data, hw);
      m.active == n.active && m.target == n.target && m.fileSize == n.fileSize && m.slot == n.slot
    ensures HandleData(n, offset, length, target, data, hw) == n || n.active
  {
    hide EraseTarget, WriteTarget;
  }

  /** Whether any VERIFY of the run matches, which is when staging rewrites the metadata. */
  predicate EverStages(n: Node, es: seq<Event>)
    requires |n.flash.bytes| == FLASH_END
  {
    es != [] && (EverStages(n, es[..|es| - 1]) || Stages(Run(n, es[..|es| - 1]), es[|es| - 1]))
  }

  /** Over any run, flash changes stay inside the slot that is not running, plus the metadata sector when
      an image is staged: the running image and the boot manager are never touched. */
  lemma {:induction false} RunConfined(n: Node, es: seq<Event>)
    requires SessionOk(n)
    ensures SessionOk(Run(n, es))
    ensures Confined(n.flash.bytes, Run(n, es).flash.bytes, n.slot)
    ensures forall i :: 0 <= i < FLASH_END && (InSlot(n.slot, i) || i >= BIM_START) ==>
      Run(n, es).flash.bytes[i] == n.flash.bytes[i]
    ensures !EverStages(n, es) ==> OnlySlotChanged(n.flash.bytes, Run(n, es).flash.bytes, OtherSlot(n.slot))
  {
    hide Receive, HandleVerify, Step;
    if es == [] {
    } else {
      RunConfined(n, es[..|es| - 1]);
      StepConfined(Run(n, es[..|es| - 1]), es[|es| - 1]);
    }
  }

  // ---------------------------------------------------------------- cumulative checksum

  /** A page taken into the image checksum: its offset, and its flash contents at that moment. */
  datatype Commit = Commit(page: U32, bytes: seq<bv8>)

  /** What one packet adds to the image checksum. */
  function CommitOf(n: Node, p: Packet): seq<Commit>
    requires |n.flash.bytes| == FLASH_END
  {
    if p.PageEnd? && Concerns(n, p.offset, p.slot) && PageMatches(n, p.crc) && n.lastCommitted != n.cur
    then [Commit(n.cur, PageBytes(n).value)] else []
  }

  function Commits(n: Node, es: seq<Event>): seq<Commit>
    requires |n.flash.bytes| == FLASH_END
  {
    if es == [] then []
    else Commits(n, es[..|es| - 1]) + CommitOf(Run(n, es[..|es| - 1]), es[|es| - 1].packet)
  }

  function Joined(cs: seq<Commit>): seq<bv8> {
    if cs == [] then [] else Joined(cs[..|cs| - 1]) + cs[|cs| - 1].bytes
  }

  ghost predicate Increasing(cs: seq<Commit>) {
    forall i, j :: 0 <= i < j < |cs| ==> cs[i].page < cs[j].page
  }

  /** The checksum state agrees with a commit history. */
  ghost predicate CommitInv(n: Node, cs: seq<Commit>) {
    && Increasing(cs)
    && n.runCrc == Crc16(0, Joined(cs))
    && n.lastCommitted == (if cs == [] then NONE else cs[|cs| - 1].page)
    && (cs != [] ==> n.cur != NONE && n.lastCommitted <= n.cur)
  }

  /** The state an accepted START leaves. */
  predicate Fresh(n: Node) {
    && SessionOk(n) && n.active && n.cur == NONE && n.chunks == {} && n.page0Erased
    && n.runCrc == 0 && n.lastCommitted == NONE && n.flash.memo == SlotStart(n.target)
  }

  /** The range reads as erased. */
  ghost predicate Blank(f: seq<bv8>, from: nat, to: nat)
    requires to <= |f|
  {
    forall i :: from <= i < to ==> f[i] == 0xFF
  }

  /** An accepted START leaves a fresh state whose first sector is blank. */
  lemma StartIsFresh(n: Node, size: U32, secVer: U16, target: U8, hw: Hardware)
    requires |n.flash.bytes| == FLASH_END && n.slot <= SLOT_B
    ensures var (m, status) := HandleStart(n, size, secVer, target, hw);
      && (status == START_ACCEPTED <==> m.active)
      && (status == START_ACCEPTED ==>
        && Fresh(m) && m.fileSize == size && m.target == target
        && Blank(m.flash.bytes, SlotStart(target), SlotStart(target) + 0x2000))
  {
  }

  lemma CursorFits(n: Node, offset: U32, length: U16)
    requires BoundsOk(n.target, offset, length)
    ensures PageOf(offset) <= offset < 0x4_0000
  {
  }

  /** DATA keeps the checksum state and never moves the cursor back. */
  lemma DataKeepsCrc(n: Node, offset: U32, length: U16, target: U8, data: seq<bv8>, hw: Hardware)
    ensures var m := HandleData(n, offset, length, target, data, hw);
      && m.runCrc == n.runCrc && m.lastCommitted == n.lastCommitted
      && (n.cur != NONE ==> m.cur != NONE && m.cur >= n.cur)
  {
    hide EraseTarget, WriteTarget;
    if Admits(n, offset, length, target) {
      CursorFits(n, offset, length);
    }
  }

  lemma StepCommits(n: Node, e: Event, cs: seq<Commit>)
    requires |n.flash.bytes| == FLASH_END && CommitInv(n, cs)
    requires e.packet.Data? || e.packet.PageEnd?
    ensures CommitInv(Step(n, e), cs + CommitOf(n, e.packet))
  {
    hide HandleData, Crc16, PageMatches;
    match e.packet
    case Data(offset, length, target, data) =>
      DataKeepsCrc(n, offset, length, target, data, e.hw);
      assert cs + [] == cs;
    case PageEnd(page, crc, target) =>
      var added := CommitOf(n, e.packet);
      if added != [] {
        NoPageAtNone(n, crc);
        Crc16Concat(0, Joined(cs), added[0].bytes);
        assert (cs + added)[..|cs|] == cs;
      } else {
        assert cs + [] == cs;
      }
  }

  /** Without a current page nothing can match. */
  lemma NoPageAtNone(n: Node, crc: bv16)
    requires |n.flash.bytes| == FLASH_END && PageMatches(n, crc)
    ensures n.cur != NONE
  {
    hide Crc16;
  }

  /** From START until the first VERIFY, for any interleaving of DATA and PAGE_END packets of any shape, the
      running checksum is that of the committed pages as they stood in flash when committed, each page once
      and in increasing order. */
  lemma {:induction false} RunningCrcIsCommittedPages(n: Node, es: seq<Event>)
    requires Fresh(n) && forall e :: e in es ==> e.packet.Data? || e.packet.PageEnd?
    ensures CommitInv(Run(n, es), Commits(n, es))
  {
    hide Step, CommitOf;
    if es != [] {
      RunningCrcIsCommittedPages(n, es[..|es| - 1]);
      StepCommits(Run(n, es[..|es| - 1]), es[|es| - 1], Commits(n, es[..|es| - 1]));
    } else {
      EmptyCrc(0);
    }
  }

  // ---------------------------------------------------------------- burst errors

  /** A page whose flash bytes differ from the sent page only within 16 consecutive bits is never committed,
      whatever its length, and is reported as missing. */
  lemma BurstNeverCommitted(n: Node, sent: seq<bv8>, at: nat, k: nat)
    requires SessionOk(n) && n.active && n.cur != NONE && PageBytes(n).Some?
    requires |sent| == |PageBytes(n).value| && k < 8 && Burst16(PageBytes(n).value, sent, at, k)
    ensures var (m, report) := HandlePageEnd(n, n.cur, Crc16(0, sent), n.target);
      PageBytes(n).value != sent ==>
        m.runCrc == n.runCrc && m.lastCommitted == n.lastCommitted && report == Some(Report(n.cur, {}))
  {
    hide Crc16, Burst16;
    BurstDetected(PageBytes(n).value, sent, at, k);
  }

  // ---------------------------------------------------------------- erase discipline

  /** A physical operation on the target slot, by sector offset. */
  datatype Op = Erased(sector: nat) | Wrote(sector: nat)

  function SectorOf(offset: nat): (r: nat)
    ensures r <= offset
  {
    offset - offset % 0x2000
  }

  /** Whether a DATA packet physically erases the sector of its page. */
  predicate DataErases(n: Node, p: Packet) {
    && p.Data? && Admits(n, p.offset, p.length, p.slot) && Advances(n, PageOf(p.offset))
    && !(n.cur == NONE && PageOf(p.offset) == 0 && n.page0Erased)
    && Erases(n.flash, n.target, SectorOf(p.offset))
  }

  /** The state in which a DATA packet programs its chunk, if it does. */
  predicate DataPrograms(n: Node, p: Packet, hw: Hardware) {
    && p.Data? && Admits(n, p.offset, p.length, p.slot)
    && var (m, ready) := SelectPage(n, PageOf(p.offset), p.offset - p.offset % 0x2000, hw);
    ready && (p.offset % 4096 / 64) !in m.chunks && Programs(n.target, p.offset, p.length)
  }

  /** The operations of one packet; a write that straddles a sector boundary touches both sectors. */
  function OpsOf(n: Node, e: Event): seq<Op> {
    (if DataErases(n, e.packet) then [Erased(SectorOf(e.packet.offset))] else [])
    + (if DataPrograms(n, e.packet, e.hw)
       then [Wrote(SectorOf(e.packet.offset)), Wrote(SectorOf(e.packet.offset + (e.packet.length + 3) / 4 * 4 - 1))]
       else [])
  }

  /** DATA on chunk boundaries, as the coordinator sends it, or PAGE_END. */
  predicate Aligned(p: Packet) {
    p.PageEnd? || (p.Data? && p.offset % 64 == 0)
  }

  /** The operations of a run, after the erase of sector 0 that START performs. */
  function Trace(n: Node, es: seq<Event>): seq<Op>
    requires |n.flash.bytes| == FLASH_END
  {
    if es == [] then [Erased(0)]
    else Trace(n, es[..|es| - 1]) + OpsOf(Run(n, es[..|es| - 1]), es[|es| - 1])
  }

  /** Every erase comes before all other work on its sector: it is the first operation on the sector, and
      all earlier operations are on lower sectors. */
  ghost predicate EraseFirst(ops: seq<Op>) {
    forall i, j :: 0 <= i < j < |ops| && ops[j].Erased? ==> ops[i].sector < ops[j].sector
  }

  /** The cursor and the memo after DATA. */
  lemma DataCursor(n: Node, p: Packet, hw: Hardware)
    requires p.Data?
    ensures var m := HandleData(n, p.offset, p.length, p.slot, p.data, hw);
      && m.cur ==
         (if Admits(n, p.offset, p.length, p.slot) && Advances(n, PageOf(p.offset)) then PageOf(p.offset) else n.cur)
      && m.flash.memo ==
         (if DataErases(n, p) && hw.eraseOk then SlotStart(n.target) + SectorOf(p.offset) else n.flash.memo)
      && (n.page0Erased ==> m.page0Erased)
  {
    hide Admits, Advances, SelectPage, StoreChunk, PageOf, Erases;
    var page, sector := PageOf(p.offset), SectorOf(p.offset);
    SectorOfPage(p.offset);
    SelectCursor(n, page, sector, hw);
    StoreKeeps(SelectPage(n, page, sector, hw).0, p, hw);
  }

  /** The cursor and the memo after the page step. */
  lemma SelectCursor(n: Node, page: U32, sector: U32, hw: Hardware)
    requires page == 0 ==> sector == 0
    ensures var m := SelectPage(n, page, sector, hw).0;
      && m == n.(cur := m.cur, chunks := m.chunks, flash := m.flash, page0Erased := m.page0Erased)
      && m.cur == (if Advances(n, page) then page else n.cur)
      && m.flash.memo ==
         (if Advances(n, page) && !(n.cur == NONE && page == 0 && n.page0Erased) && Erases(n.flash, n.target, sector)
             && hw.eraseOk
          then SlotStart(n.target) + sector else n.flash.memo)
      && (n.page0Erased ==> m.page0Erased)
  {
    hide EraseBytes;
  }

  lemma StoreKeeps(n: Node, p: Packet, hw: Hardware)
    requires p.Data?
    ensures var m := StoreChunk(n, p.offset, p.length, p.data, hw);
      m == n.(flash := m.flash, chunks := m.chunks) && m.flash.memo == n.flash.memo
  {
    hide ProgramBytes;
  }

  /** A chunk is programmed only into the page of the cursor, after the erase step. */
  lemma ProgramsCurrent(n: Node, p: Packet, hw: Hardware)
    requires DataPrograms(n, p, hw) && p.offset % 64 == 0
    ensures p.offset < SlotSize(n.target)
    ensures HandleData(n, p.offset, p.length, p.slot, p.data, hw).cur == PageOf(p.offset)
    ensures SectorOf(p.offset + (p.length + 3) / 4 * 4 - 1) == SectorOf(p.offset)
  {
    hide EraseTarget, WriteTarget;
    ChunkInSector(p.offset, (p.length + 3) / 4 * 4);
  }

  lemma SectorAt(x: nat)
    ensures SectorOf(x) == 0x2000 * (x / 0x2000)
  {
    assert x == 0x2000 * (x / 0x2000) + x % 0x2000;
  }

  lemma SectorWithin(k: nat, r: nat)
    requires r < 0x2000
    ensures SectorOf(0x2000 * k + r) == 0x2000 * k
  {
    assert (0x2000 * k + r) % 0x2000 == r;
  }

  /** The sector of a page is that of its page number halved. */
  lemma PageSector(i: nat)
    ensures SectorOf(4096 * i) == 0x2000 * (i / 2)
  {
    hide SectorOf;
    assert i == 2 * (i / 2) + i % 2;
    SectorWithin(i / 2, 4096 * (i % 2));
    assert 4096 * i == 0x2000 * (i / 2) + 4096 * (i % 2);
  }

  /** A byte lies in the sector of its page. */
  lemma SectorOfPage(b: nat)
    ensures SectorOf(PageOf(b)) == SectorOf(b)
  {
    hide SectorOf, PageOf;
    var i, t := b / 4096, b % 4096;
    PageAt(b);
    PageSector(i);
    assert i == 2 * (i / 2) + i % 2;
    SectorWithin(i / 2, 4096 * (i % 2) + t);
    assert b == 0x2000 * (i / 2) + (4096 * (i % 2) + t);
  }

  lemma SectorOrder(a: nat, b: nat)
    requires a <= b
    ensures SectorOf(a) <= SectorOf(b)
    ensures a == PageOf(b) ==> SectorOf(a) == SectorOf(b)
  {
    hide SectorOf, PageOf;
    SectorAt(a);
    SectorAt(b);
    SectorOfPage(b);
  }

  lemma HalvesApart(i: nat, j: nat)
    requires i < j
    ensures i / 2 == j / 2 ==> j == i + 1 && i == 2 * (i / 2)
    ensures i / 2 != j / 2 ==> i + 1 <= 2 * (j / 2)
  {
  }

  lemma SameSector(a: nat, b: nat)
    requires a % 4096 == 0 && b % 4096 == 0 && a < b
    ensures SectorOf(a) == SectorOf(b) ==> b == a + 4096 && a % 0x2000 == 0 && SectorOf(b) == a
    ensures SectorOf(a) != SectorOf(b) ==> a + 4096 <= SectorOf(b)
  {
    hide SectorOf;
    var i, j := a / 4096, b / 4096;
    assert a == 4096 * i && b == 4096 * j;
    PageSector(i);
    PageSector(j);
    HalvesApart(i, j);
  }

  lemma ChunkInSector(offset: nat, len: nat)
    requires offset % 64 == 0 && 0 < len <= 64
    ensures SectorOf(offset + len - 1) == SectorOf(offset)
  {
    hide SectorOf;
    var m := offset / 64;
    var k, r := m / 128, m % 128;
    assert offset == 64 * m && m == 128 * k + r;
    SectorWithin(k, 64 * r);
    SectorWithin(k, 64 * r + (len - 1));
  }

  /** A page above the cursor's lies in the same sector exactly when it is the second page after a first one. */
  lemma NextInSector(cur: nat, offset: nat)
    requires cur % 4096 == 0
    ensures cur < PageOf(offset) && SectorOf(offset) == SectorOf(cur)
      <==> PageOf(offset) == cur + 4096 && cur % 0x2000 == 0
    ensures cur % 0x2000 == 0 ==> SectorOf(cur) == cur
  {
    hide SectorOf, PageOf;
    SectorOfPage(offset);
    var i := cur / 4096;
    PageSector(i);
    PageSector(i + 1);
    if cur < PageOf(offset) {
      SameSector(cur, PageOf(offset));
    }
    if cur % 0x2000 == 0 {
      assert cur == 0x2000 * (cur / 0x2000);
      SectorWithin(cur / 0x2000, 0);
      SectorWithin(cur / 0x2000, 4096);
    }
  }

  /** Slots are whole numbers of sectors. */
  lemma SectorFits(slot: U8, offset: U32)
    requires offset < SlotSize(slot)
    ensures SectorOf(offset) + 0x2000 <= SlotSize(slot)
  {
  }

  /** Exactly when a DATA packet erases the sector that holds the current page: the packet starts the second
      page of the sector, and the memo does not name the sector because its erase had failed. */
  lemma ErasesCurrentSectorIff(n: Node, p: Packet)
    requires SessionOk(n) && n.cur != NONE && n.cur % 4096 == 0 && n.cur < SlotSize(n.target)
    ensures DataErases(n, p) && SectorOf(p.offset) == SectorOf(n.cur) <==>
      && p.Data? && Admits(n, p.offset, p.length, p.slot) && PageOf(p.offset) == n.cur + 4096
      && n.cur % 0x2000 == 0 && n.flash.memo != SlotStart(n.target) + n.cur
  {
    hide SectorOf, PageOf;
    if p.Data? && Admits(n, p.offset, p.length, p.slot) {
      NextInSector(n.cur, p.offset);
      if SectorOf(p.offset) == SectorOf(n.cur) {
        SectorFits(n.target, n.cur);
        SectorAt(p.offset);
      }
    }
  }

  /** The erase that the second page of a sector asks for wipes the first, if the memo does not name the sector. */
  lemma NextPageWipes(n: Node, e: Event)
    requires SessionOk(n) && n.active && n.cur != NONE && n.cur % 0x2000 == 0
    requires n.flash.memo != SlotStart(n.target) + n.cur
    requires e.packet.Data? && Admits(n, e.packet.offset, e.packet.length, e.packet.slot)
    requires PageOf(e.packet.offset) == n.cur + 4096 && e.packet.offset < SlotSize(n.target) && e.hw.eraseOk
    requires e.packet.offset % 64 == 0
    ensures var at := SlotStart(n.target) + n.cur;
      at + 4096 <= FLASH_END && Blank(Step(n, e).flash.bytes, at, at + 4096)
  {
    hide ProgramByte;
    SectorFits(n.target, e.packet.offset);
    var f := EraseTarget(n.flash, n.target, n.cur, e.hw).0;
    assert SectorOf(e.packet.offset) == n.cur;
  }
}
