/**
 The other direction of the page check: what has to arrive for a page to be reported as complete.
 */
module Delivery {
  import opened Wire
  import opened TargetFlash
  import opened Checksum16
  import opened Sensor
  import opened SensorRuns
  import opened PageTruth
  import opened PageDone
  import opened FailedVerify
  import opened FailedErase

  /** The chunk a DATA packet carries. */
  function ChunkOf(p: Packet): nat
    requires p.Data?
  {
    p.offset % 4096 / 64
  }

  /** A PAGE_END that finds a mismatch on the current page. */
  predicate FailedCheck(n: Node, p: Packet)
    requires |n.flash.bytes| == FLASH_END
  {
    p.PageEnd? && Concerns(n, p.offset, p.slot) && !PageMatches(n, p.crc)
  }

  /** The chunks of which some delivery was programmed successfully since the last failed check. */
  function Programmed(n: Node, es: seq<Event>): set<nat>
    requires |n.flash.bytes| == FLASH_END
  {
    if es == [] then {}
    else
      var init, e := es[..|es| - 1], es[|es| - 1];
      if FailedCheck(Run(n, init), e.packet) then {}
      else Programmed(n, init) + if e.packet.Data? && e.hw.programOk then {ChunkOf(e.packet)} else {}
  }

  /** DATA and PAGE_END packets of one distributed page, in any order and with repetitions; erases succeed, programming
      may fail. */
  ghost predicate Deliveries(es: seq<Event>, page: nat, size: nat, target: U8, sent: seq<bv8>) {
    forall e :: e in es ==>
      if e.packet.Data?
      then ShapedData(e.packet, size, target, sent) && PageOf(e.packet.offset) == page && e.hw.eraseOk
      else ShapedEnd(e.packet, size, target, sent) && e.packet.offset == page
  }

  /** Some DATA has arrived, so that the page is current. */
  predicate Begun(es: seq<Event>) {
    exists i :: 0 <= i < |es| && es[i].packet.Data?
  }

  lemma StoreMarks(n: Node, p: Packet, hw: Hardware)
    requires p.Data? && Programs(n.target, p.offset, p.length)
    ensures StoreChunk(n, p.offset, p.length, p.data, hw).chunks
      == n.chunks + (if hw.programOk then {ChunkOf(p)} else {})
    ensures StoreChunk(n, p.offset, p.length, p.data, hw).cur == n.cur
  {
  }

  lemma OneDelivery(n: Node, e: Event, page: nat, target: U8, sent: seq<bv8>)
    requires Truth(n, n.fileSize, target, sent) && Deliveries([e], page, n.fileSize, target, sent) && e.packet.Data?
    requires Advances(n, page) || n.cur == page
    ensures var m := Step(n, e);
      && Truth(m, n.fileSize, target, sent) && m.cur == page
      && m.chunks == (if n.cur == page then n.chunks else {}) + if e.hw.programOk then {ChunkOf(e.packet)} else {}
  {
    hide StoreChunk, Truth, ShapedData, Admits, SectorOf, PageOf, HandleData, SelectPage, Programs, ChunkOf;
    var p, hw := e.packet, e.hw;
    assert e in [e];
    ShapedAdmitted(n, p, target, sent);
    ShapedPage(p, n.fileSize, target, sent);
    DataSteps(n, p, hw);
    DataTruth(n, p, target, sent, hw);
    TruthSize(n, n.fileSize, target, sent);
    if Advances(n, page) {
      SectorOrder(page, p.offset);
      SelectTruth(n, page, target, sent, hw);
      var s := SelectPage(n, page, SectorOf(page), hw).0;
      SelectClears(n, page, SectorOf(page), hw);
      StoreMarks(s, p, hw);
    } else {
      StoreMarks(n, p, hw);
    }
  }

  lemma SelectClears(n: Node, page: U32, sector: U32, hw: Hardware)
    requires Advances(n, page)
    ensures var m := SelectPage(n, page, sector, hw).0; m.chunks == {} && m.target == n.target
  {
    hide EraseTarget;
  }

  /** A PAGE_END of the page: before any DATA it is ignored, afterwards it keeps the bitmap or clears it. */
  lemma OneEnd(n: Node, e: Event, page: nat, target: U8, sent: seq<bv8>)
    requires Truth(n, n.fileSize, target, sent) && Deliveries([e], page, n.fileSize, target, sent) && !e.packet.Data?
    ensures var m := Step(n, e);
      && Truth(m, n.fileSize, target, sent) && m.cur == n.cur
      && (n.cur != page ==> m == n)
      && m.chunks == (if FailedCheck(n, e.packet) then {} else n.chunks)
      && (FailedCheck(n, e.packet) ==> n.cur == page) && page < n.fileSize
  {
    hide Truth, PageMatches, Crc16;
    assert e in [e];
    PageEndTruth(n, e.packet, target, sent);
    TruthSize(n, n.fileSize, target, sent);
  }

  lemma {:induction false} DeliveredChunks(n: Node, es: seq<Event>, page: nat, target: U8, sent: seq<bv8>)
    requires Truth(n, n.fileSize, target, sent) && Advances(n, page) && Deliveries(es, page, n.fileSize, target, sent)
    ensures var m := Run(n, es);
      && Truth(m, n.fileSize, target, sent)
      && (if Begun(es) then m.cur == page && m.chunks == Programmed(n, es) else m == n && Programmed(n, es) == {})
  {
    hide Step, Truth, ShapedData, ShapedEnd, ChunkOf, FailedCheck;
    TruthSize(n, n.fileSize, target, sent);
    if es == [] {
    } else {
      var init, e := es[..|es| - 1], es[|es| - 1];
      assert Deliveries(init, page, n.fileSize, target, sent);
      assert e in es && Deliveries([e], page, n.fileSize, target, sent);
      DeliveredChunks(n, init, page, target, sent);
      BegunSnoc(es);
      var m := Run(n, init);
      TruthSize(m, n.fileSize, target, sent);
      if e.packet.Data? {
        DataNeverFails(m, e.packet);
        OneDelivery(m, e, page, target, sent);
      } else {
        OneEnd(m, e, page, target, sent);
      }
    }
  }

  lemma BegunSnoc(es: seq<Event>)
    requires es != []
    ensures Begun(es) <==> Begun(es[..|es| - 1]) || es[|es| - 1].packet.Data?
  {
    var init := es[..|es| - 1];
    assert forall i :: 0 <= i < |init| ==> init[i] == es[i];
  }

  lemma DataNeverFails(n: Node, p: Packet)
    requires |n.flash.bytes| == FLASH_END && p.Data?
    ensures !FailedCheck(n, p)
  {
  }

  /** A page that a node newly begins is reported complete by a PAGE_END if and only if every chunk of the page was
      delivered and programmed at least once since the last failed check, in whatever order and multiplicity, and with
      whatever checks in between; the report is then sent with the page committed. */
  lemma CompleteIffDelivered(n: Node, es: seq<Event>, p: Packet, target: U8, sent: seq<bv8>)
    requires Truth(n, n.fileSize, target, sent) && ShapedEnd(p, n.fileSize, target, sent)
    requires Advances(n, p.offset) && Deliveries(es, p.offset, n.fileSize, target, sent)
    ensures var (m, report) := HandlePageEnd(Run(n, es), p.offset, p.crc, p.slot);
      && (report.Some? <==> Begun(es)) && (report.Some? ==> report.value.page == p.offset)
      && (report.Some? && FullBitmap(report.value.chunks, n.fileSize, p.offset)
          <==> FullBitmap(Programmed(n, es), n.fileSize, p.offset))
      && (FullBitmap(Programmed(n, es), n.fileSize, p.offset) ==> m.lastCommitted == p.offset)
  {
    hide Truth, PageMatches, Crc16, Run, Programmed, Deliveries, Begun;
    TruthSize(n, n.fileSize, target, sent);
    DeliveredChunks(n, es, p.offset, target, sent);
    var d := Run(n, es);
    TruthSize(d, n.fileSize, target, sent);
    EndOfPage(p, n.fileSize, target, sent);
    if Begun(es) && FullBitmap(d.chunks, n.fileSize, p.offset) {
      FullBitmapMatches(d, p, target, sent);
    }
  }

  lemma EndOfPage(p: Packet, size: nat, target: U8, sent: seq<bv8>)
    requires ShapedEnd(p, size, target, sent)
    ensures p.PageEnd? && p.slot == target && p.offset < size && !FullBitmap({}, size, p.offset)
  {
    hide Crc16;
    var none: set<nat> := {};
    assert 0 !in none;
  }

  // ---------------------------------------------------------------- a held chunk reported as missing

  lemma FirstChunkHeld(n: Node)
    requires Fresh(n) && n.fileSize == 65
    requires Blank(n.flash.bytes, SlotStart(n.target), SlotStart(n.target) + 0x2000)
    ensures var m, at := Step(n, DataAt(0, n.target, Works(true))), SlotStart(n.target);
      && m == n.(cur := 0, chunks := {0}, flash := m.flash) && |m.flash.bytes| == FLASH_END
      && (forall i :: at <= i < at + 64 ==> m.flash.bytes[i] == 0) && m.flash.bytes[at + 64] == 0xFF
  {
    PageAt(0);
    Cleared(0xFF);
    hide ProgramByte;
  }

  lemma FirstPageBytes(m: Node)
    requires SessionOk(m) && m.active && m.cur == 0 && m.fileSize == 65
    ensures PageBytes(m).Some? && |PageBytes(m).value| == 65
    ensures forall i :: 0 <= i < 65 ==> PageBytes(m).value[i] == m.flash.bytes[SlotStart(m.target) + i]
  {
  }

  lemma OneByteBurst(s: seq<bv8>, t: seq<bv8>)
    requires |s| == |t| == 65 && (forall i :: 0 <= i < 64 ==> s[i] == t[i])
    ensures Burst16(s, t, 64, 0)
  {
  }

  /** A run in which a report does not name what the node holds: of a file of 65 zero bytes the second chunk, a single
      byte, is lost. The node holds chunk 0, but its report for the page is empty. */
  lemma HeldChunkNotReported(n: Node)
    requires Fresh(n) && n.fileSize == 65
    requires Blank(n.flash.bytes, SlotStart(n.target), SlotStart(n.target) + 0x2000)
    ensures var m := Run(n, [DataAt(0, n.target, Works(true))]);
      && m.cur == 0 && m.chunks == {0}
      && HandlePageEnd(m, 0, Crc16(0, seq(65, _ => 0)), n.target).1 == Some(Report(0, {}))
  {
    hide Step, PageBytes, Burst16, Crc16, HandlePageEnd;
    assert [DataAt(0, n.target, Works(true))][..0] == [];
    FirstChunkHeld(n);
    var m := Step(n, DataAt(0, n.target, Works(true)));
    FirstPageBytes(m);
    var sent: seq<bv8> := seq(65, _ => 0);
    OneByteBurst(PageBytes(m).value, sent);
    assert PageBytes(m).value[64] == 0xFF && sent[64] == 0;
    BurstNeverCommitted(m, sent, 64, 0);
  }
}
