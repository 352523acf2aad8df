/**
 The receive machine of a sensor node (`ota-sensor.c` over the dual-onchip backend of
 `sensor-node-dual-onchip.c`): the specification functions, and the imperative machine proved against them.
 */
module Sensor {
  import opened Wire
  import opened TargetFlash
  import opened Checksum16
  import PageBitmap

  /** The receive state of one node. `cur` is the page cursor, `chunks` the page bitmap, `runCrc` the
      cumulative image checksum and `lastCommitted` the page it was last advanced for. */
  datatype Node = Node(
    flash: Flash, slot: U8, runningSecVer: U16,
    fileSize: U32, target: U8, imageSecVer: U16, active: bool,
    cur: U32, chunks: set<nat>, page0Erased: bool, runCrc: bv16, lastCommitted: U32)

  datatype Verdict = Ignored | Matched | Mismatched

  // ---------------------------------------------------------------- START

  function ResetRx(n: Node): Node {
    n.(cur := NONE, chunks := {}, page0Erased := false, runCrc := 0, lastCommitted := NONE)
  }

  /** The admission decision of the backend, once the erase memo has been reset. */
  function StartStatus(n: Node, fileSize: U32, secVer: U16, target: U8, hw: Hardware): U8 {
    if target > SLOT_B then START_REJECTED_TARGET
    else if secVer != 0 && secVer <= n.runningSecVer then START_REJECTED_VERSION
    else if fileSize == 0 || fileSize > SlotSize(target) then START_REJECTED_TARGET
    else if target == n.slot then START_REJECTED_SAME_SLOT
    else if !EraseTarget(n.flash.(memo := NONE), target, 0, hw).1 then START_REJECTED_TARGET
    else START_ACCEPTED
  }

  predicate ReachesErase(n: Node, fileSize: U32, secVer: U16, target: U8) {
    && target <= SLOT_B && !(secVer != 0 && secVer <= n.runningSecVer)
    && 0 < fileSize <= SlotSize(target) && target != n.slot
  }

  function HandleStart(n: Node, fileSize: U32, secVer: U16, target: U8, hw: Hardware): (r: (Node, U8)) {
    var f := n.flash.(memo := NONE);
    var f' := if ReachesErase(n, fileSize, secVer, target) then EraseTarget(f, target, 0, hw).0 else f;
    var status := StartStatus(n, fileSize, secVer, target, hw);
    (ResetRx(n).(fileSize := fileSize, target := target, imageSecVer := secVer, flash := f',
                 active := status == START_ACCEPTED, page0Erased := status == START_ACCEPTED),
     status)
  }

  // ---------------------------------------------------------------- DATA

  /** Whether a DATA packet passes the session and bounds guard. */
  predicate Admits(n: Node, offset: U32, length: U16, target: U8) {
    n.active && target == n.target && BoundsOk(n.target, offset, length)
  }

  /** Whether the page of a packet becomes the new current page. */
  predicate Advances(n: Node, page: nat) {
    n.cur == NONE || page > n.cur
  }

  /** Moves the page cursor, erasing the sector of the new page if needed; the flag says whether the
      chunk may be stored. */
  function SelectPage(n: Node, page: U32, sector: U32, hw: Hardware): (r: (Node, bool)) {
    if Advances(n, page) then
      var m := n.(cur := page, chunks := {});
      if n.cur == NONE && page == 0 then
        if n.page0Erased then (m, true)
        else
          var (f, ok) := EraseTarget(n.flash, n.target, 0, hw);
          (m.(flash := f, page0Erased := ok), ok)
      else
        var (f, ok) := EraseTarget(n.flash, n.target, sector, hw);
        (m.(flash := f), ok)
    else (n, page == n.cur)
  }

  /** Stores one chunk of the current page unless its bit is already set. */
  function StoreChunk(n: Node, offset: U32, length: U16, data: seq<bv8>, hw: Hardware): Node {
    var chunk: nat := offset % 4096 / 64;
    if chunk in n.chunks then n
    else
      var (f, ok) := WriteTarget(n.flash, n.target, offset, data, length, hw);
      n.(flash := f, chunks := if ok && length > 0 then n.chunks + {chunk} else n.chunks)
  }

  function HandleData(n: Node, offset: U32, length: U16, target: U8, data: seq<bv8>, hw: Hardware): Node {
    if !Admits(n, offset, length, target) then n
    else
      var (m, ready) := SelectPage(n, PageOf(offset), offset - offset % 0x2000, hw);
      if ready then StoreChunk(m, offset, length, data, hw) else m
  }

  // ---------------------------------------------------------------- PAGE_END

  /** The length of the current page, with the 32-bit wrap-around and 16-bit truncation of the code. */
  function CurrentPageLen(n: Node): U16 {
    if (n.cur + 4096) % 0x1_0000_0000 > n.fileSize
    then (n.fileSize - n.cur) % 0x1_0000_0000 % 0x1_0000
    else 4096
  }

  /** The bytes the current page occupies in flash. */
  function PageBytes(n: Node): Option<seq<bv8>>
    requires |n.flash.bytes| == FLASH_END
  {
    ReadTarget(n.flash, n.target, n.cur, CurrentPageLen(n))
  }

  /** Whether a PAGE_END is for the current page of the session. */
  predicate Concerns(n: Node, page: U32, target: U8) {
    n.active && target == n.target && page == n.cur
  }

  predicate PageMatches(n: Node, crc: bv16)
    requires |n.flash.bytes| == FLASH_END
  {
    PageBytes(n).Some? && Crc16(0, PageBytes(n).value) == crc
  }

  function PageReport(n: Node): Option<Report> {
    if n.cur == NONE then None else Some(Report(n.cur, n.chunks))
  }

  function HandlePageEnd(n: Node, page: U32, crc: bv16, target: U8): (r: (Node, Option<Report>))
    requires |n.flash.bytes| == FLASH_END
  {
    if !Concerns(n, page, target) then (n, None)
    else
      var m :=
        if !PageMatches(n, crc) then n.(chunks := {})
        else if n.lastCommitted != n.cur
        then n.(runCrc := Crc16(n.runCrc, PageBytes(n).value), lastCommitted := n.cur)
        else n;
      (m, PageReport(m))
  }

  // ---------------------------------------------------------------- VERIFY

  function HandleVerify(n: Node, crc: bv16, target: U8, metadata: seq<bv8>): (r: (Node, Option<Report>, Verdict)) {
    if !n.active || target != n.target then (n, None, Ignored)
    else if n.runCrc == crc
    then (n.(cur := NONE, flash := WriteMetadata(n.flash, metadata), active := false), PageReport(n), Matched)
    else (n.(cur := NONE), PageReport(n), Mismatched)
  }

  // ---------------------------------------------------------------- any packet

  /** The state after one packet. */
  function Receive(n: Node, p: Packet, hw: Hardware, metadata: seq<bv8>): (m: Node)
    requires |n.flash.bytes| == FLASH_END
    ensures |m.flash.bytes| == FLASH_END && m.slot == n.slot && m.runningSecVer == n.runningSecVer
  {
    match p
    case Start(size, secVer, target) => HandleStart(n, size, secVer, target, hw).0
    case Data(offset, length, target, data) => HandleData(n, offset, length, target, data, hw)
    case PageEnd(page, crc, target) => HandlePageEnd(n, page, crc, target).0
    case Verify(crc, target) => HandleVerify(n, crc, target, metadata).0
  }

  // ---------------------------------------------------------------- the machine

  /** The receive machine with the fields of the firmware. */
  class Machine {
    const flash: Driver
    const slot: U8
    const runningSecVer: U16
    const pageBitmap: array<bv8>
    var fileSize: U32
    var target: U8
    var imageSecVer: U16
    var active: bool
    var cur: U32
    var page0Erased: bool
    var runCrc: bv16
    var lastCommitted: U32

    ghost predicate Valid()
      reads this, flash
    {
      flash.Valid() && pageBitmap.Length == 8 && pageBitmap != flash.memory
    }

    ghost function State(): Node
      requires Valid()
      reads this, flash, flash.memory, pageBitmap
    {
      Node(flash.State(), slot, runningSecVer, fileSize, target, imageSecVer, active,
           cur, PageBitmap.Chunks(pageBitmap[..]), page0Erased, runCrc, lastCommitted)
    }

    constructor (flash: Driver, slot: U8, runningSecVer: U16)
      requires flash.Valid()
      ensures Valid() && fresh(pageBitmap)
      ensures this.flash == flash && this.slot == slot && this.runningSecVer == runningSecVer
      ensures !active && cur == NONE
    {
      this.flash := flash;
      this.slot := slot;
      this.runningSecVer := runningSecVer;
      pageBitmap := new bv8[8](_ => 0);
      fileSize, target, imageSecVer, active := 0, 0xFF, 0, false;
      cur, page0Erased, runCrc, lastCommitted := NONE, false, 0, NONE;
    }

    method ClearBitmap()
      requires Valid()
      modifies pageBitmap
      ensures Valid() && State() == old(State()).(chunks := {})
    {
      hide PageBitmap.Chunks;
      for i := 0 to 8
        invariant forall j :: 0 <= j < i ==> pageBitmap[j] == 0
        invariant flash.memory[..] == old(flash.memory[..])
      {
        pageBitmap[i] := 0;
      }
      PageBitmap.NoChunks(pageBitmap[..]);
    }

    method ResetRxState()
      requires Valid()
      modifies this, pageBitmap
      ensures Valid() && State() == ResetRx(old(State()))
    {
      hide PageBitmap.Chunks;
      cur := NONE;
      ClearBitmap();
      page0Erased := false;
      runCrc := 0;
      lastCommitted := NONE;
    }

    method BackendStart(newTarget: U8, size: U32, secVer: U16, hw: Hardware) returns (status: U8)
      requires Valid()
      modifies flash`memo, flash.memory
      ensures Valid() && status == StartStatus(old(State()), size, secVer, newTarget, hw)
      ensures State() == old(State()).(flash :=
        if ReachesErase(old(State()), size, secVer, newTarget)
        then EraseTarget(old(State()).flash.(memo := NONE), newTarget, 0, hw).0
        else old(State()).flash.(memo := NONE))
    {
      hide PageBitmap.Chunks;
      flash.ResetEraseTracking();
      if newTarget > SLOT_B {
        return START_REJECTED_TARGET;
      }
      if secVer != 0 && secVer <= runningSecVer {
        return START_REJECTED_VERSION;
      }
      if size == 0 || size > SlotSize(newTarget) {
        return START_REJECTED_TARGET;
      }
      if newTarget == slot {
        return START_REJECTED_SAME_SLOT;
      }
      var ok := flash.EraseTargetSector(newTarget, 0, hw);
      return if ok then START_ACCEPTED else START_REJECTED_TARGET;
    }

    method Start(size: U32, secVer: U16, newTarget: U8, hw: Hardware) returns (status: U8)
      requires Valid()
      modifies this, pageBitmap, flash`memo, flash.memory
      ensures Valid() && (State(), status) == HandleStart(old(State()), size, secVer, newTarget, hw)
    {
      hide PageBitmap.Chunks, EraseTarget;
      fileSize := size;
      target := newTarget;
      imageSecVer := secVer;
      active := false;
      ResetRxState();
      status := BackendStart(newTarget, size, secVer, hw);
      if status != START_ACCEPTED {
        return;
      }
      page0Erased := true;
      active := true;
    }

    method Data(offset: U32, length: U16, pktTarget: U8, data: seq<bv8>, hw: Hardware)
      requires Valid()
      modifies this, pageBitmap, flash`memo, flash.memory
      ensures Valid() && State() == HandleData(old(State()), offset, length, pktTarget, data, hw)
    {
      hide PageBitmap.Chunks, EraseTarget, WriteTarget;
      if !active || pktTarget != target || !BoundsOk(target, offset, length) {
        return;
      }
      var page: U32 := PageOf(offset);
      var sector: U32 := offset - offset % 0x2000;
      if cur == NONE {
        cur := page;
        ClearBitmap();
        if page == 0 {
          if !page0Erased {
            page0Erased := flash.EraseTargetSector(target, 0, hw);
            if !page0Erased {
              return;
            }
          }
        } else {
          var ok := flash.EraseTargetSector(target, sector, hw);
          if !ok {
            return;
          }
        }
      } else if page > cur {
        cur := page;
        ClearBitmap();
        var ok := flash.EraseTargetSector(target, sector, hw);
        if !ok {
          return;
        }
      } else if page < cur {
        return;
      }
      Store(offset, length, data, hw);
    }

    method MarkChunk(chunk: nat)
      requires Valid() && chunk < 64
      modifies pageBitmap
      ensures Valid() && State() == old(State()).(chunks := old(State()).chunks + {chunk})
    {
      hide PageBitmap.WithBit, PageBitmap.WithoutBit, PageBitmap.Chunks;
      var b, k := chunk / 8, chunk % 8;
      PageBitmap.SetChunk(pageBitmap[..], chunk);
      pageBitmap[b] := PageBitmap.WithBit(pageBitmap[b], k);
      assert pageBitmap[..] == old(pageBitmap[..])[b := PageBitmap.WithBit(old(pageBitmap[..])[b], k)];
    }

    method UnmarkChunk(chunk: nat)
      requires Valid() && chunk < 64
      modifies pageBitmap
      ensures Valid() && State() == old(State()).(chunks := old(State()).chunks - {chunk})
    {
      hide PageBitmap.WithBit, PageBitmap.WithoutBit, PageBitmap.Chunks;
      var b, k := chunk / 8, chunk % 8;
      PageBitmap.ClearChunk(pageBitmap[..], chunk);
      pageBitmap[b] := PageBitmap.WithoutBit(pageBitmap[b], k);
      assert pageBitmap[..] == old(pageBitmap[..])[b := PageBitmap.WithoutBit(old(pageBitmap[..])[b], k)];
    }

    /** Whether the bit of a chunk is set. */
    method Marked(chunk: nat) returns (r: bool)
      requires Valid() && chunk < 64
      ensures r <==> chunk in State().chunks
    {
      hide PageBitmap.Bit, PageBitmap.HasBit;
      r := PageBitmap.HasBit(pageBitmap[chunk / 8], chunk % 8);
    }

    method Store(offset: U32, length: U16, data: seq<bv8>, hw: Hardware)
      requires Valid()
      modifies pageBitmap, flash.memory
      ensures Valid() && State() == StoreChunk(old(State()), offset, length, data, hw)
    {
      hide WriteTarget, PageBitmap.Chunks;
      var chunk: nat := offset % 4096 / 64;
      var marked := Marked(chunk);
      if marked {
        return;
      }
      if length > 0 {
        MarkChunk(chunk);
      }
      var ok := flash.Write(target, offset, data, length, hw);
      if !ok {
        UnmarkChunk(chunk);
      }
    }

    method SendPageReport() returns (report: Option<Report>)
      requires Valid()
      ensures report == PageReport(State())
    {
      report := if cur == NONE then None else Some(Report(cur, PageBitmap.Chunks(pageBitmap[..])));
    }

    /** Reads the current page in pieces of 64 bytes, feeding the page checksum and the image checksum. */
    method ReadPage(len: U16) returns (ok: bool, pageCrc: bv16, imageCrc: bv16)
      requires Valid() && len == CurrentPageLen(State())
      ensures ok == PageBytes(State()).Some?
      ensures ok ==> pageCrc == Crc16(0, PageBytes(State()).value)
      ensures ok ==> imageCrc == Crc16(runCrc, PageBytes(State()).value)
    {
      hide Crc16, PageBitmap.Chunks, BitSerial, Bits, CurrentPageLen, ReadTarget, BoundsOk;
      ghost var f := flash.State();
      Bounds(f, target, cur, len);
      pageCrc, imageCrc := 0, runCrc;
      ok := BoundsOk(target, cur, len);
      if !ok {
        return;
      }
      ghost var page := ReadTarget(f, target, cur, len).value;
      var i: nat := 0;
      assert page[..0] == [];
      EmptyCrc(0);
      EmptyCrc(runCrc);
      while i < len
        invariant ok && (i <= len || i < len + 64)
        invariant pageCrc == Crc16(0, page[..MinLen(i, len)])
        invariant imageCrc == Crc16(runCrc, page[..MinLen(i, len)])
        decreases len - i
      {
        var piece: U16 := if len - i > 64 then 64 else len - i;
        PieceRead(f, target, cur, len, i, piece);
        var buf := flash.Read(target, cur + i, piece);
        if buf.None? {
          return false, pageCrc, imageCrc;
        }
        NextPiece(0, page, i, i + piece);
        NextPiece(runCrc, page, i, i + piece);
        pageCrc := Crc16Data(buf.value, pageCrc);
        imageCrc := Crc16Data(buf.value, imageCrc);
        i := i + 64;
      }
      assert page[..len] == page;
    }

    method PageEnd(page: U32, crc: bv16, pktTarget: U8) returns (report: Option<Report>)
      requires Valid()
      modifies this, pageBitmap
      ensures Valid() && (State(), report) == HandlePageEnd(old(State()), page, crc, pktTarget)
    {
      hide Crc16, PageBitmap.Chunks, PageBytes;
      if !active || pktTarget != target {
        return None;
      }
      if page != cur {
        return None;
      }
      var len: U16 := 4096;
      if (cur + len) % 0x1_0000_0000 > fileSize {
        len := (fileSize - cur) % 0x1_0000_0000 % 0x1_0000;
      }
      var ok, pageCrc, imageCrc := ReadPage(len);
      if ok && pageCrc == crc {
        if lastCommitted != cur {
          runCrc := imageCrc;
          lastCommitted := cur;
        }
      } else {
        ClearBitmap();
      }
      report := SendPageReport();
    }

    method Verify(crc: bv16, pktTarget: U8, metadata: seq<bv8>) returns (report: Option<Report>, verdict: Verdict)
      requires Valid()
      modifies this, flash.memory
      ensures Valid() && (State(), report, verdict) == HandleVerify(old(State()), crc, pktTarget, metadata)
    {
      hide PageBitmap.Chunks;
      if !active || pktTarget != target {
        return None, Ignored;
      }
      report := SendPageReport();
      cur := NONE;
      if runCrc == crc {
        flash.ReplaceMetadata(metadata);
        active := false;
        verdict := Matched;
      } else {
        verdict := Mismatched;
      }
    }
  }

  /** A range can be read exactly if it lies in the slot. */
  lemma Bounds(f: Flash, slot: U8, offset: U32, length: U32)
    requires |f.bytes| == FLASH_END
    ensures ReadTarget(f, slot, offset, length).Some? <==> BoundsOk(slot, offset, length)
    ensures ReadTarget(f, slot, offset, length).Some? ==>
      |ReadTarget(f, slot, offset, length).value| == length && offset + length <= 0xFFFF_FFFF
  {
  }

  /** A piece of a readable range can be read, and is that piece. */
  lemma PieceRead(f: Flash, slot: U8, offset: U32, length: U32, i: nat, piece: U32)
    requires |f.bytes| == FLASH_END && ReadTarget(f, slot, offset, length).Some? && i + piece <= length
    ensures offset + i <= 0xFFFF_FFFF
    ensures ReadTarget(f, slot, offset + i, piece) == Some(ReadTarget(f, slot, offset, length).value[i..i + piece])
  {
    SubSlice(f.bytes, SlotStart(slot) + offset, length, i, piece);
  }

  /** A checksum continued over the next piece of a page. */
  lemma NextPiece(acc: bv16, page: seq<bv8>, i: nat, j: nat)
    requires i <= j <= |page|
    ensures Crc16(Crc16(acc, page[..i]), page[i..j]) == Crc16(acc, page[..j])
  {
    hide Crc16;
    assert page[..j] == page[..i] + page[i..j];
    Crc16Concat(acc, page[..i], page[i..j]);
  }

  lemma EmptyCrc(acc: bv16)
    ensures Crc16(acc, []) == acc
  {
  }
}
