/**
 The flash of a node as the outcome of the writes it has issued, whatever became of its bitmap in between.
 */
module IssuedWrites {
  import opened Wire
  import opened TargetFlash
  import opened Sensor
  import opened SensorRuns
  import opened Programming

  /** The write request one packet makes the node issue. */
  function IssuedBy(n: Node, e: Event): seq<Request> {
    if DataPrograms(n, e.packet, e.hw)
    then [Request(n.target, e.packet.offset, e.packet.data, e.packet.length, e.hw)] else []
  }

  function Issued(n: Node, es: seq<Event>): seq<Request>
    requires |n.flash.bytes| == FLASH_END
  {
    if es == [] then []
    else Issued(n, es[..|es| - 1]) + IssuedBy(Run(n, es[..|es| - 1]), es[|es| - 1])
  }

  /** DATA and PAGE_END packets none of which erases a sector. */
  predicate NoErase(n: Node, es: seq<Event>)
    requires |n.flash.bytes| == FLASH_END
  {
    es == [] ||
    var init, e := es[..|es| - 1], es[|es| - 1];
    NoErase(n, init) && (e.packet.Data? || e.packet.PageEnd?) && !DataErases(Run(n, init), e.packet)
  }

  lemma SelectWithoutErase(n: Node, p: Packet, hw: Hardware)
    requires p.Data? && Admits(n, p.offset, p.length, p.slot) && n.page0Erased && !DataErases(n, p)
    ensures var m := SelectPage(n, PageOf(p.offset), p.offset - p.offset % 0x2000, hw).0;
      m == n.(cur := m.cur, chunks := m.chunks)
  {
    hide EraseBytes, PageOf;
    assert SectorOf(p.offset) % 0x2000 == 0 by {
      SectorAt(p.offset);
    }
  }

  lemma WriteIssued(f: Flash, r: Request)
    ensures WriteAll(f, [r]) == WriteTarget(f, r.slot, r.offset, r.data, r.length, r.hw).0
    ensures WriteAll(f, []) == f
  {
    hide WriteTarget;
    assert [r][..0] == [];
  }

  lemma StoreIssues(m: Node, p: Packet, hw: Hardware)
    requires p.Data?
    ensures StoreChunk(m, p.offset, p.length, p.data, hw).flash ==
      if (p.offset % 4096 / 64) !in m.chunks && Programs(m.target, p.offset, p.length)
      then WriteTarget(m.flash, m.target, p.offset, p.data, p.length, hw).0 else m.flash
  {
    hide ProgramBytes;
  }

  /** One packet changes flash exactly by the write it issues. */
  lemma StepWrites(n: Node, e: Event)
    requires |n.flash.bytes| == FLASH_END && n.page0Erased && (e.packet.Data? || e.packet.PageEnd?)
    requires !DataErases(n, e.packet)
    ensures var m := Step(n, e);
      m.flash == WriteAll(n.flash, IssuedBy(n, e)) && m.page0Erased
  {
    hide SelectPage, StoreChunk, WriteAll, WriteTarget, DataErases, PageOf, Programs, Admits, PageMatches, PageBytes;
    var p := e.packet;
    if p.Data? && Admits(n, p.offset, p.length, p.slot) {
      SelectWithoutErase(n, p, e.hw);
      var m := SelectPage(n, PageOf(p.offset), p.offset - p.offset % 0x2000, e.hw).0;
      StoreIssues(m, p, e.hw);
      StoreKeeps(m, p, e.hw);
      WriteIssued(n.flash, Request(n.target, p.offset, p.data, p.length, e.hw));
    } else {
      WriteIssued(n.flash, Request(n.target, 0, [], 0, e.hw));
    }
  }

  lemma {:induction false} WriteAllConcat(f: Flash, s: seq<Request>, t: seq<Request>)
    ensures WriteAll(f, s + t) == WriteAll(WriteAll(f, s), t)
  {
    hide WriteTarget;
    if t == [] {
      assert s + t == s;
    } else {
      assert (s + t)[..|s + t| - 1] == s + t[..|t| - 1];
      WriteAllConcat(f, s, t[..|t| - 1]);
    }
  }

  /** As long as nothing is erased, the flash is what the issued writes make of it: page changes, duplicates, refused
      packets, page checks and the bitmap clears after failed ones leave no other trace. */
  lemma {:induction false} FlashIsIssuedWrites(n: Node, es: seq<Event>)
    requires |n.flash.bytes| == FLASH_END && n.page0Erased && NoErase(n, es)
    ensures Run(n, es).flash == WriteAll(n.flash, Issued(n, es)) && Run(n, es).page0Erased
  {
    hide Step, IssuedBy, DataErases;
    if es == [] {
    } else {
      var init, e := es[..|es| - 1], es[|es| - 1];
      FlashIsIssuedWrites(n, init);
      StepWrites(Run(n, init), e);
      WriteAllConcat(n.flash, Issued(n, init), IssuedBy(Run(n, init), e));
    }
  }

  /** So two runs that issue the same writes, in whatever order and however often, leave the same flash. */
  lemma ContentsDependOnIssuedWrites(n: Node, es: seq<Event>, ds: seq<Event>)
    requires |n.flash.bytes| == FLASH_END && n.page0Erased && NoErase(n, es) && NoErase(n, ds)
    requires forall w :: w in Issued(n, es) <==> w in Issued(n, ds)
    ensures Run(n, es).flash.bytes == Run(n, ds).flash.bytes
  {
    hide Run, Issued, NoErase, WriteAll;
    FlashIsIssuedWrites(n, es);
    FlashIsIssuedWrites(n, ds);
    ContentsDependOnSetOfWrites(n.flash, Issued(n, es), Issued(n, ds));
  }
}
