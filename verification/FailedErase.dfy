/**
 What one failed erase costs.
 */
module FailedErase {
  import opened Wire
  import opened TargetFlash
  import opened Checksum16
  import opened Sensor
  import opened SensorRuns
  import opened FailedVerify

  /** A DATA packet whose erase fails has moved the page cursor: the sector stays unnamed by the memo. */
  lemma FailedEraseMovesCursor(n: Node, e: Event)
    requires DataErases(n, e.packet) && !e.hw.eraseOk && |n.flash.bytes| == FLASH_END
    ensures var m := Step(n, e);
      && m == n.(cur := PageOf(e.packet.offset), chunks := {}, flash := m.flash, page0Erased := m.page0Erased)
      && m.cur != NONE && m.flash.memo == n.flash.memo != SlotStart(n.target) + SectorOf(e.packet.offset)
  {
    hide EraseBytes, ProgramBytes;
    CursorFits(n, e.packet.offset, e.packet.length);
  }

  lemma CursorStays(m: Node, e: Event, page: nat)
    requires |m.flash.bytes| == FLASH_END && m.cur != NONE && m.cur >= page && (e.packet.Data? || e.packet.PageEnd?)
    ensures Step(m, e).cur != NONE && Step(m, e).cur >= page
  {
    hide HandleData, Crc16, PageMatches;
    if e.packet.Data? {
      DataKeepsCrc(m, e.packet.offset, e.packet.length, e.packet.slot, e.packet.data, e.hw);
    }
  }

  /** After a failed erase no later DATA of the page asks for the erase again, whatever comes in between. */
  lemma {:induction false} NeverAskedAgain(n: Node, e: Event, es: seq<Event>, q: Packet)
    requires e.packet.Data? && DataErases(n, e.packet) && !e.hw.eraseOk && |n.flash.bytes| == FLASH_END
    requires forall d :: d in es ==> d.packet.Data? || d.packet.PageEnd?
    ensures var m := Run(Step(n, e), es);
      && m.cur != NONE && m.cur >= PageOf(e.packet.offset)
      && (q.Data? && PageOf(q.offset) == PageOf(e.packet.offset) ==> !DataErases(m, q))
  {
    hide Step, DataErases;
    if es == [] {
      FailedEraseMovesCursor(n, e);
    } else {
      NeverAskedAgain(n, e, es[..|es| - 1], q);
      CursorStays(Run(Step(n, e), es[..|es| - 1]), es[|es| - 1], PageOf(e.packet.offset));
    }
    OnlyNewPagesErase(Run(Step(n, e), es), q);
  }

  lemma OnlyNewPagesErase(m: Node, q: Packet)
    ensures DataErases(m, q) ==> Advances(m, PageOf(q.offset))
  {
  }

  // ---------------------------------------------------------------- a committed page wiped

  /** The hardware works, except that the next erase reports a failure if `ok` is false. */
  function Works(ok: bool): Hardware {
    Hardware(ok, [], true, [])
  }

  lemma Geometry()
    ensures SectorOf(0x2000) == 0x2000 && SectorOf(0x3000) == 0x2000
    ensures PageOf(0x2000) == 0x2000 && PageOf(0x3000) == 0x3000
  {
    PageAt(0x2000);
    PageAt(0x3000);
    PageSector(2);
    PageSector(3);
  }

  lemma FirstErases(n: Node)
    requires Fresh(n) && n.fileSize > 0x3000
    ensures DataErases(n, DataAt(0x2000, n.target, Works(false)).packet)
  {
    hide SectorOf, PageOf;
    Geometry();
    SlotRoom(n);
  }

  /** The retried chunk is written into the sector that was not erased. */
  lemma RetryWrites(m: Node)
    requires SessionOk(m) && m.active && m.cur == 0x2000 && m.chunks == {} && m.fileSize > 0x3000
    ensures var k := Step(m, DataAt(0x2000, m.target, Works(true)));
      && k == m.(flash := m.flash.(bytes := k.flash.bytes), chunks := {0})
      && k.flash.bytes[SlotStart(m.target) + 0x2000] == 0
  {
    PageAt(0x2000);
    SlotRoom(m);
    Cleared(m.flash.bytes[SlotStart(m.target) + 0x2000]);
    hide ProgramByte;
  }

  lemma Cleared(was: bv8)
    ensures ProgramByte(was, 0, true, 0) == 0
  {
  }

  lemma SlotRoom(m: Node)
    requires SessionOk(m) && m.active && m.fileSize > 0x3000
    ensures BoundsOk(m.target, 0x2000, 64) && BoundsOk(m.target, 0x3000, 64)
    ensures SlotStart(m.target) + 0x4000 <= FLASH_END
  {
  }

  /** The committed contents begin at the page's first byte. */
  lemma CommittedByte(k: Node)
    requires SessionOk(k) && k.active && k.cur == 0x2000 && k.fileSize > 0x3000
    ensures PageBytes(k).Some? && |PageBytes(k).value| == 4096
    ensures PageBytes(k).value[0] == k.flash.bytes[SlotStart(k.target) + 0x2000]
  {
  }

  lemma ErasingOps(n: Node, e: Event)
    requires DataErases(n, e.packet)
    ensures OpsOf(n, e) != [] && OpsOf(n, e)[0] == Erased(SectorOf(e.packet.offset))
  {
  }

  /** The packets of the run and the states between them. */
  lemma WipingRun(n: Node) returns (e1: Event, e2: Event, e3: Event, e4: Event)
    requires Fresh(n) && n.fileSize > 0x3000
    ensures e1.packet.Data? && e2.packet.Data? && e3.packet.PageEnd? && e4.packet.Data?
    ensures Aligned(e1.packet) && Aligned(e2.packet) && Aligned(e4.packet)
    ensures
      var a := Step(n, e1);
      var b := Step(a, e2);
      var c := Step(b, e3);
      var m, at := Step(c, e4), SlotStart(n.target) + 0x2000;
      && DataErases(n, e1.packet) && SectorOf(e1.packet.offset) == 0x2000
      && DataErases(c, e4.packet) && SectorOf(e4.packet.offset) == 0x2000
      && PageBytes(b).Some? && |PageBytes(b).value| == 4096 && PageBytes(b).value[0] == 0
      && CommitOf(b, e3.packet) == [Commit(0x2000, PageBytes(b).value)]
      && at + 4096 <= FLASH_END && Blank(m.flash.bytes, at, at + 4096)
  {
    hide Step, DataErases, CommitOf, Admits, SectorOf, PageOf, PageBytes, Advances;
    Geometry();
    e1, e2 := DataAt(0x2000, n.target, Works(false)), DataAt(0x2000, n.target, Works(true));
    FirstErases(n);
    FailedEraseMovesCursor(n, e1);
    var a := Step(n, e1);
    RetryWrites(a);
    var b := Step(a, e2);
    e3 := EndOf(b);
    EndCommits(b);
    CommittedByte(b);
    var c := Step(b, e3);
    e4 := DataAt(0x3000, n.target, Works(true));
    WipesNow(c, e4);
  }

  lemma WipesNow(c: Node, e: Event)
    requires SessionOk(c) && c.active && c.cur == 0x2000 && c.fileSize > 0x3000
    requires c.flash.memo != SlotStart(c.target) + 0x2000 && e == DataAt(0x3000, c.target, Works(true))
    ensures DataErases(c, e.packet)
    ensures var at := SlotStart(c.target) + 0x2000;
      at + 4096 <= FLASH_END && Blank(Step(c, e).flash.bytes, at, at + 4096)
  {
    hide DataErases, SectorOf, PageOf;
    Geometry();
    SlotRoom(c);
    ErasesCurrentSectorIff(c, e.packet);
    NextPageWipes(c, e);
  }

  /** A run from START in which the erase of sector 0x2000 fails once. Page 0x2000 is then written and committed all the
      same, and the first DATA of page 0x3000 erases the sector after that work and wipes the page. */
  lemma CommittedPageWiped(n: Node) returns (es: seq<Event>)
    requires Fresh(n) && n.fileSize > 0x3000
    ensures forall e :: e in es ==> Aligned(e.packet)
    ensures !EraseFirst(Trace(n, es))
    ensures var m, cs, at := Run(n, es), Commits(n, es), SlotStart(n.target) + 0x2000;
      && |cs| == 1 && cs[0].page == 0x2000 && |cs[0].bytes| == 4096 && cs[0].bytes[0] == 0
      && at + 4096 <= FLASH_END && Blank(m.flash.bytes, at, at + 4096)
  {
    hide Step, DataErases, CommitOf, Run, Commits, Trace, OpsOf, Admits, SectorOf, PageBytes, Blank, Fresh;
    FreshSize(n);
    var e1, e2, e3, e4 := WipingRun(n);
    es := [e1, e2, e3, e4];
    var a := Step(n, e1);
    var b := Step(a, e2);
    var c := Step(b, e3);
    RunOfFour(n, e1, e2, e3, e4);
    NoCommit(n, e1);
    NoCommit(a, e2);
    NoCommit(c, e4);
    ErasingOps(n, e1);
    ErasingOps(c, e4);
    ErasedTwice(OpsOf(n, e1), OpsOf(a, e2) + OpsOf(b, e3), OpsOf(c, e4));
  }

  lemma FreshSize(n: Node)
    requires Fresh(n)
    ensures |n.flash.bytes| == FLASH_END
  {
  }

  lemma ErasedTwice(s: seq<Op>, t: seq<Op>, u: seq<Op>)
    requires s != [] && u != [] && s[0] == u[0] == Erased(0x2000)
    ensures !EraseFirst([Erased(0)] + s + t + u)
  {
    var ops := [Erased(0)] + s + t + u;
    assert ops[1] == Erased(0x2000) && ops[1 + |s| + |t|] == Erased(0x2000);
  }

  lemma NoCommit(n: Node, e: Event)
    requires |n.flash.bytes| == FLASH_END && e.packet.Data?
    ensures CommitOf(n, e.packet) == []
  {
  }

  lemma Snoc(n: Node, es: seq<Event>, e: Event)
    requires |n.flash.bytes| == FLASH_END
    ensures Run(n, es + [e]) == Step(Run(n, es), e)
    ensures Commits(n, es + [e]) == Commits(n, es) + CommitOf(Run(n, es), e.packet)
    ensures Trace(n, es + [e]) == Trace(n, es) + OpsOf(Run(n, es), e)
    ensures Run(n, []) == n && Commits(n, []) == [] && Trace(n, []) == [Erased(0)]
  {
    hide Step, CommitOf, OpsOf;
    assert (es + [e])[..|es|] == es;
  }

  lemma RunOfTwo(n: Node, e1: Event, e2: Event)
    requires |n.flash.bytes| == FLASH_END
    ensures
      var a := Step(n, e1);
      && Run(n, [e1, e2]) == Step(a, e2)
      && Commits(n, [e1, e2]) == CommitOf(n, e1.packet) + CommitOf(a, e2.packet)
      && Trace(n, [e1, e2]) == [Erased(0)] + OpsOf(n, e1) + OpsOf(a, e2)
  {
    hide Step, CommitOf, OpsOf, Run, Commits, Trace;
    Snoc(n, [], e1);
    Snoc(n, [e1], e2);
    assert [] + [e1] == [e1] && [e1] + [e2] == [e1, e2];
    assert [] + CommitOf(n, e1.packet) == CommitOf(n, e1.packet);
  }

  lemma RunOfFour(n: Node, e1: Event, e2: Event, e3: Event, e4: Event)
    requires |n.flash.bytes| == FLASH_END
    ensures
      var a := Step(n, e1);
      var b := Step(a, e2);
      var c := Step(b, e3);
      var es := [e1, e2, e3, e4];
      && Run(n, es) == Step(c, e4)
      && Commits(n, es)
         == CommitOf(n, e1.packet) + CommitOf(a, e2.packet) + CommitOf(b, e3.packet) + CommitOf(c, e4.packet)
      && Trace(n, es) == [Erased(0)] + OpsOf(n, e1) + (OpsOf(a, e2) + OpsOf(b, e3)) + OpsOf(c, e4)
  {
    hide Step, CommitOf, OpsOf, Run, Commits, Trace;
    RunOfTwo(n, e1, e2);
    Snoc(n, [e1, e2], e3);
    Snoc(n, [e1, e2, e3], e4);
    assert [e1, e2] + [e3] == [e1, e2, e3] && [e1, e2, e3] + [e4] == [e1, e2, e3, e4];
    Regroup([Erased(0)] + OpsOf(n, e1), OpsOf(Step(n, e1), e2), OpsOf(Step(Step(n, e1), e2), e3));
  }

  lemma Regroup(s: seq<Op>, t: seq<Op>, u: seq<Op>)
    ensures s + t + u == s + (t + u)
  {
  }
}
