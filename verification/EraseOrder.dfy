/**
 The erase discipline of two pages per sector: exactly which runs never erase a sector after work on it.
 */
module EraseOrder {
  import opened Wire
  import opened TargetFlash
  import opened Sensor
  import opened SensorRuns

  /** Some operation went to the sector. */
  ghost predicate Touched(ops: seq<Op>, sector: nat) {
    exists i :: 0 <= i < |ops| && ops[i].sector == sector
  }

  /** No operation went beyond the sector. */
  ghost predicate Below(ops: seq<Op>, sector: nat) {
    forall i :: 0 <= i < |ops| ==> ops[i].sector <= sector
  }

  /** The state after the operations `ops`, whatever became of the erases: the memo names a sector that was worked on,
      all work lies at or below the sector of the cursor, and that sector has been worked on, too. */
  ghost predicate Reached(n: Node, ops: seq<Op>) {
    && SessionOk(n) && n.active && n.page0Erased
    && n.flash.memo >= SlotStart(n.target) && Touched(ops, n.flash.memo - SlotStart(n.target))
    && (n.cur == NONE ==> n.flash.memo == SlotStart(n.target) && Below(ops, 0))
    && (n.cur != NONE ==>
      && n.cur % 4096 == 0 && Below(ops, SectorOf(n.cur))
      && (n.cur < SlotSize(n.target) ==> Touched(ops, SectorOf(n.cur))))
  }

  /** A DATA packet that starts the second page of a sector the memo does not name. */
  predicate Wipes(n: Node, p: Packet) {
    && p.Data? && Admits(n, p.offset, p.length, p.slot) && n.cur != NONE && n.cur % 0x2000 == 0
    && PageOf(p.offset) == n.cur + 4096 && n.flash.memo != SlotStart(n.target) + n.cur
  }

  predicate NeverWipes(n: Node, es: seq<Event>)
    requires |n.flash.bytes| == FLASH_END
  {
    es == []
    || (NeverWipes(n, es[..|es| - 1]) && !Wipes(Run(n, es[..|es| - 1]), es[|es| - 1].packet))
  }

  // ---------------------------------------------------------------- operations

  lemma OneMore(ops: seq<Op>, o: Op)
    ensures EraseFirst(ops + [o]) <==>
      EraseFirst(ops) && (o.Erased? ==> forall i :: 0 <= i < |ops| ==> ops[i].sector < o.sector)
  {
    var more := ops + [o];
    assert forall i :: 0 <= i < |ops| ==> more[i] == ops[i];
    assert more[|ops|] == o;
  }

  /** An erase keeps the order exactly if its sector is new, when no work lies beyond it. */
  lemma EraseKeepsOrder(ops: seq<Op>, sector: nat)
    requires Below(ops, sector)
    ensures EraseFirst(ops + [Erased(sector)]) <==> EraseFirst(ops) && !Touched(ops, sector)
  {
    OneMore(ops, Erased(sector));
  }

  lemma WritesKeepOrder(ops: seq<Op>, sector: nat)
    ensures EraseFirst(ops + [Wrote(sector), Wrote(sector)]) <==> EraseFirst(ops)
  {
    OneMore(ops, Wrote(sector));
    OneMore(ops + [Wrote(sector)], Wrote(sector));
    assert ops + [Wrote(sector)] + [Wrote(sector)] == ops + [Wrote(sector), Wrote(sector)];
  }

  lemma Extended(ops: seq<Op>, more: seq<Op>, sector: nat)
    requires Below(ops, sector) && forall i :: 0 <= i < |more| ==> more[i].sector == sector
    ensures Below(ops + more, sector)
    ensures more != [] ==> Touched(ops + more, sector)
    ensures forall s :: Touched(ops, s) ==> Touched(ops + more, s)
  {
    var all := ops + more;
    assert forall i :: 0 <= i < |ops| ==> all[i] == ops[i];
    if more != [] {
      assert all[|ops|] == more[0];
    }
  }

  lemma BelowMore(ops: seq<Op>, a: nat, b: nat)
    requires Below(ops, a) && a <= b
    ensures Below(ops, b)
    ensures a < b ==> !Touched(ops, b)
  {
  }

  // ---------------------------------------------------------------- one packet

  /** The operations of a DATA packet all go to the sector it lies in. */
  lemma OpsGoTo(n: Node, e: Event)
    requires e.packet.Data? && Aligned(e.packet)
    ensures var s, ops := SectorOf(e.packet.offset), OpsOf(n, e);
      && (forall i :: 0 <= i < |ops| ==> ops[i].sector == s)
      && ops == (if DataErases(n, e.packet) then [Erased(s)] else [])
                + (if DataPrograms(n, e.packet, e.hw) then [Wrote(s), Wrote(s)] else [])
  {
    hide DataErases, DataPrograms, HandleData;
    if DataPrograms(n, e.packet, e.hw) {
      ProgramsCurrent(n, e.packet, e.hw);
    }
  }

  /** Whether the operations of a packet keep the order rests on its erase alone. */
  lemma OrderOfOps(n: Node, e: Event, ops: seq<Op>)
    requires e.packet.Data? && Aligned(e.packet)
    requires DataErases(n, e.packet) ==> Below(ops, SectorOf(e.packet.offset))
    ensures EraseFirst(ops + OpsOf(n, e)) <==>
      EraseFirst(ops) && (DataErases(n, e.packet) ==> !Touched(ops, SectorOf(e.packet.offset)))
  {
    hide DataErases, DataPrograms, OpsOf, EraseFirst, Touched, Below, SectorOf;
    OpsGoTo(n, e);
    var s := SectorOf(e.packet.offset);
    var erases := if DataErases(n, e.packet) then [Erased(s)] else [];
    if DataErases(n, e.packet) {
      EraseKeepsOrder(ops, s);
    } else {
      assert ops + erases == ops;
    }
    if DataPrograms(n, e.packet, e.hw) {
      WritesKeepOrder(ops + erases, s);
      assert ops + OpsOf(n, e) == (ops + erases) + [Wrote(s), Wrote(s)];
    } else {
      assert ops + OpsOf(n, e) == ops + erases;
    }
  }

  /** A page within reach lies in the slot or right at its end. */
  lemma PageInReach(n: Node, p: Packet)
    requires SessionOk(n) && p.Data? && Admits(n, p.offset, p.length, p.slot)
    ensures n.target <= SLOT_B && PageOf(p.offset) <= SlotSize(n.target) && PageOf(p.offset) != NONE
    ensures DataErases(n, p) ==>
      p.offset < SlotSize(n.target) && SlotStart(n.target) + SectorOf(p.offset) != n.flash.memo
    ensures DataPrograms(n, p, Hardware(true, [], true, [])) ==> p.offset < SlotSize(n.target)
  {
    hide SelectPage;
  }

  /** An admitted packet that advances the cursor and erases nothing goes to a sector worked on before, or to none. */
  lemma NoEraseNeeded(n: Node, p: Packet, ops: seq<Op>)
    requires Reached(n, ops) && p.Data? && Admits(n, p.offset, p.length, p.slot) && Advances(n, PageOf(p.offset))
    requires !DataErases(n, p) && PageOf(p.offset) < SlotSize(n.target)
    ensures Touched(ops, SectorOf(p.offset))
  {
    hide Touched, Below, PageOf, SectorOf, Admits;
    SectorOfPage(p.offset);
    SectorFits(n.target, PageOf(p.offset));
    SectorAt(p.offset);
    if n.cur == NONE && PageOf(p.offset) == 0 {
      SectorWithin(0, 0);
    }
  }

  /** Every packet keeps the facts about the state. */
  lemma ReachedStep(n: Node, e: Event, ops: seq<Op>)
    requires Reached(n, ops) && Aligned(e.packet)
    ensures Reached(Step(n, e), ops + OpsOf(n, e))
  {
    if e.packet.PageEnd? {
      hide PageMatches;
      assert ops + OpsOf(n, e) == ops;
    } else {
      ReachedData(n, e, ops);
    }
  }

  lemma ReachedData(n: Node, e: Event, ops: seq<Op>)
    requires Reached(n, ops) && e.packet.Data? && Aligned(e.packet)
    ensures Reached(Step(n, e), ops + OpsOf(n, e))
  {
    hide HandleData, OpsOf, Touched, Below, PageOf, SectorOf, Admits, Advances, DataErases, DataPrograms;
    var p, s := e.packet, SectorOf(e.packet.offset);
    DataCursor(n, p, e.hw);
    DataKeepsSession(n, p.offset, p.length, p.slot, p.data, e.hw);
    OpsGoTo(n, e);
    if Admits(n, p.offset, p.length, p.slot) && Advances(n, PageOf(p.offset)) {
      CursorAdvances(n, e, ops);
    } else {
      CursorStands(n, e, ops);
    }
  }

  lemma CursorStands(n: Node, e: Event, ops: seq<Op>)
    requires Reached(n, ops) && e.packet.Data? && Aligned(e.packet)
    requires !(Admits(n, e.packet.offset, e.packet.length, e.packet.slot) && Advances(n, PageOf(e.packet.offset)))
    ensures Reached(Step(n, e), ops + OpsOf(n, e)) && !DataErases(n, e.packet)
  {
    hide HandleData, OpsOf, Touched, Below, PageOf, SectorOf, DataPrograms;
    var p := e.packet;
    DataCursor(n, p, e.hw);
    DataKeepsSession(n, p.offset, p.length, p.slot, p.data, e.hw);
    OpsGoTo(n, e);
    if DataPrograms(n, p, e.hw) {
      ProgramsCurrent(n, p, e.hw);
      SectorOfPage(p.offset);
      Extended(ops, OpsOf(n, e), SectorOf(n.cur));
    } else {
      assert ops + OpsOf(n, e) == ops;
    }
  }

  lemma CursorAdvances(n: Node, e: Event, ops: seq<Op>)
    requires Reached(n, ops) && e.packet.Data? && Aligned(e.packet)
    requires Admits(n, e.packet.offset, e.packet.length, e.packet.slot) && Advances(n, PageOf(e.packet.offset))
    ensures Reached(Step(n, e), ops + OpsOf(n, e)) && Below(ops, SectorOf(e.packet.offset))
  {
    hide HandleData, OpsOf, Touched, Below, PageOf, SectorOf, DataErases, DataPrograms, Admits;
    var p, s := e.packet, SectorOf(e.packet.offset);
    DataCursor(n, p, e.hw);
    DataKeepsSession(n, p.offset, p.length, p.slot, p.data, e.hw);
    OpsGoTo(n, e);
    PageInReach(n, p);
    PageAt(p.offset);
    SectorOfPage(p.offset);
    if n.cur == NONE {
      BelowMore(ops, 0, s);
    } else {
      SectorOrder(n.cur, PageOf(p.offset));
      BelowMore(ops, SectorOf(n.cur), s);
    }
    Extended(ops, OpsOf(n, e), s);
    if PageOf(p.offset) < SlotSize(n.target) && !DataErases(n, p) {
      NoEraseNeeded(n, p, ops);
    }
  }

  /** A packet breaks the order exactly if it starts the second page of a sector the memo does not name. */
  lemma OrderStep(n: Node, e: Event, ops: seq<Op>)
    requires Reached(n, ops) && Aligned(e.packet)
    ensures EraseFirst(ops + OpsOf(n, e)) <==> EraseFirst(ops) && !Wipes(n, e.packet)
  {
    hide OpsOf, Touched, Below, PageOf, SectorOf, DataPrograms, EraseFirst;
    if e.packet.PageEnd? {
      NoOps(n, e);
      assert ops + OpsOf(n, e) == ops;
    } else {
      var p, s := e.packet, SectorOf(e.packet.offset);
      if Admits(n, p.offset, p.length, p.slot) && Advances(n, PageOf(p.offset)) {
        CursorAdvances(n, e, ops);
        OrderOfOps(n, e, ops);
        WipesTouched(n, p, ops);
      } else {
        OrderOfOps(n, e, ops);
      }
    }
  }

  lemma NoOps(n: Node, e: Event)
    requires !e.packet.Data?
    ensures OpsOf(n, e) == []
  {
  }

  lemma WipesTouched(n: Node, p: Packet, ops: seq<Op>)
    requires Reached(n, ops) && p.Data? && Admits(n, p.offset, p.length, p.slot) && Advances(n, PageOf(p.offset))
    ensures Wipes(n, p) <==> DataErases(n, p) && Touched(ops, SectorOf(p.offset))
  {
    hide Touched, Below, PageOf, SectorOf, DataErases, DataPrograms, Admits;
    PageInReach(n, p);
    SectorOfPage(p.offset);
    if n.cur == NONE {
      BelowMore(ops, 0, SectorOf(p.offset));
      if DataErases(n, p) {
        MemoAtStart(n, p);
      }
    } else if n.cur < SlotSize(n.target) {
      ErasesCurrentSectorIff(n, p);
      SectorOrder(n.cur, PageOf(p.offset));
      BelowMore(ops, SectorOf(n.cur), SectorOf(p.offset));
    }
  }

  lemma MemoAtStart(n: Node, p: Packet)
    requires n.flash.memo == SlotStart(n.target) && DataErases(n, p)
    ensures SectorOf(p.offset) > 0
  {
  }

  // ---------------------------------------------------------------- runs

  lemma {:induction false} OrderOverRun(n: Node, es: seq<Event>)
    requires Fresh(n) && forall e :: e in es ==> Aligned(e.packet)
    ensures Reached(Run(n, es), Trace(n, es))
    ensures EraseFirst(Trace(n, es)) <==> NeverWipes(n, es)
  {
    hide Step, OpsOf, Wipes, Reached, EraseFirst;
    if es == [] {
      FreshReached(n);
    } else {
      var init, e := es[..|es| - 1], es[|es| - 1];
      assert e in es;
      OrderOverRun(n, init);
      ReachedStep(Run(n, init), e, Trace(n, init));
      OrderStep(Run(n, init), e, Trace(n, init));
    }
  }

  lemma FreshReached(n: Node)
    requires Fresh(n)
    ensures Reached(n, [Erased(0)]) && EraseFirst([Erased(0)])
  {
    assert [Erased(0)][0].sector == 0;
  }

  /** From START to the first VERIFY, for DATA and PAGE_END in the coordinator's alignment and any behaviour of the
      hardware: no sector is erased after work on it, nor twice, if and only if no admitted DATA starts the second
      page of a sector at a moment when the memo does not name that sector. */
  lemma EraseDisciplineIff(n: Node, es: seq<Event>)
    requires Fresh(n) && forall e :: e in es ==> Aligned(e.packet)
    ensures EraseFirst(Trace(n, es)) <==> NeverWipes(n, es)
  {
    hide Trace, EraseFirst, NeverWipes;
    OrderOverRun(n, es);
  }

  // ---------------------------------------------------------------- successful erases

  /** Every erase that is attempted succeeds. */
  predicate ErasesSucceed(n: Node, es: seq<Event>)
    requires |n.flash.bytes| == FLASH_END
  {
    es == []
    || var init, e := es[..|es| - 1], es[|es| - 1];
       ErasesSucceed(n, init) && (DataErases(Run(n, init), e.packet) ==> e.hw.eraseOk)
  }

  /** The memo names the sector of the cursor. */
  predicate Named(n: Node) {
    && (n.cur == NONE ==> n.flash.memo == SlotStart(n.target))
    && (n.cur != NONE && n.cur < SlotSize(n.target) ==> n.flash.memo == SlotStart(n.target) + SectorOf(n.cur))
  }

  lemma NamedStep(n: Node, e: Event, ops: seq<Op>)
    requires Reached(n, ops) && Aligned(e.packet) && Named(n) && (DataErases(n, e.packet) ==> e.hw.eraseOk)
    ensures Named(Step(n, e)) && !Wipes(n, e.packet)
  {
    if e.packet.PageEnd? {
      hide PageMatches;
    } else {
      hide HandleData, Touched, Below, PageOf, SectorOf, Admits, DataErases;
      var p := e.packet;
      DataCursor(n, p, e.hw);
      DataKeepsSession(n, p.offset, p.length, p.slot, p.data, e.hw);
      SectorOfPage(p.offset);
      if Admits(n, p.offset, p.length, p.slot) && Advances(n, PageOf(p.offset)) {
        PageInReach(n, p);
        if !DataErases(n, p) && PageOf(p.offset) < SlotSize(n.target) {
          NamedAdvance(n, p);
        }
      }
      NamedNeverWipes(n, p);
    }
  }

  lemma NamedAdvance(n: Node, p: Packet)
    requires SessionOk(n) && n.active && n.page0Erased && Named(n)
    requires p.Data? && Admits(n, p.offset, p.length, p.slot) && Advances(n, PageOf(p.offset))
    requires !DataErases(n, p) && PageOf(p.offset) < SlotSize(n.target)
    ensures n.flash.memo == SlotStart(n.target) + SectorOf(p.offset)
  {
    hide PageOf, SectorOf, Admits;
    SectorOfPage(p.offset);
    SectorFits(n.target, PageOf(p.offset));
    SectorAt(p.offset);
    if n.cur == NONE && PageOf(p.offset) == 0 {
      SectorWithin(0, 0);
    }
  }

  lemma NamedNeverWipes(n: Node, p: Packet)
    requires SessionOk(n) && n.active && Named(n) && p.Data?
    ensures !Wipes(n, p)
  {
    hide PageOf, SectorOf, Admits;
    if Wipes(n, p) {
      PageInReach(n, p);
      assert n.cur == 0x2000 * (n.cur / 0x2000);
      SectorWithin(n.cur / 0x2000, 0);
    }
  }

  /** In particular, the discipline is kept by every run in which the erases that are attempted succeed. */
  lemma {:induction false} EraseDiscipline(n: Node, es: seq<Event>)
    requires Fresh(n) && (forall e :: e in es ==> Aligned(e.packet)) && ErasesSucceed(n, es)
    ensures NeverWipes(n, es) && EraseFirst(Trace(n, es)) && Named(Run(n, es))
  {
    hide Step, OpsOf, Wipes, Reached, EraseFirst, Named, DataErases, Trace;
    OrderOverRun(n, es);
    if es == [] {
      FreshNamed(n);
    } else {
      var init, e := es[..|es| - 1], es[|es| - 1];
      assert e in es;
      EraseDiscipline(n, init);
      OrderOverRun(n, init);
      NamedStep(Run(n, init), e, Trace(n, init));
    }
  }

  lemma FreshNamed(n: Node)
    requires Fresh(n)
    ensures Named(n)
  {
  }
}
