/**
 When a node opens a session, what reaches it without one, and when a session ends: stated over the fields of the
 packets.
 */
module NodeSession {
  import opened Wire
  import opened TargetFlash
  import opened Sensor
  import opened SensorRuns

  // ---------------------------------------------------------------- START

  /** The room of a slot in bytes. */
  function Room(target: U8): nat {
    if target == 0 then 0x2A000 else 0x28000
  }

  /** A START is accepted exactly if it names a slot other than the running one, its security version is unknown or
      newer than the running one, the file fits, and the erase of the first sector succeeds. */
  lemma StartAcceptedIff(n: Node, size: U32, secVer: U16, target: U8, hw: Hardware)
    requires |n.flash.bytes| == FLASH_END
    ensures var (m, status) := HandleStart(n, size, secVer, target, hw);
      && (status == 0 <==>
        target <= 1 && (secVer == 0 || secVer > n.runningSecVer) && 0 < size <= Room(target) && target != n.slot
        && hw.eraseOk)
      && (m.active <==> status == 0)
  {
    hide EraseBytes;
  }

  /** What a refusal answers: 1 for a version that is not newer, whatever else is wrong but the target; 3 for the
      running slot if nothing else is wrong; 2 for the rest. */
  lemma RefusalStatus(n: Node, size: U32, secVer: U16, target: U8, hw: Hardware)
    requires |n.flash.bytes| == FLASH_END
    ensures var status := HandleStart(n, size, secVer, target, hw).1;
      && (status == 1 <==> target <= 1 && 0 < secVer <= n.runningSecVer)
      && (status == 3 <==>
        target <= 1 && !(0 < secVer <= n.runningSecVer) && 0 < size <= Room(target) && target == n.slot)
      && (status == 2 <==>
        target > 1
        || (!(0 < secVer <= n.runningSecVer)
            && (size == 0 || size > Room(target) || (target != n.slot && !hw.eraseOk))))
  {
    hide EraseBytes;
  }

  /** A START touches the flash only when it gets as far as the erase, and then only the first sector of the target. */
  lemma StartErases(n: Node, size: U32, secVer: U16, target: U8, hw: Hardware)
    requires |n.flash.bytes| == FLASH_END
    ensures var m := HandleStart(n, size, secVer, target, hw).0;
      var reaches :=
        target <= 1 && (secVer == 0 || secVer > n.runningSecVer) && 0 < size <= Room(target) && target != n.slot;
      && |m.flash.bytes| == FLASH_END
      && (!reaches ==> m.flash.bytes == n.flash.bytes)
      && (reaches ==> var at := if target == 0 then 0 else 0x2E000;
        && (forall i :: 0 <= i < FLASH_END && !(at <= i < at + 0x2000) ==> m.flash.bytes[i] == n.flash.bytes[i])
        && (hw.eraseOk ==> forall i :: at <= i < at + 0x2000 ==> m.flash.bytes[i] == 0xFF))
  {
  }

  // ---------------------------------------------------------------- packets without a session

  /** A packet for a session the node does not have. */
  predicate Foreign(n: Node, p: Packet) {
    && !p.Start?
    && (!n.active || match p
        case Data(_, _, slot, _) => slot != n.target
        case PageEnd(_, _, slot) => slot != n.target
        case Verify(_, slot) => slot != n.target
        case Start(_, _, _) => false)
  }

  /** It changes nothing and is answered by nothing. */
  lemma ForeignIgnored(n: Node, e: Event)
    requires |n.flash.bytes| == FLASH_END && Foreign(n, e.packet)
    ensures Step(n, e) == n
    ensures e.packet.PageEnd? ==> HandlePageEnd(n, e.packet.offset, e.packet.crc, e.packet.slot).1 == None
    ensures e.packet.Verify? ==> HandleVerify(n, e.packet.crc, e.packet.slot, e.metadata) == (n, None, Ignored)
  {
    hide PageMatches, SelectPage, StoreChunk;
  }

  /** A START that is refused before the erase. */
  predicate Stale(n: Node, p: Packet) {
    p.Start? && 0 < p.secVer <= n.runningSecVer
  }

  lemma StaleStart(n: Node, e: Event)
    requires |n.flash.bytes| == FLASH_END && Stale(n, e.packet)
    ensures var m := Step(n, e);
      m.flash.bytes == n.flash.bytes && !m.active && m.runningSecVer == n.runningSecVer
  {
    hide EraseBytes;
  }

  /** A node without a session keeps its flash whatever arrives, as long as no START carries a newer or unknown security
      version. */
  lemma {:induction false} OldVersionsChangeNothing(n: Node, es: seq<Event>)
    requires |n.flash.bytes| == FLASH_END && !n.active
    requires forall e :: e in es && e.packet.Start? ==> 0 < e.packet.secVer <= n.runningSecVer
    ensures var m := Run(n, es);
      m.flash.bytes == n.flash.bytes && !m.active && m.runningSecVer == n.runningSecVer
  {
    hide Step;
    if es == [] {
    } else {
      var init, e := es[..|es| - 1], es[|es| - 1];
      assert e in es;
      OldVersionsChangeNothing(n, init);
      if e.packet.Start? {
        StaleStart(Run(n, init), e);
      } else {
        ForeignIgnored(Run(n, init), e);
      }
    }
  }

  /** The last START among the packets. */
  function LastStart(es: seq<Event>): Option<Packet> {
    if es == [] then None
    else if es[|es| - 1].packet.Start? then Some(es[|es| - 1].packet)
    else LastStart(es[..|es| - 1])
  }

  /** The session runs on the terms of a START that the node had to accept. */
  predicate OnTermsOf(n: Node, p: Packet) {
    && p.Start? && n.fileSize == p.fileSize && n.target == p.slot && n.imageSecVer == p.secVer && n.page0Erased
    && p.slot <= 1 && p.slot != n.slot && (p.secVer == 0 || p.secVer > n.runningSecVer)
    && 0 < p.fileSize <= Room(p.slot)
  }

  lemma StartTerms(n: Node, e: Event)
    requires |n.flash.bytes| == FLASH_END && e.packet.Start? && Step(n, e).active
    ensures OnTermsOf(Step(n, e), e.packet)
  {
    hide EraseBytes;
    StartAcceptedIff(n, e.packet.fileSize, e.packet.secVer, e.packet.slot, e.hw);
  }

  lemma StillActive(n: Node, e: Event)
    requires |n.flash.bytes| == FLASH_END && !e.packet.Start? && Step(n, e).active
    ensures n.active
  {
    hide EraseBytes, ProgramBytes, PageMatches;
  }

  lemma TermsKept(n: Node, e: Event, p: Packet)
    requires |n.flash.bytes| == FLASH_END && !e.packet.Start? && Step(n, e).active
    ensures OnTermsOf(n, p) ==> OnTermsOf(Step(n, e), p)
  {
    hide EraseBytes, ProgramBytes, PageMatches;
  }

  /** Over any run, a session is the one of the last START, which passed every check: no other packet opens, reopens or
      changes one. */
  lemma {:induction false} SessionOfLastStart(n: Node, es: seq<Event>)
    requires |n.flash.bytes| == FLASH_END && !n.active
    ensures Run(n, es).active ==> LastStart(es).Some? && OnTermsOf(Run(n, es), LastStart(es).value)
  {
    hide Step, OnTermsOf;
    if es == [] {
    } else {
      var init, e := es[..|es| - 1], es[|es| - 1];
      SessionOfLastStart(n, init);
      if Run(n, es).active {
        if e.packet.Start? {
          StartTerms(Run(n, init), e);
        } else {
          StillActive(Run(n, init), e);
          TermsKept(Run(n, init), e, LastStart(init).value);
        }
      }
    }
  }

  // ---------------------------------------------------------------- VERIFY

  /** A VERIFY of the session reports the current page and forgets the cursor. It ends the session and rewrites the
      metadata exactly if its checksum is the running one; otherwise nothing else changes. */
  lemma VerifyOutcome(n: Node, crc: bv16, metadata: seq<bv8>)
    requires n.active && |n.flash.bytes| == FLASH_END
    ensures var (m, report, verdict) := HandleVerify(n, crc, n.target, metadata);
      && m.cur == NONE && m.runCrc == n.runCrc && m.lastCommitted == n.lastCommitted && m.chunks == n.chunks
      && (report.None? <==> n.cur == NONE)
      && (report.Some? ==> report.value.page == n.cur && report.value.chunks == n.chunks)
      && verdict != Ignored && (verdict == Matched <==> crc == n.runCrc) && (m.active <==> crc != n.runCrc)
      && (crc != n.runCrc ==> m.flash == n.flash)
      && (crc == n.runCrc ==> forall i :: 0 <= i < FLASH_END && !(0x2A000 <= i < 0x2C000) ==>
        m.flash.bytes[i] == n.flash.bytes[i])
  {
  }

  lemma {:induction false} InactiveIgnoresAll(m: Node, es: seq<Event>)
    requires |m.flash.bytes| == FLASH_END && !m.active && forall e :: e in es ==> !e.packet.Start?
    ensures Run(m, es) == m
  {
    hide Step;
    if es == [] {
    } else {
      assert es[|es| - 1] in es;
      InactiveIgnoresAll(m, es[..|es| - 1]);
      ForeignIgnored(m, es[|es| - 1]);
    }
  }

  /** A matching VERIFY stages once: whatever arrives after it, repeated VERIFY packets included, the node stays as it
      is until the next START. */
  lemma MatchEndsSession(n: Node, crc: bv16, metadata: seq<bv8>, es: seq<Event>)
    requires |n.flash.bytes| == FLASH_END && HandleVerify(n, crc, n.target, metadata).2 == Matched
    requires forall e :: e in es ==> !e.packet.Start?
    ensures var m := HandleVerify(n, crc, n.target, metadata).0;
      && Run(m, es) == m
      && forall again: bv16, slot: U8, other: seq<bv8> :: HandleVerify(m, again, slot, other) == (m, None, Ignored)
  {
    hide Run;
    InactiveIgnoresAll(HandleVerify(n, crc, n.target, metadata).0, es);
  }

  // ---------------------------------------------------------------- DATA

  /** Exactly when a DATA packet of any shape sets a bit: it is for the session and the current page, carries 1 to 64
      bytes at a multiple of 4 inside the slot, and their programming succeeds. */
  lemma BitSetIff(n: Node, p: Packet, hw: Hardware)
    requires n.active && p.Data? && p.slot == n.target && n.cur != NONE && n.target <= 1
    requires n.cur <= p.offset < n.cur + 4096 && n.cur % 4096 == 0 && p.offset % 4096 / 64 !in n.chunks
    ensures var m := HandleData(n, p.offset, p.length, p.slot, p.data, hw);
      && m.cur == n.cur
      && m.chunks == n.chunks
         + if 0 < p.length <= 64 && p.offset % 4 == 0 && p.offset + p.length <= Room(n.target) && hw.programOk
           then {p.offset % 4096 / 64} else {}
  {
    hide ProgramBytes;
    var q, t := n.cur / 4096, p.offset - n.cur;
    assert n.cur == 4096 * q && p.offset == 4096 * q + t;
    PageWithin(q, t);
  }

  /** DATA of the current page whose chunk is held changes nothing. */
  lemma HeldChunkIgnored(n: Node, p: Packet, hw: Hardware)
    requires p.Data? && n.cur != NONE && n.cur <= p.offset < n.cur + 4096 && n.cur % 4096 == 0
    requires p.offset % 4096 / 64 in n.chunks
    ensures HandleData(n, p.offset, p.length, p.slot, p.data, hw) == n
  {
    var q, t := n.cur / 4096, p.offset - n.cur;
    assert n.cur == 4096 * q && p.offset == 4096 * q + t;
    PageWithin(q, t);
  }
}
