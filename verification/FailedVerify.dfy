/**
 What a failed VERIFY leaves behind: the session and its checksum go on, but the page cursor starts again.
 */
module FailedVerify {
  import opened Wire
  import opened TargetFlash
  import opened Checksum16
  import opened Sensor
  import opened SensorRuns

  /** The checksum state after the commits `more` that followed a failed VERIFY, which itself followed `cs`. */
  ghost predicate Continued(n: Node, cs: seq<Commit>, more: seq<Commit>) {
    && Increasing(more) && n.runCrc == Crc16(0, Joined(cs + more))
    && n.lastCommitted == (if cs + more == [] then NONE else (cs + more)[|cs + more| - 1].page)
    && (more != [] ==> n.cur != NONE && n.lastCommitted <= n.cur)
  }

  lemma ContinuedStep(n: Node, e: Event, cs: seq<Commit>, more: seq<Commit>)
    requires |n.flash.bytes| == FLASH_END && Continued(n, cs, more) && (e.packet.Data? || e.packet.PageEnd?)
    ensures Continued(Step(n, e), cs, more + CommitOf(n, e.packet))
  {
    hide HandleData, Crc16, PageMatches;
    match e.packet
    case Data(offset, length, target, data) =>
      DataKeepsCrc(n, offset, length, target, data, e.hw);
      assert more + [] == more;
    case PageEnd(page, crc, target) =>
      var added := CommitOf(n, e.packet);
      assert cs + (more + added) == (cs + more) + added;
      if added == [] {
        assert more + added == more;
      } else {
        NoPageAtNone(n, crc);
        Crc16Concat(0, Joined(cs + more), added[0].bytes);
        assert ((cs + more) + added)[..|cs + more|] == cs + more;
      }
  }

  lemma {:induction false} ContinuedRun(v: Node, es: seq<Event>, cs: seq<Commit>)
    requires |v.flash.bytes| == FLASH_END && Continued(v, cs, [])
    requires forall e :: e in es ==> e.packet.Data? || e.packet.PageEnd?
    ensures Continued(Run(v, es), cs, Commits(v, es))
  {
    hide Step, CommitOf, Continued;
    if es == [] {
    } else {
      var init := es[..|es| - 1];
      ContinuedRun(v, init, cs);
      ContinuedStep(Run(v, init), es[|es| - 1], cs, Commits(v, init));
    }
  }

  /** Two increasing histories make one exactly if the second begins above the end of the first. */
  lemma IncreasingConcat(cs: seq<Commit>, more: seq<Commit>)
    requires Increasing(cs) && Increasing(more)
    ensures Increasing(cs + more) <==> more == [] || cs == [] || more[0].page > cs[|cs| - 1].page
  {
    var all := cs + more;
    if more != [] && cs != [] {
      assert all[|cs|] == more[0] && all[|cs| - 1] == cs[|cs| - 1];
    }
  }

  /** A VERIFY that does not match, after the commits `cs`, and any DATA and PAGE_END packets after it: the running
      checksum goes on to be that of all commits, but the pages are counted once each and in increasing order exactly if
      the first commit after the VERIFY lies above the last one before it. */
  lemma OrderAfterFailedVerifyIff(n: Node, crc: bv16, cs: seq<Commit>, es: seq<Event>)
    requires |n.flash.bytes| == FLASH_END && n.active && CommitInv(n, cs) && n.runCrc != crc
    requires forall e :: e in es ==> e.packet.Data? || e.packet.PageEnd?
    ensures var v := HandleVerify(n, crc, n.target, []);
      var more := Commits(v.0, es);
      && v.2 == Mismatched && Run(v.0, es).runCrc == Crc16(0, Joined(cs + more))
      && (Increasing(cs + more) <==> more == [] || cs == [] || more[0].page > cs[|cs| - 1].page)
  {
    hide Crc16, Run, Commits;
    var v := HandleVerify(n, crc, n.target, []).0;
    assert cs + [] == cs;
    ContinuedRun(v, es, cs);
    IncreasingConcat(cs, Commits(v, es));
  }

  // ---------------------------------------------------------------- a page counted twice

  function DataAt(page: U32, target: U8, hw: Hardware): Event {
    Event(Packet.Data(page, 64, target, seq(64, _ => 0)), hw, [])
  }

  /** The PAGE_END that matches what the flash holds in the current page. */
  function EndOf(n: Node): Event
    requires |n.flash.bytes| == FLASH_END
  {
    Event(Packet.PageEnd(n.cur, if PageBytes(n).Some? then Crc16(0, PageBytes(n).value) else 0, n.target),
          Hardware(true, [], true, []), [])
  }

  /** The parts of the state that decide about commits. */
  predicate Ready(n: Node, page: U32) {
    && SessionOk(n) && n.active && page % 4096 == 0 && page < n.fileSize && Advances(n, page) && n.lastCommitted != page
  }

  lemma DataSelects(n: Node, page: U32, hw: Hardware)
    requires Ready(n, page)
    ensures var m := Step(n, DataAt(page, n.target, hw));
      m == n.(cur := page, flash := m.flash, chunks := m.chunks, page0Erased := m.page0Erased)
      && CommitOf(n, DataAt(page, n.target, hw).packet) == []
  {
    hide EraseTarget, WriteTarget;
    PageAt(page);
    RoomInPage(n, page);
  }

  lemma RoomInPage(n: Node, page: U32)
    requires Ready(n, page)
    ensures BoundsOk(n.target, page, 64)
  {
    assert SlotSize(n.target) % 4096 == 0;
  }

  lemma EndCommits(n: Node)
    requires SessionOk(n) && n.active && n.cur < n.fileSize && n.lastCommitted != n.cur
    ensures var m := Step(n, EndOf(n));
      && m == n.(runCrc := m.runCrc, lastCommitted := n.cur)
      && CommitOf(n, EndOf(n).packet) == [Commit(n.cur, PageBytes(n).value)]
  {
    hide Crc16;
  }

  lemma {:induction false} RunConcat(n: Node, s: seq<Event>, t: seq<Event>)
    requires |n.flash.bytes| == FLASH_END
    ensures Run(n, s + t) == Run(Run(n, s), t) && Commits(n, s + t) == Commits(n, s) + Commits(Run(n, s), t)
  {
    hide Step, CommitOf;
    if t == [] {
      assert s + t == s;
    } else {
      assert (s + t)[..|s + t| - 1] == s + t[..|t| - 1];
      RunConcat(n, s, t[..|t| - 1]);
    }
  }

  lemma RunOne(n: Node, e: Event)
    requires |n.flash.bytes| == FLASH_END
    ensures Run(n, [e]) == Step(n, e) && Commits(n, [e]) == CommitOf(n, e.packet)
  {
    hide Step, CommitOf;
    assert [e][..0] == [];
  }

  /** A page sent and ended with the checksum of what flash then holds is committed. */
  lemma PageCommitted(n: Node, page: U32, hw: Hardware) returns (es: seq<Event>)
    requires Ready(n, page)
    ensures var m := Run(n, es);
      m == n.(cur := page, flash := m.flash, chunks := m.chunks, page0Erased := m.page0Erased,
              runCrc := m.runCrc, lastCommitted := page)
    ensures |Commits(n, es)| == 1 && Commits(n, es)[0].page == page
    ensures |es| == 2 && es[0] == DataAt(page, n.target, hw) && es[1].packet.PageEnd?
  {
    hide Step, Run, Commits, CommitOf;
    var d := DataAt(page, n.target, hw);
    DataSelects(n, page, hw);
    var m := Step(n, d);
    EndCommits(m);
    es := [d] + [EndOf(m)];
    RunOne(n, d);
    RunOne(m, EndOf(m));
    RunConcat(n, [d], [EndOf(m)]);
  }

  lemma VerifyRestarts(n: Node, crc: bv16)
    requires |n.flash.bytes| == FLASH_END && n.active && n.runCrc != crc
    ensures var e := Event(Packet.Verify(crc, n.target), Hardware(true, [], true, []), []);
      Step(n, e) == n.(cur := NONE) && CommitOf(n, e.packet) == []
  {
  }

  /** A run from START in which page 0 is counted twice: pages 0 and 4096, a VERIFY that does not match, page 0 again.
      */
  lemma PageCountedTwice(n: Node, hw: Hardware) returns (es: seq<Event>)
    requires Fresh(n) && n.fileSize > 4096
    ensures var cs := Commits(n, es);
      |cs| == 3 && cs[0].page == 0 && cs[1].page == 4096 && cs[2].page == 0 && !Increasing(cs)
    ensures |es| == 7 && es[4].packet.Verify?
    ensures forall i :: 0 <= i < 7 && i != 4 ==> es[i].packet.Data? || es[i].packet.PageEnd?
  {
    hide Step, Run, Commits, CommitOf;
    var s := PageCommitted(n, 0, hw);
    var a := Run(n, s);
    var t := PageCommitted(a, 4096, hw);
    var b := Run(a, t);
    var crc := if b.runCrc == 0 then 1 else 0;
    var v := Event(Packet.Verify(crc, b.target), Hardware(true, [], true, []), []);
    VerifyRestarts(b, crc);
    var c := Step(b, v);
    var u := PageCommitted(c, 0, hw);
    RunOne(b, v);
    RunConcat(b, [v], u);
    RunConcat(a, t, [v] + u);
    RunConcat(n, s, t + ([v] + u));
    es := s + (t + ([v] + u));
  }
}
