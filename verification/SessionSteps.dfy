/**
 Every step of the coordinator keeps the session invariant; hence it holds in every reachable world.
 */
module SessionSteps {
  import opened Wire
  import opened Checksum16
  import opened SensorRuns
  import opened PageTruth
  import opened PageDone
  import opened Monotone
  import opened Coordinator
  import opened EndToEnd
  import opened SessionInvariant

  // ---------------------------------------------------------------- packets the coordinator sends

  /** For a file that fits a slot nothing wraps. */
  lemma ChunkPacketPlain(c: Coord, i: nat)
    requires WellFormed(c) && c.fileSize <= 0x2A000 && i < (c.expected + 63) / 64
    ensures var p := ChunkPacket(c, i);
      && p.Data? && p.offset == c.pageStart + 64 * i && p.length == MinLen(64, c.expected - 64 * i)
      && p.slot == c.target
      && 64 * i + p.length <= c.expected && p.data == c.buffer[64 * i..64 * i + p.length]
  {
  }

  /** A piece of a page, seen in the distributed bytes and in the page buffer. */
  lemma PieceOfPage(sent: seq<bv8>, at: nat, buffer: seq<bv8>, expected: nat, a: nat, b: nat)
    requires expected <= |buffer| && |sent| == at + expected && sent[at..] == buffer[..expected] && a <= b <= expected
    ensures sent[at + a..at + b] == buffer[a..b]
  {
    assert sent[at..][a..b] == sent[at + a..at + b];
    assert buffer[..expected][a..b] == buffer[a..b];
  }

  /** The DATA packets of a page in distribution carry chunks of the distributed bytes. */
  lemma ChunkPacketShaped(w: World, s: Session, i: nat)
    requires TransferInv(w, s) && !w.c.pc.Idle? && i < w.c.total
    ensures ShapedData(ChunkPacket(w.c, i), s.size, s.target, w.sent)
    ensures ChunkPacket(w.c, i).offset == w.c.pageStart + 64 * i
  {
    hide ExitsTrue, InSession, Crc16, FullBitmap, DoneAt, ChunkPacket;
    var p := ChunkPacket(w.c, i);
    ChunkPacketPlain(w.c, i);
    PageGeometry(s.size, |w.exits|);
    ChunkGeometry(s.size, w.c.pageStart, i);
    PieceOfPage(w.sent, w.c.pageStart, w.c.buffer, w.c.expected, 64 * i, 64 * i + p.length);
  }

  lemma PageGeometry(size: nat, k: nat)
    ensures PageStart(size, k) == size || PageStart(size, k) % 4096 == 0
    ensures PageStart(size, k) < size ==> PageStart(size, k) == 4096 * k
    ensures PageStart(size, k + 1) == PageStart(size, k) + PageLen(size, PageStart(size, k))
  {
  }

  lemma ChunkGeometry(size: nat, p: nat, i: nat)
    requires p < size && p % 4096 == 0 && i < (PageLen(size, p) + 63) / 64
    ensures PageOf(p + 64 * i) == p && (p + 64 * i) % 64 == 0 && p + 64 * i < size && 64 * i < PageLen(size, p)
    ensures ChunkLen(size, p + 64 * i) == MinLen(64, p + PageLen(size, p) - (p + 64 * i))
  {
    hide PageOf;
    ChunkStarts(PageLen(size, p), i);
    PageChunk(p / 4096, i);
    assert p == 4096 * (p / 4096);
  }

  lemma ChunkStarts(len: nat, i: nat)
    requires i < (len + 63) / 64
    ensures 64 * i < len
  {
  }

  lemma PageChunk(q: nat, i: nat)
    requires 64 * i < 4096
    ensures PageOf(4096 * q + 64 * i) == 4096 * q && (4096 * q + 64 * i) % 64 == 0
  {
    hide PageOf;
    PageWithin(q, 64 * i);
    assert 4096 * q + 64 * i == 64 * (64 * q + i);
  }

  lemma EndPacketShaped(w: World, s: Session)
    requires TransferInv(w, s) && !w.c.pc.Idle? && !w.c.pc.FirstPass?
    ensures ShapedEnd(w.c.endPkt, s.size, s.target, w.sent)
  {
    hide ExitsTrue, InSession, Crc16, FullBitmap, DoneAt;
    PageGeometry(s.size, |w.exits|);
    assert w.sent[w.c.pageStart..] == w.sent[w.c.pageStart..w.c.pageStart + w.c.expected];
  }

  // ---------------------------------------------------------------- the network part

  /** Where the `k`-th survivor of a compaction comes from; rows of both arrays come from the same place. */
  lemma {:induction false} KeepIndex<S, T>(xs: seq<S>, ys: seq<T>, flags: seq<bool>, k: nat) returns (i: nat)
    requires |xs| == |ys| <= |flags| && k < |Keep(xs, flags)|
    ensures i < |xs| && flags[i] && Keep(xs, flags)[k] == xs[i]
    ensures |Keep(ys, flags)| == |Keep(xs, flags)| && Keep(ys, flags)[k] == ys[i]
  {
    var n := |xs| - 1;
    KeepSameLength(xs, ys, flags);
    if k < |Keep(xs[..n], flags)| {
      i := KeepIndex(xs[..n], ys[..n], flags, k);
    } else {
      KeepSameLength(xs[..n], ys[..n], flags);
      i := n;
    }
  }

  lemma {:induction false} KeepSameLength<S, T>(xs: seq<S>, ys: seq<T>, flags: seq<bool>)
    requires |xs| == |ys| <= |flags|
    ensures |Keep(xs, flags)| == |Keep(ys, flags)|
  {
    if xs == [] {
    } else {
      KeepSameLength(xs[..|xs| - 1], ys[..|ys| - 1], flags);
    }
  }

  /** The packets, reports and nodes of the network part, after a coordinator step. */
  lemma NetAfterLocal(w: World, s: Session, v: World)
    requires NetInv(w, s) && WellFormed(v.c)
    requires v.peers == w.peers && v.reports == w.reports && v.startReports == w.startReports
    requires Extends(w.sent, v.sent, s.size)
    requires forall p :: p in v.packets ==> p in w.packets || PacketOk(p, s, v.sent)
    requires forall id :: id in v.c.nodes && id in w.c.nodes ==> InSession(w, id) || w.reports == {}
    requires forall id :: id in v.c.nodes ==> id in w.c.nodes
    ensures NetInv(v, s)
  {
    hide PeerInv, Done, Shaped, Extends, WellFormed;
    ExtendsLen(w.sent, v.sent, s.size);
    forall id | InSession(v, id)
      ensures PeerOk(v, s, id)
    {
      assert InSession(w, id) && PeerOk(w, s, id);
      PeerStays(w.peers[id].node, w.peers[id].commits, s.size, s.target, w.sent, v.sent);
    }
    forall p | p in v.packets
      ensures PacketOk(p, s, v.sent)
    {
      if p in w.packets {
        assert PacketOk(p, s, w.sent);
        if p.Start? {
          NotShaped(p, s, w.sent);
        } else {
          ShapedStays(p, s.size, s.target, w.sent, v.sent);
        }
      }
    }
    forall id, r | (id, r) in v.reports && id in v.c.nodes
      ensures ReportOk(v, s, id, r)
    {
      assert ReportOk(w, s, id, r) && InSession(w, id);
      if FullBitmap(r.chunks, s.size, r.page) {
        DoneAtStays(w, s, v, id, r.page);
      }
    }
  }

  lemma DoneAtStays(w: World, s: Session, v: World, id: NodeId, q: nat)
    requires NetInv(w, s) && InSession(w, id) && DoneAt(w, id, q)
    requires v.peers == w.peers && Extends(w.sent, v.sent, s.size)
    ensures DoneAt(v, id, q)
  {
    hide Done, CommitInv, CommitsShaped;
    assert PeerOk(w, s, id);
    DoneStays(w.peers[id].node, w.peers[id].commits, q, w.sent, v.sent);
  }

  // ---------------------------------------------------------------- leaving and re-entering the page loop

  /** The world after a coordinator step that distributes no new page. */
  function With(w: World, out: Out): World {
    w.(c := out.c, packets := w.packets + (set p | p in out.packets),
       exits := w.exits + match out.exit case None => [] case Some(e) => [e])
  }

  /** The page bitmaps of all active nodes are full exactly when the coordinator finds the page complete. */
  lemma CompleteMeansFull(w: World, s: Session)
    requires TransferInv(w, s) && !w.c.pc.Idle?
    ensures PageIsComplete(w.c) <==>
      forall i :: 0 <= i < |w.c.nodes| ==> FullBitmap(w.c.bitmaps[i], s.size, w.c.pageStart)
  {
    hide ExitsTrue, InSession, Crc16, DoneAt;
    assert forall c: nat :: c < w.c.total <==> c < 64 && 64 * c < PageLen(s.size, w.c.pageStart);
    if forall i :: 0 <= i < |w.c.nodes| ==> FullBitmap(w.c.bitmaps[i], s.size, w.c.pageStart) {
      forall k, i | 0 <= k < |w.c.nodes| && 0 <= i < w.c.total
        ensures i in w.c.bitmaps[k]
      {
        assert FullBitmap(w.c.bitmaps[k], s.size, w.c.pageStart);
      }
    }
  }

  lemma LeaveKeeps(w: World, s: Session, why: Exit)
    requires TransferInv(w, s) && !w.c.pc.Idle? && (why == Complete ==> PageIsComplete(w.c))
    ensures TransferInv(With(w, Leave(w.c, why)), s)
  {
    hide InSession, Crc16, DoneAt, FullBitmap;
    CompleteMeansFull(w, s);
    PageGeometry(s.size, |w.exits|);
    var v := With(w, Leave(w.c, why));
    SameDone(w, v);
    forall k | 0 <= k < |v.exits|
      ensures 4096 * k < s.size
      ensures v.exits[k] == Complete ==> forall id :: id in v.c.nodes ==> DoneAt(v, id, 4096 * k)
    {
      if k < |w.exits| {
        assert v.exits[k] == w.exits[k];
      } else {
        assert v.exits[k] == why;
      }
    }
  }

  /** Doneness depends on the nodes and the distributed bytes only. */
  lemma SameDone(w: World, v: World)
    requires v.peers == w.peers && v.sent == w.sent
    ensures forall id, q: nat :: DoneAt(w, id, q) <==> DoneAt(v, id, q)
    ensures forall id :: InSession(w, id) <==> InSession(v, id)
  {
  }

  /** A step that only moves the process along within the page. */
  lemma MovesKeep(w: World, s: Session, d: Coord, packets: set<Packet>)
    requires TransferInv(w, s) && !w.c.pc.Idle? && !d.pc.Idle?
    requires d == w.c.(pc := d.pc, retry := d.retry, round := d.round, replied := d.replied, endPkt := d.endPkt)
    requires |d.replied| == MAX_NODES
    requires !d.pc.FirstPass? ==> d.endPkt == Packet.PageEnd(w.c.pageStart, w.c.pageCrc, w.c.target)
    ensures TransferInv(w.(c := d, packets := packets), s)
  {
    hide InSession, Crc16, DoneAt, FullBitmap;
    SameDone(w, w.(c := d, packets := packets));
  }

  lemma TopKeeps(w: World, s: Session)
    requires TransferInv(w, s) && !w.c.pc.Idle? && w.c.nodes != []
    ensures Top(w.c).packets == [] && TransferInv(With(w, Top(w.c)), s) && Top(w.c).c.nodes == w.c.nodes
    ensures Top(w.c).c.admitting == w.c.admitting
  {
    hide TransferInv, PageIsComplete;
    TransferFields(w, s);
    var v := With(w, Top(w.c));
    if PageIsComplete(w.c) {
      LeaveKeeps(w, s, Complete);
    } else if w.c.round >= MAX_ROUNDS {
      LeaveKeeps(w, s, RoundLimit);
    } else {
      MovesKeep(w, s, v.c, v.packets);
      assert v == w.(c := v.c, packets := v.packets);
    }
  }

  lemma TransferFields(w: World, s: Session)
    requires TransferInv(w, s)
    ensures WellFormed(w.c) && (!w.c.pc.Idle? && !w.c.pc.FirstPass? ==>
      w.c.endPkt == Packet.PageEnd(w.c.pageStart, w.c.pageCrc, w.c.target))
  {
  }

  lemma AfterWaitKeeps(w: World, s: Session)
    requires TransferInv(w, s) && !w.c.pc.Idle? && !w.c.pc.FirstPass?
    ensures AfterWait(w.c).packets == [] && TransferInv(With(w, AfterWait(w.c)), s)
    ensures AfterWait(w.c).c.nodes == w.c.nodes && AfterWait(w.c).c.admitting == w.c.admitting
  {
    hide TransferInv, PageIsComplete;
    TransferFields(w, s);
    var v := With(w, AfterWait(w.c));
    if PageIsComplete(w.c) {
      LeaveKeeps(w, s, Complete);
    } else {
      MovesKeep(w, s, v.c, v.packets);
      assert v == w.(c := v.c, packets := v.packets);
    }
  }

  lemma DropKeeps(w: World, s: Session)
    requires TransferInv(w, s) && !w.c.pc.Idle?
    ensures TransferInv(w.(c := Drop(w.c)), s)
    ensures forall id :: id in Drop(w.c).nodes ==> id in w.c.nodes
  {
    hide InSession, Crc16, DoneAt, FullBitmap, Keep;
    var d := Drop(w.c);
    var rows := w.c.bitmaps[..|w.c.nodes|];
    KeepSameLength(w.c.nodes, rows, w.c.replied);
    SameDone(w, w.(c := d));
    forall id | id in d.nodes
      ensures id in w.c.nodes
    {
      var k :| 0 <= k < |d.nodes| && d.nodes[k] == id;
      var i := KeepIndex(w.c.nodes, rows, w.c.replied, k);
    }
    forall k | 0 <= k < |d.nodes| && FullBitmap(d.bitmaps[k], s.size, d.pageStart)
      ensures DoneAt(w, d.nodes[k], d.pageStart)
    {
      var i := KeepIndex(w.c.nodes, rows, w.c.replied, k);
      assert d.bitmaps[k] == w.c.bitmaps[i];
    }
  }

  /** Someone who has replied survives. */
  lemma {:induction false} KeepSome<T>(xs: seq<T>, flags: seq<bool>, i: nat)
    requires |xs| <= |flags| && i < |xs| && flags[i]
    ensures xs[i] in Keep(xs, flags)
  {
    var n := |xs| - 1;
    if i < n {
      KeepSome(xs[..n], flags, i);
    }
  }

  // ---------------------------------------------------------------- the steps

  /** A coordinator step that distributes no new page, sends good packets and adds no node. */
  lemma NetAfterWith(w: World, s: Session, out: Out)
    requires NetInv(w, s) && WellFormed(out.c)
    requires forall p :: p in out.packets ==> PacketOk(p, s, w.sent)
    requires forall id :: id in out.c.nodes ==> id in w.c.nodes && (InSession(w, id) || w.reports == {})
    ensures NetInv(With(w, out), s)
  {
    hide PacketOk, InSession;
    assert w.sent[..|w.sent|] == w.sent;
    NetAfterLocal(w, s, With(w, out));
  }

  lemma ApplyIsWith(w: World, input: Input)
    requires Sane(w)
    ensures Begun(w.c, Coordinator.Step(w.c, input).c) == [] ==>
      ApplyLocal(w, input) == With(w, Coordinator.Step(w.c, input))
  {
    hide Coordinator.Step, WellFormed;
    assert w.sent + [] == w.sent;
  }

  /** A step with no effect on the coordinator but lines printed. */
  lemma NothingHappens(w: World, out: Out)
    requires out.c == w.c && out.packets == [] && out.exit == None
    ensures With(w, out) == w
  {
    assert (set p | p in out.packets) == {};
    assert w.exits + [] == w.exits;
  }

  lemma TransferNodes(w: World, s: Session)
    requires TransferInv(w, s)
    ensures forall id :: id in w.c.nodes ==> InSession(w, id)
  {
  }

  lemma ResumeKeeps(w: World, s: Session)
    requires NetInv(w, s) && TransferInv(w, s) && w.c.nodes != [] && !w.c.admitting
    ensures Inv(With(w, OnResume(w.c)), s)
  {
    hide NetInv, TransferInv, Top, ChunkPacket, Missed, OnReportTimeout, PacketOk;
    TransferFields(w, s);
    TransferNodes(w, s);
    var out := OnResume(w.c);
    StepWellFormed(w.c, Resume);
    var v := With(w, out);
    match w.c.pc
    case Idle =>
      NothingHappens(w, out);
    case FirstPass(i) =>
      if i < w.c.total {
        ChunkStep(w, s, i, FirstPass(i + 1), out);
      } else {
        MovesKeep(w, s, w.c.(round := 0), w.packets);
        NetAfterTop(w, s, w.c.(round := 0), out);
      }
    case SendEnd => EndStep(w, s, out);
    case ResendEnd => EndStep(w, s, out);
    case Waiting => TimeoutKeeps(w, s);
    case Recover(i) =>
      if i < w.c.total {
        if Missed(w.c, i) {
          ChunkStep(w, s, i, Recover(i + 1), out);
        } else {
          MovesKeep(w, s, out.c, v.packets);
          NetAfterWith(w, s, out);
          assert v == w.(c := out.c, packets := v.packets);
        }
      } else {
        MovesKeep(w, s, w.c.(round := w.c.round), w.packets);
        NetAfterTop(w, s, w.c, out);
      }
  }

  lemma ChunkStep(w: World, s: Session, i: nat, pc: Pc, out: Out)
    requires NetInv(w, s) && TransferInv(w, s) && w.c.nodes != [] && !w.c.admitting && !w.c.pc.Idle? && i < w.c.total
    requires out == Out(w.c.(pc := pc), [ChunkPacket(w.c, i)], [], None)
    requires !pc.Idle? && (pc.FirstPass? || !w.c.pc.FirstPass?)
    ensures Inv(With(w, out), s)
  {
    hide NetInv, TransferInv, ChunkPacket, Shaped;
    TransferFields(w, s);
    TransferNodes(w, s);
    ChunkPacketShaped(w, s, i);
    DataIsShaped(ChunkPacket(w.c, i), s, w.sent);
    var v := With(w, out);
    MovesKeep(w, s, out.c, v.packets);
    NetAfterWith(w, s, out);
    assert v == w.(c := out.c, packets := v.packets);
  }

  lemma DataIsShaped(p: Packet, s: Session, sent: seq<bv8>)
    requires ShapedData(p, s.size, s.target, sent) || ShapedEnd(p, s.size, s.target, sent)
    ensures Shaped(p, s.size, s.target, sent)
  {
  }

  lemma EndStep(w: World, s: Session, out: Out)
    requires NetInv(w, s) && TransferInv(w, s) && w.c.nodes != [] && !w.c.admitting
    requires !w.c.pc.Idle? && !w.c.pc.FirstPass?
    requires out == Out(w.c.(pc := Waiting), [w.c.endPkt], [], None)
    ensures Inv(With(w, out), s)
  {
    hide NetInv, TransferInv, Shaped;
    TransferFields(w, s);
    TransferNodes(w, s);
    EndPacketShaped(w, s);
    DataIsShaped(w.c.endPkt, s, w.sent);
    var v := With(w, out);
    MovesKeep(w, s, out.c, v.packets);
    NetAfterWith(w, s, out);
    assert v == w.(c := out.c, packets := v.packets);
  }

  /** Entering the loop head from a coordinator state `d` that differs in the round only. */
  lemma NetAfterTop(w: World, s: Session, d: Coord, out: Out)
    requires NetInv(w, s) && TransferInv(w, s) && w.c.nodes != [] && !w.c.admitting
    requires d == w.c.(round := d.round) && !d.pc.Idle? && TransferInv(w.(c := d, packets := w.packets), s)
    requires WellFormed(d) && out == Top(d)
    ensures Inv(With(w, out), s)
  {
    hide NetInv, TransferInv, Top, PacketOk;
    var u := w.(c := d);
    assert u == w.(c := d, packets := w.packets);
    TransferNodes(w, s);
    TopKeeps(u, s);
    TopWellFormed(d);
    NetAfterWith(w, s, out);
    assert With(u, out) == With(w, out);
  }

  lemma TimeoutKeeps(w: World, s: Session)
    requires NetInv(w, s) && TransferInv(w, s) && w.c.nodes != [] && !w.c.admitting && w.c.pc.Waiting?
    ensures Inv(With(w, OnReportTimeout(w.c)), s)
  {
    hide NetInv, TransferInv, Drop, AfterWait, PacketOk;
    TransferFields(w, s);
    TransferNodes(w, s);
    var out := OnReportTimeout(w.c);
    TimeoutWellFormed(w.c);
    var v := With(w, out);
    var d := w.c.(retry := w.c.retry + 1);
    if d.retry >= 3 && SomeReplied(d) {
      var u := w.(c := d);
      MovesKeep(w, s, d, w.packets);
      assert u == w.(c := d, packets := w.packets);
      DropKeeps(u, s);
      var x := u.(c := Drop(d));
      assert x == w.(c := Drop(d));
      DropFields(d);
      AfterWaitKeeps(x, s);
      assert With(x, out) == With(w, out);
      NetAfterWith(w, s, out);
    } else {
      MovesKeep(w, s, out.c, v.packets);
      NetAfterWith(w, s, out);
      assert v == w.(c := out.c, packets := v.packets);
    }
  }

  lemma DropFields(d: Coord)
    requires WellFormed(d)
    ensures Drop(d).pc == d.pc && Drop(d).admitting == d.admitting
    ensures SomeReplied(d) ==> Drop(d).nodes != []
  {
    hide Keep;
    if SomeReplied(d) {
      var i :| 0 <= i < |d.nodes| && d.replied[i];
      KeepSome(d.nodes, d.replied, i);
    }
  }

  lemma EventKeeps(w: World, s: Session)
    requires NetInv(w, s) && TransferInv(w, s) && w.c.nodes != [] && !w.c.admitting
    ensures Inv(With(w, OnBitmapEvent(w.c)), s)
  {
    hide NetInv, TransferInv, AfterWait, AllReplied, PacketOk;
    TransferFields(w, s);
    TransferNodes(w, s);
    var out := OnBitmapEvent(w.c);
    if w.c.pc.Waiting? && AllReplied(w.c) {
      AfterWaitWellFormed(w.c);
      AfterWaitKeeps(w, s);
      NetAfterWith(w, s, out);
    } else {
      NothingHappens(w, out);
    }
  }

  /** A bitmap report that counts is a true one. */
  lemma ReportKeeps(w: World, s: Session, from: NodeId, r: Report)
    requires NetInv(w, s) && TransferInv(w, s) && w.c.nodes != [] && !w.c.admitting && (from, r) in w.reports
    ensures Inv(With(w, OnBitmapReport(w.c, from, r)), s)
  {
    hide PeerOk, PacketOk, DoneAt, FullBitmap, InSession, Find, ExitsTrue, Crc16;
    var out := OnBitmapReport(w.c, from, r);
    var i := Find(w.c.nodes, from);
    FoundAt(w.c.nodes, from);
    if r.page != w.c.pageStart || i < 0 || w.c.replied[i] {
      NothingHappens(w, out);
    } else {
      assert ReportOk(w, s, from, r);
      var v := With(w, out);
      NetAfterWith(w, s, out);
      SameDone(w, v);
      SameExits(w, s, v);
    }
  }

  lemma FoundAt(nodes: seq<NodeId>, id: NodeId)
    ensures var i := Find(nodes, id); -1 <= i < |nodes| && (i >= 0 ==> nodes[i] == id && id in nodes)
  {
  }

  lemma SameExits(w: World, s: Session, v: World)
    requires ExitsTrue(w, s) && v.peers == w.peers && v.sent == w.sent && v.exits == w.exits
    requires forall id :: id in v.c.nodes ==> id in w.c.nodes
    ensures ExitsTrue(v, s)
  {
    hide DoneAt;
    SameDone(w, v);
    forall k | 0 <= k < |v.exits|
      ensures 4096 * k < s.size
      ensures v.exits[k] == Complete ==> forall id :: id in v.c.nodes ==> DoneAt(v, id, 4096 * k)
    {
    }
  }
}
