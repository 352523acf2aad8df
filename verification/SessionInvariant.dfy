/**
 The invariant of a session, and its preservation by every action of the system.
 */
module SessionInvariant {
  import opened Wire
  import opened TargetFlash
  import opened Checksum16
  import opened Sensor
  import opened SensorRuns
  import opened PageTruth
  import opened PageDone
  import opened Monotone
  import opened Coordinator
  import opened EndToEnd

  /** A node that has accepted START. */
  predicate InSession(w: World, id: NodeId) {
    id in w.peers && w.peers[id].started && w.peers[id].node.active
  }

  ghost predicate PeerOk(w: World, s: Session, id: NodeId)
    requires id in w.peers
  {
    PeerInv(w.peers[id].node, w.peers[id].commits, s.size, s.target, w.sent)
  }

  /** The page at `q` is done on a node. */
  ghost predicate DoneAt(w: World, id: NodeId, q: nat) {
    id in w.peers && Done(w.peers[id].node, w.peers[id].commits, q, w.sent)
  }

  ghost predicate PacketOk(p: Packet, s: Session, sent: seq<bv8>) {
    p == Packet.Start(s.size, s.secVer, s.target) || Shaped(p, s.size, s.target, sent)
  }

  ghost predicate ReportOk(w: World, s: Session, id: NodeId, r: Report) {
    SentPage(s.size, w.sent, r.page) && (FullBitmap(r.chunks, s.size, r.page) ==> DoneAt(w, id, r.page))
  }

  /** What holds of the nodes and the network. */
  ghost predicate NetInv(w: World, s: Session) {
    && Sane(w) && |w.sent| <= s.size
    && (forall id :: InSession(w, id) ==> PeerOk(w, s, id))
    && (forall id, status :: (id, status) in w.startReports && status == START_ACCEPTED ==> InSession(w, id))
    && (forall p :: p in w.packets ==> PacketOk(p, s, w.sent))
    && (forall id, r :: (id, r) in w.reports && id in w.c.nodes ==> ReportOk(w, s, id, r))
  }

  /** While the admission window is open nothing but START has been sent. */
  ghost predicate AdmissionInv(w: World, s: Session) {
    && WellFormed(w.c) && w.c.pc.Idle? && w.c.nodes != []
    && w.c == ResetTransfer(w.c, s.size).(target := s.target)
    && w.packets == {Packet.Start(s.size, s.secVer, s.target)}
    && w.reports == {} && w.sent == [] && w.exits == []
    && forall i :: 0 <= i < |w.c.nodes| && w.c.accepted[i] ==> InSession(w, w.c.nodes[i])
  }

  /** The offset at which page number `k` starts, or the end of the file. */
  function PageStart(size: nat, k: nat): nat {
    if 4096 * k < size then 4096 * k else size
  }

  /** Every page that left the loop as complete is done on every node still in the session. */
  ghost predicate ExitsTrue(w: World, s: Session) {
    forall k :: 0 <= k < |w.exits| ==>
      4096 * k < s.size
      && (w.exits[k] == Complete ==> forall id :: id in w.c.nodes ==> DoneAt(w, id, 4096 * k))
  }

  /** The distribution process works on the page at `pageStart`. */
  ghost predicate Distributing(w: World, s: Session)
    requires WellFormed(w.c)
  {
    && w.c.inProgress && w.c.expected > 0
    && |w.sent| == w.c.pageStart + w.c.expected && w.sent[w.c.pageStart..] == w.c.buffer[..w.c.expected]
    && w.c.total == (w.c.expected + 63) / 64 && w.c.pageCrc == Crc16(0, w.c.buffer[..w.c.expected])
    && (!w.c.pc.FirstPass? ==> w.c.endPkt == Packet.PageEnd(w.c.pageStart, w.c.pageCrc, w.c.target))
    && (forall i :: 0 <= i < |w.c.nodes| && FullBitmap(w.c.bitmaps[i], s.size, w.c.pageStart) ==>
         DoneAt(w, w.c.nodes[i], w.c.pageStart))
  }

  ghost predicate TransferInv(w: World, s: Session) {
    && WellFormed(w.c) && w.c.fileSize == s.size && w.c.target == s.target && s.size <= 0x2A000
    && w.c.pageStart == PageStart(s.size, |w.exits|) && w.c.expected == PageLen(s.size, w.c.pageStart)
    && (forall id :: id in w.c.nodes ==> InSession(w, id))
    && ExitsTrue(w, s)
    && (if w.c.pc.Idle? then !w.c.inProgress && |w.sent| == w.c.pageStart else Distributing(w, s))
  }

  /** The invariant: admission, then either no node is left or the transfer is under way. */
  ghost predicate Inv(w: World, s: Session) {
    && NetInv(w, s)
    && if w.c.admitting then AdmissionInv(w, s)
       else if w.c.nodes == [] then w.c.pc.Idle?
       else TransferInv(w, s)
  }

  lemma InvInitially(w: World, s: Session)
    requires Begins(w, s)
    ensures Inv(w, s)
  {
  }

  // ---------------------------------------------------------------- arrivals

  /** START starts a node's session with nothing received and nothing committed. */
  lemma StartPeer(n: Node, s: Session, hw: Hardware)
    requires |n.flash.bytes| == FLASH_END && n.slot <= SLOT_B
    ensures var (m, status) := HandleStart(n, s.size, s.secVer, s.target, hw);
      && (status == START_ACCEPTED <==> m.active)
      && (m.active ==> PeerInv(m, [], s.size, s.target, []))
  {
    StartIsFresh(n, s.size, s.secVer, s.target, hw);
    var (m, status) := HandleStart(n, s.size, s.secVer, s.target, hw);
    if m.active {
      EmptyCrc(0);
      BlankStart(m);
    }
  }

  lemma BlankStart(m: Node)
    requires Fresh(m) && Blank(m.flash.bytes, SlotStart(m.target), SlotStart(m.target) + 0x2000)
    ensures BlankCells(m, 0, 0x2000)
  {
  }

  /** A packet other than START on a node in session. */
  lemma PeerArrival(x: Peer, s: Session, p: Packet, hw: Hardware, sent: seq<bv8>)
    requires x.node.active && PeerInv(x.node, x.commits, s.size, s.target, sent)
    requires Shaped(p, s.size, s.target, sent) && (p.Data? ==> hw.eraseOk)
    ensures var y := Receives(x, p, hw);
      && y.started == x.started && y.node.active && PeerInv(y.node, y.commits, s.size, s.target, sent)
      && forall q: nat :: Done(x.node, x.commits, q, sent) ==> Done(y.node, y.commits, q, sent)
  {
    hide Truth, CommitInv, CommitsShaped, Done, HandleData, HandlePageEnd;
    TruthSize(x.node, s.size, s.target, sent);
    PeerStep(x.node, x.commits, Event(p, hw, []), s.target, sent);
    TruthSize(Receives(x, p, hw).node, s.size, s.target, sent);
  }

  /** DATA and PAGE_END never activate a session. */
  lemma StaysInactive(x: Peer, p: Packet, hw: Hardware)
    requires |x.node.flash.bytes| == FLASH_END && (p.Data? || p.PageEnd?) && !x.node.active
    ensures !Receives(x, p, hw).node.active
  {
    hide HandleData, PageMatches;
    if p.Data? {
      DataKeepsSession(x.node, p.offset, p.length, p.slot, p.data, hw);
    }
  }

  /** What an arrival does to the receiving node. */
  lemma ReceiverOk(w: World, s: Session, to: NodeId, p: Packet, hw: Hardware)
    requires NetInv(w, s) && Enabled(w, Arrives(to, p, hw))
    ensures var y := Receives(w.peers[to], p, hw);
      && |y.node.flash.bytes| == FLASH_END && y.node.slot <= SLOT_B
      && (y.started && y.node.active ==> PeerInv(y.node, y.commits, s.size, s.target, w.sent))
      && (InSession(w, to) ==> y.started && y.node.active)
      && (forall q: nat :: InSession(w, to) && DoneAt(w, to, q) ==> Done(y.node, y.commits, q, w.sent))
    ensures p.Start? ==>
      var y := Receives(w.peers[to], p, hw);
      && y.started
      && (HandleStart(w.peers[to].node, p.fileSize, p.secVer, p.slot, hw).1 == START_ACCEPTED <==> y.node.active)
  {
    hide PeerInv, Done, Shaped, HandleStart, HandleData, HandlePageEnd;
    var x := w.peers[to];
    assert PacketOk(p, s, w.sent);
    if p.Start? {
      NotShaped(p, s, w.sent);
      StartPeer(x.node, s, hw);
      var y := Receives(x, p, hw);
      if y.node.active {
        PeerStays(y.node, y.commits, s.size, s.target, [], w.sent);
      }
    } else {
      IsShaped(p, s, w.sent);
      if x.started && x.node.active {
        assert PeerOk(w, s, to);
        PeerArrival(x, s, p, hw, w.sent);
      } else if !x.node.active {
        StaysInactive(x, p, hw);
      }
    }
  }

  lemma NotShaped(p: Packet, s: Session, sent: seq<bv8>)
    requires PacketOk(p, s, sent) && p.Start?
    ensures p == Packet.Start(s.size, s.secVer, s.target)
  {
  }

  lemma IsShaped(p: Packet, s: Session, sent: seq<bv8>)
    requires PacketOk(p, s, sent) && !p.Start?
    ensures Shaped(p, s.size, s.target, sent) && (p.Data? || p.PageEnd?)
    ensures p.PageEnd? ==> ShapedEnd(p, s.size, s.target, sent)
  {
  }

  /** Nodes keep their session and their finished pages over an arrival. */
  ghost predicate PeersKeep(w: World, v: World) {
    && (forall id :: InSession(w, id) ==> InSession(v, id))
    && (forall id, q: nat :: InSession(w, id) && DoneAt(w, id, q) ==> DoneAt(v, id, q))
  }

  lemma ArrivalKeepsPeers(w: World, s: Session, to: NodeId, p: Packet, hw: Hardware)
    requires NetInv(w, s) && Enabled(w, Arrives(to, p, hw))
    ensures PeersKeep(w, ApplyArrival(w, to, p, hw))
  {
    hide Done, PeerInv, Receives, PacketOk, ReportOk;
    ReceiverOk(w, s, to, p, hw);
  }

  lemma ArrivalReport(w: World, s: Session, to: NodeId, p: Packet, hw: Hardware)
    requires NetInv(w, s) && Enabled(w, Arrives(to, p, hw)) && InSession(w, to) && p.PageEnd?
    ensures var v := ApplyArrival(w, to, p, hw);
      var r := Provoked(w.peers[to].node, p);
      r.Some? ==> ReportOk(v, s, to, r.value)
  {
    hide Truth, CommitInv, CommitsShaped, Done, HandlePageEnd, ShapedEnd, ShapedData;
    assert PacketOk(p, s, w.sent) && PeerOk(w, s, to);
    IsShaped(p, s, w.sent);
    var x := w.peers[to];
    TruthSize(x.node, s.size, s.target, w.sent);
    FullReportMeansDone(x.node, p, s.target, w.sent, x.commits);
  }

  /** The network part of the invariant over an arrival. */
  lemma ArrivalKeepsNet(w: World, s: Session, to: NodeId, p: Packet, hw: Hardware)
    requires NetInv(w, s) && Enabled(w, Arrives(to, p, hw))
    requires p.PageEnd? && to in w.c.nodes ==> InSession(w, to)
    requires forall id, r :: (id, r) in w.reports && id in w.c.nodes ==> InSession(w, id)
    ensures NetInv(ApplyArrival(w, to, p, hw), s)
  {
    hide PeerInv, Done, Receives, PacketOk, SentPage, FullBitmap, Provoked, HandleStart, WellFormed;
    var v := ApplyArrival(w, to, p, hw);
    ReceiverOk(w, s, to, p, hw);
    ArrivalKeepsPeers(w, s, to, p, hw);
    forall id | InSession(v, id)
      ensures PeerOk(v, s, id)
    {
      assert id != to ==> InSession(w, id) && PeerOk(w, s, id);
    }
    forall id, r | (id, r) in v.reports && id in v.c.nodes
      ensures ReportOk(v, s, id, r)
    {
      if (id, r) in w.reports {
        assert ReportOk(w, s, id, r);
      } else {
        ProvokedByEnd(w.peers[to].node, p);
        ArrivalReport(w, s, to, p, hw);
      }
    }
  }

  lemma ProvokedByEnd(n: Node, p: Packet)
    requires |n.flash.bytes| == FLASH_END
    ensures Provoked(n, p).Some? ==> p.PageEnd?
  {
  }

  /** If only nodes and the network change, the coordinator part of the invariant stays. */
  lemma TransferStays(w: World, s: Session, v: World)
    requires TransferInv(w, s) && PeersKeep(w, v)
    requires v.c == w.c && v.sent == w.sent && v.exits == w.exits
    ensures TransferInv(v, s)
  {
    hide Done, InSession, FullBitmap, Crc16;
    forall k | 0 <= k < |v.exits| && v.exits[k] == Complete
      ensures forall id :: id in v.c.nodes ==> DoneAt(v, id, 4096 * k)
    {
    }
  }

  lemma StartOnlyInAdmission(w: World, s: Session, p: Packet)
    requires Inv(w, s) && p in w.packets && w.c.admitting
    ensures p.Start? && w.sent == []
  {
  }
}
