/**
 A run that completes: one node, a file of one byte, and a network that delivers.
 */
module CompleteRun {
  import opened Wire
  import opened TargetFlash
  import opened Checksum16
  import opened Sensor
  import opened SensorRuns
  import opened Coordinator
  import opened EndToEnd
  import opened SessionInvariant
  import opened EndToEndSafety
  import opened FailedErase
  import opened OneChunkRuns

  // ---------------------------------------------------------------- the node

  function ByteData(target: U8, x: bv8): Packet {
    Packet.Data(0, 1, target, [x])
  }

  lemma Programmed(x: bv8)
    ensures ProgramByte(0xFF, x, true, 0) == x
  {
  }

  lemma ByteStored(n: Node, x: bv8)
    requires Fresh(n) && n.fileSize == 1
    requires Blank(n.flash.bytes, SlotStart(n.target), SlotStart(n.target) + 0x2000)
    ensures var m := SensorRuns.Step(n, Event(ByteData(n.target, x), Works(true), []));
      && m == n.(cur := 0, chunks := {0}, flash := m.flash) && |m.flash.bytes| == FLASH_END
      && m.flash.bytes[SlotStart(n.target)] == x
  {
    PageAt(0);
    Programmed(x);
    hide ProgramByte;
  }

  lemma BytePage(m: Node, x: bv8)
    requires SessionOk(m) && m.active && m.cur == 0 && m.fileSize == 1 && m.flash.bytes[SlotStart(m.target)] == x
    ensures PageBytes(m) == Some([x])
  {
    assert PageBytes(m).Some? && |PageBytes(m).value| == 1;
    assert PageBytes(m).value[0] == x;
    assert PageBytes(m).value == [x];
  }

  /** The node holds the byte and says so. */
  lemma ByteReported(n: Node, x: bv8)
    requires Fresh(n) && n.fileSize == 1
    requires Blank(n.flash.bytes, SlotStart(n.target), SlotStart(n.target) + 0x2000)
    ensures var m := SensorRuns.Step(n, Event(ByteData(n.target, x), Works(true), []));
      HandlePageEnd(m, 0, Crc16(0, [x]), n.target).1 == Some(Report(0, {0}))
  {
    hide SensorRuns.Step, PageBytes, Crc16;
    ByteStored(n, x);
    BytePage(SensorRuns.Step(n, Event(ByteData(n.target, x), Works(true), [])), x);
  }

  // ---------------------------------------------------------------- the world

  lemma Does(w: World, s: Session, actions: seq<Action>, u: World, a: Action)
    requires Begins(w, s) && Exec(w, actions) == Some(u) && Enabled(u, a)
    ensures Sane(u) && Exec(w, actions + [a]) == Some(Apply(u, a))
  {
    hide Begins, Inv, Apply, Enabled, Sane;
    assert (actions + [a])[..|actions|] == actions;
    InvAlways(w, s, actions);
    AdmissionFields(u, s);
    NetSane(u, s);
  }

  lemma LocalIs(u: World, input: Input)
    requires WellFormed(u.c)
    ensures var v, out := ApplyLocal(u, input), Coordinator.Step(u.c, input);
      && v.c == out.c && v.peers == u.peers && v.reports == u.reports && v.startReports == u.startReports
      && (forall p :: p in v.packets <==> p in u.packets || p in out.packets)
      && v.exits == u.exits + match out.exit case None => [] case Some(e) => [e]
  {
    hide Coordinator.Step;
  }

  lemma ArrivalIs(u: World, to: NodeId, p: Packet, hw: Hardware)
    requires to in u.peers && |u.peers[to].node.flash.bytes| == FLASH_END
    ensures var v := ApplyArrival(u, to, p, hw);
      && v.c == u.c && v.packets == u.packets && v.exits == u.exits
      && to in v.peers && v.peers[to] == Receives(u.peers[to], p, hw)
      && (Provoked(u.peers[to].node, p).Some? ==> (to, Provoked(u.peers[to].node, p).value) in v.reports)
      && (p.Start? ==> (to, HandleStart(u.peers[to].node, p.fileSize, p.secVer, p.slot, hw).1) in v.startReports)
  {
    hide Receives, Provoked, HandleStart;
  }

  /** The session of one node and one byte. */
  predicate OneByteSession(w: World, s: Session, id: NodeId) {
    && Begins(w, s) && s.size == 1 && s.target <= SLOT_B && w.c.nodes == [id] && !w.c.replied[0]
    && id in w.peers && w.peers[id].node.slot == OtherSlot(s.target)
    && (s.secVer == 0 || s.secVer > w.peers[id].node.runningSecVer)
  }

  lemma Accepts(n: Node, s: Session)
    requires |n.flash.bytes| == FLASH_END && s.size == 1 && s.target <= SLOT_B && n.slot == OtherSlot(s.target)
    requires s.secVer == 0 || s.secVer > n.runningSecVer
    ensures HandleStart(n, s.size, s.secVer, s.target, Works(true)).1 == START_ACCEPTED
  {
    hide EraseBytes;
  }

  /** START arrives, and the node's acceptance closes the window. */
  lemma Admitted(w: World, s: Session, id: NodeId) returns (actions: seq<Action>, u: World)
    requires OneByteSession(w, s, id)
    ensures Exec(w, actions) == Some(u) && Awaits(u.c, id) && u.c.pageStart == 0 && u.c.target == s.target
    ensures u.c.fileSize == 1 && u.exits == [] && id in u.peers
    ensures var n := u.peers[id].node;
      && Fresh(n) && n.fileSize == 1 && n.target == s.target
      && Blank(n.flash.bytes, SlotStart(n.target), SlotStart(n.target) + 0x2000)
  {
    hide Coordinator.Step, SensorRuns.Step, HandleStart, Fresh, Blank;
    var p := Packet.Start(s.size, s.secVer, s.target);
    var a1, a2 := Arrives(id, p, Works(true)), Local(StartReport(id, START_ACCEPTED));
    var n := w.peers[id].node;
    Accepts(n, s);
    StartIsFresh(n, s.size, s.secVer, s.target, Works(true));
    Does(w, s, [], w, a1);
    ArrivalIs(w, id, p, Works(true));
    var v := Apply(w, a1);
    ReceivesStart(w.peers[id], p);
    Does(w, s, [a1], v, a2);
    assert [] + [a1] == [a1];
    LocalIs(v, StartReport(id, START_ACCEPTED));
    AcceptanceCloses(w.c, id);
    actions := [a1] + [a2];
    u := Apply(v, a2);
  }

  lemma ReceivesStart(x: Peer, p: Packet)
    requires |x.node.flash.bytes| == FLASH_END && p.Start?
    ensures Receives(x, p, Works(true)).node == HandleStart(x.node, p.fileSize, p.secVer, p.slot, Works(true)).0
  {
    hide HandleStart;
  }

  lemma AcceptanceCloses(c: Coord, id: NodeId)
    requires WellFormed(c) && c.admitting && c.nodes == [id] && !c.replied[0]
    ensures var d := Coordinator.Step(c, StartReport(id, START_ACCEPTED)).c;
      && WellFormed(d) && !d.admitting
      && d == c.(admitting := false, replied := d.replied, accepted := d.accepted)
    ensures Coordinator.Step(c, StartReport(id, START_ACCEPTED)).exit == None
  {
    hide Keep, KeepRows, Find;
    FindOne(id);
    StepWellFormed(c, StartReport(id, START_ACCEPTED));
    var e := c.(replied := c.replied[0 := true], accepted := c.accepted[0 := true]);
    KeepOne([id], c.bitmaps, Accepting(e));
  }

  /** The byte is buffered, and the process sends its chunk and the end of the page. */
  lemma Distributed(w: World, s: Session, actions: seq<Action>, u: World, id: NodeId, x: bv8)
    returns (more: seq<Action>, v: World)
    requires Begins(w, s) && Exec(w, actions) == Some(u) && Awaits(u.c, id) && u.c.pageStart == 0 && u.c.fileSize == 1
    requires u.exits == []
    ensures Exec(w, more) == Some(v) && v.peers == u.peers && v.exits == []
    ensures Lacking(v.c, id) && v.c.pc == Waiting && !v.c.replied[0] && v.c.pageStart == 0 && v.c.fileSize == 1
    ensures v.c.expected == 1
    ensures ByteData(u.c.target, x) in v.packets && Packet.PageEnd(0, Crc16(0, [x]), u.c.target) in v.packets
  {
    hide Coordinator.Step, Crc16, ApplyLocal, Begins, PageIsComplete, Leave, Overwrite;
    var i1 := UartData(0, [x]);
    OneByte(u.c, id, x);
    FirstOf(u.c, x);
    Does(w, s, actions, u, Local(i1));
    LocalIs(u, i1);
    var a := ApplyLocal(u, i1);
    StepWellFormed(u.c, i1);
    Quietly(u.c, i1, id);
    SendFirst(a.c, id);
    ByteChunk(a.c, x);
    Does(w, s, actions + [Local(i1)], a, Local(Resume));
    LocalIs(a, Resume);
    Quietly(a.c, Resume, id);
    var b := ApplyLocal(a, Resume);
    BeginRounds(b.c, id);
    Does(w, s, actions + [Local(i1)] + [Local(Resume)], b, Local(Resume));
    LocalIs(b, Resume);
    Quietly(b.c, Resume, id);
    var g := ApplyLocal(b, Resume);
    Answer(g.c, id, 1, {0});
    Does(w, s, actions + [Local(i1)] + [Local(Resume)] + [Local(Resume)], g, Local(Resume));
    LocalIs(g, Resume);
    SendsEnd(g.c);
    more := actions + [Local(i1)] + [Local(Resume)] + [Local(Resume)] + [Local(Resume)];
    v := ApplyLocal(g, Resume);
  }

  lemma FirstOf(c: Coord, x: bv8)
    requires WellFormed(c)
    ensures Overwrite(c.buffer, 0, [x])[..1] == [x]
  {
  }

  lemma ByteChunk(c: Coord, x: bv8)
    requires WellFormed(c) && c.pageStart == 0 && c.expected == 1 && c.buffer[..1] == [x]
    ensures ChunkPacket(c, 0) == ByteData(c.target, x)
  {
    assert c.buffer[0..1] == [x];
  }

  /** These inputs leave no page. */
  lemma Quietly(c: Coord, input: Input, id: NodeId)
    requires WellFormed(c)
    requires (Awaits(c, id) && input.UartData?)
      || (input.Resume? && Lacking(c, id) && (c.pc == FirstPass(0) || c.pc == FirstPass(1)))
    ensures Coordinator.Step(c, input).exit == None
  {
    hide ChunkPacket, PageIsComplete, Overwrite, Crc16;
    if Lacking(c, id) {
      LackingIncomplete(c.(round := 0), id);
    }
  }

  lemma SendsEnd(c: Coord)
    requires WellFormed(c) && c.pc == SendEnd
    ensures Coordinator.Step(c, Resume).packets == [c.endPkt] && Coordinator.Step(c, Resume).exit == None
  {
  }

  /** Chunk and page end arrive, the report comes back, and the page is complete. */
  lemma Reported(w: World, s: Session, actions: seq<Action>, u: World, id: NodeId, x: bv8)
    returns (more: seq<Action>, v: World)
    requires Begins(w, s) && Exec(w, actions) == Some(u) && id in u.peers && u.exits == []
    requires Lacking(u.c, id) && u.c.pc == Waiting && !u.c.replied[0] && u.c.pageStart == 0 && u.c.fileSize == 1
    requires u.c.expected == 1
    requires var n := u.peers[id].node;
      && Fresh(n) && n.fileSize == 1 && Blank(n.flash.bytes, SlotStart(n.target), SlotStart(n.target) + 0x2000)
      && ByteData(n.target, x) in u.packets && Packet.PageEnd(0, Crc16(0, [x]), n.target) in u.packets
    ensures Exec(w, more) == Some(v) && v.exits == [Complete]
    ensures !v.c.admitting && v.c.nodes == [id] && v.c.pc.Idle? && v.c.pageStart == 1
  {
    hide Coordinator.Step, SensorRuns.Step, Crc16, ApplyLocal, ApplyArrival, Begins, Receives, Blank, Fresh,
      HandlePageEnd;
    var n := u.peers[id].node;
    var data, end := ByteData(n.target, x), Packet.PageEnd(0, Crc16(0, [x]), n.target);
    FreshSize(n);
    ByteStored(n, x);
    ByteReported(n, x);
    Does(w, s, actions, u, Arrives(id, data, Works(true)));
    ArrivalIs(u, id, data, Works(true));
    var a := ApplyArrival(u, id, data, Works(true));
    ReceivesOther(u.peers[id], data);
    Does(w, s, actions + [Arrives(id, data, Works(true))], a, Arrives(id, end, Works(true)));
    ArrivalIs(a, id, end, Works(true));
    var b := ApplyArrival(a, id, end, Works(true));
    var report := BitmapReport(id, Report(0, {0}));
    Does(w, s, actions + [Arrives(id, data, Works(true))] + [Arrives(id, end, Works(true))], b, Local(report));
    LocalIs(b, report);
    var d := ApplyLocal(b, report);
    Completes(b.c, id);
    StepWellFormed(b.c, report);
    Does(w, s, actions + [Arrives(id, data, Works(true))] + [Arrives(id, end, Works(true))] + [Local(report)], d,
         Local(BitmapEvent));
    LocalIs(d, BitmapEvent);
    more := actions + [Arrives(id, data, Works(true))] + [Arrives(id, end, Works(true))] + [Local(report)]
            + [Local(BitmapEvent)];
    v := ApplyLocal(d, BitmapEvent);
  }

  lemma ReceivesOther(x: Peer, p: Packet)
    requires |x.node.flash.bytes| == FLASH_END && !p.Start?
    ensures Receives(x, p, Works(true)).node == SensorRuns.Step(x.node, Event(p, Works(true), []))
  {
    hide SensorRuns.Step;
  }

  lemma Completes(c: Coord, id: NodeId)
    requires Lacking(c, id) && c.pc == Waiting && !c.replied[0]
    requires c.pageStart == 0 && c.fileSize == 1 && c.expected == 1
    ensures
      var report := Coordinator.Step(c, BitmapReport(id, Report(0, {0})));
      && WellFormed(report.c) && report.exit == None
      && var out := Coordinator.Step(report.c, BitmapEvent);
      && out.exit == Some(Complete) && !out.c.admitting && out.c.nodes == [id] && out.c.pc.Idle? && out.c.pageStart == 1
  {
    hide Find;
    FindOne(id);
    StepWellFormed(c, BitmapReport(id, Report(0, {0})));
    var b := c.(replied := c.replied[0 := true], bitmaps := c.bitmaps[0 := {0}]);
    assert PageIsComplete(b);
  }

  /** A run of the whole system that completes a transfer, so that the claims about complete transfers are about
      something: START is delivered and accepted, the byte is distributed, the node reports it, and its page leaves the
      loop as complete. */
  lemma TransferCanComplete(w: World, s: Session, id: NodeId, x: bv8) returns (actions: seq<Action>, v: World)
    requires OneByteSession(w, s, id)
    ensures Exec(w, actions) == Some(v) && TransferComplete(v, s) && v.c.nodes == [id] && v.exits == [Complete]
    ensures HasImage(v, s, id)
  {
    hide Fresh, Blank, HasImage, Begins, Crc16, Exec;
    var u: World;
    actions, u := Admitted(w, s, id);
    actions, v := Distributed(w, s, actions, u, id, x);
    actions, v := Reported(w, s, actions, v, id, x);
    CompleteTransferVerifies(w, s, actions);
    assert id in v.c.nodes;
  }
}
