/**
 What the running process sends for a file whose START came in during the distribution of another.
 */
module StaleBytes {
  import opened Wire
  import opened Checksum16
  import opened Coordinator
  import opened Recovery

  lemma StepOfStart(c: Coord, size: U32, secVer: U16, target: U8, routes: seq<NodeId>)
    requires WellFormed(c)
    ensures Step(c, UartStart(size, secVer, target, routes)) == OnUartStart(c, size, secVer, target, routes)
  {
  }

  /** After a START that came in during a distribution, as long as its window is open. */
  predicate Stale(e: Coord, buffer: seq<bv8>, target: U8, total: nat) {
    && WellFormed(e) && e.admitting && e.buffer == buffer && e.target == target && e.total == total <= 64
    && (e.pc.Idle? || e.pageStart == 0)
  }

  /** A DATA packet of the new file that carries the bytes of the old page. */
  predicate OldData(p: Packet, buffer: seq<bv8>, target: U8) {
    p.Data? ==>
      && p.slot == target && p.offset + |p.data| <= |buffer|
      && p.data == buffer[p.offset..p.offset + |p.data|]
  }

  lemma StaleChunk(e: Coord, buffer: seq<bv8>, target: U8, total: nat, i: nat)
    requires Stale(e, buffer, target, total) && !e.pc.Idle? && i < total
    ensures OldData(ChunkPacket(e, i), buffer, target)
  {
  }

  lemma StaleResume(e: Coord, buffer: seq<bv8>, target: U8, total: nat)
    requires Stale(e, buffer, target, total)
    requires !e.endPkt.Data?
    ensures var out := OnResume(e);
      && Stale(out.c, buffer, target, total) && (forall p :: p in out.packets ==> OldData(p, buffer, target))
      && !out.c.endPkt.Data?
  {
    hide ChunkPacket, Missed, PageIsComplete, Keep, KeepRows, SomeReplied, OldData;
    StepWellFormed(e, Resume);
    match e.pc
    case Idle =>
    case FirstPass(i) =>
      if i < e.total {
        StaleChunk(e, buffer, target, total, i);
      }
    case SendEnd => EndIsNoData(e.endPkt, buffer, target);
    case Waiting =>
    case ResendEnd => EndIsNoData(e.endPkt, buffer, target);
    case Recover(i) =>
      if i < e.total {
        StaleChunk(e, buffer, target, total, i);
      }
  }

  lemma EndIsNoData(p: Packet, buffer: seq<bv8>, target: U8)
    requires !p.Data?
    ensures OldData(p, buffer, target)
  {
  }

  lemma StaleStep(e: Coord, buffer: seq<bv8>, target: U8, total: nat, input: Input)
    requires Stale(e, buffer, target, total) && !e.endPkt.Data? && !input.UartStart?
    ensures var out := Step(e, input);
      && WellFormed(out.c) && (forall p :: p in out.packets ==> OldData(p, buffer, target))
      && !out.c.endPkt.Data? && (out.c.admitting ==> Stale(out.c, buffer, target, total))
  {
    hide OnResume, AfterWait, FinishAdmission, Find, Begin, Overwrite, AllReplied;
    StepWellFormed(e, input);
    match input
    case UartVerify(crc) => EndIsNoData(Packet.Verify(crc, e.target), buffer, target);
    case StartReport(from, status) =>
      FindWithin(e.nodes, from);
      if from in e.nodes {
        var i := Find(e.nodes, from);
        Closes(e.(replied := e.replied[i := true], accepted := e.accepted[i := status == START_ACCEPTED]));
      }
    case AdmissionTimeout => Closes(e);
    case BitmapReport(from, _) => FindWithin(e.nodes, from);
    case Resume => StaleResume(e, buffer, target, total);
    case BitmapEvent =>
      if e.pc.Waiting? {
        StaleWait(e, buffer, target, total);
      }
    case _ =>
  }

  lemma Closes(e: Coord)
    requires WellFormed(e)
    ensures var out := FinishAdmission(e); !out.c.admitting && out.packets == [] && out.c.endPkt == e.endPkt
  {
    hide Keep, KeepRows;
  }

  lemma StaleWait(e: Coord, buffer: seq<bv8>, target: U8, total: nat)
    requires Stale(e, buffer, target, total) && !e.pc.Idle?
    ensures var out := AfterWait(e);
      Stale(out.c, buffer, target, total) && out.packets == [] && out.c.endPkt == e.endPkt
  {
    hide PageIsComplete;
  }

  /** Over all inputs, while the window of the second START is open: every DATA packet the running process sends goes to
      the new target, and carries, as bytes of page 0 of the new file, those of the old page. */
  lemma {:induction false} OldBytesToNewTarget(
    c: Coord, size: U32, secVer: U16, target: U8, routes: seq<NodeId>, inputs: seq<Input>)
    requires WellFormed(c) && c.total <= 64 && !c.endPkt.Data? && target != TARGET_INVALID && routes != []
    requires forall x :: x in inputs ==> !x.UartStart?
    ensures var d := OnUartStart(c, size, secVer, target, routes).c;
      && WellFormed(d)
      && (Run(d, inputs).admitting ==>
        && Stale(Run(d, inputs), c.buffer, target, c.total) && !Run(d, inputs).endPkt.Data?
        && forall p :: p in Sends(d, inputs) ==> OldData(p, c.buffer, target))
  {
    hide Step, Stale, OldData;
    StepWellFormed(c, UartStart(size, secVer, target, routes));
    StepOfStart(c, size, secVer, target, routes);
    var d := OnUartStart(c, size, secVer, target, routes).c;
    if inputs == [] {
      StaleAtStart(c, size, secVer, target, routes);
    } else {
      var init, last := inputs[..|inputs| - 1], inputs[|inputs| - 1];
      OldBytesToNewTarget(c, size, secVer, target, routes, init);
      var e := Run(d, init);
      if e.admitting {
        StaleStep(e, c.buffer, target, c.total, last);
      } else {
        StaysClosed(e, last);
      }
    }
  }

  lemma StaleAtStart(c: Coord, size: U32, secVer: U16, target: U8, routes: seq<NodeId>)
    requires WellFormed(c) && c.total <= 64 && target != TARGET_INVALID && routes != []
    ensures var d := OnUartStart(c, size, secVer, target, routes).c;
      Stale(d, c.buffer, target, c.total) && d.endPkt == c.endPkt
  {
  }

  lemma StaysClosed(e: Coord, input: Input)
    requires WellFormed(e) && !e.admitting && !input.UartStart?
    ensures !Step(e, input).c.admitting
  {
    hide Keep, KeepRows, Find, PageIsComplete, Missed, ChunkPacket, SomeReplied, AllReplied, Overwrite, Crc16;
  }
}
