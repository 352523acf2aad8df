/**
 The VERIFY command in the whole system: what it sends when a transfer is complete, and how the nodes answer.
 */
module VerifyCommand {
  import opened Wire
  import opened Checksum16
  import opened Sensor
  import opened Coordinator
  import opened UartSender
  import opened EndToEnd
  import opened SessionInvariant
  import opened EndToEndSafety
  import opened ImageRuns
  import opened SenderRuns

  /** Deliveries alone leave the coordinator and what it has distributed as they were. */
  lemma {:induction false} ArrivalsLeaveCoordinator(w: World, s: Session, actions: seq<Action>, later: seq<Action>)
    requires Begins(w, s) && Exec(w, actions).Some? && Exec(w, actions + later).Some?
    requires forall a :: a in later ==> a.Arrives?
    ensures var v, u := Exec(w, actions).value, Exec(w, actions + later).value;
      u.c == v.c && u.packets == v.packets && u.sent == v.sent && u.exits == v.exits
  {
    hide ApplyArrival, Enabled, Sane, Begins;
    if later == [] {
      assert actions + later == actions;
    } else {
      var init, a := later[..|later| - 1], later[|later| - 1];
      assert a in later;
      assert (actions + later)[..|actions + later| - 1] == actions + init;
      ArrivalsLeaveCoordinator(w, s, actions, init);
      ArrivesIs(Exec(w, actions + init).value, a);
    }
  }

  lemma ArrivesIs(u: World, a: Action)
    requires a.Arrives? && Sane(u) && Enabled(u, a)
    ensures var v := Apply(u, a); v.c == u.c && v.packets == u.packets && v.sent == u.sent && v.exits == u.exits
  {
    hide Receives, Provoked, HandleStart;
  }

  /** Nothing but START, DATA and PAGE_END has been sent before. */
  lemma NoVerifyYet(v: World, s: Session)
    requires NetInv(v, s)
    ensures forall p :: p in v.packets ==> !p.Verify?
  {
    hide InSession;
  }

  /** A node that verifies the image's checksum verifies no other. */
  lemma OnlyThatChecksum(n: Node, good: bv16, crc: bv16, target: U8, metadata: seq<bv8>)
    requires HandleVerify(n, good, target, metadata).2 == Matched
    ensures HandleVerify(n, crc, target, metadata).2 == if crc == good then Matched else Mismatched
  {
  }

  /** The V command with `crc` makes the coordinator send `p` and acknowledge. */
  ghost predicate VerifySent(v: World, crc: bv16, p: Packet) {
    && WellFormed(v.c) && Coordinator.Step(v.c, UartVerify(crc)).lines == [Ack] && p.Verify?
    && ApplyLocal(v, UartVerify(crc)).packets == v.packets + {p} && p !in v.packets
  }

  /** The verdict of a node on a VERIFY packet, whatever staging then writes. */
  ghost predicate Judges(u: World, id: NodeId, p: Packet, verdict: Verdict) {
    p.Verify? && id in u.peers
    && forall metadata :: HandleVerify(u.peers[id].node, p.crc, p.slot, metadata).2 == verdict
  }

  /** When a transfer is complete, the V command sends exactly one packet and is acknowledged. At whatever later
      moment that packet reaches a node of the session, it takes the match branch exactly if the checksum of the
      command is that of the distributed image. */
  lemma VerifyCommandMatchesIff(
    w: World, s: Session, actions: seq<Action>, v: World, later: seq<Action>, u: World, crc: bv16, id: NodeId)
    returns (p: Packet)
    requires Begins(w, s) && Exec(w, actions) == Some(v) && TransferComplete(v, s) && id in v.c.nodes
    requires Exec(w, actions + later) == Some(u) && forall a :: a in later ==> a.Arrives?
    ensures VerifySent(v, crc, p)
    ensures Judges(u, id, p, if crc == Crc16(0, v.sent) then Matched else Mismatched)
  {
    hide Begins, Inv, Crc16, HandleVerify, Exec;
    ArrivalsLeaveCoordinator(w, s, actions, later);
    InvAlways(w, s, actions);
    AdmissionFields(v, s);
    NoVerifyYet(v, s);
    TransferTarget(v, s);
    p := Packet.Verify(crc, s.target);
    VerifySends(v, crc);
    CompleteTransferVerifies(w, s, actions + later);
    assert HasImage(u, s, id);
    forall metadata
      ensures HandleVerify(u.peers[id].node, crc, s.target, metadata).2
        == if crc == Crc16(0, v.sent) then Matched else Mismatched
    {
      OnlyThatChecksum(u.peers[id].node, Crc16(0, u.sent), crc, s.target, metadata);
    }
  }

  lemma TransferTarget(v: World, s: Session)
    requires Inv(v, s) && !v.c.admitting && v.c.nodes != []
    ensures v.c.target == s.target && WellFormed(v.c)
  {
    hide NetInv, ExitsTrue, InSession;
  }

  lemma VerifySends(v: World, crc: bv16)
    requires WellFormed(v.c) && v.c.nodes != []
    ensures ApplyLocal(v, UartVerify(crc)).packets == v.packets + {Packet.Verify(crc, v.c.target)}
    ensures Coordinator.Step(v.c, UartVerify(crc)).lines == [Ack]
  {
    var out := Coordinator.Step(v.c, UartVerify(crc));
    assert out.packets == [Packet.Verify(crc, v.c.target)];
    assert (set p | p in out.packets) == {Packet.Verify(crc, v.c.target)};
  }

  /** The sender's dialogue to its end: after a completed transfer of an image's commands, its V command with the
      checksum of that image is matched by every node of the session, whenever it arrives. */
  lemma SenderVerifies(
    w: World, s: Session, actions: seq<Action>, v: World, later: seq<Action>, u: World, image: seq<bv8>,
    pages: seq<seq<Command>>, id: NodeId)
    returns (p: Packet)
    requires Begins(w, s) && |image| == s.size && Exec(w, actions) == Some(v) && SenderFeeds(w, actions, pages)
    requires forall k :: 0 <= k < |pages| ==> CutsPage(pages[k], image, k)
    requires TransferComplete(v, s) && id in v.c.nodes
    requires Exec(w, actions + later) == Some(u) && forall a :: a in later ==> a.Arrives?
    ensures VerifySent(v, Crc16(0, image), p) && Judges(u, id, p, Matched)
  {
    hide Begins, Crc16, Exec, TransferComplete, SenderFeeds, CutsPage, Orderly, VerifySent, Judges;
    SenderIsOrderly(w, s, actions, image, pages);
    SentIsImage(w, s, actions, image);
    CompleteSize(w, s, actions, v);
    assert image[..|image|] == image;
    p := VerifyCommandMatchesIff(w, s, actions, v, later, u, Crc16(0, image), id);
  }

  lemma CompleteSize(w: World, s: Session, actions: seq<Action>, v: World)
    requires Begins(w, s) && Exec(w, actions) == Some(v) && TransferComplete(v, s)
    ensures |v.sent| == s.size
  {
    hide Begins, Inv, Exec;
    InvAlways(w, s, actions);
    CompleteIsDone(v, s, v.c.nodes[0]);
  }
}
