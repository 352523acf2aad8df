/**
 The whole system in one session: the coordinator, any number of nodes, and a network that may lose, duplicate,
 delay and reorder everything. Packets and reports once sent stay available for delivery for ever.
 */
module EndToEnd {
  import opened Wire
  import opened TargetFlash
  import opened Sensor
  import opened SensorRuns
  import opened Coordinator

  /** A node, whether START has been delivered to it, and the pages it has committed since. */
  datatype Peer = Peer(node: Node, started: bool, commits: seq<Commit>)

  /** The parameters of the session, as carried by its START packet. */
  datatype Session = Session(size: U32, secVer: U16, target: U8)

  /** `sent` and `exits` record the bytes distributed so far and how each finished page left the page loop. */
  datatype World = World(
    c: Coord, peers: map<NodeId, Peer>, packets: set<Packet>, reports: set<(NodeId, Report)>,
    startReports: set<(NodeId, U8)>, sent: seq<bv8>, exits: seq<Exit>)

  datatype Action =
    | Local(input: Input)
    | Arrives(to: NodeId, packet: Packet, hw: Hardware)

  // ---------------------------------------------------------------- transitions

  /** What can happen: UART data, timers and process wake-ups at any time; a report or packet whenever it has been
      sent before. START reaches a node at most once, no further START or VERIFY is issued, and the erases that
      DATA asks for succeed. */
  predicate Enabled(w: World, a: Action) {
    match a
    case Local(UartStart(_, _, _, _)) => false
    case Local(UartVerify(_)) => false
    case Local(StartReport(from, status)) => (from, status) in w.startReports
    case Local(BitmapReport(from, report)) => (from, report) in w.reports
    case Local(_) => true
    case Arrives(to, p, hw) =>
      && to in w.peers && p in w.packets
      && (p.Start? ==> !w.peers[to].started)
      && (p.Data? ==> hw.eraseOk)
  }

  /** The bytes whose distribution a coordinator step begins. */
  function Begun(c: Coord, d: Coord): seq<bv8> {
    if c.pc.Idle? && !d.pc.Idle? then d.buffer[..MinLen(d.expected, |d.buffer|)] else []
  }

  function ApplyLocal(w: World, input: Input): World
    requires WellFormed(w.c)
  {
    var out := Coordinator.Step(w.c, input);
    w.(c := out.c, packets := w.packets + (set p | p in out.packets), sent := w.sent + Begun(w.c, out.c),
       exits := w.exits + match out.exit case None => [] case Some(e) => [e])
  }

  /** The bitmap report a packet provokes. */
  function Provoked(n: Node, p: Packet): Option<Report>
    requires |n.flash.bytes| == FLASH_END
  {
    if p.PageEnd? then HandlePageEnd(n, p.offset, p.crc, p.slot).1 else None
  }

  function Receives(x: Peer, p: Packet, hw: Hardware): Peer
    requires |x.node.flash.bytes| == FLASH_END
  {
    if p.Start? then Peer(SensorRuns.Step(x.node, Event(p, hw, [])), true, [])
    else Peer(SensorRuns.Step(x.node, Event(p, hw, [])), x.started, x.commits + CommitOf(x.node, p))
  }

  function ApplyArrival(w: World, to: NodeId, p: Packet, hw: Hardware): World
    requires to in w.peers && |w.peers[to].node.flash.bytes| == FLASH_END
  {
    var n := w.peers[to].node;
    w.(peers := w.peers[to := Receives(w.peers[to], p, hw)],
       reports := w.reports + (match Provoked(n, p) case None => {} case Some(r) => {(to, r)}),
       startReports := w.startReports +
         if p.Start? then {(to, HandleStart(n, p.fileSize, p.secVer, p.slot, hw).1)} else {})
  }

  predicate Sane(w: World) {
    WellFormed(w.c) && forall id :: id in w.peers ==>
      |w.peers[id].node.flash.bytes| == FLASH_END && w.peers[id].node.slot <= SLOT_B
  }

  function Apply(w: World, a: Action): World
    requires Sane(w) && Enabled(w, a)
  {
    match a
    case Local(input) => ApplyLocal(w, input)
    case Arrives(to, p, hw) => ApplyArrival(w, to, p, hw)
  }

  /** A session begins when an idle coordinator accepts a START command; nodes may be in any state. */
  predicate Begins(w: World, s: Session) {
    && Sane(w) && w.c.pc.Idle? && w.c.admitting && w.c.nodes != []
    && (forall i :: 0 <= i < |w.c.nodes| ==> !w.c.accepted[i])
    && w.c == ResetTransfer(w.c, s.size).(target := s.target)
    && w.packets == {Packet.Start(s.size, s.secVer, s.target)}
    && w.reports == {} && w.startReports == {} && w.sent == [] && w.exits == []
    && forall id :: id in w.peers ==> !w.peers[id].started
  }

  /** The worlds a START command leads to are exactly of this kind. */
  lemma StartBegins(c: Coord, s: Session, routes: seq<NodeId>, peers: map<NodeId, Peer>)
    requires WellFormed(c) && c.pc.Idle? && s.target != TARGET_INVALID && routes != []
    requires forall id :: id in peers ==>
      !peers[id].started && |peers[id].node.flash.bytes| == FLASH_END && peers[id].node.slot <= SLOT_B
    ensures var out := OnUartStart(c, s.size, s.secVer, s.target, routes);
      out.lines == [] && Begins(World(out.c, peers, set p | p in out.packets, {}, {}, [], []), s)
  {
    var out := OnUartStart(c, s.size, s.secVer, s.target, routes);
    assert out.packets == [Packet.Start(s.size, s.secVer, s.target)];
    assert (set p | p in out.packets) == {Packet.Start(s.size, s.secVer, s.target)};
  }
}
