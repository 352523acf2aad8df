/**
 End-to-end safety: what the coordinator may conclude about remote flash, in every reachable world.
 */
module EndToEndSafety {
  import opened Wire
  import opened TargetFlash
  import opened Checksum16
  import opened Sensor
  import opened SensorRuns
  import opened PageTruth
  import opened PageDone
  import opened Monotone
  import opened Coordinator
  import opened EndToEnd
  import opened SessionInvariant
  import opened SessionSteps

  // ---------------------------------------------------------------- UART chunks

  lemma UartDataKeeps(w: World, s: Session, offset: U32, data: seq<bv8>)
    requires NetInv(w, s) && TransferInv(w, s) && w.c.nodes != [] && !w.c.admitting
    ensures Inv(ApplyLocal(w, UartData(offset, data)), s)
  {
    hide NetInv, ExitsTrue, InSession, DoneAt, PacketOk, Overwrite, Crc16, Begun;
    var out := OnUartData(w.c, offset, data);
    var v := ApplyLocal(w, UartData(offset, data));
    NetSane(w, s);
    UartDataWellFormed(w.c, offset, data);
    ApplyIsWith(w, UartData(offset, data));
    BegunIs(w.c, out.c);
    if !Buffers(w.c, offset, data) {
      NothingHappens(w, out);
    } else if out.c.pc.Idle? {
      NetAfterWith(w, s, out);
      SameDone(w, v);
      SameExits(w, s, v);
    } else {
      BeginKeeps(w, s, v, out);
    }
  }

  lemma NetSane(w: World, s: Session)
    requires NetInv(w, s)
    ensures Sane(w) && |w.sent| <= s.size
  {
  }

  lemma BegunIs(c: Coord, d: Coord)
    requires WellFormed(d)
    ensures Begun(c, d) == if c.pc.Idle? && !d.pc.Idle? then d.buffer[..d.expected] else []
  {
  }

  /** A new page: its bytes join what has been distributed, and every bitmap starts empty. */
  lemma BeginKeeps(w: World, s: Session, v: World, out: Out)
    requires NetInv(w, s) && TransferInv(w, s) && w.c.nodes != [] && !w.c.admitting && w.c.pc.Idle?
    requires WellFormed(out.c) && out.packets == [] && out.exit == None && w.c.expected > 0
    requires out.c == w.c.(buffer := out.c.buffer, received := out.c.received, inProgress := true, pc := FirstPass(0),
      total := (w.c.expected + 63) / 64, pageCrc := Crc16(0, out.c.buffer[..w.c.expected]), bitmaps := out.c.bitmaps)
    requires forall i :: 0 <= i < MAX_NODES ==> out.c.bitmaps[i] == {}
    requires v == w.(c := out.c, packets := v.packets, sent := w.sent + out.c.buffer[..w.c.expected], exits := v.exits)
    requires v.exits == w.exits + [] && v.packets == w.packets + set p | p in out.packets
    ensures Inv(v, s)
  {
    hide NetInv, InSession, DoneAt, PacketOk, Crc16;
    assert v.exits == w.exits && v.packets == w.packets;
    NetSane(w, s);
    TransferNodes(w, s);
    assert Extends(w.sent, v.sent, s.size);
    NetAfterLocal(w, s, v);
    assert v.sent[v.c.pageStart..] == out.c.buffer[..w.c.expected];
    forall id, q: nat | DoneAt(w, id, q) && InSession(w, id)
      ensures DoneAt(v, id, q)
    {
      DoneAtStays(w, s, v, id, q);
    }
    forall k | 0 <= k < |v.exits| && v.exits[k] == Complete
      ensures forall id :: id in v.c.nodes ==> DoneAt(v, id, 4096 * k)
    {
    }
    NoChunkYet({}, s.size, v.c.pageStart);
    InSessionSame(w, v);
  }

  lemma NoChunkYet(chunks: set<nat>, size: nat, p: nat)
    requires p < size && 0 !in chunks
    ensures !FullBitmap(chunks, size, p)
  {
  }

  lemma InSessionSame(w: World, v: World)
    requires v.peers == w.peers
    ensures forall id :: InSession(w, id) <==> InSession(v, id)
  {
  }

  // ---------------------------------------------------------------- admission

  /** Closing the window: only nodes that sent ACCEPTED stay. */
  lemma FinishKeeps(w: World, s: Session)
    requires NetInv(w, s) && AdmissionInv(w, s) && w.c.admitting
    ensures Inv(With(w, FinishAdmission(w.c)), s)
  {
    hide NetInv, InSession, DoneAt, PacketOk, Keep;
    var keep := Accepting(w.c);
    var out := FinishAdmission(w.c);
    FinishWellFormed(w.c);
    forall id | id in Keep(w.c.nodes, keep)
      ensures InSession(w, id) && id in w.c.nodes
    {
      var k :| 0 <= k < |Keep(w.c.nodes, keep)| && Keep(w.c.nodes, keep)[k] == id;
      var i := KeepIndex(w.c.nodes, w.c.nodes, keep, k);
    }
    NetAfterWith(w, s, out);
    var v := With(w, out);
    InSessionSame(w, v);
    if out.c.nodes != [] {
      var id := out.c.nodes[0];
      FileSizeBound(w, s, id);
    }
  }

  lemma FileSizeBound(w: World, s: Session, id: NodeId)
    requires NetInv(w, s) && InSession(w, id)
    ensures 0 < s.size <= 0x2A000
  {
    hide CommitInv, CommitsShaped, PageState;
    assert PeerOk(w, s, id);
  }

  lemma StartReportKeeps(w: World, s: Session, from: NodeId, status: U8)
    requires NetInv(w, s) && AdmissionInv(w, s) && w.c.admitting && (from, status) in w.startReports
    ensures Inv(With(w, OnStartReport(w.c, from, status)), s)
  {
    hide FinishAdmission, AllReplied, Find, PacketOk, DoneAt, PeerInv, FullBitmap;
    var out := OnStartReport(w.c, from, status);
    var i := Find(w.c.nodes, from);
    FoundAt(w.c.nodes, from);
    if i < 0 || w.c.replied[i] {
      NothingHappens(w, out);
    } else {
      var d := w.c.(replied := w.c.replied[i := true], accepted := w.c.accepted[i := status == START_ACCEPTED]);
      var u := w.(c := d);
      assert AdmissionInv(u, s) by {
        InSessionSame(w, u);
      }
      InSessionSame(w, u);
      assert NetInv(u, s);
      if AllReplied(d) {
        FinishKeeps(u, s);
        assert With(u, out) == With(w, out);
      } else {
        NothingHappens(u, out);
        assert With(u, out) == With(w, out);
      }
    }
  }

  // ---------------------------------------------------------------- every action

  lemma LocalKeeps(w: World, s: Session, input: Input)
    requires Inv(w, s) && Sane(w) && Enabled(w, Local(input))
    ensures Inv(ApplyLocal(w, input), s)
  {
    hide NetInv, AdmissionInv, TransferInv, OnUartData, FinishAdmission, OnStartReport, OnBitmapReport, OnResume,
      OnBitmapEvent, Begun;
    StepWellFormed(w.c, input);
    var out := Coordinator.Step(w.c, input);
    ApplyIsWith(w, input);
    BegunIs(w.c, out.c);
    AdmissionFields(w, s);
    if w.c.admitting {
      match input
      case UartData(offset, data) => QuietWhileAdmitting(w.c, input); NothingHappens(w, out);
      case StartReport(from, status) => StartReportIdle(w.c, from, status); StartReportKeeps(w, s, from, status);
      case AdmissionTimeout => FinishIdle(w.c); FinishKeeps(w, s);
      case BitmapReport(_, _) =>
      case Resume => QuietWhileAdmitting(w.c, input); NothingHappens(w, out);
      case BitmapEvent => QuietWhileAdmitting(w.c, input); NothingHappens(w, out);
    } else if w.c.nodes == [] {
      QuietWhenDeserted(w.c, input);
      NothingHappens(w, out);
    } else {
      TransferFields(w, s);
      match input
      case UartData(offset, data) => UartDataKeeps(w, s, offset, data);
      case StartReport(from, status) => QuietOutsideWindow(w.c, input); NothingHappens(w, out);
      case AdmissionTimeout => QuietOutsideWindow(w.c, input); NothingHappens(w, out);
      case BitmapReport(from, r) => IdleStaysIdle(w.c, input); ReportKeeps(w, s, from, r);
      case Resume => IdleStaysIdle(w.c, input); ResumeKeeps(w, s);
      case BitmapEvent => IdleStaysIdle(w.c, input); EventKeeps(w, s);
    }
  }

  lemma AdmissionFields(w: World, s: Session)
    requires Inv(w, s)
    ensures NetInv(w, s) && (w.c.admitting ==> AdmissionInv(w, s) && w.c.pc.Idle? && w.reports == {})
    ensures !w.c.admitting && w.c.nodes == [] ==> w.c.pc.Idle?
    ensures !w.c.admitting && w.c.nodes != [] ==> TransferInv(w, s)
  {
    hide NetInv;
  }

  lemma QuietWhileAdmitting(c: Coord, input: Input)
    requires WellFormed(c) && c.admitting && c.pc.Idle? && (input.UartData? || input.Resume? || input.BitmapEvent?)
    ensures Coordinator.Step(c, input) == Quiet(c)
  {
    hide Overwrite, Begin;
  }

  lemma QuietOutsideWindow(c: Coord, input: Input)
    requires WellFormed(c) && !c.admitting && (input.StartReport? || input.AdmissionTimeout?)
    ensures Coordinator.Step(c, input) == Quiet(c)
  {
  }

  lemma QuietWhenDeserted(c: Coord, input: Input)
    requires WellFormed(c) && !c.admitting && c.nodes == [] && c.pc.Idle? && !input.UartStart? && !input.UartVerify?
    ensures var out := Coordinator.Step(c, input); out.c == c && out.packets == [] && out.exit == None
  {
  }

  lemma IdleStaysIdle(c: Coord, input: Input)
    requires WellFormed(c) && (input.BitmapReport? || input.Resume? || input.BitmapEvent?)
    ensures c.pc.Idle? ==> Coordinator.Step(c, input).c.pc.Idle?
  {
    hide AfterWait, Top, OnReportTimeout, ChunkPacket, Find;
  }

  lemma StartReportIdle(c: Coord, from: NodeId, status: U8)
    requires WellFormed(c)
    ensures OnStartReport(c, from, status).c.pc == c.pc
  {
    hide Keep, Find, Accepting;
  }

  lemma FinishIdle(c: Coord)
    requires WellFormed(c)
    ensures FinishAdmission(c).c.pc == c.pc
  {
    hide Keep, Accepting;
  }

  lemma ArrivalKeeps(w: World, s: Session, to: NodeId, p: Packet, hw: Hardware)
    requires Inv(w, s) && Sane(w) && Enabled(w, Arrives(to, p, hw))
    ensures Inv(ApplyArrival(w, to, p, hw), s)
  {
    hide NetInv, TransferInv, ApplyArrival, PacketOk;
    AdmissionFields(w, s);
    ArrivalFrame(w, to, p, hw);
    var v := ApplyArrival(w, to, p, hw);
    ArrivalKeepsPeers(w, s, to, p, hw);
    if w.c.admitting {
      StartOnlyInAdmission(w, s, p);
      NoReportsYet(w, s);
      ArrivalKeepsNet(w, s, to, p, hw);
      AdmissionStays(w, s, v);
      assert v.reports == {};
    } else {
      if w.c.nodes != [] {
        TransferNodes(w, s);
      }
      ArrivalKeepsNet(w, s, to, p, hw);
      if w.c.nodes != [] {
        TransferStays(w, s, v);
      }
    }
  }

  lemma NoReportsYet(w: World, s: Session)
    requires AdmissionInv(w, s)
    ensures w.reports == {}
  {
  }

  lemma AdmissionStays(w: World, s: Session, v: World)
    requires AdmissionInv(w, s) && PeersKeep(w, v)
    requires v.c == w.c && v.packets == w.packets && v.reports == {} && v.sent == w.sent && v.exits == w.exits
    ensures AdmissionInv(v, s)
  {
    hide InSession, DoneAt;
  }

  lemma ArrivalFrame(w: World, to: NodeId, p: Packet, hw: Hardware)
    requires to in w.peers && |w.peers[to].node.flash.bytes| == FLASH_END
    ensures var v := ApplyArrival(w, to, p, hw);
      && v.c == w.c && v.packets == w.packets && v.sent == w.sent && v.exits == w.exits
      && (!p.PageEnd? ==> v.reports == w.reports)
  {
    hide Receives, HandlePageEnd, HandleStart;
  }

  /** The invariant is kept by every action. */
  lemma InvKept(w: World, s: Session, a: Action)
    requires Inv(w, s) && Sane(w) && Enabled(w, a)
    ensures Inv(Apply(w, a), s)
  {
    hide Inv, ApplyLocal, ApplyArrival;
    match a
    case Local(input) => LocalKeeps(w, s, input);
    case Arrives(to, p, hw) => ArrivalKeeps(w, s, to, p, hw);
  }

  // ---------------------------------------------------------------- runs

  /** The world after a sequence of actions, if each was enabled in turn. */
  function Exec(w: World, actions: seq<Action>): Option<World> {
    if actions == [] then Some(w)
    else
      match Exec(w, actions[..|actions| - 1])
      case None => None
      case Some(u) =>
        var a := actions[|actions| - 1];
        if Sane(u) && Enabled(u, a) then Some(Apply(u, a)) else None
  }

  lemma {:induction false} InvAlways(w: World, s: Session, actions: seq<Action>)
    requires Begins(w, s) && Exec(w, actions).Some?
    ensures Inv(Exec(w, actions).value, s)
  {
    hide Inv, Apply, Enabled, Sane, Begins;
    if actions == [] {
      InvInitially(w, s);
    } else {
      var u := Exec(w, actions[..|actions| - 1]).value;
      InvAlways(w, s, actions[..|actions| - 1]);
      InvKept(u, s, actions[|actions| - 1]);
    }
  }

  /** The bytes of the target slot from file offset `a` to `b`. */
  function SlotBytes(n: Node, a: nat, b: nat): seq<bv8>
    requires a <= b && |n.flash.bytes| == FLASH_END && n.target <= SLOT_B && b <= SlotSize(n.target)
  {
    n.flash.bytes[SlotStart(n.target) + a..SlotStart(n.target) + b]
  }

  /** What the end-to-end claim says of one node and one page: it has committed the page, and its flash there
      equals what the coordinator distributed. */
  ghost predicate HasPage(w: World, s: Session, id: NodeId, p: nat) {
    && id in w.peers && w.peers[id].node.active && w.peers[id].node.target == s.target <= SLOT_B
    && |w.peers[id].node.flash.bytes| == FLASH_END && p + PageLen(s.size, p) <= SlotSize(s.target)
    && p + PageLen(s.size, p) <= |w.sent|
    && Committed(w.peers[id].commits, p)
    && SlotBytes(w.peers[id].node, p, p + PageLen(s.size, p)) == w.sent[p..p + PageLen(s.size, p)]
  }

  lemma DoneHasPage(w: World, s: Session, id: NodeId, q: nat)
    requires NetInv(w, s) && InSession(w, id) && DoneAt(w, id, q)
    ensures HasPage(w, s, id, q)
  {
    hide CommitInv, CommitsShaped, PageState, Committed, FullBitmap;
    assert PeerOk(w, s, id);
    var n := w.peers[id].node;
    var len := PageLen(s.size, q);
    var held, distributed := SlotBytes(n, q, q + len), w.sent[q..q + len];
    forall i | 0 <= i < |held|
      ensures held[i] == distributed[i]
    {
      assert Cell(n, q + i) == w.sent[q + i];
    }
    assert held == distributed;
  }

  /** End-to-end safety. In every world a session can reach, for every page that left the page loop as complete:
      every node still in the session has committed it and holds exactly the bytes that were distributed; however
      packets and reports were lost, duplicated, delayed or reordered, and however programming failed. */
  lemma CompletePagesAreInFlash(w: World, s: Session, actions: seq<Action>)
    requires Begins(w, s) && Exec(w, actions).Some?
    ensures var v := Exec(w, actions).value;
      !v.c.admitting ==>
        forall k, id :: 0 <= k < |v.exits| && v.exits[k] == Complete && id in v.c.nodes ==> HasPage(v, s, id, 4096 * k)
  {
    hide NetInv, HasPage, DoneAt, InSession, Begins;
    InvAlways(w, s, actions);
    var v := Exec(w, actions).value;
    if !v.c.admitting {
      AdmissionFields(v, s);
      forall k, id | 0 <= k < |v.exits| && v.exits[k] == Complete && id in v.c.nodes
        ensures HasPage(v, s, id, 4096 * k)
      {
        TransferNodes(v, s);
        DoneHasPage(v, s, id, 4096 * k);
      }
    }
  }

  // ---------------------------------------------------------------- the whole image

  /** All page offsets of the file below `m` are committed. */
  ghost predicate AllCommitted(cs: seq<Commit>, m: nat) {
    forall k: nat :: 4096 * k < m ==> Committed(cs, 4096 * k)
  }

  /** Increasing commits of pages that include every page are the pages, in order. */
  lemma {:induction false} CommitsAreThePages(cs: seq<Commit>, size: nat, sent: seq<bv8>, k: nat)
    requires Increasing(cs) && CommitsShaped(cs, size, sent) && AllCommitted(cs, size) && 4096 * k < size
    ensures k < |cs| && cs[k].page == 4096 * k
  {
    hide CommitShaped;
    assert Committed(cs, 4096 * k);
    var i :| 0 <= i < |cs| && cs[i].page == 4096 * k;
    if k == 0 {
    } else {
      CommitsAreThePages(cs, size, sent, k - 1);
      if i > k {
        assert cs[k - 1].page < cs[k].page < cs[i].page;
        CommitPage(cs[k], size, sent);
      }
    }
  }

  lemma CommitPage(c: Commit, size: nat, sent: seq<bv8>)
    requires CommitShaped(c, size, sent)
    ensures SentPage(size, sent, c.page) && c.page >= 0
    ensures |c.bytes| == PageLen(size, c.page) && Crc16(0, c.bytes) == Crc16(0, SentBytes(size, sent, c.page))
  {
  }

  lemma NoMoreCommits(cs: seq<Commit>, size: nat, sent: seq<bv8>, k: nat)
    requires Increasing(cs) && CommitsShaped(cs, size, sent) && AllCommitted(cs, size) && k < |cs|
    ensures 4096 * k < size
  {
    hide CommitShaped;
    if 4096 * k >= size {
      assert CommitShaped(cs[k], size, sent);
      CommitPage(cs[k], size, sent);
      var j: nat := cs[k].page / 4096;
      CommitsAreThePages(cs, size, sent, j);
    }
  }

  /** By linearity the committed contents and the distributed contents give the same image checksum, page by page,
      even where a page was committed on a checksum collision. */
  lemma {:induction false} JoinedCrc(cs: seq<Commit>, size: nat, sent: seq<bv8>, k: nat)
    requires Increasing(cs) && CommitsShaped(cs, size, sent) && AllCommitted(cs, size) && k <= |cs|
    requires |sent| == size
    ensures Crc16(0, Joined(cs[..k])) == Crc16(0, sent[..PageStart(size, k)])
  {
    hide Crc16, CommitShaped, CommitsShaped;
    if k > 0 {
      JoinedCrc(cs, size, sent, k - 1);
      NoMoreCommits(cs, size, sent, k - 1);
      CommitsAreThePages(cs, size, sent, k - 1);
      var c := cs[k - 1];
      ShapedAt(cs, size, sent, k - 1);
      CommitPage(c, size, sent);
      assert cs[..k][..k - 1] == cs[..k - 1];
      var before := sent[..4096 * (k - 1)];
      var page := SentBytes(size, sent, c.page);
      Crc16Concat(0, Joined(cs[..k - 1]), c.bytes);
      Crc16Concat(0, before, page);
      Crc16Interchangeable(Crc16(0, before), c.bytes, page);
      assert sent[..PageStart(size, k)] == before + page;
    } else {
      assert sent[..0] == [];
    }
  }

  lemma ShapedAt(cs: seq<Commit>, size: nat, sent: seq<bv8>, k: nat)
    requires CommitsShaped(cs, size, sent) && k < |cs|
    ensures CommitShaped(cs[k], size, sent)
  {
  }

  lemma {:induction false} ImageCrc(cs: seq<Commit>, size: nat, sent: seq<bv8>)
    requires Increasing(cs) && CommitsShaped(cs, size, sent) && AllCommitted(cs, size) && |sent| == size
    ensures Crc16(0, Joined(cs)) == Crc16(0, sent)
  {
    hide Crc16, CommitsShaped;
    JoinedCrc(cs, size, sent, |cs|);
    assert cs[..|cs|] == cs;
    if PageStart(size, |cs|) < size {
      CommitsAreThePages(cs, size, sent, |cs|);
    }
    assert sent[..size] == sent;
  }

  /** Every page of the file has been distributed and has left the page loop as complete. */
  predicate TransferComplete(w: World, s: Session) {
    && !w.c.admitting && w.c.nodes != [] && w.c.pc.Idle? && w.c.pageStart == s.size
    && forall k :: 0 <= k < |w.exits| ==> w.exits[k] == Complete
  }

  /** What the end-to-end claim says of the whole image on one node. */
  ghost predicate HasImage(w: World, s: Session, id: NodeId) {
    && id in w.peers && |w.peers[id].node.flash.bytes| == FLASH_END && w.peers[id].node.target == s.target <= SLOT_B
    && s.size <= SlotSize(s.target) && |w.sent| == s.size
    && SlotBytes(w.peers[id].node, 0, s.size) == w.sent
    && forall metadata :: HandleVerify(w.peers[id].node, Crc16(0, w.sent), s.target, metadata).2 == Matched
  }

  lemma CompleteIsDone(v: World, s: Session, id: NodeId)
    requires Inv(v, s) && TransferComplete(v, s) && id in v.c.nodes
    ensures |v.sent| == s.size && InSession(v, id) && NetInv(v, s)
    ensures forall k: nat :: 4096 * k < s.size ==> DoneAt(v, id, 4096 * k)
  {
    hide NetInv, DoneAt, InSession;
    TransferNodes(v, s);
    forall k: nat | 4096 * k < s.size
      ensures DoneAt(v, id, 4096 * k)
    {
      PageGeometry(s.size, |v.exits|);
      assert k < |v.exits| && v.exits[k] == Complete;
    }
  }

  lemma PagesMakeImage(v: World, s: Session, id: NodeId)
    requires NetInv(v, s) && InSession(v, id) && |v.sent| == s.size
    requires forall k: nat :: 4096 * k < s.size ==> DoneAt(v, id, 4096 * k)
    ensures HasImage(v, s, id)
  {
    hide Truth, Crc16, Increasing, CommitsShaped, FullBitmap;
    assert PeerOk(v, s, id);
    var n, cs := v.peers[id].node, v.peers[id].commits;
    TruthSize(n, s.size, s.target, v.sent);
    forall i | 0 <= i < s.size
      ensures Cell(n, i) == v.sent[i]
    {
      var k: nat := i / 4096;
      assert DoneAt(v, id, 4096 * k);
      assert 4096 * k <= i < 4096 * k + PageLen(s.size, 4096 * k);
    }
    TruthTarget(n, s.size, s.target, v.sent);
    var held := SlotBytes(n, 0, s.size);
    forall i | 0 <= i < |held|
      ensures held[i] == v.sent[i]
    {
      assert Cell(n, i) == v.sent[i];
    }
    assert held == v.sent;
    forall k: nat | 4096 * k < s.size
      ensures Committed(cs, 4096 * k)
    {
      assert DoneAt(v, id, 4096 * k);
    }
    ImageCrc(cs, s.size, v.sent);
  }

  /** A node that has committed every page of a fully distributed image takes the match branch, whatever its flash
      holds: the checksum it keeps is that of the image by linearity alone. */
  lemma CommittedAllMatches(w: World, s: Session, actions: seq<Action>, id: NodeId, metadata: seq<bv8>)
    requires Begins(w, s) && Exec(w, actions).Some?
    requires var v := Exec(w, actions).value;
      InSession(v, id) && |v.sent| == s.size && AllCommitted(v.peers[id].commits, s.size)
    ensures var v := Exec(w, actions).value;
      HandleVerify(v.peers[id].node, Crc16(0, v.sent), s.target, metadata).2 == Matched
  {
    hide Inv, Begins, Truth, Crc16, Increasing, CommitsShaped, FullBitmap, AllCommitted;
    InvAlways(w, s, actions);
    var v := Exec(w, actions).value;
    AdmissionFields(v, s);
    assert PeerOk(v, s, id);
    TruthSize(v.peers[id].node, s.size, s.target, v.sent);
    TruthTarget(v.peers[id].node, s.size, s.target, v.sent);
    ImageCrc(v.peers[id].commits, s.size, v.sent);
  }

  lemma TruthTarget(n: Node, size: nat, target: U8, sent: seq<bv8>)
    requires Truth(n, size, target, sent)
    ensures n.target == target <= SLOT_B && size <= SlotSize(target)
  {
  }

  /** If every page leaves the loop as complete, then every node still in the session holds the whole distributed
      image in its target slot, and a VERIFY with the checksum of that image takes the match branch there. */
  lemma CompleteTransferVerifies(w: World, s: Session, actions: seq<Action>)
    requires Begins(w, s) && Exec(w, actions).Some?
    ensures var v := Exec(w, actions).value;
      TransferComplete(v, s) ==> forall id :: id in v.c.nodes ==> HasImage(v, s, id)
  {
    hide Inv, HasImage, NetInv, InSession, DoneAt, Begins;
    InvAlways(w, s, actions);
    var v := Exec(w, actions).value;
    if TransferComplete(v, s) {
      forall id | id in v.c.nodes
        ensures HasImage(v, s, id)
      {
        CompleteIsDone(v, s, id);
        PagesMakeImage(v, s, id);
      }
    }
  }
}
