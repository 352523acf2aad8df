/**
 From the image file to remote flash: if the UART side feeds disjoint pieces of an image, what is distributed is
 that image, and a complete transfer puts exactly that image into the flash of every remaining node.
 */
module ImageRuns {
  import opened Wire
  import opened Checksum16
  import opened Sensor
  import opened Coordinator
  import opened Assembly
  import opened EndToEnd
  import opened SessionInvariant
  import opened EndToEndSafety

  /** Whether an action puts a UART chunk into the page buffer. */
  predicate Buffering(u: World, a: Action) {
    a.Local? && a.input.UartData? && Buffers(u.c, a.input.offset, a.input.data)
  }

  function ChunkOf(u: World, a: Action): Chunk
    requires Buffering(u, a)
  {
    Chunk(a.input.offset - u.c.pageStart, a.input.data)
  }

  /** The chunks buffered for the page that is being collected. */
  function Log(w: World, actions: seq<Action>): seq<Chunk>
    requires Exec(w, actions).Some?
  {
    if actions == [] then []
    else
      var init, a := actions[..|actions| - 1], actions[|actions| - 1];
      var u := Exec(w, init).value;
      if !Buffering(u, a) then Log(w, init)
      else if Apply(u, a).c.pc.Idle? then Log(w, init) + [ChunkOf(u, a)]
      else []
  }

  /** The UART side feeds pieces of the image, and within a page no byte twice. */
  ghost predicate Orderly(w: World, actions: seq<Action>, image: seq<bv8>)
    requires Exec(w, actions).Some?
  {
    actions != [] ==>
      var init, a := actions[..|actions| - 1], actions[|actions| - 1];
      var u := Exec(w, init).value;
      && Orderly(w, init, image)
      && (Buffering(u, a) ==>
        && a.input.offset + |a.input.data| <= |image|
        && a.input.data == image[a.input.offset..a.input.offset + |a.input.data|]
        && Disjoint(Log(w, init) + [ChunkOf(u, a)]))
  }

  // ---------------------------------------------------------------- the collecting state

  ghost predicate Collected(c: Coord, log: seq<Chunk>, image: seq<bv8>)
    requires WellFormed(c) && c.fileSize <= |image|
  {
    && c.received == Count16(Total(log)) && AllInside(log, c.expected) && Disjoint(log)
    && Carries(log, image[c.pageStart..c.pageStart + c.expected])
    && forall i :: i in Written(log) ==> i < c.expected && c.buffer[i] == image[c.pageStart + i]
  }

  ghost predicate ImageInv(v: World, log: seq<Chunk>, image: seq<bv8>) {
    && WellFormed(v.c) && |v.sent| <= |image| && v.sent == image[..|v.sent|]
    && (v.c.admitting ==> log == [] && v.c.received == 0)
    && (!v.c.pc.Idle? ==> log == [])
    && (!v.c.admitting && v.c.nodes != [] && v.c.pc.Idle? ==> v.c.fileSize <= |image| && Collected(v.c, log, image))
  }

  lemma NothingCollected(c: Coord, image: seq<bv8>)
    requires WellFormed(c) && c.fileSize <= |image| && c.received == 0
    ensures Collected(c, [], image)
  {
  }

  /** One more chunk that overlaps nothing and carries its bytes of the image. */
  lemma CollectOne(c: Coord, log: seq<Chunk>, image: seq<bv8>, at: nat, data: seq<bv8>)
    requires WellFormed(c) && c.fileSize <= |image| && Collected(c, log, image) && at + |data| <= c.expected
    requires data == image[c.pageStart + at..c.pageStart + at + |data|] && Disjoint(log + [Chunk(at, data)])
    ensures var d := c.(buffer := Overwrite(c.buffer, at, data), received := Count16(c.received + |data|));
      WellFormed(d) && Collected(d, log + [Chunk(at, data)], image)
  {
    hide Count16, Overwrite, Disjoint, Carries, Written, Total, AllInside;
    var k := Chunk(at, data);
    TotalMore(log, k);
    AddMod(Total(log), |data|);
    SubSlice(image, c.pageStart, c.expected, at, |data|);
    FitsInside(at, data, c.expected);
    AllInsideMore(log, k, c.expected);
    CarriesMore(log, k, image[c.pageStart..c.pageStart + c.expected]);
    CollectBytes(c, log, image, k);
  }

  lemma CollectBytes(c: Coord, log: seq<Chunk>, image: seq<bv8>, k: Chunk)
    requires WellFormed(c) && c.fileSize <= |image| && k.at + |k.data| <= c.expected
    requires forall i :: i in Written(log) ==> i < c.expected && c.buffer[i] == image[c.pageStart + i]
    requires k.data == image[c.pageStart + k.at..c.pageStart + k.at + |k.data|]
    ensures forall i :: i in Written(log + [k]) ==>
      i < c.expected && Overwrite(c.buffer, k.at, k.data)[i] == image[c.pageStart + i]
  {
    hide Written, Cells, Overwrite;
    forall i | i in Written(log + [k])
      ensures i < c.expected && Overwrite(c.buffer, k.at, k.data)[i] == image[c.pageStart + i]
    {
      WrittenMore(log, k);
      CellsAre(k, i);
      OverwriteAt(c.buffer, k.at, k.data, i);
    }
  }

  lemma TotalMore(log: seq<Chunk>, c: Chunk)
    ensures Total(log + [c]) == Total(log) + |c.data|
  {
    assert (log + [c])[..|log|] == log;
  }

  lemma AllInsideMore(log: seq<Chunk>, c: Chunk, n: nat)
    requires AllInside(log, n) && Inside(c, n)
    ensures AllInside(log + [c], n)
  {
  }

  lemma FitsInside(at: nat, data: seq<bv8>, n: nat)
    requires at + |data| <= n
    ensures Inside(Chunk(at, data), n)
  {
  }

  lemma WrittenMore(log: seq<Chunk>, c: Chunk)
    ensures Written(log + [c]) == Written(log) + Cells(c)
  {
    assert (log + [c])[..|log|] == log;
  }

  lemma CellsAre(c: Chunk, i: nat)
    ensures i in Cells(c) <==> c.at <= i < c.at + |c.data|
  {
  }

  /** When the count meets the page size, the buffer holds the page of the image. */
  lemma CollectedAll(c: Coord, log: seq<Chunk>, image: seq<bv8>)
    requires WellFormed(c) && c.fileSize <= |image| && Collected(c, log, image) && c.received == c.expected
    ensures c.buffer[..c.expected] == image[c.pageStart..c.pageStart + c.expected]
  {
    hide Disjoint, Written, Carries, AllInside;
    DisjointFits(log, c.expected);
    CoveredIffDisjoint(log, c.expected);
    forall i | 0 <= i < c.expected
      ensures c.buffer[i] == image[c.pageStart + i]
    {
      assert i in Range(0, c.expected);
    }
  }

  // ---------------------------------------------------------------- steps

  /** The page under collection is untouched. */
  predicate SamePage(c: Coord, d: Coord) {
    && d.buffer == c.buffer && d.received == c.received && d.pageStart == c.pageStart && d.expected == c.expected
    && d.fileSize == c.fileSize && d.pc == c.pc
  }

  /** A page has just left the page loop. */
  predicate Left(c: Coord, d: Coord) {
    d.pc.Idle? && d.received == 0 && d.fileSize == c.fileSize
  }

  lemma FinishPage(c: Coord)
    requires WellFormed(c)
    ensures var d := FinishAdmission(c).c;
      !d.admitting && d.pc == c.pc && (d.nodes != [] ==> SamePage(c, d))
  {
    hide Keep, Accepting;
  }

  lemma StartReportPage(c: Coord, from: NodeId, status: U8)
    requires WellFormed(c)
    ensures var d := OnStartReport(c, from, status).c;
      && d.pc == c.pc && (d.nodes != [] || d.admitting ==> SamePage(c, d)) && (d.admitting ==> c.admitting)
      && (!c.admitting ==> d == c)
  {
    hide Find, FinishAdmission, AllReplied;
    var i := Find(c.nodes, from);
    if i >= 0 {
      FinishPage(c.(replied := c.replied[i := true], accepted := c.accepted[i := status == START_ACCEPTED]));
    }
  }

  lemma LoopPage(c: Coord)
    requires WellFormed(c)
    ensures var d := Top(c).c;
      (!d.pc.Idle? || Left(c, d)) && d.admitting == c.admitting && d.nodes == c.nodes
    ensures var d := AfterWait(c).c;
      (!d.pc.Idle? || Left(c, d)) && d.admitting == c.admitting && d.nodes == c.nodes
  {
    hide PageIsComplete;
  }

  lemma ResumePage(c: Coord)
    requires WellFormed(c)
    ensures var d := OnResume(c).c;
      && d.admitting == c.admitting
      && (if c.pc.Idle? then d == c else !d.pc.Idle? || Left(c, d))
  {
    hide Top, AfterWait, ChunkPacket, Missed, SomeReplied, Keep;
    LoopPage(c);
    LoopPage(c.(round := 0));
    LoopPage(Drop(c.(retry := c.retry + 1)));
  }

  lemma EventPage(c: Coord)
    requires WellFormed(c)
    ensures var d := OnBitmapEvent(c).c;
      && d.admitting == c.admitting
      && (if c.pc.Idle? then d == c else !d.pc.Idle? || Left(c, d))
  {
    hide AfterWait, AllReplied;
    LoopPage(c);
  }

  lemma ReportPage(c: Coord, from: NodeId, r: Report)
    requires WellFormed(c)
    ensures var d := OnBitmapReport(c, from, r).c;
      SamePage(c, d) && d.admitting == c.admitting && d.nodes == c.nodes
  {
    hide Find;
  }

  lemma UartChunkPage(c: Coord, offset: U32, data: seq<bv8>)
    requires WellFormed(c)
    ensures var d := OnUartData(c, offset, data).c;
      && d.admitting == c.admitting && d.nodes == c.nodes
      && (!Buffers(c, offset, data) ==> d == c)
      && (Buffers(c, offset, data) && c.pc.Idle? ==>
        var e := c.(buffer := Overwrite(c.buffer, offset - c.pageStart, data),
                    received := Count16(c.received + |data|));
        if e.received != e.expected then d == e else !d.pc.Idle? && d.buffer == e.buffer && d.expected == e.expected)
  {
    hide Overwrite, Begin;
    if Buffers(c, offset, data) {
      BeginStarts(c.(buffer := Overwrite(c.buffer, offset - c.pageStart, data),
        received := (c.received + |data|) % 0x1_0000, inProgress := true));
    }
  }

  // ---------------------------------------------------------------- runs

  /** Idle coordinators do not begin anything except through UART chunks. */
  lemma BegunOnlyByUart(w: World, input: Input)
    requires Sane(w) && !input.UartData? && !input.UartStart? && !input.UartVerify?
    ensures ApplyLocal(w, input).sent == w.sent
    ensures ApplyLocal(w, input).c == Coordinator.Step(w.c, input).c
  {
    hide OnResume, OnBitmapEvent, OnStartReport, OnBitmapReport, FinishAdmission;
    var d := Coordinator.Step(w.c, input).c;
    StepWellFormed(w.c, input);
    BegunIs(w.c, d);
    match input
    case StartReport(from, status) => StartReportPage(w.c, from, status);
    case AdmissionTimeout => FinishPage(w.c);
    case BitmapReport(from, r) => ReportPage(w.c, from, r);
    case Resume => ResumePage(w.c);
    case BitmapEvent => EventPage(w.c);
    assert w.sent + [] == w.sent;
  }

  lemma SamePageCollected(c: Coord, d: Coord, log: seq<Chunk>, image: seq<bv8>)
    requires WellFormed(c) && WellFormed(d) && c.fileSize <= |image| && SamePage(c, d) && Collected(c, log, image)
    ensures Collected(d, log, image)
  {
    hide Disjoint, Written, Carries, AllInside, Total;
  }

  lemma StepPage(c: Coord, input: Input)
    requires WellFormed(c) && !input.UartData? && !input.UartStart? && !input.UartVerify?
    requires c.admitting ==> c.pc.Idle?
    ensures var d := Coordinator.Step(c, input).c;
      && (d.admitting ==> c.admitting && d.received == c.received)
      && (c.pc.Idle? ==> d.pc.Idle? && (d.nodes != [] ==> SamePage(c, d)))
      && (!c.pc.Idle? ==> !d.pc.Idle? || Left(c, d))
      && (!c.admitting && c.nodes == [] && c.pc.Idle? ==> d == c)
  {
    hide OnResume, OnBitmapEvent, OnStartReport, OnBitmapReport, FinishAdmission, Find;
    match input
    case StartReport(from, status) => StartReportPage(c, from, status);
    case AdmissionTimeout => FinishPage(c);
    case BitmapReport(from, r) => ReportPage(c, from, r); ReportNoNodes(c, from, r);
    case Resume => ResumePage(c);
    case BitmapEvent => EventPage(c);
  }

  lemma ReportNoNodes(c: Coord, from: NodeId, r: Report)
    requires WellFormed(c)
    ensures c.nodes == [] ==> OnBitmapReport(c, from, r).c == c
  {
  }

  /** The file size and the program counter that the session invariant fixes. */
  lemma InvFields(v: World, s: Session)
    requires Inv(v, s)
    ensures WellFormed(v.c) && (v.c.admitting ==> v.c.pc.Idle?)
    ensures !v.c.admitting && v.c.nodes != [] ==> v.c.fileSize == s.size
    ensures !v.c.admitting && v.c.nodes != [] && !v.c.pc.Idle? ==>
      v.c.inProgress && |v.sent| == v.c.pageStart + v.c.expected
    ensures !v.c.admitting && v.c.nodes != [] && v.c.pc.Idle? ==> !v.c.inProgress && |v.sent| == v.c.pageStart
    ensures !v.c.admitting && v.c.nodes == [] ==> v.c.pc.Idle?
  {
    hide ExitsTrue;
  }

  /** An input other than a UART chunk keeps the collecting state. */
  lemma OtherInputKeeps(u: World, s: Session, input: Input, log: seq<Chunk>, image: seq<bv8>)
    requires Inv(u, s) && Enabled(u, Local(input)) && Sane(u) && !input.UartData?
    requires ImageInv(u, log, image) && s.size == |image|
    ensures ImageInv(ApplyLocal(u, input), log, image)
  {
    hide Collected, Inv, Coordinator.Step, ApplyLocal, Begins;
    var c, v := u.c, ApplyLocal(u, input);
    var d := Coordinator.Step(c, input).c;
    StepWellFormed(c, input);
    LocalKeeps(u, s, input);
    InvFields(u, s);
    InvFields(v, s);
    BegunOnlyByUart(u, input);
    StepPage(c, input);
    if !d.admitting && d.nodes != [] && d.pc.Idle? {
      if c.admitting || !c.pc.Idle? {
        NothingCollected(d, image);
      } else {
        assert d != c ==> c.nodes != [];
        SamePageCollected(c, d, log, image);
      }
    }
  }

  /** A UART chunk keeps the collecting state, and completes the page with the right bytes. */
  lemma ChunkKeeps(u: World, s: Session, a: Action, log: seq<Chunk>, image: seq<bv8>)
    requires Inv(u, s) && Sane(u) && a.Local? && a.input.UartData? && ImageInv(u, log, image) && s.size == |image|
    requires Buffering(u, a) ==>
      && a.input.offset + |a.input.data| <= |image|
      && a.input.data == image[a.input.offset..a.input.offset + |a.input.data|]
      && Disjoint(log + [ChunkOf(u, a)])
    ensures var v := ApplyLocal(u, a.input);
      ImageInv(v, if !Buffering(u, a) then log else if v.c.pc.Idle? then log + [ChunkOf(u, a)] else [], image)
  {
    hide Collected, Inv, OnUartData, ApplyLocal, Begins, Overwrite, Disjoint, Begun;
    var offset, data := a.input.offset, a.input.data;
    var c, v := u.c, ApplyLocal(u, a.input);
    UartDataWellFormed(c, offset, data);
    LocalKeeps(u, s, a.input);
    InvFields(u, s);
    InvFields(v, s);
    UartChunkPage(c, offset, data);
    ApplyUart(u, offset, data);
    if Buffering(u, a) {
      CollectOne(c, log, image, offset - c.pageStart, data);
      var e := c.(buffer := Overwrite(c.buffer, offset - c.pageStart, data), received := Count16(c.received + |data|));
      if e.received == e.expected {
        CollectedAll(e, log + [ChunkOf(u, a)], image);
        assert image[..c.pageStart] + image[c.pageStart..c.pageStart + c.expected] == image[..c.pageStart + c.expected];
      } else {
        assert u.sent + [] == u.sent;
      }
    } else {
      assert u.sent + [] == u.sent;
    }
  }

  lemma ApplyUart(u: World, offset: U32, data: seq<bv8>)
    requires Sane(u)
    ensures var v := ApplyLocal(u, UartData(offset, data));
      var d := OnUartData(u.c, offset, data).c;
      && v.c == d && WellFormed(d)
      && v.sent == u.sent + if u.c.pc.Idle? && !d.pc.Idle? then d.buffer[..d.expected] else []
  {
    hide OnUartData;
    UartDataWellFormed(u.c, offset, data);
    BegunIs(u.c, OnUartData(u.c, offset, data).c);
  }

  lemma {:induction false} ImageAlways(w: World, s: Session, actions: seq<Action>, image: seq<bv8>)
    requires Begins(w, s) && |image| == s.size
    requires Exec(w, actions).Some? && Orderly(w, actions, image)
    ensures ImageInv(Exec(w, actions).value, Log(w, actions), image)
  {
    hide Begins, Inv, ImageInv, ApplyLocal, ApplyArrival, Sane, Enabled, Buffers, Disjoint;
    if actions == [] {
      InvInitially(w, s);
      ImageInitially(w, s, image);
    } else {
      var init, a := actions[..|actions| - 1], actions[|actions| - 1];
      var u := Exec(w, init).value;
      ImageAlways(w, s, init, image);
      InvAlways(w, s, init);
      ImageStep(u, s, a, Log(w, init), image);
    }
  }

  lemma ImageInitially(w: World, s: Session, image: seq<bv8>)
    requires Begins(w, s)
    ensures ImageInv(w, [], image)
  {
  }

  lemma ImageStep(u: World, s: Session, a: Action, log: seq<Chunk>, image: seq<bv8>)
    requires Inv(u, s) && Sane(u) && Enabled(u, a) && ImageInv(u, log, image) && s.size == |image|
    requires Buffering(u, a) ==>
      && a.input.offset + |a.input.data| <= |image|
      && a.input.data == image[a.input.offset..a.input.offset + |a.input.data|]
      && Disjoint(log + [ChunkOf(u, a)])
    ensures var v := Apply(u, a);
      ImageInv(v, if !Buffering(u, a) then log else if v.c.pc.Idle? then log + [ChunkOf(u, a)] else [], image)
  {
    hide Inv, ImageInv, ApplyLocal, ApplyArrival, Buffers, Disjoint;
    match a
    case Local(input) =>
      if input.UartData? {
        ChunkKeeps(u, s, a, log, image);
      } else {
        OtherInputKeeps(u, s, input, log, image);
      }
    case Arrives(to, p, hw) =>
      ArrivalFrame(u, to, p, hw);
      SameCoordinator(u, ApplyArrival(u, to, p, hw), log, image);
  }

  lemma SameCoordinator(u: World, v: World, log: seq<Chunk>, image: seq<bv8>)
    requires ImageInv(u, log, image) && v.c == u.c && v.sent == u.sent
    ensures ImageInv(v, log, image)
  {
  }

  /** If the UART side feeds disjoint pieces of an image, what the coordinator distributes is that image, page by
      page and in order. */
  lemma SentIsImage(w: World, s: Session, actions: seq<Action>, image: seq<bv8>)
    requires Begins(w, s) && |image| == s.size
    requires Exec(w, actions).Some? && Orderly(w, actions, image)
    ensures var sent := Exec(w, actions).value.sent;
      |sent| <= |image| && sent == image[..|sent|]
  {
    hide Begins, Orderly, Collected;
    ImageAlways(w, s, actions, image);
  }

  /** From the file to remote flash: when such a transfer completes, every node still in the session holds the image,
      and VERIFY with the sender's checksum of the file takes the match branch. */
  lemma ImageDelivered(w: World, s: Session, actions: seq<Action>, image: seq<bv8>)
    requires Begins(w, s) && |image| == s.size
    requires Exec(w, actions).Some? && Orderly(w, actions, image)
    requires TransferComplete(Exec(w, actions).value, s)
    ensures var v := Exec(w, actions).value;
      forall id :: id in v.c.nodes ==>
        && HasImage(v, s, id)
        && SlotBytes(v.peers[id].node, 0, s.size) == image
        && forall metadata :: HandleVerify(v.peers[id].node, Crc16(0, image), s.target, metadata).2 == Matched
  {
    hide Begins, Orderly, TransferComplete, Crc16;
    SentIsImage(w, s, actions, image);
    CompleteTransferVerifies(w, s, actions);
    var v := Exec(w, actions).value;
    forall id | id in v.c.nodes
      ensures HasImage(v, s, id) && SlotBytes(v.peers[id].node, 0, s.size) == image
      ensures forall metadata :: HandleVerify(v.peers[id].node, Crc16(0, image), s.target, metadata).2 == Matched
    {
      assert HasImage(v, s, id);
      assert image[..|image|] == image;
    }
  }
}
