/**
 What the coordinator answers to each UART command, and when: stated over the fields of the command and of the state.
 */
module UartAnswers {
  import opened Wire
  import opened Checksum16
  import opened Coordinator
  import opened Recovery
  import opened Assembly
  import opened UartSender
  import opened SessionSteps
  import opened Admission

  // ---------------------------------------------------------------- S

  /** An invalid target is refused with one line: the transfer is reset, the session is left alone, nothing is sent. */
  lemma InvalidTargetRefused(c: Coord, size: U32, secVer: U16, routes: seq<NodeId>)
    requires WellFormed(c)
    ensures var out := OnUartStart(c, size, secVer, 0xFF, routes);
      && out.lines == [NoTargets] && out.packets == [] && out.exit == None
      && out.c == c.(fileSize := 0, pageStart := 0, received := 0, expected := 0, inProgress := false)
      && forall offset: U32, data: seq<bv8> :: !Buffers(out.c, offset, data)
  {
  }

  /** Without routes there is no session, no window and no packet. */
  lemma NoRoutesRefused(c: Coord, size: U32, secVer: U16, target: U8)
    requires WellFormed(c) && target != 0xFF
    ensures var out := OnUartStart(c, size, secVer, target, []);
      && out.lines == [NoTargets] && out.packets == [] && out.exit == None
      && out.c.nodes == [] && !out.c.admitting && out.c.target == c.target
      && forall offset: U32, data: seq<bv8> :: !Buffers(out.c, offset, data)
  {
  }

  /** Any other START goes out once, with the size, version and target of the command, to a session of the first 16
      routes, none of which has replied; nothing is printed before the window closes. */
  lemma StartOpensWindow(c: Coord, size: U32, secVer: U16, target: U8, routes: seq<NodeId>)
    requires WellFormed(c) && target != 0xFF && routes != []
    ensures var out := OnUartStart(c, size, secVer, target, routes);
      && out.packets == [Packet.Start(size, secVer, target)] && out.lines == [] && out.exit == None
      && out.c.nodes == (if |routes| <= 16 then routes else routes[..16])
      && Opened(out.c) && out.c.target == target && out.c.fileSize == size && out.c.pageStart == 0
      && out.c.received == 0 && !out.c.inProgress && out.c.expected == (if size <= 4096 then size else 4096)
      && out.c.buffer == c.buffer && out.c.pc == c.pc
  {
    if |routes| <= 16 {
      assert routes[..|routes|] == routes;
    }
  }

  // ---------------------------------------------------------------- V

  /** VERIFY carries the checksum of the command and the target of the session, and is acknowledged; without nodes
      nothing is sent. */
  lemma VerifyAnswer(c: Coord, crc: bv16)
    ensures var out := OnUartVerify(c, crc);
      && out.c == c && out.exit == None
      && (if c.nodes != [] then
            |out.packets| == 1 && out.packets[0].Verify? && out.packets[0].crc == crc && out.packets[0].slot == c.target
            && out.lines == [Ack]
          else out.packets == [] && out.lines == [NoTargets])
  {
  }

  // ---------------------------------------------------------------- D

  /** The coordinator takes a chunk: it has a session, no window and no distribution is open, and the chunk lies in the
      expected page. */
  predicate Takes(c: Coord, offset: nat, size: nat) {
    && c.nodes != [] && !c.admitting && !c.inProgress
    && c.pageStart <= offset < c.pageStart + c.expected && offset + size <= c.pageStart + c.expected
  }

  /** Each DATA command is answered by FW:ACK, as its first line, exactly if its bytes enter the buffer, and by
      FW:NO_TARGETS exactly if there is neither a session node nor an open window. There is no other line. */
  lemma DataAnswer(c: Coord, offset: U32, data: seq<bv8>)
    requires WellFormed(c)
    ensures var out := OnUartData(c, offset, data);
      && (out.lines == [Ack] <==> Takes(c, offset, |data|))
      && (out.lines == [NoTargets] <==> c.nodes == [] && !c.admitting)
      && (out.lines == [] || out.lines == [Ack] || out.lines == [NoTargets])
      && out.packets == [] && out.exit == None && |out.c.buffer| == 4096
      && (forall i :: 0 <= i < 4096 ==>
        var at := c.pageStart + i;
        out.c.buffer[i] == if Takes(c, offset, |data|) && offset <= at < offset + |data| then data[at - offset]
                           else c.buffer[i])
      && (if Takes(c, offset, |data|) then out.c.received == (c.received + |data|) % 0x1_0000 else out.c == c)
  {
    hide Crc16;
    if Buffers(c, offset, data) {
      assert [Ack] + [] == [Ack];
    }
  }

  /** The chunk that fills the page closes the buffer, whether or not the process is still busy with another page: every
      later chunk is ignored in silence. Any other chunk leaves it open. */
  lemma FullPageCloses(c: Coord, offset: U32, data: seq<bv8>, later: U32, more: seq<bv8>)
    requires WellFormed(c) && Takes(c, offset, |data|)
    ensures var d := OnUartData(c, offset, data).c;
      && WellFormed(d) && (d.inProgress <==> (c.received + |data|) % 0x1_0000 == c.expected)
      && d.pc == (if c.pc.Idle? && d.inProgress then FirstPass(0) else c.pc)
      && (d.inProgress ==> OnUartData(d, later, more) == Out(d, [], [], None))
  {
    hide Crc16;
  }

  /** The DATA commands for some chunks of the current page. */
  function Commands(base: nat, chunks: seq<Chunk>): (r: seq<Input>)
    requires forall k :: 0 <= k < |chunks| ==> base + chunks[k].at < 0x1_0000_0000
  {
    if chunks == [] then []
    else
      var k := chunks[|chunks| - 1];
      Commands(base, chunks[..|chunks| - 1]) + [UartData(base + k.at, k.data)]
  }

  lemma {:induction false} CommandsFeed(c: Coord, chunks: seq<Chunk>)
    requires WellFormed(c) && forall k :: 0 <= k < |chunks| ==> c.pageStart + chunks[k].at < 0x1_0000_0000
    ensures Run(c, Commands(c.pageStart, chunks)) == Feed(c, chunks)
  {
    hide OnUartData;
    if chunks == [] {
    } else {
      var init, k := chunks[..|chunks| - 1], chunks[|chunks| - 1];
      CommandsFeed(c, init);
      RunSnoc(c, Commands(c.pageStart, init), UartData(c.pageStart + k.at, k.data));
      StepOfData(Feed(c, init), c.pageStart + k.at, k.data);
    }
  }

  lemma StepOfData(c: Coord, offset: U32, data: seq<bv8>)
    requires WellFormed(c)
    ensures Step(c, UartData(offset, data)) == OnUartData(c, offset, data)
  {
  }

  /** `n` acknowledgements. */
  function Acks(n: nat): (r: seq<Line>)
    ensures |r| == n && forall l :: l in r ==> l == Ack
  {
    seq(n, _ => Ack)
  }

  lemma OffsetsFit(c: Coord, chunks: seq<Chunk>)
    requires WellFormed(c) && AllInside(chunks, c.expected)
    ensures forall k :: 0 <= k < |chunks| ==> c.pageStart + chunks[k].at < 0x1_0000_0000
  {
    forall k | 0 <= k < |chunks|
      ensures c.pageStart + chunks[k].at < 0x1_0000_0000
    {
      assert Inside(chunks[k], c.expected);
    }
  }

  lemma CommandsSnoc(base: nat, chunks: seq<Chunk>)
    requires chunks != [] && forall k :: 0 <= k < |chunks| ==> base + chunks[k].at < 0x1_0000_0000
    ensures var init, k := chunks[..|chunks| - 1], chunks[|chunks| - 1];
      Commands(base, chunks) == Commands(base, init) + [UartData(base + k.at, k.data)]
  {
  }

  /** The last of some chunks is acknowledged. */
  lemma LastAcknowledged(c: Coord, chunks: seq<Chunk>)
    requires chunks != [] && Collecting(c) && c.received == 0 && AllInside(chunks, c.expected)
    requires NotBefore(chunks, c.expected) && forall k :: 0 <= k < |chunks| ==> chunks[k].data != []
    ensures var init, k := chunks[..|chunks| - 1], chunks[|chunks| - 1];
      && c.pageStart + k.at < 0x1_0000_0000
      && Step(Feed(c, init), UartData(c.pageStart + k.at, k.data)).lines == [Ack]
  {
    hide Feed, NotBefore, OnUartData, Step, Collecting, AllInside;
    CollectingParts(c);
    OffsetsFit(c, chunks);
    var init, k := chunks[..|chunks| - 1], chunks[|chunks| - 1];
    ChunkTaken(c, chunks);
    StepOfData(Feed(c, init), c.pageStart + k.at, k.data);
    DataAnswer(Feed(c, init), c.pageStart + k.at, k.data);
  }

  lemma NothingPrinted(c: Coord, base: nat)
    requires WellFormed(c)
    ensures Lines(c, Commands(base, [])) == Acks(0)
  {
  }

  lemma {:induction false} ChunksAcknowledged(c: Coord, chunks: seq<Chunk>)
    requires Collecting(c) && c.received == 0 && AllInside(chunks, c.expected) && NotBefore(chunks, c.expected)
    requires forall k :: 0 <= k < |chunks| ==> chunks[k].data != []
    ensures forall k :: 0 <= k < |chunks| ==> c.pageStart + chunks[k].at < 0x1_0000_0000
    ensures Lines(c, Commands(c.pageStart, chunks)) == Acks(|chunks|)
  {
    hide NotBefore, Feed, Collecting, AllInside, Step, Run, Lines, Commands;
    CollectingParts(c);
    OffsetsFit(c, chunks);
    if chunks == [] {
      NothingPrinted(c, c.pageStart);
    } else {
      var init, k := chunks[..|chunks| - 1], chunks[|chunks| - 1];
      NotBeforePrefix(chunks, c.expected);
      InsidePrefix(chunks, c.expected);
      ChunksAcknowledged(c, init);
      CommandsFeed(c, init);
      CommandsSnoc(c.pageStart, chunks);
      LastAcknowledged(c, chunks);
      LinesSnoc(c, Commands(c.pageStart, init), UartData(c.pageStart + k.at, k.data));
      assert Acks(|init|) + [Ack] == Acks(|chunks|);
    }
  }

  lemma CollectingParts(c: Coord)
    requires Collecting(c)
    ensures WellFormed(c)
  {
  }

  lemma InsidePrefix(chunks: seq<Chunk>, n: nat)
    requires AllInside(chunks, n) && chunks != []
    ensures AllInside(chunks[..|chunks| - 1], n)
  {
  }

  lemma ChunkTaken(c: Coord, chunks: seq<Chunk>)
    requires chunks != [] && Collecting(c) && c.received == 0 && AllInside(chunks, c.expected)
    requires NotBefore(chunks, c.expected) && forall k :: 0 <= k < |chunks| ==> chunks[k].data != []
    ensures var init, k := chunks[..|chunks| - 1], chunks[|chunks| - 1];
      && c.pageStart + k.at < 0x1_0000_0000
      && Takes(Feed(c, init), c.pageStart + k.at, |k.data|)
  {
    hide Feed, Filled, Total, Count16, NotBefore;
    var init, k := chunks[..|chunks| - 1], chunks[|chunks| - 1];
    NotBeforePrefix(chunks, c.expected);
    InsidePrefix(chunks, c.expected);
    FeedCollects(c, init);
    assert Inside(k, c.expected);
    if init == [] {
      EmptyFeed(c);
    } else {
      PrefixCount(init, c.expected);
    }
  }

  lemma EmptyFeed(c: Coord)
    requires WellFormed(c)
    ensures Feed(c, []) == c
  {
  }

  lemma PrefixCount(init: seq<Chunk>, n: nat)
    requires Total(init) % 0x1_0000 != n
    ensures Count16(Total(init)) != n
  {
  }

  // ---------------------------------------------------------------- a page

  /** While a page is distributed, no line but FW:PAGE_OK is printed, and that ends the distribution. */
  lemma DistributionAnswers(c: Coord, input: Input)
    requires WellFormed(c) && !c.pc.Idle? && c.inProgress && !c.admitting && c.nodes != []
    requires !input.UartStart? && !input.UartVerify?
    ensures var out := Step(c, input);
      if out.c.pc.Idle? then out.lines == [PageOk]
      else out.lines == [] && out.c.inProgress && !out.c.admitting && out.c.nodes != []
  {
    hide PageIsComplete, Missed, ChunkPacket, Find, Overwrite, Begin, FinishAdmission, Top, AfterWait, OnReportTimeout;
    StepWellFormed(c, input);
    match input
    case Resume => ResumeAnswers(c);
    case BitmapEvent => WaitAnswers(c);
    case _ =>
  }

  lemma HeadAnswers(c: Coord)
    requires WellFormed(c) && c.inProgress && !c.admitting && c.nodes != [] && !c.pc.Idle?
    ensures var out := Top(c);
      if out.c.pc.Idle? then out.lines == [PageOk]
      else out.lines == [] && out.c.inProgress && !out.c.admitting && out.c.nodes != []
  {
    hide PageIsComplete;
  }

  lemma WaitAnswers(c: Coord)
    requires WellFormed(c) && c.inProgress && !c.admitting && c.nodes != [] && !c.pc.Idle?
    ensures var out := AfterWait(c);
      if out.c.pc.Idle? then out.lines == [PageOk]
      else out.lines == [] && out.c.inProgress && !out.c.admitting && out.c.nodes != []
  {
    hide PageIsComplete;
  }

  lemma ResumeAnswers(c: Coord)
    requires WellFormed(c) && c.inProgress && !c.admitting && c.nodes != [] && !c.pc.Idle?
    ensures var out := OnResume(c);
      if out.c.pc.Idle? then out.lines == [PageOk]
      else out.lines == [] && out.c.inProgress && !out.c.admitting && out.c.nodes != []
  {
    hide PageIsComplete, Missed, ChunkPacket, Top, AfterWait, Keep, KeepRows, SomeReplied;
    match c.pc
    case FirstPass(_) => HeadAnswers(c.(round := 0));
    case SendEnd =>
    case Waiting =>
      var d := c.(retry := c.retry + 1);
      if SomeReplied(d) {
        DropFields(d);
        WaitAnswers(Drop(d));
      }
    case ResendEnd =>
    case Recover(_) => HeadAnswers(c);
  }

  /** From the first wake-up on, whatever arrives: nothing is printed until the distribution ends with FW:PAGE_OK. */
  lemma {:induction false} SilentUntilPageOk(c: Coord, inputs: seq<Input>)
    requires WellFormed(c) && !c.pc.Idle? && c.inProgress && !c.admitting && c.nodes != []
    requires forall x :: x in inputs ==> !x.UartStart? && !x.UartVerify?
    ensures var d := Run(c, inputs);
      if Lines(c, inputs) == [] then !d.pc.Idle? && d.inProgress && !d.admitting && d.nodes != []
      else Lines(c, inputs)[0] == PageOk
  {
    hide Step;
    if inputs == [] {
    } else {
      var init, last := inputs[..|inputs| - 1], inputs[|inputs| - 1];
      assert last in inputs;
      SilentUntilPageOk(c, init);
      if Lines(c, init) == [] {
        DistributionAnswers(Run(c, init), last);
      }
    }
  }

  lemma {:induction false} LinesConcat(c: Coord, s: seq<Input>, t: seq<Input>)
    requires WellFormed(c)
    ensures Lines(c, s + t) == Lines(c, s) + Lines(Run(c, s), t)
    decreases |t|
  {
    hide Step, Run, Lines;
    if t == [] {
      LinesSnoc(Run(c, s), [], Resume);
      assert s + t == s;
    } else {
      var u, last := t[..|t| - 1], t[|t| - 1];
      assert s + t == (s + u) + [last] && t == u + [last];
      LinesConcat(c, s, u);
      RunConcat(c, s, u);
      LinesSnoc(c, s + u, last);
      LinesSnoc(Run(c, s), u, last);
    }
  }

  /** The sender's commands of a page: each is acknowledged once, and the next line after the acknowledgements, whatever
      arrives meanwhile, is FW:PAGE_OK. */
  lemma PageDialogue(c: Coord, image: seq<bv8>, cmds: seq<Command>, later: seq<Input>)
    requires Collecting(c) && c.received == 0 && c.pageStart + c.expected <= |image|
    requires Cut(Relative(cmds, c.pageStart), image[c.pageStart..c.pageStart + c.expected], c.expected)
    requires forall x :: x in later ==> !x.UartStart? && !x.UartVerify?
    ensures forall k :: 0 <= k < |cmds| ==> c.pageStart + Relative(cmds, c.pageStart)[k].at < 0x1_0000_0000
    ensures var lines := Lines(c, Commands(c.pageStart, Relative(cmds, c.pageStart)) + later);
      && |lines| >= |cmds| && (forall k :: 0 <= k < |cmds| ==> lines[k] == Ack)
      && (|lines| > |cmds| ==> lines[|cmds|] == PageOk)
  {
    hide Feed, Commands, Lines, Collecting, NotBefore, Fed, Disjoint, Carries, Total;
    var chunks := Relative(cmds, c.pageStart);
    CollectingParts(c);
    CutNotBefore(c, chunks, image[c.pageStart..c.pageStart + c.expected]);
    ChunksAcknowledged(c, chunks);
    CommandsFeed(c, chunks);
    CommandsFillPage(c, image, cmds);
    FeedCollects(c, chunks);
    var d := Feed(c, chunks);
    FedRuns(c, chunks, d);
    SilentUntilPageOk(d, later);
    LinesConcat(c, Commands(c.pageStart, chunks), later);
  }

  /** What the last command of a page sets going: the first pass at chunk 0, with the checksum of the page, the number
      of its 64-byte chunks, and no chunk reported. */
  lemma DistributionBegins(c: Coord, offset: U32, data: seq<bv8>)
    requires Collecting(c) && Takes(c, offset, |data|) && (c.received + |data|) % 0x1_0000 == c.expected
    ensures var d := OnUartData(c, offset, data).c;
      && WellFormed(d) && d.pc == FirstPass(0) && d.inProgress && d.total == (c.expected + 63) / 64
      && d.pageCrc == Crc16(0, d.buffer[..c.expected])
      && (forall i :: 0 <= i < 16 ==> d.bitmaps[i] == {})
      && d.nodes == c.nodes && d.target == c.target && d.pageStart == c.pageStart && d.expected == c.expected
  {
    hide Crc16;
    UartDataWellFormed(c, offset, data);
  }

  lemma CutNotBefore(c: Coord, chunks: seq<Chunk>, page: seq<bv8>)
    requires Cut(chunks, page, c.expected) && c.expected <= 4096
    ensures NotBefore(chunks, c.expected)
    ensures forall k :: 0 <= k < |chunks| ==> chunks[k].data != []
    ensures AllInside(chunks, c.expected)
  {
    hide Disjoint, Carries, Total;
    forall k | 0 < k < |chunks|
      ensures Total(chunks[..k]) % 0x1_0000 != c.expected
    {
      TotalGrows(chunks, k);
    }
  }

  lemma FedRuns(c: Coord, chunks: seq<Chunk>, d: Coord)
    requires Collecting(c) && AllInside(chunks, |c.buffer|) && Fed(c, chunks, d) && d.inProgress
    ensures WellFormed(d) && !d.pc.Idle? && d.inProgress && !d.admitting && d.nodes != []
  {
  }
}
