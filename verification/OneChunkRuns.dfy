/**
 Runs of the coordinator with one node and pages of one chunk, in which what FW:PAGE_OK and START seem to promise fails.
 */
module OneChunkRuns {
  import opened Wire
  import opened Checksum16
  import opened Coordinator
  import opened Recovery
  import opened StaleBytes

  // ---------------------------------------------------------------- single inputs

  function OneFlag(): seq<bool> {
    NoFlags()[0 := true]
  }

  lemma KeepOne<T>(xs: seq<T>, rows: seq<set<nat>>, flags: seq<bool>)
    requires |xs| == 1 && |rows| == MAX_NODES && |flags| == MAX_NODES && flags[0]
    ensures Keep(xs, flags) == xs && KeepRows(rows, 1, flags) == rows
  {
    assert xs[..0] == [] && rows[..1][..0] == [];
    assert Keep(rows[..1], flags) == rows[..1];
    assert rows[..1] + rows[1..] == rows;
  }

  lemma FindOne(id: NodeId)
    ensures Find([id], id) == 0
  {
    assert [id][..0] == [];
  }

  /** START for one routed node, and its acceptance. A distribution that is under way goes on. */
  lemma Open(c: Coord, size: U32, secVer: U16, target: U8, id: NodeId)
    requires WellFormed(c) && target != TARGET_INVALID
    ensures
      var d := Step(c, UartStart(size, secVer, target, [id])).c;
      && WellFormed(d) && d.admitting && d.pc == c.pc
      && var out := Step(d, StartReport(id, START_ACCEPTED));
      && WellFormed(out.c) && out.lines == [Ack]
      && out.c == ResetTransfer(c, size).(
           target := target, nodes := [id], admitting := false, replied := OneFlag(), accepted := OneFlag())
  {
    hide Keep, KeepRows, Find;
    var d := Step(c, UartStart(size, secVer, target, [id])).c;
    assert [id][..1] == [id];
    StepWellFormed(c, UartStart(size, secVer, target, [id]));
    StepWellFormed(d, StartReport(id, START_ACCEPTED));
    FindOne(id);
    KeepOne([id], d.bitmaps, Accepting(d.(replied := OneFlag(), accepted := OneFlag())));
  }

  /** The coordinator waits for a page of one byte for its one node. */
  predicate Awaits(c: Coord, id: NodeId) {
    && WellFormed(c) && !c.admitting && c.nodes == [id] && !c.inProgress && c.pc.Idle?
    && c.expected == 1 && c.received == 0
  }

  /** The byte of the page begins its distribution. */
  lemma OneByte(c: Coord, id: NodeId, x: bv8)
    requires Awaits(c, id)
    ensures var out := Step(c, UartData(c.pageStart, [x]));
      && Starts(c, UartData(c.pageStart, [x])) && out.lines == [Ack]
      && out.c == c.(buffer := Overwrite(c.buffer, 0, [x]), received := 1, inProgress := true, total := 1,
                     pageCrc := Crc16(0, Overwrite(c.buffer, 0, [x])[..1]), bitmaps := seq(MAX_NODES, _ => {}),
                     pc := FirstPass(0))
  {
    hide Overwrite, Crc16;
    assert Buffers(c, c.pageStart, [x]);
    assert [Ack] + [] == [Ack];
  }

  /** A distribution of one chunk to one node, which lacks it. */
  predicate Lacking(c: Coord, id: NodeId) {
    WellFormed(c) && !c.admitting && c.nodes == [id] && c.total == 1 && c.bitmaps[0] == {}
  }

  lemma LackingIncomplete(c: Coord, id: NodeId)
    requires Lacking(c, id)
    ensures !PageIsComplete(c) && Missed(c, 0)
  {
    assert 0 !in c.bitmaps[0];
  }

  lemma SendFirst(c: Coord, id: NodeId)
    requires Lacking(c, id) && c.pc == FirstPass(0)
    ensures var out := Step(c, Resume);
      out.c == c.(pc := FirstPass(1)) && out.packets == [ChunkPacket(c, 0)] && Lacking(out.c, id)
  {
  }

  /** A round begins, if the limit allows. */
  function Round(c: Coord, r: nat): Coord {
    c.(round := r, replied := NoFlags(), retry := 0, pc := SendEnd,
       endPkt := Packet.PageEnd(c.pageStart, c.pageCrc, c.target))
  }

  lemma BeginRounds(c: Coord, id: NodeId)
    requires Lacking(c, id) && c.pc == FirstPass(1)
    ensures Step(c, Resume).c == Round(c, 1) && Lacking(Round(c, 1), id)
  {
    hide PageIsComplete;
    LackingIncomplete(c.(round := 0), id);
  }

  /** PAGE_END goes out, the node replies, and the process takes note. */
  lemma Answer(c: Coord, id: NodeId, r: nat, chunks: set<nat>)
    requires Lacking(c, id) && c == Round(c, r)
    ensures
      var w := Step(c, Resume).c;
      && w == c.(pc := Waiting)
      && var b := Step(w, BitmapReport(id, Report(c.pageStart, chunks))).c;
      && WellFormed(b) && b == w.(replied := OneFlag(), bitmaps := c.bitmaps[0 := chunks])
      && var out := Step(b, BitmapEvent);
      out == if 0 in chunks then Leave(b, Complete) else Quiet(b.(pc := Recover(0)))
  {
    hide Find, Leave;
    FindOne(id);
    var w := c.(pc := Waiting);
    var b := w.(replied := OneFlag(), bitmaps := c.bitmaps[0 := chunks]);
    StepWellFormed(w, BitmapReport(id, Report(c.pageStart, chunks)));
    if 0 in chunks {
      assert PageIsComplete(b);
    } else {
      assert 0 !in b.bitmaps[0];
    }
  }

  lemma Resend(c: Coord, id: NodeId)
    requires Lacking(c, id) && c.pc == Recover(0)
    ensures Step(c, Resume).c == c.(pc := Recover(1)) && Step(c, Resume).packets == [ChunkPacket(c, 0)]
  {
    LackingIncomplete(c, id);
  }

  lemma NextRound(c: Coord, id: NodeId)
    requires Lacking(c, id) && c.pc == Recover(1)
    ensures Step(c, Resume) == if c.round >= MAX_ROUNDS then Leave(c, RoundLimit) else Quiet(Round(c, c.round + 1))
  {
    hide PageIsComplete, Leave;
    LackingIncomplete(c, id);
  }

  // ---------------------------------------------------------------- FW:PAGE_OK without the page

  /** The inputs of a round with an empty reply, up to the wake-up that ends it. */
  function EmptyRound(id: NodeId, page: U32): seq<Input> {
    [Resume, BitmapReport(id, Report(page, {})), BitmapEvent, Resume]
  }

  function Next(c: Coord, input: Input): (d: Coord)
    requires WellFormed(c)
    ensures WellFormed(d)
  {
    StepWellFormed(c, input);
    Step(c, input).c
  }

  lemma RunThree(c: Coord, i1: Input, i2: Input, i3: Input)
    requires WellFormed(c)
    ensures Run(c, [i1, i2, i3]) == Next(Next(Next(c, i1), i2), i3)
  {
    hide Step;
    RunSnoc(c, [], i1);
    RunSnoc(c, [i1], i2);
    RunSnoc(c, [i1, i2], i3);
    assert [] + [i1] == [i1] && [i1] + [i2] == [i1, i2] && [i1, i2] + [i3] == [i1, i2, i3];
  }

  lemma RunFour(c: Coord, i1: Input, i2: Input, i3: Input, i4: Input)
    requires WellFormed(c)
    ensures Run(c, [i1, i2, i3, i4]) == Next(Next(Next(Next(c, i1), i2), i3), i4)
  {
    hide Step, Run;
    RunThree(c, i1, i2, i3);
    RunSnoc(c, [i1, i2, i3], i4);
    assert [i1, i2, i3] + [i4] == [i1, i2, i3, i4];
  }

  lemma EmptyAnswer(c: Coord, id: NodeId, r: nat)
    requires Lacking(c, id) && c == Round(c, r)
    ensures var d := Run(c, EmptyRound(id, c.pageStart));
      && Lacking(d, id) && d == c.(replied := OneFlag(), bitmaps := c.bitmaps[0 := {}], pc := Recover(1))
  {
    hide Step, Leave, Run;
    Answer(c, id, r, {});
    var e := c.(replied := OneFlag(), bitmaps := c.bitmaps[0 := {}], pc := Recover(0));
    Resend(e, id);
    RunFour(c, Resume, BitmapReport(id, Report(c.pageStart, {})), BitmapEvent, Resume);
  }

  /** `k` rounds, each with an empty reply and the wake-up that begins the next one. */
  function EmptyRounds(id: NodeId, page: U32, k: nat): seq<Input> {
    if k == 0 then [] else EmptyRounds(id, page, k - 1) + (EmptyRound(id, page) + [Resume])
  }

  lemma {:induction false} RoundsGoOn(c: Coord, id: NodeId, k: nat)
    requires Lacking(c, id) && c == Round(c, 1) && k < MAX_ROUNDS
    ensures var d := Run(c, EmptyRounds(id, c.pageStart, k));
      && Lacking(d, id) && d == Round(d, k + 1) && d.pageStart == c.pageStart
  {
    hide Step, Leave, Run;
    if k == 0 {
      RunSnoc(c, [], Resume);
    } else {
      var before := EmptyRounds(id, c.pageStart, k - 1);
      RoundsGoOn(c, id, k - 1);
      var d := Run(c, before);
      EmptyAnswer(d, id, k);
      var e := Run(d, EmptyRound(id, c.pageStart));
      NextRound(e, id);
      RunSnoc(d, EmptyRound(id, c.pageStart), Resume);
      RunConcat(c, before, EmptyRound(id, c.pageStart) + [Resume]);
    }
  }

  /** From an idle coordinator: START, the acceptance, a one-byte file, its chunk, and ten rounds in which the one node
      answers that it holds nothing. The next wake-up prints FW:PAGE_OK, and the chunk is still missing. */
  lemma PageOkWithoutPage(c: Coord, secVer: U16, target: U8, id: NodeId, x: bv8) returns (inputs: seq<Input>)
    requires WellFormed(c) && c.pc.Idle? && target != TARGET_INVALID
    ensures inputs == [UartStart(1, secVer, target, [id]), StartReport(id, START_ACCEPTED), UartData(0, [x]), Resume]
                      + [Resume] + EmptyRounds(id, 0, 9) + EmptyRound(id, 0)
    ensures var out := Step(Run(c, inputs), Resume);
      && out.lines == [PageOk] && out.exit == Some(RoundLimit)
      && WellFormed(out.c) && out.c.nodes == [id] && out.c.total == 1 && Missed(out.c, 0)
  {
    hide Step, Leave, Run, Missed, Crc16, Overwrite, EmptyRounds;
    var first := [UartStart(1, secVer, target, [id]), StartReport(id, START_ACCEPTED), UartData(0, [x]), Resume];
    var f := FirstByte(c, secVer, target, id, x);
    RunSnoc(c, first, Resume);
    BeginRounds(f, id);
    var g := Round(f, 1);
    RoundsGoOn(g, id, 9);
    var h := Run(g, EmptyRounds(id, 0, 9));
    EmptyAnswer(h, id, 10);
    var e := Run(h, EmptyRound(id, 0));
    NextRound(e, id);
    LimitReached(e, id);
    RunConcat(c, first + [Resume], EmptyRounds(id, 0, 9));
    RunConcat(c, first + [Resume] + EmptyRounds(id, 0, 9), EmptyRound(id, 0));
    inputs := first + [Resume] + EmptyRounds(id, 0, 9) + EmptyRound(id, 0);
  }

  /** The state after the byte has been distributed for the first time. */
  lemma FirstByte(c: Coord, secVer: U16, target: U8, id: NodeId, x: bv8) returns (f: Coord)
    requires WellFormed(c) && c.pc.Idle? && target != TARGET_INVALID
    ensures
      f == Run(c, [UartStart(1, secVer, target, [id]), StartReport(id, START_ACCEPTED), UartData(0, [x]), Resume])
    ensures Lacking(f, id) && f.pc == FirstPass(1) && f.pageStart == 0
  {
    hide Step, Run, Crc16, Overwrite;
    Open(c, 1, secVer, target, id);
    var d := Step(Step(c, UartStart(1, secVer, target, [id])).c, StartReport(id, START_ACCEPTED)).c;
    OneByte(d, id, x);
    var e := Step(d, UartData(0, [x])).c;
    StepWellFormed(d, UartData(0, [x]));
    SendFirst(e, id);
    RunFour(c, UartStart(1, secVer, target, [id]), StartReport(id, START_ACCEPTED), UartData(0, [x]), Resume);
    f := Step(e, Resume).c;
  }

  lemma LimitReached(c: Coord, id: NodeId)
    requires Lacking(c, id)
    ensures var out := Leave(c, RoundLimit);
      && out.lines == [PageOk] && out.exit == Some(RoundLimit)
      && WellFormed(out.c) && out.c.nodes == [id] && out.c.total == 1 && Missed(out.c, 0)
  {
    assert 0 !in Leave(c, RoundLimit).c.bitmaps[0];
  }

  // ---------------------------------------------------------------- START during a distribution

  /** A distribution of a one-byte page has just begun. */
  lemma Distributed(c: Coord, secVer: U16, target: U8, id: NodeId, x: bv8) returns (f: Coord)
    requires WellFormed(c) && c.pc.Idle? && target != TARGET_INVALID
    ensures f == Run(c, [UartStart(1, secVer, target, [id]), StartReport(id, START_ACCEPTED), UartData(0, [x])])
    ensures Lacking(f, id) && f.pc == FirstPass(0) && f.buffer[0] == x
  {
    hide Step, Run, Crc16;
    Open(c, 1, secVer, target, id);
    var d := Next(Next(c, UartStart(1, secVer, target, [id])), StartReport(id, START_ACCEPTED));
    OneByte(d, id, x);
    RunThree(c, UartStart(1, secVer, target, [id]), StartReport(id, START_ACCEPTED), UartData(0, [x]));
    f := Next(d, UartData(0, [x]));
  }

  /** What follows the second START: its acceptance, the rest of the old pass, one answered round. */
  function Rest(id: NodeId): seq<Input> {
    [StartReport(id, START_ACCEPTED), Resume, Resume] + [Resume, BitmapReport(id, Report(0, {0})), BitmapEvent]
  }

  /** The state from which page 4096 begins. */
  lemma RestRuns(f: Coord, secVer: U16, target: U8, id: NodeId)
    requires Lacking(f, id) && f.pc == FirstPass(0) && target != TARGET_INVALID
    ensures
      var d := Next(f, UartStart(4097, secVer, target, [id]));
      var e := Run(d, Rest(id));
      && d == OnUartStart(f, 4097, secVer, target, [id]).c && OnePage(d, Rest(id))
      && Awaits(e, id) && e.pageStart == 4096
      && Step(Next(d, StartReport(id, START_ACCEPTED)), Resume).packets
         == [Packet.Data(0, 64, target, f.buffer[..64])]
  {
    hide Step, Run, Crc16, OnUartStart, Leave, Starts, OnePage, Top;
    var d := Next(f, UartStart(4097, secVer, target, [id]));
    StepOfStart(f, 4097, secVer, target, [id]);
    Open(f, 4097, secVer, target, id);
    var a := Next(d, StartReport(id, START_ACCEPTED));
    SendFirst(a, id);
    OldChunk(a);
    var b := Next(a, Resume);
    BeginRounds(b, id);
    var g := Next(b, Resume);
    Answer(g, id, 1, {0});
    var w := Next(g, Resume);
    var h := Next(w, BitmapReport(id, Report(0, {0})));
    LeavesPageZero(h, id);
    RunThree(d, StartReport(id, START_ACCEPTED), Resume, Resume);
    RunThree(g, Resume, BitmapReport(id, Report(0, {0})), BitmapEvent);
    RunConcat(d, [StartReport(id, START_ACCEPTED), Resume, Resume],
              [Resume, BitmapReport(id, Report(0, {0})), BitmapEvent]);
    NoPageBegins(d, a, b, g, w, h, id);
  }

  lemma OldChunk(c: Coord)
    requires WellFormed(c) && c.pageStart == 0 && c.expected == 4096
    ensures ChunkPacket(c, 0) == Packet.Data(0, 64, c.target, c.buffer[..64])
  {
  }

  lemma LeavesPageZero(c: Coord, id: NodeId)
    requires WellFormed(c) && c.nodes == [id] && !c.admitting && c.pageStart == 0 && c.expected == 4096
    requires c.fileSize == 4097
    ensures Awaits(Leave(c, Complete).c, id) && Leave(c, Complete).c.pageStart == 4096
  {
  }

  /** The process is running before every input of the rest, so that none of them begins a page. */
  lemma NoPageBegins(d: Coord, a: Coord, b: Coord, g: Coord, w: Coord, h: Coord, id: NodeId)
    requires WellFormed(d) && a == Next(d, StartReport(id, START_ACCEPTED)) && b == Next(a, Resume)
    requires g == Next(b, Resume) && w == Next(g, Resume) && h == Next(w, BitmapReport(id, Report(0, {0})))
    requires !d.pc.Idle? && !a.pc.Idle? && !b.pc.Idle? && !g.pc.Idle? && !w.pc.Idle? && !h.pc.Idle?
    ensures OnePage(d, Rest(id))
  {
    hide Step, Run, Starts;
    var i := Rest(id);
    RunThree(d, i[0], i[1], i[2]);
    RunSnoc(d, [], i[0]);
    RunSnoc(d, [i[0]], i[1]);
    RunSnoc(d, [i[0], i[1], i[2]], i[3]);
    RunSnoc(d, [i[0], i[1], i[2], i[3]], i[4]);
    assert [] + [i[0]] == [i[0]] && [i[0]] + [i[1]] == [i[0], i[1]];
    assert i[..0] == [] && i[..1] == [i[0]] && i[..2] == [i[0], i[1]] && i[..3] == [i[0], i[1], i[2]];
    assert i[..4] == [i[0], i[1], i[2]] + [i[3]] == [i[0], i[1], i[2], i[3]];
    assert i[..5] == [i[0], i[1], i[2], i[3]] + [i[4]];
    forall k | 0 <= k < |i|
      ensures !Starts(Run(d, i[..k]), i[k])
    {
      assert Run(d, i[..k]) in [d, a, b, g, w, h];
      NotStarting(Run(d, i[..k]), i[k]);
    }
  }

  /** A run in which page 0 is skipped. A one-byte file is being distributed when a START for 4097 bytes comes in. The
      old pass sends the old page's byte as the first byte of the new file, to the new target; the page loop ends; and
      the first page of the new file whose distribution begins is page 4096. */
  lemma PageZeroSkipped(c: Coord, secVer: U16, target: U8, second: U8, id: NodeId, x: bv8, y: bv8) returns (f: Coord)
    requires WellFormed(c) && c.pc.Idle? && target != TARGET_INVALID && second != TARGET_INVALID
    ensures f == Run(c, [UartStart(1, secVer, target, [id]), StartReport(id, START_ACCEPTED), UartData(0, [x])])
    ensures WellFormed(f) && !f.pc.Idle?
    ensures
      var d := OnUartStart(f, 4097, secVer, second, [id]).c;
      && WellFormed(d) && OnePage(d, Rest(id))
      && Starts(Run(d, Rest(id)), UartData(4096, [y])) && Run(d, Rest(id)).pageStart == 4096
    ensures f.buffer[0] == x
    ensures
      Step(Run(OnUartStart(f, 4097, secVer, second, [id]).c, [StartReport(id, START_ACCEPTED)]), Resume).packets
      == [Packet.Data(0, 64, second, f.buffer[..64])]
  {
    hide Step, Run, OnUartStart, OnePage, Starts;
    f := Distributed(c, secVer, target, id, x);
    RestRuns(f, secVer, second, id);
    var d := Next(f, UartStart(4097, secVer, second, [id]));
    OneByte(Run(d, Rest(id)), id, y);
    RunSnoc(d, [], StartReport(id, START_ACCEPTED));
    assert [] + [StartReport(id, START_ACCEPTED)] == [StartReport(id, START_ACCEPTED)];
  }
}
