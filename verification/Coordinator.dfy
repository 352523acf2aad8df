/**
 The coordinator (`ota-coordinator.c`, `ota-coordinator-session.c`): START admission, page assembly from UART
 chunks, page distribution with bounded recovery, and the UART answers. The distribution process is a step
 machine: `pc` names the yield point it is suspended at, and every step runs to the next one.
 */
module Coordinator {
  import opened Wire
  import opened Checksum16

  type NodeId = nat

  const MAX_NODES: nat := 16
  const MAX_ROUNDS: nat := 10
  const TARGET_INVALID: U8 := 0xFF

  /** The yield points of the distribution process. */
  datatype Pc =
    | Idle
    | FirstPass(next: nat)
    | SendEnd
    | Waiting
    | ResendEnd
    | Recover(next: nat)

  datatype Line = Ack | PageOk | NoTargets

  /** Why the page loop was left. */
  datatype Exit = Complete | RoundLimit | Deserted

  datatype Coord = Coord(
    fileSize: U32, buffer: seq<bv8>, pageStart: U32, received: U16, expected: U16, inProgress: bool, target: U8,
    nodes: seq<NodeId>, replied: seq<bool>, bitmaps: seq<set<nat>>, accepted: seq<bool>, admitting: bool,
    retry: nat, pc: Pc, total: nat, pageCrc: bv16, round: nat, endPkt: Packet)

  /** What a step does: the new state, the packets sent, the UART lines printed, the page exit taken. */
  datatype Out = Out(c: Coord, packets: seq<Packet>, lines: seq<Line>, exit: Option<Exit>)

  predicate WellFormed(c: Coord) {
    && |c.buffer| == 4096 && |c.nodes| <= MAX_NODES
    && |c.replied| == |c.bitmaps| == |c.accepted| == MAX_NODES
    && c.expected <= 4096 && c.pageStart + c.expected <= c.fileSize
  }

  function Quiet(c: Coord): Out {
    Out(c, [], [], None)
  }

  // ---------------------------------------------------------------- session

  /** The stable filter of the compaction loops. */
  function Keep<T>(xs: seq<T>, flags: seq<bool>): (r: seq<T>)
    requires |xs| <= |flags|
    ensures |r| <= |xs|
  {
    if xs == [] then []
    else
      var n := |xs| - 1;
      Keep(xs[..n], flags) + if flags[n] then [xs[n]] else []
  }

  /** Rows moved together with the first `n` nodes; rows past the survivors keep their old contents. */
  function KeepRows<T>(rows: seq<T>, n: nat, flags: seq<bool>): (r: seq<T>)
    requires n <= |rows| && n <= |flags|
    ensures |r| == |rows|
  {
    Keep(rows[..n], flags) + rows[|Keep(rows[..n], flags)|..]
  }

  /** The first position of a node, or -1. */
  function Find(nodes: seq<NodeId>, id: NodeId): (i: int)
    ensures -1 <= i < |nodes|
    ensures i >= 0 ==> nodes[i] == id && id !in nodes[..i]
    ensures i < 0 <==> id !in nodes
  {
    if nodes == [] then -1
    else
      var n := |nodes| - 1;
      var i := Find(nodes[..n], id);
      assert nodes == nodes[..n] + [nodes[n]];
      if i >= 0 then assert nodes[..n][..i] == nodes[..i]; i else if nodes[n] == id then n else -1
  }

  lemma FindWithin(nodes: seq<NodeId>, id: NodeId)
    ensures -1 <= Find(nodes, id) < |nodes|
    ensures Find(nodes, id) >= 0 <==> id in nodes
  {
  }

  predicate AllReplied(c: Coord)
    requires WellFormed(c)
  {
    forall i :: 0 <= i < |c.nodes| ==> c.replied[i]
  }

  function ResetTransfer(c: Coord, size: U32): Coord {
    c.(fileSize := size, pageStart := 0, received := 0, expected := MinLen(size, 4096), inProgress := false)
  }

  function NoFlags(): (r: seq<bool>)
    ensures |r| == MAX_NODES
  {
    seq(MAX_NODES, _ => false)
  }

  /** Closes the admission window. */
  function FinishAdmission(c: Coord): Out
    requires WellFormed(c)
  {
    var keep := Accepting(c);
    var d := c.(admitting := false, nodes := Keep(c.nodes, keep), bitmaps := KeepRows(c.bitmaps, |c.nodes|, keep));
    if d.nodes == [] then Out(ResetTransfer(d, 0), [], [NoTargets], None)
    else Out(d, [], [Ack], None)
  }

  function Accepting(c: Coord): (r: seq<bool>)
    requires WellFormed(c)
    ensures |r| == MAX_NODES
  {
    seq(MAX_NODES, i requires 0 <= i < MAX_NODES => c.replied[i] && c.accepted[i])
  }

  function OnStartReport(c: Coord, from: NodeId, status: U8): Out
    requires WellFormed(c)
  {
    var i := Find(c.nodes, from);
    if !c.admitting || i < 0 || c.replied[i] then Quiet(c)
    else
      var d := c.(replied := c.replied[i := true], accepted := c.accepted[i := status == START_ACCEPTED]);
      if AllReplied(d) then FinishAdmission(d) else Quiet(d)
  }

  function OnAdmissionTimeout(c: Coord): Out
    requires WellFormed(c)
  {
    if c.admitting then FinishAdmission(c) else Quiet(c)
  }

  function OnBitmapReport(c: Coord, from: NodeId, r: Report): Out
    requires WellFormed(c)
  {
    var i := Find(c.nodes, from);
    if r.page != c.pageStart || i < 0 || c.replied[i] then Quiet(c)
    else Quiet(c.(replied := c.replied[i := true], bitmaps := c.bitmaps[i := r.chunks]))
  }

  // ---------------------------------------------------------------- UART

  function OnUartStart(c: Coord, size: U32, secVer: U16, target: U8, routes: seq<NodeId>): Out
    requires WellFormed(c)
  {
    if target == TARGET_INVALID then Out(ResetTransfer(c, 0), [], [NoTargets], None)
    else
      var nodes := routes[..MinLen(|routes|, MAX_NODES)];
      var d := c.(admitting := false, nodes := nodes);
      if nodes == [] then Out(ResetTransfer(d, 0), [], [NoTargets], None)
      else
        Out(ResetTransfer(d.(target := target), size).(
              replied := NoFlags(), accepted := NoFlags(), admitting := true),
            [Packet.Start(size, secVer, target)], [], None)
  }

  function Overwrite(buffer: seq<bv8>, at: nat, data: seq<bv8>): (r: seq<bv8>)
    requires at + |data| <= |buffer|
    ensures |r| == |buffer|
  {
    buffer[..at] + data + buffer[at + |data|..]
  }

  /** Whether a UART chunk is buffered. */
  predicate Buffers(c: Coord, offset: U32, data: seq<bv8>) {
    && !c.admitting && c.nodes != [] && !c.inProgress
    && c.pageStart <= offset < c.pageStart + c.expected
    && offset - c.pageStart + |data| <= c.expected
  }

  function OnUartData(c: Coord, offset: U32, data: seq<bv8>): Out
    requires WellFormed(c)
  {
    if !c.admitting && c.nodes == [] then Out(c, [], [NoTargets], None)
    else if !Buffers(c, offset, data) then Quiet(c)
    else
      var d := c.(buffer := Overwrite(c.buffer, offset - c.pageStart, data),
                  received := (c.received + |data|) % 0x1_0000);
      if d.received != d.expected then Out(d, [], [Ack], None)
      else
        var o := if d.pc.Idle? then Begin(d.(inProgress := true)) else Quiet(d.(inProgress := true));
        o.(lines := [Ack] + o.lines)
  }

  function OnUartVerify(c: Coord, crc: bv16): Out {
    if c.nodes == [] then Out(c, [], [NoTargets], None)
    else Out(c, [Packet.Verify(crc, c.target)], [Ack], None)
  }

  // ---------------------------------------------------------------- distribution process

  /** The process body up to its first yield. */
  function Begin(c: Coord): Out
    requires WellFormed(c)
  {
    var d := c.(total := (c.expected + 63) / 64, pageCrc := Crc16(0, c.buffer[..c.expected]),
                bitmaps := seq(MAX_NODES, _ => {}));
    if d.nodes == [] then Out(d.(inProgress := false), [], [NoTargets], None)
    else Quiet(d.(pc := FirstPass(0)))
  }

  /** The DATA packet of chunk `i`, with the 32-bit offset arithmetic and the 16-bit length of the code. */
  function ChunkPacket(c: Coord, i: nat): Packet
    requires WellFormed(c)
  {
    var offset := (c.pageStart + i * 64) % 0x1_0000_0000;
    var len := if (offset + 64) % 0x1_0000_0000 > c.pageStart + c.expected
               then (c.pageStart + c.expected - offset) % 0x1_0000_0000 % 0x1_0000 else 64;
    Packet.Data(offset, len, c.target, c.buffer[MinLen(i * 64, 4096)..MinLen(i * 64 + len, 4096)])
  }

  predicate PageIsComplete(c: Coord)
    requires WellFormed(c)
  {
    forall k, i :: 0 <= k < |c.nodes| && 0 <= i < c.total ==> i in c.bitmaps[k]
  }

  predicate Missed(c: Coord, i: nat)
    requires WellFormed(c)
  {
    exists k :: 0 <= k < |c.nodes| && i !in c.bitmaps[k]
  }

  /** Leaves the page loop and advances to the next page. */
  function Leave(c: Coord, why: Exit): Out
    requires WellFormed(c)
  {
    var next := c.pageStart + c.expected;
    Out(c.(pageStart := next, received := 0,
           expected := if next < c.fileSize then MinLen(c.fileSize - next, 4096) else 0,
           inProgress := false, pc := Idle),
        [], [PageOk], Some(why))
  }

  /** The head of the page loop. */
  function Top(c: Coord): Out
    requires WellFormed(c)
  {
    if c.nodes == [] then Leave(c, Deserted)
    else if PageIsComplete(c) then Leave(c, Complete)
    else if c.round >= MAX_ROUNDS then Leave(c, RoundLimit)
    else Quiet(c.(round := c.round + 1, replied := NoFlags(), retry := 0, pc := SendEnd,
                  endPkt := Packet.PageEnd(c.pageStart, c.pageCrc, c.target)))
  }

  /** After the wait loop: done, or on to the retransmissions. */
  function AfterWait(c: Coord): Out
    requires WellFormed(c)
  {
    if PageIsComplete(c) then Leave(c, Complete) else Quiet(c.(pc := Recover(0)))
  }

  predicate SomeReplied(c: Coord)
    requires WellFormed(c)
  {
    exists i :: 0 <= i < |c.nodes| && c.replied[i]
  }

  /** Drops the nodes that have not replied. The reply flags themselves are not moved. */
  function Drop(c: Coord): Coord
    requires WellFormed(c)
  {
    c.(nodes := Keep(c.nodes, c.replied), bitmaps := KeepRows(c.bitmaps, |c.nodes|, c.replied))
  }

  function OnReportTimeout(c: Coord): Out
    requires WellFormed(c)
  {
    var d := c.(retry := c.retry + 1);
    if d.retry < 3 then Quiet(d.(pc := ResendEnd))
    else if SomeReplied(d) then AfterWait(Drop(d))
    else Quiet(d.(retry := 0, pc := ResendEnd))
  }

  /** The process resumes: the pacing timer or the queue in a send state, the report timeout in the wait. */
  function OnResume(c: Coord): Out
    requires WellFormed(c)
  {
    match c.pc
    case Idle => Quiet(c)
    case FirstPass(i) =>
      if i < c.total then Out(c.(pc := FirstPass(i + 1)), [ChunkPacket(c, i)], [], None)
      else Top(c.(round := 0))
    case SendEnd => Out(c.(pc := Waiting), [c.endPkt], [], None)
    case Waiting => OnReportTimeout(c)
    case ResendEnd => Out(c.(pc := Waiting), [c.endPkt], [], None)
    case Recover(i) =>
      if i < c.total then
        Out(c.(pc := Recover(i + 1)), if Missed(c, i) then [ChunkPacket(c, i)] else [], [], None)
      else Top(c)
  }

  /** The bitmap event, which may be stale. */
  function OnBitmapEvent(c: Coord): Out
    requires WellFormed(c)
  {
    if c.pc.Waiting? && AllReplied(c) then AfterWait(c) else Quiet(c)
  }

  // ---------------------------------------------------------------- all inputs

  datatype Input =
    | UartStart(size: U32, secVer: U16, target: U8, routes: seq<NodeId>)
    | UartData(offset: U32, data: seq<bv8>)
    | UartVerify(crc: bv16)
    | StartReport(from: NodeId, status: U8)
    | AdmissionTimeout
    | BitmapReport(from: NodeId, report: Report)
    | Resume
    | BitmapEvent

  function Step(c: Coord, input: Input): Out
    requires WellFormed(c)
  {
    match input
    case UartStart(size, secVer, target, routes) => OnUartStart(c, size, secVer, target, routes)
    case UartData(offset, data) => OnUartData(c, offset, data)
    case UartVerify(crc) => OnUartVerify(c, crc)
    case StartReport(from, status) => OnStartReport(c, from, status)
    case AdmissionTimeout => OnAdmissionTimeout(c)
    case BitmapReport(from, report) => OnBitmapReport(c, from, report)
    case Resume => OnResume(c)
    case BitmapEvent => OnBitmapEvent(c)
  }

  // ---------------------------------------------------------------- well-formedness

  lemma LeaveWellFormed(c: Coord, why: Exit)
    requires WellFormed(c)
    ensures WellFormed(Leave(c, why).c)
  {
  }

  lemma TopWellFormed(c: Coord)
    requires WellFormed(c)
    ensures WellFormed(Top(c).c)
  {
    hide Leave, PageIsComplete;
    LeaveWellFormed(c, Deserted);
    LeaveWellFormed(c, Complete);
    LeaveWellFormed(c, RoundLimit);
  }

  lemma AfterWaitWellFormed(c: Coord)
    requires WellFormed(c)
    ensures WellFormed(AfterWait(c).c)
  {
    hide Leave, PageIsComplete;
    LeaveWellFormed(c, Complete);
  }

  lemma FinishWellFormed(c: Coord)
    requires WellFormed(c)
    ensures WellFormed(FinishAdmission(c).c)
  {
    hide Keep, Accepting;
  }

  lemma TimeoutWellFormed(c: Coord)
    requires WellFormed(c)
    ensures WellFormed(OnReportTimeout(c).c)
  {
    hide AfterWait, Keep;
    var d := c.(retry := c.retry + 1);
    AfterWaitWellFormed(Drop(d));
  }

  lemma UartDataWellFormed(c: Coord, offset: U32, data: seq<bv8>)
    requires WellFormed(c)
    ensures WellFormed(OnUartData(c, offset, data).c)
  {
    hide Crc16, Overwrite;
  }

  /** Every input keeps the coordinator well formed. */
  lemma StepWellFormed(c: Coord, input: Input)
    requires WellFormed(c)
    ensures WellFormed(Step(c, input).c)
  {
    hide Top, AfterWait, FinishAdmission, OnReportTimeout, OnUartData, ChunkPacket, Missed;
    match input
    case UartStart(size, secVer, target, routes) =>
    case UartData(offset, data) => UartDataWellFormed(c, offset, data);
    case UartVerify(crc) =>
    case StartReport(from, status) =>
      var i := Find(c.nodes, from);
      if i >= 0 {
        FinishWellFormed(c.(replied := c.replied[i := true], accepted := c.accepted[i := status == START_ACCEPTED]));
      }
    case AdmissionTimeout => FinishWellFormed(c);
    case BitmapReport(from, report) =>
    case Resume =>
      TopWellFormed(c);
      TopWellFormed(c.(round := 0));
      TimeoutWellFormed(c);
    case BitmapEvent => AfterWaitWellFormed(c);
  }
}
