/**
 The coordinator with the arrays and counters of the firmware, each handler proved against its specification function.
 */
module CoordinatorMachine {
  import opened Wire
  import opened Checksum16
  import opened Coordinator
  import opened PageBitmap

  /** One row of the bitmap table. */
  type Row = r: seq<bv8> | |r| == 8 witness [0, 0, 0, 0, 0, 0, 0, 0]

  const EMPTY_ROW: Row := [0, 0, 0, 0, 0, 0, 0, 0]

  /** The chunk sets a table of rows stands for. */
  function Sets(rows: seq<Row>): (r: seq<set<nat>>)
    ensures |r| == |rows|
  {
    seq(|rows|, i requires 0 <= i < |rows| => Chunks(rows[i]))
  }

  lemma {:induction false} KeepSets(rows: seq<Row>, flags: seq<bool>)
    requires |rows| <= |flags|
    ensures Keep(Sets(rows), flags) == Sets(Keep(rows, flags))
  {
    hide Chunks;
    if rows == [] {
    } else {
      var n := |rows| - 1;
      KeepSets(rows[..n], flags);
      assert Sets(rows)[..n] == Sets(rows[..n]);
      assert Sets(Keep(rows[..n], flags) + [rows[n]]) == Sets(Keep(rows[..n], flags)) + [Chunks(rows[n])];
      assert Keep(rows[..n], flags) + [] == Keep(rows[..n], flags);
    }
  }

  lemma KeepRowsSets(rows: seq<Row>, n: nat, flags: seq<bool>)
    requires n <= |rows| && n <= |flags|
    ensures KeepRows(Sets(rows), n, flags) == Sets(KeepRows(rows, n, flags))
  {
    hide Chunks, Keep;
    KeepSets(rows[..n], flags);
    assert Sets(rows)[..n] == Sets(rows[..n]);
    var kept := Keep(rows[..n], flags);
    assert Sets(kept + rows[|kept|..]) == Sets(kept) + Sets(rows)[|kept|..];
  }

  lemma KeepSnoc<T>(xs: seq<T>, flags: seq<bool>, i: nat)
    requires i < |xs| <= |flags|
    ensures Keep(xs[..i + 1], flags) == Keep(xs[..i], flags) + if flags[i] then [xs[i]] else []
  {
    assert xs[..i + 1][..i] == xs[..i];
  }

  lemma FindSnoc(nodes: seq<NodeId>, id: NodeId, i: nat)
    requires i < |nodes| && Find(nodes[..i], id) < 0
    ensures nodes[i] == id ==> Find(nodes, id) == i
    ensures nodes[i] != id ==> Find(nodes[..i + 1], id) < 0
  {
    assert nodes[..i + 1] == nodes[..i] + [nodes[i]];
    if nodes[i] == id {
      FindFirst(nodes, id, i);
    }
  }

  /** The first position is the only one with nothing before it. */
  lemma {:induction false} FindFirst(nodes: seq<NodeId>, id: NodeId, i: nat)
    requires i < |nodes| && nodes[i] == id && id !in nodes[..i]
    ensures Find(nodes, id) == i
  {
    var n := |nodes| - 1;
    if i < n {
      assert nodes[..n][..i] == nodes[..i];
      FindFirst(nodes[..n], id, i);
    }
  }

  /** What a compaction loop has done before examining position `i`: the survivors so far stand at the front,
      everything from the write index on is untouched. */
  ghost predicate Compacting<T>(now: seq<T>, was: seq<T>, flags: seq<bool>, i: nat, w: nat)
  {
    && |now| == |was| && w <= i <= |was| <= |flags|
    && now[..w] == Keep(was[..i], flags) && now[w..] == was[w..]
  }

  lemma CompactingKeeps<T>(now: seq<T>, was: seq<T>, flags: seq<bool>, i: nat, w: nat)
    requires Compacting(now, was, flags, i, w) && i < |was| && flags[i]
    ensures now[i] == was[i]
    ensures Compacting(now[w := was[i]], was, flags, i + 1, w + 1)
  {
    hide Keep;
    KeepSnoc(was, flags, i);
    assert now[w..][i - w] == was[w..][i - w];
    var next := now[w := was[i]];
    assert next[..w + 1] == now[..w] + [was[i]];
    assert next[w + 1..] == now[w..][1..];
    assert was[w + 1..] == was[w..][1..];
  }

  lemma CompactingSkips<T>(now: seq<T>, was: seq<T>, flags: seq<bool>, i: nat, w: nat)
    requires Compacting(now, was, flags, i, w) && i < |was| && !flags[i]
    ensures Compacting(now, was, flags, i + 1, w)
  {
    hide Keep;
    KeepSnoc(was, flags, i);
  }

  /** A finished loop over the first `n` positions. */
  lemma Compacted<T>(now: seq<T>, was: seq<T>, flags: seq<bool>, n: nat, w: nat)
    requires Compacting(now, was, flags, n, w)
    ensures now == KeepRows(was, n, flags) && now[..w] == Keep(was[..n], flags)
  {
    hide Keep;
    assert now == now[..w] + now[w..];
  }

  class Machine {
    const pageBuffer: array<bv8>
    const sessionNodes: array<NodeId>
    const nodeReplied: array<bool>
    const sessionBitmaps: array<Row>
    const startAccepted: array<bool>
    var fileSize: U32
    var pageStart: U32
    var received: U16
    var expected: U16
    var inProgress: bool
    var target: U8
    var count: nat
    var admitting: bool
    var retry: nat
    var pc: Pc
    var total: nat
    var pageCrc: bv16
    var round: nat
    var endPkt: Packet

    ghost predicate Valid()
      reads this
    {
      && pageBuffer.Length == 4096 && sessionNodes.Length == MAX_NODES && nodeReplied.Length == MAX_NODES
      && sessionBitmaps.Length == MAX_NODES && startAccepted.Length == MAX_NODES && nodeReplied != startAccepted
      && count <= MAX_NODES && expected <= 4096 && pageStart + expected <= fileSize && total <= 64
    }

    ghost function State(): (c: Coord)
      requires Valid()
      reads this, pageBuffer, sessionNodes, nodeReplied, sessionBitmaps, startAccepted
      ensures WellFormed(c)
    {
      Coord(fileSize, pageBuffer[..], pageStart, received, expected, inProgress, target,
            sessionNodes[..count], nodeReplied[..], Sets(sessionBitmaps[..]), startAccepted[..], admitting,
            retry, pc, total, pageCrc, round, endPkt)
    }

    constructor ()
      ensures Valid() && pc == Idle && !inProgress && !admitting && count == 0
    {
      pageBuffer := new bv8[4096](_ => 0);
      sessionNodes := new NodeId[MAX_NODES](_ => 0);
      nodeReplied := new bool[MAX_NODES](_ => false);
      sessionBitmaps := new Row[MAX_NODES](_ => EMPTY_ROW);
      startAccepted := new bool[MAX_NODES](_ => false);
      fileSize, pageStart, received, expected, inProgress, target := 0, 0, 0, 0, false, 0xFF;
      count, admitting, retry, pc, total, pageCrc, round := 0, false, 0, Idle, 0, 0, 0;
      endPkt := Packet.PageEnd(0, 0, 0xFF);
    }

    // -------------------------------------------------------------- session

    method FindSessionNode(id: NodeId) returns (found: int)
      requires Valid()
      ensures found == Find(State().nodes, id)
    {
      hide Find, Chunks;
      ghost var nodes := State().nodes;
      FindNone(id);
      assert nodes[..0] == [];
      for i := 0 to count
        invariant Find(nodes[..i], id) < 0
      {
        FindSnoc(nodes, id, i);
        if sessionNodes[i] == id {
          return i;
        }
      }
      assert nodes[..count] == nodes;
      FindWithin(nodes, id);
      return -1;
    }

    method HaveAllReplied() returns (all: bool)
      requires Valid()
      ensures all <==> AllReplied(State())
    {
      hide Chunks;
      for i := 0 to count
        invariant forall k :: 0 <= k < i ==> nodeReplied[k]
      {
        if !nodeReplied[i] {
          return false;
        }
      }
      return true;
    }

    method ClearReplied()
      requires Valid()
      modifies nodeReplied
      ensures State() == old(State()).(replied := NoFlags())
    {
      hide Chunks;
      for i := 0 to MAX_NODES
        invariant forall k :: 0 <= k < i ==> !nodeReplied[k]
      {
        nodeReplied[i] := false;
      }
      assert nodeReplied[..] == NoFlags();
    }

    method ClearAccepted()
      requires Valid()
      modifies startAccepted
      ensures State() == old(State()).(accepted := NoFlags())
    {
      hide Chunks;
      for i := 0 to MAX_NODES
        invariant forall k :: 0 <= k < i ==> !startAccepted[k]
        invariant nodeReplied[..] == old(nodeReplied[..])
      {
        startAccepted[i] := false;
      }
      assert startAccepted[..] == NoFlags();
    }

    method ClearBitmaps()
      requires Valid()
      modifies sessionBitmaps
      ensures State() == old(State()).(bitmaps := seq(MAX_NODES, _ => {}))
    {
      hide Chunks;
      for i := 0 to MAX_NODES
        invariant forall k :: 0 <= k < i ==> sessionBitmaps[k] == EMPTY_ROW
      {
        sessionBitmaps[i] := EMPTY_ROW;
      }
      NoChunks(EMPTY_ROW);
      assert Sets(sessionBitmaps[..]) == seq(MAX_NODES, _ => {});
    }

    /** The in-place compaction of both drop loops: nodes and rows move forward together. */
    method Compact(flags: seq<bool>)
      requires Valid() && |flags| == MAX_NODES
      modifies this`count, sessionNodes, sessionBitmaps
      ensures Valid()
      ensures State() == old(State()).(nodes := Keep(old(State()).nodes, flags),
                                       bitmaps := KeepRows(old(State()).bitmaps, |old(State()).nodes|, flags))
    {
      hide Chunks, Keep, KeepRows, Compacting, Sets;
      ghost var nodes, rows := sessionNodes[..], sessionBitmaps[..];
      var w: nat := 0;
      CompactingStarts(nodes, flags);
      CompactingStarts(rows, flags);
      for i := 0 to count
        invariant w <= i && count == old(count)
        invariant Compacting(sessionNodes[..], nodes, flags, i, w)
        invariant Compacting(sessionBitmaps[..], rows, flags, i, w)
      {
        ghost var ns, rs := sessionNodes[..], sessionBitmaps[..];
        if flags[i] {
          CompactingKeeps(sessionNodes[..], nodes, flags, i, w);
          CompactingKeeps(sessionBitmaps[..], rows, flags, i, w);
          if w != i {
            sessionNodes[w] := sessionNodes[i];
            sessionBitmaps[w] := sessionBitmaps[i];
          }
          assert sessionNodes[..] == ns[w := nodes[i]];
          assert sessionBitmaps[..] == rs[w := rows[i]];
          w := w + 1;
        } else {
          CompactingSkips(sessionNodes[..], nodes, flags, i, w);
          CompactingSkips(sessionBitmaps[..], rows, flags, i, w);
        }
      }
      Compacted(sessionNodes[..], nodes, flags, count, w);
      Compacted(sessionBitmaps[..], rows, flags, count, w);
      KeepRowsSets(rows, count, flags);
      count := w;
    }

    method ResetTransferState(size: U32)
      requires Valid()
      modifies this`fileSize, this`pageStart, this`received, this`expected, this`inProgress
      ensures Valid() && State() == ResetTransfer(old(State()), size)
    {
      hide Chunks, Sets, WellFormed;
      fileSize, pageStart, received, inProgress := size, 0, 0, false;
      expected := if size > 4096 then 4096 else size;
    }

    // -------------------------------------------------------------- admission

    method FinishStartAdmission() returns (lines: seq<Line>)
      requires Valid()
      modifies this, sessionNodes, sessionBitmaps
      ensures Valid()
      ensures Out(State(), [], lines, None) == FinishAdmission(old(State()))
    {
      hide Chunks, Sets, Keep, KeepRows;
      admitting := false;
      var flags := seq(MAX_NODES, i requires Valid() && 0 <= i < MAX_NODES reads this, nodeReplied, startAccepted
                                  => nodeReplied[i] && startAccepted[i]);
      assert flags == Accepting(old(State()));
      Compact(flags);
      if count == 0 {
        ResetTransferState(0);
        return [NoTargets];
      }
      return [Ack];
    }

    method StartReport(from: NodeId, status: U8) returns (lines: seq<Line>)
      requires Valid()
      modifies this, sessionNodes, sessionBitmaps, nodeReplied, startAccepted
      ensures Valid()
      ensures Out(State(), [], lines, None) == OnStartReport(old(State()), from, status)
    {
      hide Chunks, Sets, Find, FinishAdmission, ResetTransfer;
      lines := [];
      if !admitting {
        return;
      }
      var found := FindSessionNode(from);
      if found < 0 || nodeReplied[found] {
        return;
      }
      nodeReplied[found] := true;
      startAccepted[found] := status == START_ACCEPTED;
      var all := HaveAllReplied();
      if all {
        lines := FinishStartAdmission();
      }
    }

    method AdmissionTimeout() returns (lines: seq<Line>)
      requires Valid()
      modifies this, sessionNodes, sessionBitmaps
      ensures Valid()
      ensures Out(State(), [], lines, None) == OnAdmissionTimeout(old(State()))
    {
      hide Chunks, Sets, FinishAdmission;
      lines := [];
      if admitting {
        lines := FinishStartAdmission();
      }
    }

    method BitmapReport(from: NodeId, page: U32, row: Row)
      requires Valid()
      modifies nodeReplied, sessionBitmaps
      ensures Out(State(), [], [], None) == OnBitmapReport(old(State()), from, Report(page, Chunks(row)))
    {
      hide Chunks, Find;
      if page != pageStart {
        return;
      }
      var found := FindSessionNode(from);
      if found < 0 || nodeReplied[found] {
        return;
      }
      nodeReplied[found] := true;
      sessionBitmaps[found] := row;
      assert Sets(sessionBitmaps[..]) == Sets(old(sessionBitmaps[..]))[found := Chunks(row)];
    }

    // -------------------------------------------------------------- UART

    method PopulateSessionNodes(routes: seq<NodeId>)
      requires Valid()
      modifies this`count, sessionNodes
      ensures Valid()
      ensures State() == old(State()).(nodes := routes[..MinLen(|routes|, MAX_NODES)])
    {
      hide Chunks, Sets;
      count := 0;
      for i := 0 to |routes|
        invariant count == i <= MAX_NODES && sessionNodes[..count] == routes[..i]
      {
        if count == MAX_NODES {
          return;
        }
        sessionNodes[count] := routes[i];
        count := count + 1;
      }
    }

    method UartStart(size: U32, secVer: U16, slot: U8, routes: seq<NodeId>)
      returns (packets: seq<Packet>, lines: seq<Line>)
      requires Valid()
      modifies this, sessionNodes, nodeReplied, startAccepted
      ensures Valid()
      ensures Out(State(), packets, lines, None) == OnUartStart(old(State()), size, secVer, slot, routes)
    {
      hide Chunks, Sets, MinLen, WellFormed;
      if slot == TARGET_INVALID {
        ResetTransferState(0);
        return [], [NoTargets];
      }
      admitting := false;
      PopulateSessionNodes(routes);
      if count == 0 {
        ResetTransferState(0);
        return [], [NoTargets];
      }
      packets, lines := [Packet.Start(size, secVer, slot)], [];
      target := slot;
      ResetTransferState(size);
      ClearReplied();
      ClearAccepted();
      admitting := true;
    }

    /** The byte loop that fills the page buffer. */
    method Buffer(at: nat, data: seq<bv8>)
      requires Valid() && at + |data| <= 4096
      modifies pageBuffer
      ensures State() == old(State()).(buffer := Overwrite(old(State()).buffer, at, data))
    {
      hide Chunks, Sets;
      for i := 0 to |data|
        invariant forall k :: 0 <= k < 4096 ==>
          pageBuffer[k] == if at <= k < at + i then data[k - at] else old(pageBuffer[k])
      {
        pageBuffer[at + i] := data[i];
      }
      assert pageBuffer[..] == Overwrite(old(pageBuffer[..]), at, data);
    }

    method UartData(offset: U32, data: seq<bv8>) returns (lines: seq<Line>)
      requires Valid()
      modifies this, pageBuffer, sessionBitmaps
      ensures Valid()
      ensures Out(State(), [], lines, None) == OnUartData(old(State()), offset, data)
    {
      hide Chunks, Sets, Overwrite, Begin;
      lines := [];
      if admitting {
      } else if count == 0 {
        lines := [NoTargets];
      } else if !inProgress && pageStart <= offset < pageStart + expected
                && offset - pageStart + |data| <= expected {
        Buffer(offset - pageStart, data);
        received := (received + |data|) % 0x1_0000;
        lines := [Ack];
        if received == expected {
          inProgress := true;
          if pc.Idle? {
            var more := BeginDistribution();
            lines := lines + more;
          }
        }
      }
    }

    method UartVerify(crc: bv16) returns (packets: seq<Packet>, lines: seq<Line>)
      requires Valid()
      ensures Out(State(), packets, lines, None) == OnUartVerify(State(), crc)
    {
      if count == 0 {
        return [], [NoTargets];
      }
      return [Packet.Verify(crc, target)], [Ack];
    }

    // -------------------------------------------------------------- distribution process

    method BeginDistribution() returns (lines: seq<Line>)
      requires Valid()
      modifies this, sessionBitmaps
      ensures Valid()
      ensures Out(State(), [], lines, None) == Begin(old(State()))
    {
      hide Chunks, Sets, Crc16, BitSerial, Bits, WellFormed;
      ghost var c := State();
      var crc := Crc16Data(pageBuffer[..expected], 0);
      total, pageCrc := (expected + 63) / 64, crc;
      assert State() == c.(total := (c.expected + 63) / 64, pageCrc := Crc16(0, c.buffer[..c.expected]));
      ClearBitmaps();
      if count == 0 {
        inProgress := false;
        return [NoTargets];
      }
      pc := FirstPass(0);
      return [];
    }

    method MakeChunk(i: nat) returns (pkt: Packet)
      requires Valid()
      ensures pkt == ChunkPacket(State(), i)
    {
      hide Chunks, Sets;
      var offset := (pageStart + i * 64) % 0x1_0000_0000;
      var len: U16 := 64;
      if (offset + len) % 0x1_0000_0000 > pageStart + expected {
        len := (pageStart + expected - offset) % 0x1_0000_0000 % 0x1_0000;
      }
      pkt := Packet.Data(offset, len, target, pageBuffer[MinLen(i * 64, 4096)..MinLen(i * 64 + len, 4096)]);
    }

    method PageComplete() returns (complete: bool)
      requires Valid()
      ensures complete <==> PageIsComplete(State())
    {
      hide Chunks, HasBit;
      ghost var c := State();
      for k := 0 to count
        invariant forall j, i :: 0 <= j < k && 0 <= i < total ==> i in c.bitmaps[j]
      {
        for i := 0 to total
          invariant forall n :: 0 <= n < i ==> n in c.bitmaps[k]
        {
          InRow(sessionBitmaps[k], i);
          assert c.bitmaps[k] == Chunks(sessionBitmaps[k]);
          if !HasBit(sessionBitmaps[k][i / 8], i % 8) {
            return false;
          }
        }
      }
      return true;
    }

    method CountMissed(i: nat) returns (missed: nat)
      requires Valid() && i < 64
      ensures missed > 0 <==> Missed(State(), i)
    {
      hide Chunks, HasBit;
      ghost var c := State();
      missed := 0;
      for k := 0 to count
        invariant missed > 0 <==> exists j :: 0 <= j < k && i !in c.bitmaps[j]
      {
        InRow(sessionBitmaps[k], i);
        assert c.bitmaps[k] == Chunks(sessionBitmaps[k]);
        if !HasBit(sessionBitmaps[k][i / 8], i % 8) {
          missed := missed + 1;
        }
      }
    }

    method LeavePage(why: Exit) returns (lines: seq<Line>)
      requires Valid()
      modifies this`pageStart, this`received, this`expected, this`inProgress, this`pc
      ensures Valid()
      ensures Out(State(), [], lines, Some(why)) == Leave(old(State()), why)
    {
      hide Chunks, Sets, MinLen, WellFormed;
      MinLenRange(fileSize - pageStart - expected);
      var next := pageStart + expected;
      var rest: nat := if next < fileSize then MinLen(fileSize - next, 4096) else 0;
      pageStart, received, expected, inProgress, pc := next, 0, rest, false, Idle;
      return [PageOk];
    }

    method LoopHead() returns (lines: seq<Line>, exit: Option<Exit>)
      requires Valid()
      modifies this, nodeReplied
      ensures Valid()
      ensures Out(State(), [], lines, exit) == Top(old(State()))
    {
      hide Chunks, Sets, Leave, PageIsComplete;
      lines, exit := [], None;
      if count == 0 {
        lines := LeavePage(Deserted);
        return lines, Some(Deserted);
      }
      var complete := PageComplete();
      if complete {
        lines := LeavePage(Complete);
        return lines, Some(Complete);
      }
      if round >= MAX_ROUNDS {
        lines := LeavePage(RoundLimit);
        return lines, Some(RoundLimit);
      }
      round := round + 1;
      ClearReplied();
      retry := 0;
      endPkt := Packet.PageEnd(pageStart, pageCrc, target);
      pc := SendEnd;
    }

    method LeaveWait() returns (lines: seq<Line>, exit: Option<Exit>)
      requires Valid()
      modifies this
      ensures Valid()
      ensures Out(State(), [], lines, exit) == AfterWait(old(State()))
    {
      hide Chunks, Sets, Leave, PageIsComplete;
      var complete := PageComplete();
      if complete {
        lines := LeavePage(Complete);
        return lines, Some(Complete);
      }
      pc := Recover(0);
      return [], None;
    }

    method CountReplied() returns (n: nat)
      requires Valid()
      ensures n > 0 <==> SomeReplied(State())
    {
      hide Chunks;
      n := 0;
      for i := 0 to count
        invariant n > 0 <==> exists k :: 0 <= k < i && nodeReplied[k]
      {
        if nodeReplied[i] {
          n := n + 1;
        }
      }
    }

    method ReportTimeout() returns (lines: seq<Line>, exit: Option<Exit>)
      requires Valid()
      modifies this, sessionNodes, sessionBitmaps
      ensures Valid()
      ensures Out(State(), [], lines, exit) == OnReportTimeout(old(State()))
    {
      hide Chunks, Sets, Keep, KeepRows, AfterWait, SomeReplied;
      retry := retry + 1;
      if retry >= 3 {
        var n := CountReplied();
        if n > 0 {
          Compact(nodeReplied[..]);
          lines, exit := LeaveWait();
          return;
        }
        retry := 0;
      }
      pc := ResendEnd;
      return [], None;
    }

    method BitmapEvent() returns (lines: seq<Line>, exit: Option<Exit>)
      requires Valid()
      modifies this
      ensures Valid()
      ensures Out(State(), [], lines, exit) == OnBitmapEvent(old(State()))
    {
      hide Chunks, Sets, AfterWait, AllReplied;
      lines, exit := [], None;
      if pc.Waiting? {
        var all := HaveAllReplied();
        if all {
          lines, exit := LeaveWait();
        }
      }
    }

    method Resume() returns (packets: seq<Packet>, lines: seq<Line>, exit: Option<Exit>)
      requires Valid()
      modifies this, sessionNodes, sessionBitmaps, nodeReplied
      ensures Valid()
      ensures Out(State(), packets, lines, exit) == OnResume(old(State()))
    {
      hide Chunks, Sets, Top, OnReportTimeout, ChunkPacket, Missed;
      packets, lines, exit := [], [], None;
      match pc
      case Idle =>
      case FirstPass(i) =>
        if i < total {
          var pkt := MakeChunk(i);
          packets := [pkt];
          pc := FirstPass(i + 1);
        } else {
          round := 0;
          lines, exit := LoopHead();
        }
      case SendEnd =>
        packets := [endPkt];
        pc := Waiting;
      case Waiting =>
        lines, exit := ReportTimeout();
      case ResendEnd =>
        packets := [endPkt];
        pc := Waiting;
      case Recover(i) =>
        if i < total {
          var missed := CountMissed(i);
          if missed > 0 {
            var pkt := MakeChunk(i);
            packets := [pkt];
          }
          pc := Recover(i + 1);
        } else {
          lines, exit := LoopHead();
        }
    }
  }

  lemma MinLenRange(a: nat)
    ensures 0 <= MinLen(a, 4096) <= a && MinLen(a, 4096) <= 4096
  {
  }

  lemma InRow(row: Row, i: nat)
    requires i < 64
    ensures i in Chunks(row) <==> HasBit(row[i / 8], i % 8)
  {
    hide HasBit;
  }

  lemma FindNone(id: NodeId)
    ensures Find([], id) < 0
  {
  }

  lemma CompactingStarts<T>(xs: seq<T>, flags: seq<bool>)
    requires |xs| <= |flags|
    ensures Compacting(xs, xs, flags, 0, 0)
  {
  }
}
