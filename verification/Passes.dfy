/**
 What a pass over the chunks of a page sends, whatever arrives between its wake-ups.
 */
module Passes {
  import opened Wire
  import opened Coordinator
  import opened Recovery

  /** A pass over the chunks of a page is under way, at chunk `i`. */
  predicate Passing(c: Coord, i: nat) {
    WellFormed(c) && c.inProgress && !c.admitting && (c.pc == FirstPass(i) || c.pc == Recover(i)) && i <= c.total
  }

  /** What a pass does not touch. */
  predicate SameTransfer(c: Coord, d: Coord) {
    && d.buffer == c.buffer && d.pageStart == c.pageStart && d.expected == c.expected && d.target == c.target
    && d.total == c.total && d.nodes == c.nodes
  }

  function Advanced(pc: Pc, k: nat): Pc {
    match pc
    case FirstPass(i) => FirstPass(i + k)
    case Recover(i) => Recover(i + k)
    case _ => pc
  }

  /** The DATA packets among some packets. */
  function Datas(packets: seq<Packet>): seq<Packet> {
    if packets == [] then []
    else Datas(packets[..|packets| - 1]) + if packets[|packets| - 1].Data? then [packets[|packets| - 1]] else []
  }

  lemma DatasOne(p: Packet)
    ensures Datas([p]) == (if p.Data? then [p] else []) && Datas([]) == []
  {
    assert [p][..0] == [];
  }

  lemma {:induction false} DatasConcat(s: seq<Packet>, t: seq<Packet>)
    ensures Datas(s + t) == Datas(s) + Datas(t)
  {
    if t == [] {
      assert s + t == s;
    } else {
      assert (s + t)[..|s + t| - 1] == s + t[..|t| - 1];
      DatasConcat(s, t[..|t| - 1]);
    }
  }

  // ---------------------------------------------------------------- one input

  lemma WakeUpInPass(c: Coord, i: nat)
    requires Passing(c, i) && i < c.total
    ensures var out := OnResume(c);
      && Passing(out.c, i + 1) && SameTransfer(c, out.c) && out.c == c.(pc := Advanced(c.pc, 1))
      && Datas(out.packets) == if c.pc.FirstPass? || Missed(c, i) then [ChunkPacket(c, i)] else []
  {
    hide ChunkPacket, Missed;
    ChunkIsDataPacket(c, i);
    DatasOne(ChunkPacket(c, i));
  }

  lemma ChunkIsDataPacket(c: Coord, i: nat)
    requires WellFormed(c)
    ensures ChunkPacket(c, i).Data?
  {
  }

  /** Everything but a wake-up leaves the pass alone; only a bitmap report changes what is missing. */
  lemma OtherInputInPass(c: Coord, i: nat, input: Input)
    requires Passing(c, i) && !input.Resume? && !input.UartStart?
    ensures var out := Step(c, input);
      && Passing(out.c, i) && SameTransfer(c, out.c) && out.c.pc == c.pc && Datas(out.packets) == []
      && (forall k :: 0 <= k < MAX_NODES && c.replied[k] ==> out.c.replied[k] && out.c.bitmaps[k] == c.bitmaps[k])
  {
    hide Find, Overwrite, FinishAdmission, Begin;
    StepWellFormed(c, input);
    DatasOne(Packet.Verify(if input.UartVerify? then input.crc else 0, c.target));
    if input.BitmapReport? {
      FindWithin(c.nodes, input.from);
    }
  }

  // ---------------------------------------------------------------- a pass

  /** During a pass the page stays as it is, and every wake-up moves on by one chunk. */
  lemma {:induction false} PassAdvances(c: Coord, i: nat, inputs: seq<Input>)
    requires Passing(c, i) && i + WakeUps(inputs) <= c.total && forall x :: x in inputs ==> !x.UartStart?
    ensures var d := Run(c, inputs);
      Passing(d, i + WakeUps(inputs)) && SameTransfer(c, d) && d.pc == Advanced(c.pc, WakeUps(inputs))
  {
    hide Step, OnResume, Missed, ChunkPacket;
    if inputs == [] {
    } else {
      var init, last := inputs[..|inputs| - 1], inputs[|inputs| - 1];
      PassAdvances(c, i, init);
      var d := Run(c, init);
      if last.Resume? {
        StepIsResume(d);
        WakeUpInPass(d, i + WakeUps(init));
      } else {
        OtherInputInPass(d, i + WakeUps(init), last);
      }
    }
  }

  lemma StepIsResume(c: Coord)
    requires WellFormed(c)
    ensures Step(c, Resume) == OnResume(c)
  {
  }

  lemma SameChunk(c: Coord, d: Coord, i: nat)
    requires WellFormed(c) && WellFormed(d) && SameTransfer(c, d)
    ensures ChunkPacket(d, i) == ChunkPacket(c, i)
  {
  }

  lemma PassingWellFormed(c: Coord, i: nat)
    requires Passing(c, i)
    ensures WellFormed(c)
  {
  }

  lemma SendsSnoc(c: Coord, inputs: seq<Input>)
    requires WellFormed(c) && inputs != []
    ensures var init, last := inputs[..|inputs| - 1], inputs[|inputs| - 1];
      && Sends(c, inputs) == Sends(c, init) + Step(Run(c, init), last).packets
      && WakeUps(inputs) == WakeUps(init) + if last.Resume? then 1 else 0
  {
    hide Step;
  }

  /** What input `input` makes a pass at chunk `k` send: `c` holds the page, `d` the bitmaps. */
  function SentAt(c: Coord, d: Coord, k: nat, input: Input): seq<Packet>
    requires WellFormed(c) && WellFormed(d)
  {
    if input.Resume? && (d.pc.FirstPass? || Missed(d, k)) then [ChunkPacket(c, k)] else []
  }

  lemma StepInPass(c: Coord, i: nat, input: Input)
    requires Passing(c, i) && !input.UartStart? && (input.Resume? ==> i < c.total)
    ensures Datas(Step(c, input).packets) == SentAt(c, c, i, input)
  {
    hide Step, OnResume, Missed, ChunkPacket, Datas;
    if input.Resume? {
      StepIsResume(c);
      WakeUpInPass(c, i);
    } else {
      OtherInputInPass(c, i, input);
    }
  }

  lemma SentAtSame(c: Coord, d: Coord, k: nat, input: Input)
    requires WellFormed(c) && WellFormed(d) && SameTransfer(c, d)
    ensures SentAt(d, d, k, input) == SentAt(c, d, k, input)
  {
    hide Missed, ChunkPacket;
    SameChunk(c, d, k);
  }

  lemma PassWithin(c: Coord, i: nat, d: Coord, k: nat)
    requires Passing(c, i) && Passing(d, k) && SameTransfer(c, d)
    ensures WellFormed(c) && WellFormed(d) && d.total == c.total
  {
  }

  /** What the last input of a pass adds to the packets. */
  lemma PassSends(c: Coord, i: nat, inputs: seq<Input>)
    requires inputs != [] && Passing(c, i) && i + WakeUps(inputs) <= c.total
    requires forall x :: x in inputs ==> !x.UartStart?
    ensures var init := inputs[..|inputs| - 1];
      Datas(Sends(c, inputs))
        == Datas(Sends(c, init)) + SentAt(c, Run(c, init), i + WakeUps(init), inputs[|inputs| - 1])
  {
    hide Step, SentAt, Datas, Run, Sends, WakeUps, Passing, SameTransfer, Advanced, WellFormed;
    PassingWellFormed(c, i);
    var init, last := inputs[..|inputs| - 1], inputs[|inputs| - 1];
    var k := i + WakeUps(init);
    SendsSnoc(c, inputs);
    PassAdvances(c, i, init);
    var d := Run(c, init);
    PassWithin(c, i, d, k);
    DatasConcat(Sends(c, init), Step(d, last).packets);
    SentAtSame(c, d, k, last);
    StepInPass(d, k, last);
  }

  lemma PassKind(c: Coord, i: nat, inputs: seq<Input>)
    requires Passing(c, i) && i + WakeUps(inputs) <= c.total && forall x :: x in inputs ==> !x.UartStart?
    ensures Run(c, inputs).pc.FirstPass? <==> c.pc.FirstPass?
  {
    hide Run, WakeUps;
    PassAdvances(c, i, inputs);
  }

  /** The chunks a recovery pass has to send: at its wake-up, each chunk that some active node then lacks. */
  function Resent(c: Coord, i: nat, inputs: seq<Input>): seq<Packet>
    requires WellFormed(c)
  {
    if inputs == [] then []
    else
      var init, last := inputs[..|inputs| - 1], inputs[|inputs| - 1];
      var k := i + WakeUps(init);
      Resent(c, i, init) + if last.Resume? && Missed(Run(c, init), k) then [ChunkPacket(c, k)] else []
  }

  /** Whatever arrives in between, a recovery pass sends exactly the chunks that some active node lacks when they are
      examined, with the bytes of the page buffer as it was when the pass began. */
  lemma {:induction false} RecoveryPassExact(c: Coord, i: nat, inputs: seq<Input>)
    requires Passing(c, i) && c.pc.Recover? && i + WakeUps(inputs) <= c.total
    requires forall x :: x in inputs ==> !x.UartStart?
    ensures Datas(Sends(c, inputs)) == Resent(c, i, inputs)
  {
    hide Missed, ChunkPacket, Run, Sends, Datas;
    if inputs == [] {
      NothingSent(c);
    } else {
      var init := inputs[..|inputs| - 1];
      RecoveryPassExact(c, i, init);
      PassKind(c, i, init);
      PassSends(c, i, inputs);
    }
  }

  /** At input `k`, a chunk that is missing is examined, and `p` is its packet. */
  predicate ResentAt(c: Coord, i: nat, inputs: seq<Input>, p: Packet, k: nat)
    requires WellFormed(c) && k < |inputs|
  {
    var examined := i + WakeUps(inputs[..k]);
    inputs[k].Resume? && Missed(Run(c, inputs[..k]), examined) && p == ChunkPacket(c, examined)
  }

  /** A packet is among them exactly if it is that of a chunk which was missing when it was examined. */
  lemma {:induction false} ResentExact(c: Coord, i: nat, inputs: seq<Input>, p: Packet)
    requires WellFormed(c)
    ensures p in Resent(c, i, inputs) <==> exists k :: 0 <= k < |inputs| && ResentAt(c, i, inputs, p, k)
  {
    hide Missed, ChunkPacket, Run, WakeUps, Resent;
    if inputs == [] {
      NothingResent(c, i);
    } else {
      var n := |inputs| - 1;
      ResentExact(c, i, inputs[..n], p);
      forall k | 0 <= k < n
        ensures ResentAt(c, i, inputs[..n], p, k) == ResentAt(c, i, inputs, p, k)
      {
        assert inputs[..n][..k] == inputs[..k];
      }
      ResentSnoc(c, i, inputs, p);
    }
  }

  lemma NothingResent(c: Coord, i: nat)
    requires WellFormed(c)
    ensures Resent(c, i, []) == []
  {
  }

  lemma ResentSnoc(c: Coord, i: nat, inputs: seq<Input>, p: Packet)
    requires WellFormed(c) && inputs != []
    ensures p in Resent(c, i, inputs) <==>
      p in Resent(c, i, inputs[..|inputs| - 1]) || ResentAt(c, i, inputs, p, |inputs| - 1)
  {
    hide Missed, ChunkPacket, Run, WakeUps;
  }

  // ---------------------------------------------------------------- an empty report

  /** The packets of `n` chunks from `i` on. */
  function ChunksFrom(c: Coord, i: nat, n: nat): seq<Packet>
    requires WellFormed(c)
  {
    if n == 0 then [] else ChunksFrom(c, i, n - 1) + [ChunkPacket(c, i + n - 1)]
  }

  lemma {:induction false} EmptyRowStays(c: Coord, k: nat, inputs: seq<Input>)
    requires Passing(c, 0) && k < |c.nodes| && c.replied[k] && c.bitmaps[k] == {}
    requires WakeUps(inputs) <= c.total && forall x :: x in inputs ==> !x.UartStart?
    ensures var d := Run(c, inputs); k < |d.nodes| && d.replied[k] && d.bitmaps[k] == {}
  {
    hide Step, OnResume, Missed, ChunkPacket;
    if inputs == [] {
    } else {
      var init, last := inputs[..|inputs| - 1], inputs[|inputs| - 1];
      EmptyRowStays(c, k, init);
      PassAdvances(c, 0, init);
      var d := Run(c, init);
      if last.Resume? {
        StepIsResume(d);
        WakeUpInPass(d, WakeUps(init));
      } else {
        OtherInputInPass(d, WakeUps(init), last);
      }
    }
  }

  /** A node that has reported an empty page, which is what a failed page check makes it do, gets every chunk of the
      page again in the next pass; reports that arrive during the pass change nothing. */
  lemma {:induction false} EmptyReportResendsPage(c: Coord, k: nat, inputs: seq<Input>)
    requires Passing(c, 0) && c.pc.Recover? && k < |c.nodes| && c.replied[k] && c.bitmaps[k] == {}
    requires WakeUps(inputs) <= c.total && forall x :: x in inputs ==> !x.UartStart?
    ensures Datas(Sends(c, inputs)) == ChunksFrom(c, 0, WakeUps(inputs))
  {
    hide Missed, ChunkPacket, Run, Sends, Datas;
    if inputs == [] {
      NothingSent(c);
    } else {
      var init := inputs[..|inputs| - 1];
      EmptyReportResendsPage(c, k, init);
      EmptyRowStays(c, k, init);
      EmptyRowMisses(Run(c, init), k, WakeUps(init));
      PassSends(c, 0, inputs);
    }
  }

  lemma NothingSent(c: Coord)
    requires WellFormed(c)
    ensures Datas(Sends(c, [])) == []
  {
  }

  lemma EmptyRowMisses(d: Coord, k: nat, i: nat)
    requires WellFormed(d) && k < |d.nodes| && d.bitmaps[k] == {}
    ensures Missed(d, i)
  {
    assert i !in d.bitmaps[k];
  }

  // ---------------------------------------------------------------- the first pass

  lemma {:induction false} FirstPassSends(c: Coord, i: nat, inputs: seq<Input>)
    requires Passing(c, i) && c.pc.FirstPass? && i + WakeUps(inputs) <= c.total
    requires forall x :: x in inputs ==> !x.UartStart?
    ensures Datas(Sends(c, inputs)) == ChunksFrom(c, i, WakeUps(inputs))
  {
    hide Missed, ChunkPacket, Run, Sends, Datas;
    if inputs == [] {
      NothingSent(c);
    } else {
      var init := inputs[..|inputs| - 1];
      FirstPassSends(c, i, init);
      PassKind(c, i, init);
      PassSends(c, i, inputs);
    }
  }

  function Payload(packets: seq<Packet>): seq<bv8> {
    if packets == [] then []
    else
      var p := packets[|packets| - 1];
      Payload(packets[..|packets| - 1]) + if p.Data? then p.data else []
  }

  /** The packets cover the file from offset `at` on without gap or overlap. */
  predicate Tiles(packets: seq<Packet>, at: nat) {
    packets == []
    || var init, p := packets[..|packets| - 1], packets[|packets| - 1];
       Tiles(init, at) && p.Data? && p.offset == at + |Payload(init)| && p.length == |p.data| > 0
  }

  /** Where chunk `i` of the page ends. */
  function ChunkEnd(c: Coord, i: nat): nat {
    if 64 * i < c.expected then 64 * i else c.expected
  }

  /** A chunk packet carries its bytes of the page, if its end does not wrap around 32 bits. */
  lemma PlainChunk(c: Coord, i: nat)
    requires WellFormed(c) && 64 * i < c.expected && c.pageStart + 64 * i + 64 < 0x1_0000_0000
    ensures var p := ChunkPacket(c, i);
      && p.Data? && p.offset == c.pageStart + 64 * i && p.length == |p.data| > 0
      && p.data == c.buffer[64 * i..ChunkEnd(c, i + 1)]
  {
    var offset := c.pageStart + 64 * i;
    assert (c.pageStart + i * 64) % 0x1_0000_0000 == offset && (offset + 64) % 0x1_0000_0000 == offset + 64;
    if offset + 64 > c.pageStart + c.expected {
      assert (c.pageStart + c.expected - offset) % 0x1_0000_0000 % 0x1_0000 == c.expected - 64 * i;
    }
  }

  lemma {:induction false} ChunksTile(c: Coord, n: nat)
    requires WellFormed(c) && 64 * n < c.expected + 64 && c.pageStart + 64 * n < 0x1_0000_0000
    ensures var packets := ChunksFrom(c, 0, n);
      Tiles(packets, c.pageStart) && Payload(packets) == c.buffer[..ChunkEnd(c, n)]
  {
    hide ChunkPacket, WellFormed;
    if n == 0 {
    } else {
      ChunksTile(c, n - 1);
      PlainChunk(c, n - 1);
      var init, p := ChunksFrom(c, 0, n - 1), ChunkPacket(c, n - 1);
      assert (init + [p])[..|init|] == init;
      BufferSize(c);
      JoinSlices(c.buffer, 64 * (n - 1), ChunkEnd(c, n));
    }
  }

  lemma BufferSize(c: Coord)
    requires WellFormed(c)
    ensures c.expected <= |c.buffer|
  {
  }

  lemma JoinSlices(s: seq<bv8>, i: nat, j: nat)
    requires i <= j <= |s|
    ensures s[..i] + s[i..j] == s[..j]
  {
  }

  /** The last chunk of a page whose chunk grid reaches beyond 32 bits is sent with 64 bytes, past the end of the
      page. */
  lemma WrappedChunk(c: Coord)
    requires WellFormed(c) && c.total == (c.expected + 63) / 64 && c.pageStart + 64 * c.total >= 0x1_0000_0000
    ensures c.total > 0
    ensures ChunkPacket(c, c.total - 1).length == 64 && 64 * c.total > c.expected
  {
    var offset := c.pageStart + 64 * (c.total - 1);
    assert offset < 0x1_0000_0000;
    assert (c.pageStart + (c.total - 1) * 64) % 0x1_0000_0000 == offset;
    assert (offset + 64) % 0x1_0000_0000 == offset + 64 - 0x1_0000_0000;
  }

  /** Whatever arrives during the first pass, it tiles the page with the bytes of the page buffer, exactly if the last
      chunk does not end beyond 32 bits. */
  lemma FirstPassTilesIff(c: Coord, inputs: seq<Input>)
    requires Passing(c, 0) && c.pc.FirstPass? && c.total == (c.expected + 63) / 64 && WakeUps(inputs) == c.total
    requires forall x :: x in inputs ==> !x.UartStart?
    ensures var packets := Datas(Sends(c, inputs));
      && Run(c, inputs).pc == FirstPass(c.total) && |packets| == c.total
      && (Tiles(packets, c.pageStart) && Payload(packets) == c.buffer[..c.expected]
          <==> c.pageStart + 64 * c.total < 0x1_0000_0000)
  {
    hide Step, ChunkPacket, Tiles, Payload, Run, Sends;
    FirstPassSends(c, 0, inputs);
    PassAdvances(c, 0, inputs);
    ChunkCount(c, 0, c.total);
    if c.pageStart + 64 * c.total < 0x1_0000_0000 {
      ChunksTile(c, c.total);
    } else {
      WrappedChunk(c);
      TooLong(c);
    }
  }

  lemma {:induction false} ChunkCount(c: Coord, i: nat, n: nat)
    requires WellFormed(c)
    ensures |ChunksFrom(c, i, n)| == n
  {
    if n == 0 {
    } else {
      ChunkCount(c, i, n - 1);
    }
  }

  /** The last packet alone shows it: the packets before it tile the page up to its start. */
  lemma TooLong(c: Coord)
    requires WellFormed(c) && c.total > 0 && c.total == (c.expected + 63) / 64 && 64 * c.total > c.expected
    requires ChunkPacket(c, c.total - 1).length == 64
    ensures var packets := ChunksFrom(c, 0, c.total);
      !(Tiles(packets, c.pageStart) && Payload(packets) == c.buffer[..c.expected])
  {
    hide ChunkPacket;
    var n := c.total - 1;
    var init, p := ChunksFrom(c, 0, n), ChunkPacket(c, n);
    assert (init + [p])[..|init|] == init;
    ChunksTile(c, n);
  }
}
