/**
 The rounds of the page loop: who is dropped, after what, and how often the nodes are prompted.
 */
module Rounds {
  import opened Wire
  import opened Coordinator
  import opened Recovery
  import opened Passes
  import opened StableFilter

  // ---------------------------------------------------------------- drops

  lemma KeptIff(xs: seq<NodeId>, flags: seq<bool>, id: NodeId)
    requires |xs| <= |flags|
    ensures id in Keep(xs, flags) <==> exists i :: 0 <= i < |xs| && flags[i] && xs[i] == id
  {
    hide Keep;
    KeepIsPositions(xs, flags);
    PositionsExact(flags, |xs|);
    var p, kept := Positions(flags, |xs|), Keep(xs, flags);
    if id in kept {
      var k :| 0 <= k < |kept| && kept[k] == id;
      assert p[k] in p && flags[p[k]] && xs[p[k]] == id;
    }
    if i :| 0 <= i < |xs| && flags[i] && xs[i] == id {
      assert i in p;
      var k :| 0 <= k < |p| && p[k] == i;
      assert kept[k] == id;
    }
  }

  /** The third timeout of a wait in which some node has replied. */
  predicate Drops(c: Coord, input: Input) {
    && input.Resume? && c.pc.Waiting? && c.retry >= 2
    && exists i :: 0 <= i < |c.nodes| && i < |c.replied| && c.replied[i]
  }

  lemma NodesAfter(c: Coord, input: Input)
    requires WellFormed(c) && !c.admitting && !input.UartStart?
    ensures Step(c, input).c.nodes == if Drops(c, input) then Keep(c.nodes, c.replied) else c.nodes
  {
    hide Keep, KeepRows, Find, Overwrite, ChunkPacket, Missed, PageIsComplete, AllReplied;
    var d := c.(retry := c.retry + 1);
    assert SomeReplied(d) <==> exists i :: 0 <= i < |c.nodes| && i < |c.replied| && c.replied[i];
  }

  /** Outside the admission window a node leaves the session exactly at the third timeout of a wait in which some node
      has replied and this one has not. */
  lemma NodeLeavesIff(c: Coord, input: Input, id: NodeId)
    requires WellFormed(c) && !c.admitting && !input.UartStart? && id in c.nodes
    ensures id !in Step(c, input).c.nodes <==>
      && input.Resume? && c.pc.Waiting? && c.retry >= 2
      && (exists i :: 0 <= i < |c.nodes| && c.replied[i])
      && forall i :: 0 <= i < |c.nodes| && c.nodes[i] == id ==> !c.replied[i]
  {
    hide Step, Keep;
    NodesAfter(c, input);
    KeptIff(c.nodes, c.replied, id);
  }

  /** The timeouts of the wait among the inputs. */
  function Timeouts(c: Coord, inputs: seq<Input>): nat
    requires WellFormed(c)
  {
    if inputs == [] then 0
    else
      var init, last := inputs[..|inputs| - 1], inputs[|inputs| - 1];
      Timeouts(c, init) + if last.Resume? && Run(c, init).pc.Waiting? then 1 else 0
  }

  /** The process prompts and waits, and no input leads elsewhere. */
  predicate InRound(c: Coord, inputs: seq<Input>)
    requires WellFormed(c)
  {
    && (inputs != [] ==> InRound(c, inputs[..|inputs| - 1]))
    && (Run(c, inputs).pc.SendEnd? || Run(c, inputs).pc.Waiting? || Run(c, inputs).pc.ResendEnd?)
  }

  lemma RetryCounts(c: Coord, input: Input)
    requires WellFormed(c) && (c.pc.SendEnd? || c.pc.Waiting? || c.pc.ResendEnd?)
    requires var d := Step(c, input).c; d.pc.SendEnd? || d.pc.Waiting? || d.pc.ResendEnd?
    ensures Step(c, input).c.retry <= c.retry + if input.Resume? && c.pc.Waiting? then 1 else 0
  {
    hide OnReportTimeout, AfterWait, OnUartStart, OnUartData, OnStartReport, FinishAdmission, OnBitmapReport;
    hide ChunkPacket;
    if input.Resume? {
      TimeoutStep(c);
    } else if input.BitmapEvent? {
      LoopSteps(c);
    } else {
      NotStarting(c, input);
      ProcessUntouched(c, input);
    }
  }

  lemma {:induction false} RetryIsTimeouts(c: Coord, inputs: seq<Input>)
    requires WellFormed(c) && c.pc.SendEnd? && c.retry == 0 && InRound(c, inputs)
    ensures Run(c, inputs).retry <= Timeouts(c, inputs)
  {
    hide Step;
    if inputs == [] {
    } else {
      var init, last := inputs[..|inputs| - 1], inputs[|inputs| - 1];
      RetryIsTimeouts(c, init);
      RetryCounts(Run(c, init), last);
    }
  }

  /** Over any inputs of a round: a node is dropped only by a timeout that two timeouts of the same round precede,
      while some node has replied and it has not. */
  lemma DroppedAfterThreeTimeouts(c: Coord, inputs: seq<Input>, input: Input, id: NodeId)
    requires WellFormed(c) && c.pc.SendEnd? && c.retry == 0 && InRound(c, inputs)
    requires var d := Run(c, inputs);
      !d.admitting && !input.UartStart? && id in d.nodes && id !in Step(d, input).c.nodes
    ensures Timeouts(c, inputs) >= 2 && input.Resume? && Run(c, inputs).pc.Waiting?
    ensures var d := Run(c, inputs);
      && (exists i :: 0 <= i < |d.nodes| && d.replied[i])
      && forall i :: 0 <= i < |d.nodes| && d.nodes[i] == id ==> !d.replied[i]
  {
    hide Step, Run, InRound;
    RetryIsTimeouts(c, inputs);
    NodeLeavesIff(Run(c, inputs), input, id);
  }

  // ---------------------------------------------------------------- prompts

  /** The PAGE_END packets among some packets. */
  function Prompts(packets: seq<Packet>): seq<Packet> {
    if packets == [] then []
    else
      var p := packets[|packets| - 1];
      Prompts(packets[..|packets| - 1]) + if p.PageEnd? then [p] else []
  }

  lemma OnePrompt(p: Packet)
    ensures Prompts([p]) == (if p.PageEnd? then [p] else []) && Prompts([]) == []
  {
    assert [p][..0] == [];
  }

  lemma {:induction false} PromptsConcat(s: seq<Packet>, t: seq<Packet>)
    ensures Prompts(s + t) == Prompts(s) + Prompts(t)
  {
    if t == [] {
      assert s + t == s;
    } else {
      assert (s + t)[..|s + t| - 1] == s + t[..|t| - 1];
      PromptsConcat(s, t[..|t| - 1]);
    }
  }

  function Copies(p: Packet, n: nat): seq<Packet> {
    if n == 0 then [] else Copies(p, n - 1) + [p]
  }

  /** One input of a silent wait. */
  lemma SilentInput(c: Coord, input: Input)
    requires Silent(c) && c.endPkt.PageEnd? && !input.UartStart? && !Replies(c, input)
    ensures var out := Step(c, input);
      && out.c.endPkt == c.endPkt
      && out.c.retry == (if input.Resume? && c.pc.Waiting? then (if c.retry >= 2 then 0 else c.retry + 1) else c.retry)
      && (if !input.Resume? then out.c.pc == c.pc else if c.pc.Waiting? then out.c.pc.ResendEnd? else out.c.pc.Waiting?)
      && Prompts(out.packets) == if input.Resume? && c.pc.ResendEnd? then [c.endPkt] else []
  {
    hide AfterWait, Keep, Overwrite, Begin, FinishAdmission, Find;
    OnePrompt(c.endPkt);
    match input
    case Resume =>
      if c.pc.Waiting? {
        SameSilence(c, c.(retry := c.retry + 1));
      }
    case BitmapEvent => NotAllReplied(c);
    case UartVerify(crc) => OnePrompt(Packet.Verify(crc, c.target));
    case BitmapReport(from, _) => FindWithin(c.nodes, from);
    case _ =>
  }

  predicate Even(n: nat) { n % 2 == 0 }

  function Half(n: nat): nat { n / 2 }

  function Third(n: nat): nat { n % 3 }

  lemma ThirdMore(n: nat)
    ensures Third(n) < 3 && Third(n + 1) == (if Third(n) == 2 then 0 else Third(n) + 1) && Third(0) == 0
  {
  }

  lemma HalfMore(n: nat)
    ensures Even(n + 1) != Even(n) && Half(n + 1) == Half(n) + (if Even(n) then 0 else 1)
    ensures Even(0) && Half(0) == 0
  {
  }

  /** After `n` wake-ups of a silent wait, `prompts` having gone out. */
  predicate Prompted(c: Coord, d: Coord, n: nat, prompts: seq<Packet>) {
    && Silent(d) && d.nodes == c.nodes && d.pageStart == c.pageStart && d.endPkt == c.endPkt
    && (d.pc.Waiting? <==> Even(n)) && prompts == Copies(c.endPkt, Half(n))
    && d.retry == Third(Half(n) + if Even(n) then 0 else 1)
  }

  lemma PromptedStep(c: Coord, d: Coord, n: nat, prompts: seq<Packet>, input: Input)
    requires Prompted(c, d, n, prompts) && c.endPkt.PageEnd? && !input.UartStart? && !Replies(c, input)
    ensures var out := Step(d, input);
      Prompted(c, out.c, if input.Resume? then n + 1 else n, prompts + Prompts(out.packets))
  {
    hide Step, Silent, Even, Half, Third, Prompts;
    ThirdMore(Half(n));
    SilentWaits(d);
    SilenceStep(d, input);
    SilentInput(d, input);
    HalfMore(n);
    assert prompts + [] == prompts;
  }

  /** While nobody replies, each timeout is followed by the same PAGE_END again: every second wake-up sends it, and
      nothing else does. Three timeouts in silence start the count anew. */
  lemma {:induction false} SilencePrompts(c: Coord, inputs: seq<Input>)
    requires Silent(c) && c.pc == Waiting && c.retry == 0 && c.endPkt.PageEnd?
    requires forall x :: x in inputs ==> !x.UartStart? && !Replies(c, x)
    ensures WellFormed(c) && Prompted(c, Run(c, inputs), WakeUps(inputs), Prompts(Sends(c, inputs)))
  {
    hide Step, Silent, Prompted;
    SilentWellFormed(c);
    if inputs == [] {
      PromptedFirst(c);
    } else {
      hide Run, Sends, WakeUps, Prompts;
      var init, last := inputs[..|inputs| - 1], inputs[|inputs| - 1];
      assert last in inputs;
      SilencePrompts(c, init);
      PromptedStep(c, Run(c, init), WakeUps(init), Prompts(Sends(c, init)), last);
      SendsSnoc(c, inputs);
      RunSnoc(c, init, last);
      assert init + [last] == inputs;
      PromptsConcat(Sends(c, init), Step(Run(c, init), last).packets);
    }
  }

  lemma PromptedFirst(c: Coord)
    requires Silent(c) && c.pc == Waiting && c.retry == 0
    ensures Prompted(c, c, 0, [])
  {
  }

  lemma SilentWaits(d: Coord)
    requires Silent(d)
    ensures WellFormed(d) && (d.pc.Waiting? || d.pc.ResendEnd?)
  {
  }

  // ---------------------------------------------------------------- reports of a round

  /** The first report of a node for the page among the inputs. */
  function FirstReport(page: U32, inputs: seq<Input>, id: NodeId): Option<set<nat>> {
    if inputs == [] then None
    else
      var earlier, last := FirstReport(page, inputs[..|inputs| - 1], id), inputs[|inputs| - 1];
      if earlier.Some? then earlier
      else if last.BitmapReport? && last.from == id && last.report.page == page then Some(last.report.chunks)
      else None
  }

  /** Position `i` is the one its node is looked up at. */
  predicate Leads(c: Coord, i: nat)
    requires i < |c.nodes|
  {
    Find(c.nodes, c.nodes[i]) == i
  }

  /** What a round has recorded: for each node, whether it has reported since the round began, and what it said first; a
      node that has not reported keeps its row of the round before. */
  predicate Recorded(c: Coord, inputs: seq<Input>, d: Coord)
    requires WellFormed(c)
  {
    && WellFormed(d) && d.nodes == c.nodes && d.pageStart == c.pageStart && d.total == c.total && !d.admitting
    && forall i :: 0 <= i < |c.nodes| ==>
      var first := FirstReport(c.pageStart, inputs, c.nodes[i]);
      if Leads(c, i) && first.Some? then d.replied[i] && d.bitmaps[i] == first.value
      else !d.replied[i] && d.bitmaps[i] == c.bitmaps[i]
  }

  lemma RecordedReport(c: Coord, inputs: seq<Input>, d: Coord, from: NodeId, r: Report)
    requires WellFormed(c) && Recorded(c, inputs, d)
    ensures Recorded(c, inputs + [BitmapReport(from, r)], OnBitmapReport(d, from, r).c)
  {
    hide Find;
    var more := inputs + [BitmapReport(from, r)];
    assert more[..|inputs|] == inputs;
    FindWithin(c.nodes, from);
    FindIsFirst(c.nodes, from);
  }

  lemma FindIsFirst(nodes: seq<NodeId>, id: NodeId)
    ensures var i := Find(nodes, id);
      && (i >= 0 ==> i < |nodes| && nodes[i] == id)
      && forall k :: 0 <= k < |nodes| && nodes[k] == id ==> (Find(nodes, nodes[k]) == k <==> k == i)
  {
  }

  /** Anything else records nothing. */
  lemma RecordedOther(c: Coord, inputs: seq<Input>, d: Coord, input: Input, e: Coord)
    requires WellFormed(c) && Recorded(c, inputs, d) && !input.BitmapReport? && WellFormed(e)
    requires e.nodes == d.nodes && e.pageStart == d.pageStart && e.total == d.total && !e.admitting
    requires e.replied == d.replied && e.bitmaps == d.bitmaps
    ensures Recorded(c, inputs + [input], e)
  {
    hide Find;
    assert (inputs + [input])[..|inputs|] == inputs;
  }

  /** Inside a round only bitmap reports change the replies. */
  lemma RoundStep(d: Coord, input: Input)
    requires WellFormed(d) && !d.admitting && !input.UartStart? && !input.BitmapReport?
    requires d.pc.SendEnd? || d.pc.Waiting? || d.pc.ResendEnd?
    requires var e := Step(d, input).c; e.pc.SendEnd? || e.pc.Waiting? || e.pc.ResendEnd?
    ensures var e := Step(d, input).c;
      && WellFormed(e) && e.nodes == d.nodes && e.pageStart == d.pageStart && e.total == d.total && !e.admitting
      && e.replied == d.replied && e.bitmaps == d.bitmaps
  {
    hide OnResume, OnBitmapEvent, Begin, Overwrite, FinishAdmission, Find;
    StepWellFormed(d, input);
    if input.Resume? {
      RoundResume(d);
    } else if input.BitmapEvent? {
      RoundEvent(d);
    }
  }

  lemma RoundResume(d: Coord)
    requires WellFormed(d) && (d.pc.SendEnd? || d.pc.Waiting? || d.pc.ResendEnd?)
    requires var e := OnResume(d).c; e.pc.SendEnd? || e.pc.Waiting? || e.pc.ResendEnd?
    ensures OnResume(d).c == d.(pc := OnResume(d).c.pc, retry := OnResume(d).c.retry)
  {
    hide AfterWait, Keep, KeepRows, SomeReplied;
    LoopSteps(Drop(d.(retry := d.retry + 1)));
  }

  lemma RoundEvent(d: Coord)
    requires WellFormed(d) && (d.pc.SendEnd? || d.pc.Waiting? || d.pc.ResendEnd?)
    requires var e := OnBitmapEvent(d).c; e.pc.SendEnd? || e.pc.Waiting? || e.pc.ResendEnd?
    ensures OnBitmapEvent(d).c == d
  {
    hide AfterWait, AllReplied;
    LoopSteps(d);
  }

  lemma {:induction false} RoundRecords(c: Coord, inputs: seq<Input>)
    requires WellFormed(c) && !c.admitting && c.pc.SendEnd? && (forall i :: 0 <= i < MAX_NODES ==> !c.replied[i])
    requires InRound(c, inputs) && forall x :: x in inputs ==> !x.UartStart?
    ensures Recorded(c, inputs, Run(c, inputs))
  {
    hide Step, Recorded, Find;
    if inputs == [] {
      NothingRecorded(c);
    } else {
      var init, last := inputs[..|inputs| - 1], inputs[|inputs| - 1];
      assert last in inputs && inputs == init + [last];
      RoundRecords(c, init);
      var d := Run(c, init);
      RecordedParts(c, init, d);
      if last.BitmapReport? {
        RecordedReport(c, init, d, last.from, last.report);
        StepOfReport(d, last.from, last.report);
      } else {
        RoundStep(d, last);
        RecordedOther(c, init, d, last, Step(d, last).c);
      }
    }
  }

  lemma NothingRecorded(c: Coord)
    requires WellFormed(c) && !c.admitting && forall i :: 0 <= i < MAX_NODES ==> !c.replied[i]
    ensures Recorded(c, [], c)
  {
    hide Find;
  }

  lemma RecordedParts(c: Coord, inputs: seq<Input>, d: Coord)
    requires WellFormed(c) && Recorded(c, inputs, d)
    ensures WellFormed(d) && !d.admitting
  {
  }

  lemma StepOfReport(d: Coord, from: NodeId, r: Report)
    requires WellFormed(d)
    ensures Step(d, BitmapReport(from, r)) == OnBitmapReport(d, from, r)
  {
  }

  /** The head of the page loop forgets the replies of the round before. */
  lemma RoundBegins(c: Coord)
    requires WellFormed(c) && c.nodes != [] && !PageIsComplete(c) && c.round < 10
    ensures var d := Top(c).c;
      && WellFormed(d) && d.pc.SendEnd? && d.retry == 0 && d.round == c.round + 1
      && (forall i :: 0 <= i < 16 ==> !d.replied[i])
      && d.nodes == c.nodes && d.bitmaps == c.bitmaps && d.pageStart == c.pageStart && d.total == c.total
      && d.endPkt == Packet.PageEnd(c.pageStart, c.pageCrc, c.target)
  {
    hide PageIsComplete;
  }

  /** How a round ends, whatever happened in it, when the event comes: the wait is left exactly if every node has
      reported since the round began. Then the page is complete exactly if the first report of every node names all
      its chunks; otherwise the recovery pass begins, at chunk 0. */
  lemma RoundOutcome(c: Coord, inputs: seq<Input>)
    requires WellFormed(c) && !c.admitting && c.pc.SendEnd? && (forall i :: 0 <= i < MAX_NODES ==> !c.replied[i])
    requires InRound(c, inputs) && (forall x :: x in inputs ==> !x.UartStart?) && Run(c, inputs).pc.Waiting?
    requires forall i :: 0 <= i < |c.nodes| ==> Leads(c, i)
    ensures
      var out := Step(Run(c, inputs), BitmapEvent);
      var reported := forall i :: 0 <= i < |c.nodes| ==> FirstReport(c.pageStart, inputs, c.nodes[i]).Some?;
      var full := forall i, k :: 0 <= i < |c.nodes| && 0 <= k < c.total ==>
        FirstReport(c.pageStart, inputs, c.nodes[i]).Some? && k in FirstReport(c.pageStart, inputs, c.nodes[i]).value;
      && (!out.c.pc.Waiting? <==> reported)
      && (reported && full ==> out.exit == Some(Complete) && out.lines == [PageOk])
      && (reported && !full ==> out.exit == None && out.c.pc == Recover(0) && out.lines == [])
  {
    hide Run, InRound, Find, Leave;
    RoundRecords(c, inputs);
    var d := Run(c, inputs);
    LeaveIs(d);
  }

  lemma LeaveIs(d: Coord)
    requires WellFormed(d)
    ensures Leave(d, Complete).exit == Some(Complete) && Leave(d, Complete).lines == [PageOk]
    ensures Leave(d, Complete).c.pc.Idle?
  {
  }
}
