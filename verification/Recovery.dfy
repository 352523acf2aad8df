/**
 The cost and the end of a page distribution: how many DATA packets it can send, and when the page loop terminates.
 */
module Recovery {
  import opened Wire
  import opened Checksum16
  import opened Coordinator

  // ---------------------------------------------------------------- bookkeeping of the process

  /** The counters of the process match its program counter. */
  predicate PcOk(c: Coord) {
    match c.pc
    case Idle => true
    case FirstPass(i) => i <= c.total
    case SendEnd => 1 <= c.round <= MAX_ROUNDS && c.retry == 0 && c.endPkt.PageEnd?
    case Waiting => 1 <= c.round <= MAX_ROUNDS && c.retry <= 2 && c.endPkt.PageEnd?
    case ResendEnd => 1 <= c.round <= MAX_ROUNDS && c.retry <= 2 && c.endPkt.PageEnd?
    case Recover(i) => 1 <= c.round <= MAX_ROUNDS && i <= c.total
  }

  /** An input that starts the distribution of a page. */
  predicate Starts(c: Coord, input: Input)
    requires WellFormed(c)
  {
    c.pc.Idle? && !Step(c, input).c.pc.Idle?
  }

  /** DATA packets among the packets of a step. */
  function DataCount(packets: seq<Packet>): nat {
    if packets == [] then 0
    else DataCount(packets[..|packets| - 1]) + if packets[|packets| - 1].Data? then 1 else 0
  }

  lemma ChunkIsData(c: Coord, i: nat)
    requires WellFormed(c)
    ensures DataCount([ChunkPacket(c, i)]) == 1
  {
    CountOne(ChunkPacket(c, i));
  }

  lemma CountOne(p: Packet)
    ensures DataCount([p]) == if p.Data? then 1 else 0
  {
    assert [p][..0] == [];
  }

  /** What the inputs other than the wake-ups of the process leave alone. */
  lemma ProcessUntouched(c: Coord, input: Input)
    requires WellFormed(c) && !input.Resume? && !input.BitmapEvent? && !Starts(c, input)
    ensures var out := Step(c, input);
      && out.c.pc == c.pc && DataCount(out.packets) == 0
      && (!c.pc.Idle? ==>
        && out.c.total == c.total && out.c.round == c.round && out.c.retry == c.retry && out.c.endPkt == c.endPkt)
  {
    hide Find, Keep, Accepting, Overwrite, Crc16, AllReplied;
    match input
    case UartStart(size, secVer, target, _) => CountOne(Packet.Start(size, secVer, target));
    case UartVerify(crc) => CountOne(Packet.Verify(crc, c.target));
    case UartData(offset, data) =>
    case StartReport(_, _) =>
    case AdmissionTimeout =>
    case BitmapReport(_, _) =>
  }

  lemma LoopSteps(c: Coord)
    requires WellFormed(c)
    ensures var out := Top(c);
      && out.packets == [] && out.c.total == c.total
      && (out.c.pc.Idle? || (out.c.pc.SendEnd? && c.round < MAX_ROUNDS && out.c.round == c.round + 1 && out.c.retry == 0
           && out.c.endPkt.PageEnd?))
    ensures var out := AfterWait(c);
      && out.packets == [] && out.c.total == c.total
      && (out.c.pc.Idle? || (out.c.pc == Recover(0) && out.c.round == c.round))
  {
    hide PageIsComplete;
  }

  lemma TimeoutStep(c: Coord)
    requires WellFormed(c)
    ensures var out := OnReportTimeout(c);
      && out.packets == [] && out.c.total == c.total
      && (if c.retry < 2 then out.c == c.(retry := c.retry + 1, pc := ResendEnd)
          else if !SomeReplied(c) then out.c == c.(retry := 0, pc := ResendEnd)
          else out.c.pc.Idle? || (out.c.pc == Recover(0) && out.c.round == c.round))
  {
    hide AfterWait, Keep;
    LoopSteps(Drop(c.(retry := c.retry + 1)));
  }

  lemma ResumePcOk(c: Coord)
    requires WellFormed(c) && PcOk(c)
    ensures PcOk(OnResume(c).c)
  {
    hide Top, AfterWait, OnReportTimeout, ChunkPacket, Missed, SomeReplied;
    match c.pc
    case Idle =>
    case FirstPass(_) => LoopSteps(c.(round := 0));
    case SendEnd =>
    case Waiting => TimeoutStep(c);
    case ResendEnd =>
    case Recover(_) => LoopSteps(c);
  }

  lemma EventPcOk(c: Coord)
    requires WellFormed(c) && PcOk(c)
    ensures PcOk(OnBitmapEvent(c).c)
  {
    hide AfterWait, AllReplied;
    LoopSteps(c);
  }

  lemma UartPcOk(c: Coord, offset: U32, data: seq<bv8>)
    requires WellFormed(c) && PcOk(c)
    ensures PcOk(OnUartData(c, offset, data).c)
  {
    hide Overwrite, Crc16;
  }

  /** Every input keeps the counters consistent. */
  lemma PcStaysOk(c: Coord, input: Input)
    requires WellFormed(c) && PcOk(c)
    ensures WellFormed(Step(c, input).c) && PcOk(Step(c, input).c)
  {
    hide OnResume, OnBitmapEvent, OnUartData, OnStartReport, FinishAdmission, OnBitmapReport, Starts;
    StepWellFormed(c, input);
    if input.Resume? || input.BitmapEvent? {
      ResumePcOk(c);
      EventPcOk(c);
    } else if input.UartData? {
      UartPcOk(c, input.offset, input.data);
    } else {
      if Starts(c, input) {
        OnlyUartStarts(c, input);
      }
      ProcessUntouched(c, input);
    }
  }

  lemma OnlyUartStarts(c: Coord, input: Input)
    requires WellFormed(c) && Starts(c, input)
    ensures input.UartData?
  {
    hide Find, Keep, Accepting, Overwrite, Crc16, AllReplied, ChunkPacket, Missed;
    StepWellFormed(c, input);
  }

  // ---------------------------------------------------------------- DATA packets per page

  /** How many more DATA packets the distribution can send. */
  function Budget(c: Coord): int {
    match c.pc
    case Idle => 0
    case FirstPass(i) => c.total - i + 10 * c.total
    case SendEnd => (11 - c.round) * c.total
    case Waiting => (11 - c.round) * c.total
    case ResendEnd => (11 - c.round) * c.total
    case Recover(i) => c.total - i + (10 - c.round) * c.total
  }

  lemma Distribute(r: int, k: nat)
    ensures (r - 1) * k == r * k - k
    ensures r >= 0 ==> r * k >= 0
  {
    MulNonNegative(r, k);
  }

  lemma MulNonNegative(r: int, k: nat)
    ensures r >= 0 ==> r * k >= 0
  {
  }

  lemma BudgetNonNegative(c: Coord)
    requires PcOk(c)
    ensures Budget(c) >= 0
  {
    Distribute(11 - c.round, c.total);
    Distribute(10 - c.round, c.total);
  }

  lemma ResumeWithinBudget(c: Coord)
    requires WellFormed(c) && PcOk(c)
    ensures DataCount(OnResume(c).packets) + Budget(OnResume(c).c) <= Budget(c)
  {
    hide Top, OnReportTimeout, ChunkPacket, Missed;
    BudgetNonNegative(c);
    Distribute(11 - c.round, c.total);
    Distribute(11, c.total);
    match c.pc
    case Idle =>
    case FirstPass(i) =>
      LoopSteps(c.(round := 0));
      if i < c.total {
        ChunkIsData(c, i);
      }
    case SendEnd => CountOne(c.endPkt);
    case Waiting => TimeoutStep(c);
    case ResendEnd => CountOne(c.endPkt);
    case Recover(i) =>
      LoopSteps(c);
      if i < c.total {
        ChunkIsData(c, i);
      }
  }

  lemma EventWithinBudget(c: Coord)
    requires WellFormed(c) && PcOk(c)
    ensures DataCount(OnBitmapEvent(c).packets) + Budget(OnBitmapEvent(c).c) <= Budget(c)
  {
    hide AfterWait, AllReplied;
    BudgetNonNegative(c);
    Distribute(11 - c.round, c.total);
    LoopSteps(c);
  }

  lemma SameBudget(c: Coord, d: Coord)
    requires d.pc == c.pc && (c.pc.Idle? || (d.total == c.total && d.round == c.round))
    ensures Budget(d) == Budget(c)
  {
  }

  /** Every step pays for the DATA packets it sends. */
  lemma StepWithinBudget(c: Coord, input: Input)
    requires WellFormed(c) && PcOk(c) && !Starts(c, input)
    ensures var out := Step(c, input);
      DataCount(out.packets) + Budget(out.c) <= Budget(c)
  {
    hide OnResume, OnBitmapEvent, OnStartReport, FinishAdmission, OnBitmapReport, OnUartData, OnUartStart, DataCount,
      Budget;
    if input.Resume? {
      ResumeWithinBudget(c);
    } else if input.BitmapEvent? {
      EventWithinBudget(c);
    } else {
      ProcessUntouched(c, input);
      SameBudget(c, Step(c, input).c);
    }
  }

  // ---------------------------------------------------------------- runs

  /** The state after a sequence of inputs. */
  function Run(c: Coord, inputs: seq<Input>): (d: Coord)
    requires WellFormed(c)
    ensures WellFormed(d)
  {
    if inputs == [] then c
    else
      var d := Run(c, inputs[..|inputs| - 1]);
      StepWellFormed(d, inputs[|inputs| - 1]);
      Step(d, inputs[|inputs| - 1]).c
  }

  lemma RunSnoc(c: Coord, inputs: seq<Input>, input: Input)
    requires WellFormed(c)
    ensures Run(c, inputs + [input]) == Step(Run(c, inputs), input).c && Run(c, []) == c
  {
    hide Step;
    assert (inputs + [input])[..|inputs|] == inputs;
  }

  lemma {:induction false} RunConcat(c: Coord, s: seq<Input>, t: seq<Input>)
    requires WellFormed(c)
    ensures Run(c, s + t) == Run(Run(c, s), t)
  {
    hide Step;
    if t == [] {
      assert s + t == s;
    } else {
      assert (s + t)[..|s + t| - 1] == s + t[..|t| - 1];
      RunConcat(c, s, t[..|t| - 1]);
    }
  }

  /** All packets a sequence of inputs makes the coordinator send. */
  function Sends(c: Coord, inputs: seq<Input>): seq<Packet>
    requires WellFormed(c)
  {
    if inputs == [] then []
    else Sends(c, inputs[..|inputs| - 1]) + Step(Run(c, inputs[..|inputs| - 1]), inputs[|inputs| - 1]).packets
  }

  /** No new page begins during the inputs. */
  ghost predicate OnePage(c: Coord, inputs: seq<Input>)
    requires WellFormed(c)
  {
    forall k :: 0 <= k < |inputs| ==> !Starts(Run(c, inputs[..k]), inputs[k])
  }

  lemma OnePagePrefix(c: Coord, inputs: seq<Input>)
    requires WellFormed(c) && OnePage(c, inputs) && inputs != []
    ensures OnePage(c, inputs[..|inputs| - 1])
    ensures !Starts(Run(c, inputs[..|inputs| - 1]), inputs[|inputs| - 1])
  {
    hide Starts, Run;
    var init := inputs[..|inputs| - 1];
    forall k | 0 <= k < |init|
      ensures !Starts(Run(c, init[..k]), init[k])
    {
      assert init[..k] == inputs[..k];
    }
  }

  lemma {:induction false} CountConcat(s: seq<Packet>, t: seq<Packet>)
    ensures DataCount(s + t) == DataCount(s) + DataCount(t)
  {
    if t == [] {
      assert s + t == s;
    } else {
      assert (s + t)[..|s + t| - 1] == s + t[..|t| - 1];
      CountConcat(s, t[..|t| - 1]);
    }
  }

  lemma {:induction false} RunWithinBudget(c: Coord, inputs: seq<Input>)
    requires WellFormed(c) && PcOk(c) && OnePage(c, inputs)
    ensures PcOk(Run(c, inputs)) && DataCount(Sends(c, inputs)) + Budget(Run(c, inputs)) <= Budget(c)
  {
    hide Step, OnePage, Budget, PcOk, Starts;
    if inputs == [] {
    } else {
      var init, last := inputs[..|inputs| - 1], inputs[|inputs| - 1];
      OnePagePrefix(c, inputs);
      RunWithinBudget(c, init);
      PcStaysOk(Run(c, init), last);
      StepWithinBudget(Run(c, init), last);
      CountConcat(Sends(c, init), Step(Run(c, init), last).packets);
    }
  }

  /** A page distribution sends at most eleven DATA packets per chunk, whatever reports, timeouts, commands and even
      further START commands arrive in the meantime. */
  lemma AtMostElevenPasses(c: Coord, inputs: seq<Input>)
    requires WellFormed(c) && c.pc == FirstPass(0) && OnePage(c, inputs)
    ensures DataCount(Sends(c, inputs)) <= 11 * c.total
  {
    hide Step, OnePage, Starts;
    RunWithinBudget(c, inputs);
    BudgetNonNegative(Run(c, inputs));
  }

  // ---------------------------------------------------------------- termination

  /** A bound on the wake-ups left. Rounds count down first, then the stages of the round. */
  function Rank(c: Coord): int {
    match c.pc
    case Idle => 0
    case FirstPass(i) => 10 * (c.total + 11) + c.total - i + 1
    case SendEnd => (10 - c.round) * (c.total + 11) + c.total + 10
    case Waiting => (10 - c.round) * (c.total + 11) + c.total + 9 - 2 * c.retry
    case ResendEnd => (10 - c.round) * (c.total + 11) + c.total + 10 - 2 * c.retry
    case Recover(i) => (10 - c.round) * (c.total + 11) + c.total - i + 1
  }

  lemma RankPositive(c: Coord)
    requires PcOk(c)
    ensures Rank(c) >= 0 && (!c.pc.Idle? ==> Rank(c) > 0)
  {
    MulNonNegative(10 - c.round, c.total + 11);
  }

  /** The third report timeout of a round in which nobody has replied. */
  predicate SilentRound(c: Coord, input: Input)
    requires WellFormed(c)
  {
    input.Resume? && c.pc.Waiting? && c.retry >= 2 && !SomeReplied(c)
  }

  lemma ResumeLowersRank(c: Coord)
    requires WellFormed(c) && PcOk(c) && !SilentRound(c, Resume) && !c.pc.Idle?
    ensures Rank(OnResume(c).c) < Rank(c)
  {
    hide Top, OnReportTimeout, ChunkPacket, Missed, SomeReplied;
    RankPositive(c);
    Distribute(10 - c.round, c.total + 11);
    Distribute(10, c.total + 11);
    match c.pc
    case FirstPass(_) => LoopSteps(c.(round := 0));
    case SendEnd =>
    case Waiting => TimeoutStep(c);
    case ResendEnd =>
    case Recover(_) => LoopSteps(c);
  }

  lemma EventKeepsRank(c: Coord)
    requires WellFormed(c) && PcOk(c)
    ensures Rank(OnBitmapEvent(c).c) <= Rank(c)
  {
    hide AfterWait, AllReplied;
    RankPositive(c);
    LoopSteps(c);
  }

  lemma SameRank(c: Coord, d: Coord)
    requires d.pc == c.pc && d.total == c.total && d.round == c.round && d.retry == c.retry
    ensures Rank(d) == Rank(c)
  {
  }

  /** Every wake-up makes progress unless it ends a silent round; nothing else sets the process back. */
  lemma WakeUpProgress(c: Coord, input: Input)
    requires WellFormed(c) && PcOk(c) && !Starts(c, input) && !SilentRound(c, input) && !c.pc.Idle?
    ensures Rank(Step(c, input).c) + (if input.Resume? then 1 else 0) <= Rank(c)
  {
    hide OnResume, OnBitmapEvent, OnStartReport, FinishAdmission, OnBitmapReport, OnUartData, OnUartStart, Rank,
      SilentRound;
    if input.Resume? {
      OnlyResumeIsSilent(c, input);
      ResumeLowersRank(c);
    } else if input.BitmapEvent? {
      EventKeepsRank(c);
    } else {
      ProcessUntouched(c, input);
      SameRank(c, Step(c, input).c);
    }
  }

  lemma OnlyResumeIsSilent(c: Coord, input: Input)
    requires WellFormed(c) && input.Resume?
    ensures SilentRound(c, input) == SilentRound(c, Resume)
  {
  }

  /** The wake-ups of the process among the inputs. */
  function WakeUps(inputs: seq<Input>): nat {
    if inputs == [] then 0
    else WakeUps(inputs[..|inputs| - 1]) + if inputs[|inputs| - 1].Resume? then 1 else 0
  }

  /** The distribution is still running before every input, and no round ends in silence. */
  ghost predicate Answered(c: Coord, inputs: seq<Input>)
    requires WellFormed(c)
  {
    forall k :: 0 <= k < |inputs| ==>
      !Run(c, inputs[..k]).pc.Idle? && !SilentRound(Run(c, inputs[..k]), inputs[k])
  }

  lemma AnsweredPrefix(c: Coord, inputs: seq<Input>)
    requires WellFormed(c) && Answered(c, inputs) && inputs != []
    ensures var init, last := inputs[..|inputs| - 1], inputs[|inputs| - 1];
      && Answered(c, init) && !Run(c, init).pc.Idle? && !SilentRound(Run(c, init), last)
  {
    hide SilentRound, Run;
    var init := inputs[..|inputs| - 1];
    forall k | 0 <= k < |init|
      ensures !Run(c, init[..k]).pc.Idle? && !SilentRound(Run(c, init[..k]), init[k])
    {
      assert init[..k] == inputs[..k];
    }
  }

  lemma {:induction false} RankCountsDown(c: Coord, inputs: seq<Input>)
    requires WellFormed(c) && PcOk(c) && Answered(c, inputs)
    ensures PcOk(Run(c, inputs)) && WakeUps(inputs) + Rank(Run(c, inputs)) <= Rank(c)
  {
    hide Step, Answered, Rank, PcOk, Starts, SilentRound;
    if inputs == [] {
    } else {
      var init, last := inputs[..|inputs| - 1], inputs[|inputs| - 1];
      AnsweredPrefix(c, inputs);
      RankCountsDown(c, init);
      NotStarting(Run(c, init), last);
      PcStaysOk(Run(c, init), last);
      WakeUpProgress(Run(c, init), last);
    }
  }

  lemma NotStarting(c: Coord, input: Input)
    requires WellFormed(c) && !c.pc.Idle?
    ensures !Starts(c, input)
  {
  }

  /** If every round gets a reply before its third timeout, the page loop ends: a distribution that is still running
      has been woken up at most 11 * (total + 11) times. */
  lemma LoopTerminates(c: Coord, inputs: seq<Input>)
    requires WellFormed(c) && c.pc == FirstPass(0) && Answered(c, inputs)
    ensures WakeUps(inputs) <= 11 * (c.total + 11)
  {
    hide Step, Answered;
    RankCountsDown(c, inputs);
    RankPositive(Run(c, inputs));
  }

  // ---------------------------------------------------------------- silence

  /** The process waits for reports and nobody has replied yet. */
  predicate Silent(c: Coord) {
    && WellFormed(c) && !c.admitting && c.inProgress && c.nodes != [] && !SomeReplied(c)
    && (c.pc.Waiting? || c.pc.ResendEnd?)
  }

  /** A report the coordinator takes for a reply. */
  predicate Replies(c: Coord, input: Input) {
    input.BitmapReport? && input.report.page == c.pageStart && input.from in c.nodes
  }

  lemma SilenceStep(c: Coord, input: Input)
    requires Silent(c) && !input.UartStart? && !Replies(c, input)
    ensures var d := Step(c, input).c;
      Silent(d) && d.nodes == c.nodes && d.pageStart == c.pageStart && Step(c, input).lines in [[], [Ack]]
  {
    hide AfterWait, Keep, Overwrite, Begin, FinishAdmission;
    StepWellFormed(c, input);
    match input
    case Resume =>
      if c.pc.Waiting? {
        SameSilence(c, c.(retry := c.retry + 1));
      }
    case BitmapEvent => NotAllReplied(c);
    case _ =>
  }

  lemma SameSilence(c: Coord, d: Coord)
    requires WellFormed(c) && WellFormed(d) && d.nodes == c.nodes && d.replied == c.replied
    ensures SomeReplied(d) == SomeReplied(c)
  {
  }

  lemma NotAllReplied(c: Coord)
    requires Silent(c)
    ensures !AllReplied(c)
  {
    assert !c.replied[0];
  }

  /** Without a reply the page loop never ends: from a round in which nobody has replied, no run of wake-ups, timeouts,
      events, UART commands other than START, and reports that do not count ever leaves the wait. */
  lemma {:induction false} SilenceLoops(c: Coord, inputs: seq<Input>)
    requires Silent(c) && forall x :: x in inputs ==> !x.UartStart? && !Replies(c, x)
    ensures var d := Run(c, inputs); Silent(d) && d.nodes == c.nodes && d.pageStart == c.pageStart
  {
    hide Step, Silent;
    SilentWellFormed(c);
    if inputs == [] {
    } else {
      var init, last := inputs[..|inputs| - 1], inputs[|inputs| - 1];
      SilenceLoops(c, init);
      SilenceStep(Run(c, init), last);
    }
  }

  lemma SilentWellFormed(c: Coord)
    requires Silent(c)
    ensures WellFormed(c)
  {
  }
}
