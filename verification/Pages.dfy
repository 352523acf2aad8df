/**
 Conservation of pages: over a whole transfer the pages that are announced as distributed tile the file.
 */
module Pages {
  import opened Wire
  import opened Checksum16
  import opened PageTruth
  import opened Coordinator
  import opened Recovery
  import opened SessionInvariant
  import opened SessionSteps

  /** FW:PAGE_OK lines among the lines of a step. */
  function PageOks(lines: seq<Line>): nat {
    if lines == [] then 0
    else PageOks(lines[..|lines| - 1]) + if lines[|lines| - 1].PageOk? then 1 else 0
  }

  /** FW:PAGE_OK lines of a whole run. */
  function Announced(c: Coord, inputs: seq<Input>): nat
    requires WellFormed(c)
  {
    if inputs == [] then 0
    else
      var init, last := inputs[..|inputs| - 1], inputs[|inputs| - 1];
      Announced(c, init) + PageOks(Step(Run(c, init), last).lines)
  }

  /** The number of pages of a file. */
  function PageCount(size: nat): nat {
    (size + 4095) / 4096
  }

  /** A transfer of a file of `size` bytes, of which `k` pages have been announced. */
  predicate Transferring(c: Coord, size: nat, k: nat) {
    && WellFormed(c) && !c.admitting && c.nodes != [] && c.fileSize == size
    && k <= PageCount(size) && c.pageStart == PageStart(size, k) && c.expected == PageLen(size, c.pageStart)
    && (if c.pc.Idle? then !c.inProgress else c.inProgress && c.expected > 0)
  }

  lemma OkOnce(l: Line)
    ensures PageOks([l]) == if l.PageOk? then 1 else 0
    ensures PageOks([]) == 0
  {
    assert [l][..0] == [];
  }

  lemma LeavePages(c: Coord, size: nat, k: nat, why: Exit)
    requires Transferring(c, size, k) && !c.pc.Idle?
    ensures var out := Leave(c, why);
      PageOks(out.lines) == 1 && Transferring(out.c, size, k + 1)
  {
    OkOnce(PageOk);
    PageGeometry(size, k);
  }

  lemma LoopPages(c: Coord, size: nat, k: nat)
    requires Transferring(c, size, k) && !c.pc.Idle?
    ensures Transferring(Top(c).c, size, k + PageOks(Top(c).lines))
    ensures Transferring(AfterWait(c).c, size, k + PageOks(AfterWait(c).lines))
  {
    hide PageIsComplete, Leave;
    OkOnce(PageOk);
    LeavePages(c, size, k, Deserted);
    LeavePages(c, size, k, Complete);
    LeavePages(c, size, k, RoundLimit);
  }

  lemma TimeoutPages(c: Coord, size: nat, k: nat)
    requires Transferring(c, size, k) && !c.pc.Idle?
    ensures Transferring(OnReportTimeout(c).c, size, k + PageOks(OnReportTimeout(c).lines))
  {
    hide AfterWait, Drop, SomeReplied;
    OkOnce(PageOk);
    var d := c.(retry := c.retry + 1);
    if SomeReplied(d) {
      DropFields(d);
      DropPages(d, size, k);
      LoopPages(Drop(d), size, k);
    }
  }

  lemma DropPages(c: Coord, size: nat, k: nat)
    requires Transferring(c, size, k) && Drop(c).nodes != []
    ensures Transferring(Drop(c), size, k)
  {
    hide Keep;
  }

  lemma ResumePages(c: Coord, size: nat, k: nat)
    requires Transferring(c, size, k)
    ensures Transferring(OnResume(c).c, size, k + PageOks(OnResume(c).lines))
  {
    hide Top, OnReportTimeout, ChunkPacket, Missed;
    OkOnce(PageOk);
    match c.pc
    case Idle =>
    case FirstPass(_) => LoopPages(c.(round := 0), size, k);
    case SendEnd =>
    case Waiting => TimeoutPages(c, size, k);
    case ResendEnd =>
    case Recover(_) => LoopPages(c, size, k);
  }

  lemma EventPages(c: Coord, size: nat, k: nat)
    requires Transferring(c, size, k)
    ensures Transferring(OnBitmapEvent(c).c, size, k + PageOks(OnBitmapEvent(c).lines))
  {
    hide AfterWait, AllReplied;
    OkOnce(PageOk);
    if !c.pc.Idle? {
      LoopPages(c, size, k);
    }
  }

  lemma ChunkPages(c: Coord, offset: U32, data: seq<bv8>, size: nat, k: nat)
    requires Transferring(c, size, k)
    ensures var out := OnUartData(c, offset, data);
      PageOks(out.lines) == 0 && Transferring(out.c, size, k)
  {
    hide Overwrite, Crc16;
    OkOnce(Ack);
    OkOnce(NoTargets);
    UartDataWellFormed(c, offset, data);
    assert [Ack] + [] == [Ack];
  }

  lemma ReportPages(c: Coord, from: NodeId, r: Report, size: nat, k: nat)
    requires Transferring(c, size, k)
    ensures Transferring(OnBitmapReport(c, from, r).c, size, k) && OnBitmapReport(c, from, r).lines == []
  {
    hide Find;
  }

  lemma StepPages(c: Coord, input: Input, size: nat, k: nat)
    requires Transferring(c, size, k) && !input.UartStart?
    ensures Transferring(Step(c, input).c, size, k + PageOks(Step(c, input).lines))
  {
    hide OnResume, OnBitmapEvent, OnUartData, FinishAdmission, Find, OnBitmapReport;
    OkOnce(Ack);
    OkOnce(NoTargets);
    match input
    case UartData(offset, data) => ChunkPages(c, offset, data, size, k);
    case UartVerify(_) =>
    case StartReport(_, _) =>
    case AdmissionTimeout =>
    case BitmapReport(from, r) => ReportPages(c, from, r, size, k);
    case Resume => ResumePages(c, size, k);
    case BitmapEvent => EventPages(c, size, k);
  }

  /** Without a further START, the pages announced so far are exactly the first pages of the file, each of 4096 bytes
      except possibly the last, without gap or overlap. */
  lemma {:induction false} AnnouncedPagesTile(c: Coord, inputs: seq<Input>)
    requires Transferring(c, c.fileSize, 0) && forall i :: i in inputs ==> !i.UartStart?
    ensures Transferring(Run(c, inputs), c.fileSize, Announced(c, inputs))
  {
    hide Step, Transferring;
    StartsWellFormed(c);
    if inputs == [] {
    } else {
      var init, last := inputs[..|inputs| - 1], inputs[|inputs| - 1];
      AnnouncedPagesTile(c, init);
      StepPages(Run(c, init), last, c.fileSize, Announced(c, init));
    }
  }

  lemma StartsWellFormed(c: Coord)
    requires Transferring(c, c.fileSize, 0)
    ensures WellFormed(c)
  {
  }

  lemma RefusesIff(d: Coord, size: nat, k: nat)
    requires Transferring(d, size, k) && !d.inProgress
    ensures k == PageCount(size) <==> forall offset: U32, data: seq<bv8> :: !Buffers(d, offset, data)
  {
    if k < PageCount(size) {
      assert 4096 * k < size;
      assert Buffers(d, d.pageStart, []);
    }
  }

  /** A transfer announces at most one page per 4096 bytes of the file, and when no distribution is running it refuses
      every chunk exactly when it has announced them all. */
  lemma FinishedRefusesData(c: Coord, inputs: seq<Input>)
    requires Transferring(c, c.fileSize, 0) && forall i :: i in inputs ==> !i.UartStart?
    ensures Announced(c, inputs) <= PageCount(c.fileSize)
    ensures var d := Run(c, inputs);
      !d.inProgress ==>
        (Announced(c, inputs) == PageCount(c.fileSize)
         <==> forall offset: U32, data: seq<bv8> :: !Buffers(d, offset, data))
  {
    hide Run, Announced, Buffers;
    AnnouncedPagesTile(c, inputs);
    var d := Run(c, inputs);
    if !d.inProgress {
      RefusesIff(d, c.fileSize, Announced(c, inputs));
    }
  }

  // ---------------------------------------------------------------- START during a distribution

  /** How an input other than START can change the current page: not at all, to nothing because admission found no node,
      or to the next page because the process has left the page loop. */
  predicate PageMoves(c: Coord, d: Coord) {
    || (d.fileSize == c.fileSize && d.pageStart == c.pageStart && d.expected == c.expected
        && (d.pc.Idle? ==> c.pc.Idle?))
    || (d.fileSize == 0 && d.pageStart == 0 && d.expected == 0 && d.pc == c.pc)
    || (d.fileSize == c.fileSize && d.pageStart == c.pageStart + c.expected && !c.pc.Idle? && d.pc.Idle?)
  }

  lemma FinishMoves(c: Coord)
    requires WellFormed(c)
    ensures PageMoves(c, FinishAdmission(c).c) && FinishAdmission(c).c.pc == c.pc
  {
    hide Keep, KeepRows, Accepting;
  }

  lemma LoopMoves(c: Coord)
    requires WellFormed(c) && !c.pc.Idle?
    ensures PageMoves(c, Top(c).c) && PageMoves(c, AfterWait(c).c)
  {
    hide PageIsComplete;
  }

  lemma ResumeMoves(c: Coord)
    requires WellFormed(c)
    ensures PageMoves(c, OnResume(c).c) && (c.pc.Idle? ==> OnResume(c).c == c)
  {
    hide Top, AfterWait, ChunkPacket, Missed, SomeReplied, Keep, KeepRows;
    match c.pc
    case Idle =>
    case FirstPass(_) => LoopMoves(c.(round := 0));
    case SendEnd =>
    case Waiting =>
      DropFields(c.(retry := c.retry + 1));
      LoopMoves(Drop(c.(retry := c.retry + 1)));
    case ResendEnd =>
    case Recover(_) => LoopMoves(c);
  }

  lemma StepMoves(c: Coord, input: Input)
    requires WellFormed(c) && !input.UartStart?
    ensures WellFormed(Step(c, input).c) && PageMoves(c, Step(c, input).c)
    ensures Starts(c, input) ==> c.expected > 0
  {
    hide OnResume, AfterWait, FinishAdmission, Find, Overwrite, Crc16, AllReplied;
    StepWellFormed(c, input);
    match input
    case StartReport(from, status) =>
      var i := Find(c.nodes, from);
      FindWithin(c.nodes, from);
      if i >= 0 {
        FinishMoves(c.(replied := c.replied[i := true], accepted := c.accepted[i := status == START_ACCEPTED]));
      }
    case AdmissionTimeout => FinishMoves(c);
    case Resume => ResumeMoves(c);
    case BitmapEvent =>
      if !c.pc.Idle? {
        LoopMoves(c);
      }
    case _ =>
  }

  /** After a START for `size` bytes, before a page of it has begun: the page that comes next. `running` tells whether a
      distribution was under way at START. */
  predicate Restarted(e: Coord, size: U32, running: bool) {
    && WellFormed(e) && (!running ==> e.pc.Idle?)
    && ((e.fileSize == 0 && e.pageStart == 0 && e.expected == 0)
        || (e.fileSize == size
            && if running && e.pc.Idle? then e.pageStart == MinLen(size, 4096)
               else e.pageStart == 0 && e.expected == MinLen(size, 4096)))
  }

  lemma RestartedStep(e: Coord, size: U32, running: bool, input: Input)
    requires Restarted(e, size, running) && !input.UartStart? && !Starts(e, input)
    ensures Restarted(Step(e, input).c, size, running)
  {
    hide Step;
    StepMoves(e, input);
  }

  lemma {:induction false} RestartedRun(d: Coord, size: U32, running: bool, inputs: seq<Input>)
    requires Restarted(d, size, running) && OnePage(d, inputs) && forall x :: x in inputs ==> !x.UartStart?
    ensures Restarted(Run(d, inputs), size, running)
  {
    hide Step, Restarted, OnePage, Starts;
    RestartedWellFormed(d, size, running);
    if inputs == [] {
    } else {
      var init, last := inputs[..|inputs| - 1], inputs[|inputs| - 1];
      OnePagePrefix(d, inputs);
      RestartedRun(d, size, running, init);
      RestartedStep(Run(d, init), size, running, last);
    }
  }

  lemma RestartedWellFormed(d: Coord, size: U32, running: bool)
    requires Restarted(d, size, running)
    ensures WellFormed(d)
  {
  }

  lemma StartRestarts(c: Coord, size: U32, secVer: U16, target: U8, routes: seq<NodeId>)
    requires WellFormed(c) && target != TARGET_INVALID && routes != []
    ensures Restarted(OnUartStart(c, size, secVer, target, routes).c, size, !c.pc.Idle?)
  {
  }

  /** Whatever follows a START, other than another one, the first page whose distribution begins is page 0 exactly if no
      distribution was under way at the START. Otherwise it is page 4096: the process that was running advances over
      page 0, and once it has ended no chunk of page 0 is buffered any more. */
  lemma FirstPageAfterStart(
    c: Coord, size: U32, secVer: U16, target: U8, routes: seq<NodeId>, inputs: seq<Input>, input: Input)
    requires WellFormed(c) && target != TARGET_INVALID && routes != []
    requires forall x :: x in inputs + [input] ==> !x.UartStart?
    requires var d := OnUartStart(c, size, secVer, target, routes).c; WellFormed(d) && OnePage(d, inputs)
    ensures var e := Run(OnUartStart(c, size, secVer, target, routes).c, inputs);
      && (Starts(e, input) ==> e.pageStart == if c.pc.Idle? then 0 else 4096)
      && (!c.pc.Idle? && e.pc.Idle? ==> forall data :: !Buffers(e, 0, data))
  {
    hide Step, OnUartStart, Restarted, OnePage, Starts, Run;
    var d := OnUartStart(c, size, secVer, target, routes).c;
    StartRestarts(c, size, secVer, target, routes);
    RestartedRun(d, size, !c.pc.Idle?, inputs);
    var e := Run(d, inputs);
    NextPage(e, size, !c.pc.Idle?, input);
  }

  lemma NextPage(e: Coord, size: U32, running: bool, input: Input)
    requires Restarted(e, size, running) && !input.UartStart?
    ensures Starts(e, input) ==> e.pageStart == if running then 4096 else 0
    ensures running && e.pc.Idle? ==> forall data :: !Buffers(e, 0, data)
  {
    hide Step;
    StepMoves(e, input);
  }

  // ---------------------------------------------------------------- what FW:PAGE_OK means

  /** A step that prints FW:PAGE_OK has left the page loop, with a chunk missing on some node exactly when it ran into
      the round limit. */
  predicate OkMeans(out: Out) {
    && WellFormed(out.c)
    && (PageOk in out.lines <==> out.exit.Some?)
    && (out.exit.Some? ==> (out.exit == Some(RoundLimit) <==> !PageIsComplete(out.c)))
  }

  lemma LeaveComplete(c: Coord, why: Exit)
    requires WellFormed(c)
    ensures WellFormed(Leave(c, why).c) && (PageIsComplete(Leave(c, why).c) <==> PageIsComplete(c))
  {
  }

  lemma LoopOk(c: Coord)
    requires WellFormed(c)
    ensures OkMeans(Top(c)) && OkMeans(AfterWait(c))
  {
    TopWellFormed(c);
    AfterWaitWellFormed(c);
    LeaveComplete(c, Deserted);
    LeaveComplete(c, Complete);
    LeaveComplete(c, RoundLimit);
    if c.nodes == [] {
      DesertedComplete(c);
    }
    hide PageIsComplete;
  }

  lemma DesertedComplete(c: Coord)
    requires WellFormed(c) && c.nodes == []
    ensures PageIsComplete(c)
  {
  }

  lemma PageOkMeans(c: Coord, input: Input)
    requires WellFormed(c)
    ensures OkMeans(Step(c, input))
  {
    hide Top, AfterWait, PageIsComplete, ChunkPacket, Missed, Overwrite, Crc16, Keep, Accepting;
    StepWellFormed(c, input);
    match input
    case Resume =>
      LoopOk(c);
      LoopOk(c.(round := 0));
      var d := c.(retry := c.retry + 1);
      DropFields(d);
      LoopOk(Drop(d));
    case BitmapEvent =>
      LoopOk(c);
    case _ =>
  }
}
