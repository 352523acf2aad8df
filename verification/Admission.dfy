/**
 START admission: the window closes once, with one answer, and the nodes that stay are those whose first reply was an
 acceptance.
 */
module Admission {
  import opened Wire
  import opened Checksum16
  import opened Coordinator
  import opened Recovery
  import opened SessionSteps

  /** The coordinator right after it has sent START. */
  predicate Opened(c: Coord) {
    && WellFormed(c) && c.admitting && c.nodes != []
    && forall i :: 0 <= i < MAX_NODES ==> !c.replied[i] && !c.accepted[i]
  }

  /** START reports and bitmap reports of any kind, in any order, and the admission timer. */
  predicate AdmissionInput(i: Input) {
    i.StartReport? || i.AdmissionTimeout? || i.BitmapReport?
  }

  /** What takes up the reply flag of a node. */
  datatype Reply = OfStart(status: U8) | OfBitmap

  /** The first reply of a node: a START report, or a bitmap report for page `page`. */
  function First(page: U32, inputs: seq<Input>, id: NodeId): Option<Reply> {
    if inputs == [] then None
    else
      var earlier := First(page, inputs[..|inputs| - 1], id);
      var last := inputs[|inputs| - 1];
      if earlier.Some? then earlier
      else if last.StartReport? && last.from == id then Some(OfStart(last.status))
      else if last.BitmapReport? && last.from == id && last.report.page == page then Some(OfBitmap)
      else None
  }

  /** A node is looked up at the first of its positions. */
  predicate IsFirst(nodes: seq<NodeId>, i: nat)
    requires i < |nodes|
  {
    Find(nodes, nodes[i]) == i
  }

  predicate Reported(c: Coord, inputs: seq<Input>, i: nat)
    requires i < |c.nodes|
  {
    IsFirst(c.nodes, i) && First(c.pageStart, inputs, c.nodes[i]).Some?
  }

  predicate Accepts(c: Coord, inputs: seq<Input>, i: nat)
    requires i < |c.nodes|
  {
    IsFirst(c.nodes, i) && First(c.pageStart, inputs, c.nodes[i]) == Some(OfStart(START_ACCEPTED))
  }

  /** Which nodes the replies so far admit. */
  function Admitted(c: Coord, inputs: seq<Input>): (r: seq<bool>)
    ensures |r| == |c.nodes|
  {
    seq(|c.nodes|, i requires 0 <= i < |c.nodes| => Accepts(c, inputs, i))
  }

  /** The open window: only the flags and the bitmaps have changed, and the flags record the first replies. */
  ghost predicate Window(c: Coord, inputs: seq<Input>, d: Coord) {
    && WellFormed(d) && d == c.(replied := d.replied, accepted := d.accepted, bitmaps := d.bitmaps)
    && (forall i :: 0 <= i < |c.nodes| ==>
         && (d.replied[i] <==> Reported(c, inputs, i)) && (d.accepted[i] <==> Accepts(c, inputs, i)))
  }

  /** The closed window: the admitted nodes stay, and the answer is an acknowledgement exactly if there are any. */
  ghost predicate Closed(c: Coord, inputs: seq<Input>, d: Coord, lines: seq<Line>) {
    && WellFormed(d) && !d.admitting && d.nodes == Keep(c.nodes, Admitted(c, inputs))
    && lines == (if d.nodes == [] then [NoTargets] else [Ack])
    && (d.nodes == [] ==> d.fileSize == 0 && d.pageStart == 0 && d.expected == 0)
  }

  lemma {:induction false} KeepSameFlags<T>(xs: seq<T>, f: seq<bool>, g: seq<bool>)
    requires |xs| <= |f| && |xs| <= |g| && forall i :: 0 <= i < |xs| ==> f[i] == g[i]
    ensures Keep(xs, f) == Keep(xs, g)
  {
    if xs == [] {
    } else {
      KeepSameFlags(xs[..|xs| - 1], f, g);
    }
  }

  lemma FinishCloses(c: Coord, inputs: seq<Input>, d: Coord)
    requires Window(c, inputs, d)
    ensures Closed(c, inputs, FinishAdmission(d).c, FinishAdmission(d).lines)
  {
    hide Keep, First;
    FinishWellFormed(d);
    KeepSameFlags(c.nodes, Accepting(d), Admitted(c, inputs));
  }

  /** The first reply of a node on an open window. */
  lemma WindowReply(c: Coord, inputs: seq<Input>, d: Coord, input: Input, e: Coord)
    requires WellFormed(c) && Window(c, inputs, d) && (input.StartReport? || input.BitmapReport?)
    requires input.BitmapReport? ==> input.report.page == c.pageStart
    requires Find(c.nodes, input.from) >= 0 && !d.replied[Find(c.nodes, input.from)] && WellFormed(e)
    requires var i := Find(c.nodes, input.from);
      e == d.(replied := d.replied[i := true], bitmaps := e.bitmaps,
              accepted := d.accepted[i := input.StartReport? && input.status == START_ACCEPTED])
    ensures Window(c, inputs + [input], e)
  {
    var i, more := Find(c.nodes, input.from), inputs + [input];
    assert more[..|inputs|] == inputs;
    forall k | 0 <= k < |c.nodes|
      ensures e.replied[k] <==> Reported(c, more, k)
      ensures e.accepted[k] <==> Accepts(c, more, k)
    {
      assert k != i && c.nodes[k] == input.from ==> !IsFirst(c.nodes, k);
    }
  }

  /** An input that is nobody's first reply. */
  lemma WindowSame(c: Coord, inputs: seq<Input>, d: Coord, input: Input)
    requires WellFormed(c) && Window(c, inputs, d)
    requires input.StartReport? || (input.BitmapReport? && input.report.page == c.pageStart) ==>
      var i := Find(c.nodes, input.from); i < 0 || d.replied[i]
    requires !input.StartReport? && !input.BitmapReport? ==> input.AdmissionTimeout?
    ensures Window(c, inputs + [input], d)
  {
    var more := inputs + [input];
    assert more[..|inputs|] == inputs;
  }

  /** One input on an open window. */
  lemma WindowStep(c: Coord, inputs: seq<Input>, d: Coord, input: Input)
    requires WellFormed(c) && c.admitting && Window(c, inputs, d) && AdmissionInput(input)
    ensures var out := Step(d, input);
      if out.c.admitting then out.lines == [] && Window(c, inputs + [input], out.c)
      else Closed(c, inputs + [input], out.c, out.lines)
  {
    hide FinishAdmission, AllReplied, Closed, Find, Reported, Accepts;
    var more := inputs + [input];
    match input
    case AdmissionTimeout =>
      WindowSame(c, inputs, d, input);
      FinishCloses(c, more, d);
      FinishedIsClosed(c, more, d);
    case StartReport(from, status) =>
      var i := Find(c.nodes, from);
      FindWithin(c.nodes, from);
      if i < 0 || d.replied[i] {
        WindowSame(c, inputs, d, input);
      } else {
        var e := d.(replied := d.replied[i := true], accepted := d.accepted[i := status == START_ACCEPTED]);
        WindowReply(c, inputs, d, input, e);
        FinishCloses(c, more, e);
        FinishedIsClosed(c, more, e);
      }
    case BitmapReport(from, report) =>
      var i := Find(c.nodes, from);
      FindWithin(c.nodes, from);
      if report.page != c.pageStart || i < 0 || d.replied[i] {
        WindowSame(c, inputs, d, input);
      } else {
        NotYetAccepted(c, inputs, d, i);
        var e := OnBitmapReport(d, from, report).c;
        assert d.accepted[i := false] == d.accepted;
        WindowReply(c, inputs, d, input, e);
      }
  }

  /** Exactly when an input closes an open window: the timer, or the START report that is the last first reply of all
      routed nodes. A bitmap report never does. */
  lemma ClosesIff(c: Coord, inputs: seq<Input>, d: Coord, input: Input)
    requires WellFormed(c) && c.admitting && Window(c, inputs, d) && AdmissionInput(input)
    ensures !Step(d, input).c.admitting <==>
      || input.AdmissionTimeout?
      || (input.StartReport? && input.from in c.nodes && First(c.pageStart, inputs, input.from) == None
          && forall i :: 0 <= i < |c.nodes| ==> Reported(c, inputs + [input], i))
  {
    hide FinishAdmission, Accepts, First;
    match input
    case AdmissionTimeout => FinishedIsClosed(c, inputs, d);
    case BitmapReport(from, _) => FindWithin(c.nodes, from);
    case StartReport(from, status) =>
      FindWithin(c.nodes, from);
      var i := Find(c.nodes, from);
      if i >= 0 {
        assert IsFirst(c.nodes, i);
        if !d.replied[i] {
          var e := d.(replied := d.replied[i := true], accepted := d.accepted[i := status == START_ACCEPTED]);
          WindowReply(c, inputs, d, input, e);
          FinishedIsClosed(c, inputs, e);
        }
      }
  }

  lemma NotYetAccepted(c: Coord, inputs: seq<Input>, d: Coord, i: nat)
    requires Window(c, inputs, d) && i < |c.nodes| && !d.replied[i]
    ensures !d.accepted[i]
  {
  }

  lemma FinishedIsClosed(c: Coord, inputs: seq<Input>, d: Coord)
    requires WellFormed(d)
    ensures !FinishAdmission(d).c.admitting
  {
  }

  function Lines(c: Coord, inputs: seq<Input>): seq<Line>
    requires WellFormed(c)
  {
    if inputs == [] then []
    else Lines(c, inputs[..|inputs| - 1]) + Step(Run(c, inputs[..|inputs| - 1]), inputs[|inputs| - 1]).lines
  }

  /** A closed window stays as it is; only bitmap reports still count. */
  lemma LateReports(c: Coord, inputs: seq<Input>, d: Coord, lines: seq<Line>, input: Input)
    requires Closed(c, inputs, d, lines) && AdmissionInput(input)
    ensures Step(d, input).lines == [] && Closed(c, inputs, Step(d, input).c, lines)
  {
    hide Find, Admitted, Keep;
    StepWellFormed(d, input);
  }

  /** For any interleaving of accepted, rejected, duplicate, unknown and late START reports with bitmap reports and
      the timer: as long as the window is open nothing is printed; once it has closed, after some prefix of `k`
      inputs, exactly one line has been printed, FW:ACK if some node's first reply in that prefix was an acceptance
      and FW:NO_TARGETS with the transfer reset otherwise, and the session consists of exactly the nodes admitted by
      that prefix. */
  lemma {:induction false} AnswersOnce(c: Coord, inputs: seq<Input>) returns (k: nat)
    requires Opened(c) && forall i :: i in inputs ==> AdmissionInput(i)
    ensures k <= |inputs|
    ensures var d := Run(c, inputs);
      if d.admitting then k == |inputs| && Lines(c, inputs) == [] && Window(c, inputs, d)
      else 0 < k && Closed(c, inputs[..k], d, Lines(c, inputs)) && Run(c, inputs[..k - 1]).admitting
  {
    hide Step, Closed, Window;
    if inputs == [] {
      k := 0;
      OpenedIsWindow(c);
    } else {
      var init, last := inputs[..|inputs| - 1], inputs[|inputs| - 1];
      k := AnswersOnce(c, init);
      var d := Run(c, init);
      assert init + [last] == inputs;
      if d.admitting {
        WindowStep(c, init, d, last);
        k := |inputs|;
        assert [] + Step(d, last).lines == Step(d, last).lines;
        assert inputs[..k] == inputs && inputs[..k - 1] == init;
      } else {
        LateReports(c, init[..k], d, Lines(c, init), last);
        ClosedIsShut(c, init[..k], Step(d, last).c, Lines(c, init));
        assert Lines(c, init) + [] == Lines(c, init);
        assert inputs[..k] == init[..k] && inputs[..k - 1] == init[..k - 1];
      }
    }
  }

  lemma ClosedIsShut(c: Coord, inputs: seq<Input>, d: Coord, lines: seq<Line>)
    requires Closed(c, inputs, d, lines)
    ensures !d.admitting
  {
  }

  lemma OpenedIsWindow(c: Coord)
    requires Opened(c)
    ensures Window(c, [], c)
  {
  }

  /** Some node stays exactly if some routed node's first reply was an acceptance. */
  lemma AcknowledgedIff(c: Coord, inputs: seq<Input>)
    ensures Keep(c.nodes, Admitted(c, inputs)) != [] <==>
      exists id :: id in c.nodes && First(c.pageStart, inputs, id) == Some(OfStart(START_ACCEPTED))
  {
    var flags := Admitted(c, inputs);
    if Keep(c.nodes, flags) != [] {
      var i := KeepIndex(c.nodes, c.nodes, flags, 0);
      assert Accepts(c, inputs, i) && c.nodes[i] in c.nodes;
    }
    if id :| id in c.nodes && First(c.pageStart, inputs, id) == Some(OfStart(START_ACCEPTED)) {
      var i := Find(c.nodes, id);
      assert flags[i];
      KeepSome(c.nodes, flags, i);
    }
  }

  /** The reply flags are shared with the bitmap reports: a node that answers START with an acceptance is dropped all
      the same exactly if a bitmap report of its for the current page came first. */
  lemma AcceptanceLostIff(c: Coord, inputs: seq<Input>, id: NodeId)
    requires id in c.nodes
    requires forall i :: i in inputs && i.StartReport? && i.from == id ==> i.status == START_ACCEPTED
    requires exists i :: i in inputs && i.StartReport? && i.from == id
    ensures Admitted(c, inputs)[Find(c.nodes, id)] <==> First(c.pageStart, inputs, id) != Some(OfBitmap)
  {
    FirstOfStart(c.pageStart, inputs, id);
    var k :| 0 <= k < |inputs| && inputs[k].StartReport? && inputs[k].from == id;
    FirstAfter(c.pageStart, inputs, id, k);
  }

  /** A run in which that happens: a one-node session, a late bitmap report of the node, then its acceptance. The node
      is ready, and the session ends without any. */
  lemma AcceptanceLost(c: Coord, id: NodeId, chunks: set<nat>)
    requires Opened(c) && c.nodes == [id]
    ensures
      var report := BitmapReport(id, Report(c.pageStart, chunks));
      var inputs := [report, StartReport(id, START_ACCEPTED), AdmissionTimeout];
      Run(c, inputs).nodes == [] && Lines(c, inputs) == [NoTargets]
  {
    hide Step, Run, Lines;
    var report, accept := BitmapReport(id, Report(c.pageStart, chunks)), StartReport(id, START_ACCEPTED);
    LateReportTakesFlag(c, id, chunks);
    var d := Step(c, report).c;
    LinesSnoc(c, [], report);
    LinesSnoc(c, [report], accept);
    LinesSnoc(c, [report, accept], AdmissionTimeout);
    assert [] + [report] == [report] && [report] + [accept] == [report, accept];
    assert [report, accept] + [AdmissionTimeout] == [report, accept, AdmissionTimeout];
  }

  lemma LinesSnoc(c: Coord, inputs: seq<Input>, input: Input)
    requires WellFormed(c)
    ensures Run(c, inputs + [input]) == Step(Run(c, inputs), input).c
    ensures Lines(c, inputs + [input]) == Lines(c, inputs) + Step(Run(c, inputs), input).lines
    ensures Run(c, []) == c && Lines(c, []) == []
  {
    hide Step;
    assert (inputs + [input])[..|inputs|] == inputs;
  }

  /** The bitmap report takes the reply flag, the acceptance finds it taken, and the timer finds nobody. */
  lemma LateReportTakesFlag(c: Coord, id: NodeId, chunks: set<nat>)
    requires Opened(c) && c.nodes == [id]
    ensures var report := BitmapReport(id, Report(c.pageStart, chunks));
      var d := Step(c, report).c;
      && WellFormed(d) && Step(c, report).lines == [] && Step(d, StartReport(id, START_ACCEPTED)) == Quiet(d)
      && Step(d, AdmissionTimeout).c.nodes == [] && Step(d, AdmissionTimeout).lines == [NoTargets]
  {
    var d := OnBitmapReport(c, id, Report(c.pageStart, chunks)).c;
    assert Find([id], id) == 0;
    assert c.nodes[..0] == [];
    assert Keep(d.nodes, Accepting(d)) == [];
  }

  lemma {:induction false} FirstOfStart(page: U32, inputs: seq<Input>, id: NodeId)
    requires forall i :: i in inputs && i.StartReport? && i.from == id ==> i.status == START_ACCEPTED
    ensures First(page, inputs, id) in {None, Some(OfBitmap), Some(OfStart(START_ACCEPTED))}
  {
    if inputs == [] {
    } else {
      assert inputs[|inputs| - 1] in inputs;
      FirstOfStart(page, inputs[..|inputs| - 1], id);
    }
  }

  lemma {:induction false} FirstAfter(page: U32, inputs: seq<Input>, id: NodeId, k: nat)
    requires k < |inputs| && inputs[k].StartReport? && inputs[k].from == id
    ensures First(page, inputs, id).Some?
  {
    if k < |inputs| - 1 {
      FirstAfter(page, inputs[..|inputs| - 1], id, k);
    }
  }

  // ---------------------------------------------------------------- the session over time

  /** `sub` is what is left of `all` after deleting some elements. */
  predicate Subsequence<T(==)>(sub: seq<T>, all: seq<T>) {
    sub == []
    || (all != [] && (Subsequence(sub, all[..|all| - 1])
                      || (sub[|sub| - 1] == all[|all| - 1] && Subsequence(sub[..|sub| - 1], all[..|all| - 1]))))
  }

  lemma {:induction false} KeepIsSubsequence<T>(xs: seq<T>, flags: seq<bool>)
    requires |xs| <= |flags|
    ensures Subsequence(Keep(xs, flags), xs)
  {
    if xs == [] {
    } else {
      var n := |xs| - 1;
      KeepIsSubsequence(xs[..n], flags);
      var kept := Keep(xs[..n], flags);
      if flags[n] {
        assert Keep(xs, flags) == kept + [xs[n]];
        assert (kept + [xs[n]])[..|kept|] == kept;
      } else {
        assert kept + [] == kept;
      }
    }
  }

  lemma {:induction false} SubsequenceReflexive<T>(xs: seq<T>)
    ensures Subsequence(xs, xs)
  {
    if xs == [] {
    } else {
      SubsequenceReflexive(xs[..|xs| - 1]);
    }
  }

  lemma {:induction false} SubsequenceTransitive<T>(a: seq<T>, b: seq<T>, c: seq<T>)
    requires Subsequence(a, b) && Subsequence(b, c)
    ensures Subsequence(a, c)
    decreases |b| + |c|
  {
    if a != [] && b != [] {
      var b', c' := b[..|b| - 1], c[..|c| - 1];
      if Subsequence(b, c') {
        SubsequenceTransitive(a, b, c');
      } else if Subsequence(a, b') {
        SubsequenceTransitive(a, b', c');
      } else {
        SubsequenceTransitive(a[..|a| - 1], b', c');
      }
    }
  }

  lemma StepNodes(c: Coord, input: Input) returns (flags: seq<bool>)
    requires WellFormed(c) && !input.UartStart?
    ensures |c.nodes| <= |flags|
    ensures Step(c, input).c.nodes == c.nodes || Step(c, input).c.nodes == Keep(c.nodes, flags)
  {
    hide Keep, Find, Overwrite, Crc16, ChunkPacket, Missed, PageIsComplete, AllReplied, SomeReplied;
    flags := c.replied;
    match input
    case UartData(_, _) =>
    case UartVerify(_) =>
    case StartReport(from, status) =>
      var i := Find(c.nodes, from);
      if i >= 0 {
        flags := Accepting(c.(replied := c.replied[i := true], accepted := c.accepted[i := status == START_ACCEPTED]));
      }
    case AdmissionTimeout => flags := Accepting(c);
    case BitmapReport(_, _) =>
    case Resume =>
    case BitmapEvent =>
  }

  /** Until the next START the session only loses nodes, and keeps the rest in their original order. */
  lemma {:induction false} SessionIsSubsequence(c: Coord, inputs: seq<Input>)
    requires WellFormed(c) && forall i :: i in inputs ==> !i.UartStart?
    ensures Subsequence(Run(c, inputs).nodes, c.nodes)
  {
    hide Step, Keep, Subsequence;
    if inputs == [] {
      SubsequenceReflexive(c.nodes);
    } else {
      var init, last := inputs[..|inputs| - 1], inputs[|inputs| - 1];
      SessionIsSubsequence(c, init);
      var d := Run(c, init);
      var flags := StepNodes(d, last);
      KeepIsSubsequence(d.nodes, flags);
      SubsequenceReflexive(d.nodes);
      SubsequenceTransitive(Step(d, last).c.nodes, d.nodes, c.nodes);
    }
  }
}
