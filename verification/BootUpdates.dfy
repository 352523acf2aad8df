/**
 Updates from download to confirmation or fallback: stated over the fields of the image headers and of the record.
 */
module BootUpdates {
  import opened Metadata
  import opened Boot
  import opened BootRuns
  import opened BootLoops

  /** The first address of a slot, and the first one behind it. */
  function Bottom(slot: Word): nat {
    if slot == 0 then 0 else 0x2E000
  }

  function Top(slot: Word): nat {
    if slot == 0 then 0x2A000 else 0x56000
  }

  // ---------------------------------------------------------------- staging

  /** The sector already says what staging the image would write. */
  predicate StagedAlready(n: Node, target: Word) {
    var i := ImageOf(n, target);
    && Metadata.Valid(n.stored) && n.stored.candidate == target && n.stored.attempts == 0
    && EntryOf(n.stored, target) == Entry(3, i.crc, i.version, (i.end - Bottom(target) + 1) % 0x1_0000_0000)
  }

  lemma StagingPossible(n: Node, target: Word)
    requires IsSlot(n.slot) && ProperIfValid(n.stored) && IsSlot(target)
    ensures Staged(n, target).1
  {
    hide Factory, Metadata.Valid, Verified, StageVerified;
    var base := if Metadata.Valid(n.stored) then n.stored else FactoryOf(n, n.slot);
    var i := ImageOf(n, target);
    FactoryProper(n.slot, ImageOf(n, n.slot).version, SizeOf(ImageOf(n, n.slot), n.slot), ImageOf(n, n.slot).crc);
    StageRecord(base, target, i.version, SizeOf(i, target), i.crc);
  }

  /** Staging writes the record that is already there exactly if it says so already. */
  lemma RestagedSame(n: Node, target: Word)
    requires IsSlot(n.slot) && ProperIfValid(n.stored) && IsSlot(target) && Metadata.Valid(n.stored)
    ensures Staged(n, target).0 == n.stored <==> StagedAlready(n, target)
  {
    hide Metadata.Valid, Checksum;
    StagingPossible(n, target);
    StagedFields(n, target);
    SizeIs(ImageOf(n, target), target);
    if StagedAlready(n, target) {
      SameButCheck(n, target);
    }
  }

  lemma SizeIs(i: Image, slot: Word)
    ensures SizeOf(i, slot) == (i.end - Bottom(slot) + 1) % 0x1_0000_0000
  {
  }

  lemma SameButCheck(n: Node, target: Word)
    requires IsSlot(n.slot) && ProperIfValid(n.stored) && IsSlot(target) && Metadata.Valid(n.stored)
    requires StagedAlready(n, target)
    ensures Staged(n, target).0 == n.stored
  {
    hide Checksum;
    var i := ImageOf(n, target);
    var size := SizeOf(i, target);
    StagingPossible(n, target);
    var v := Verified(n.stored, target, i.version, size, i.crc).0;
    var again := WithEntry(v, target, EntryOf(v, target).(state := PENDING)).(candidate := target, attempts := 0);
    assert again == n.stored.(check := v.check);
    RefreshIgnoresCheck(n.stored, v.check);
    RefreshedIsValid(n.stored);
  }

  lemma AcceptsIff(i: Image, running: Image, target: Word, fileSize: Word)
    requires IsSlot(target)
    ensures Accepts(i, running, target, fileSize) <==>
      && i.hasId && i.secVer > running.secVer && i.fits
      && i.start == Bottom(target) && Bottom(target) <= i.entry < Top(target)
      && Bottom(target) <= i.end < Top(target) && i.end - Bottom(target) + 1 <= fileSize
  {
  }

  /** An image is staged exactly if its header has the identifier, a strictly newer security version than the running
      image, the right types, an address range inside the slot that begins at its bottom, and a size within the file,
      and if the record could be written or says so already. A refused staging leaves the record in memory as it was.
      */
  lemma StageIff(n: Node, target: Word, fileSize: Word, w: Writing)
    requires Sound(n) && n.up && IsSlot(target)
    ensures
      var (m, ok) := Stage(n, target, fileSize, w);
      var i, running := ImageOf(n, target), ImageOf(n, n.slot);
      && (ok <==>
        && i.hasId && i.secVer > running.secVer && i.fits
        && i.start == Bottom(target) && Bottom(target) <= i.entry < Top(target)
        && Bottom(target) <= i.end < Top(target) && i.end - Bottom(target) + 1 <= fileSize
        && (w.Done? || StagedAlready(n, target)))
      && (!ok ==> m.current == n.current)
      && (ok ==> m.stored == m.current && m.stored.candidate == target)
      && m.imageA == n.imageA && m.imageB == n.imageB && m.slot == n.slot && m.up == n.up
  {
    hide Metadata.Valid, Staged, StagedAlready, Accepts;
    AcceptsIff(ImageOf(n, target), ImageOf(n, n.slot), target, fileSize);
    StagingPossible(n, target);
    StagedFields(n, target);
    if Metadata.Valid(n.stored) {
      RestagedSame(n, target);
    } else {
      NotYetStaged(n, target);
    }
  }

  lemma NotYetStaged(n: Node, target: Word)
    requires !Metadata.Valid(n.stored)
    ensures !StagedAlready(n, target)
  {
  }

  // ---------------------------------------------------------------- versions

  lemma VersionsStay(n: Node, e: Event)
    requires !e.Downloads?
    ensures Next(n, e).imageA.secVer == n.imageA.secVer && Next(n, e).imageB.secVer == n.imageB.secVer
    ensures e.Boots? ==> Next(n, e).slot == e.slot
    ensures !e.Boots? ==> Next(n, e).slot == n.slot
  {
    hide Metadata.Valid, Booted, FallenBack, Factory, Staged, Confirm, Accepts;
  }

  lemma {:induction false} VersionsStayInRun(m: Node, es: seq<Event>)
    requires IsSlot(m.slot) && forall e :: e in es ==> !e.Downloads? && (e.Boots? ==> IsSlot(e.slot))
    ensures Run(m, es).imageA.secVer == m.imageA.secVer && Run(m, es).imageB.secVer == m.imageB.secVer
    ensures IsSlot(Run(m, es).slot)
  {
    hide Next;
    if es == [] {
    } else {
      assert es[|es| - 1] in es;
      VersionsStayInRun(m, es[..|es| - 1]);
      VersionsStay(Run(m, es[..|es| - 1]), es[|es| - 1]);
    }
  }

  /** No update lowers the security version: after a successful staging, whatever boots, confirmations and stagings
      follow, the node runs a version at least as new as before, and a newer one when it runs the staged slot. */
  lemma StagingNeverLowersVersion(n: Node, target: Word, fileSize: Word, w: Writing, es: seq<Event>)
    requires Sound(n) && n.up && IsSlot(target) && target != n.slot && Stage(n, target, fileSize, w).1
    requires forall e :: e in es ==> !e.Downloads? && (e.Boots? ==> IsSlot(e.slot))
    ensures var f := Run(Stage(n, target, fileSize, w).0, es);
      && ImageOf(f, f.slot).secVer >= ImageOf(n, n.slot).secVer
      && (f.slot == target ==> ImageOf(f, f.slot).secVer > ImageOf(n, n.slot).secVer)
  {
    hide Run, Stage;
    StageIff(n, target, fileSize, w);
    VersionsStayInRun(Stage(n, target, fileSize, w).0, es);
  }

  // ---------------------------------------------------------------- first boot

  /** The first boot of a node without metadata records the running slot as active and pending, with the checksum,
      version and size of its image, and the other slot as empty; it is not counted. */
  lemma FirstBootRecord(n: Node, x: Word, source: ResetSource, w: Writing, w2: Writing, mark: bool)
    requires !Metadata.Valid(n.stored) && IsSlot(x)
    ensures
      var (m, outcome) := BootCheck(n, x, source, w, w2, mark);
      var r, i := m.current, ImageOf(n, x);
      && outcome == Continue && m.up && m.slot == x && (w.Done? ==> m.stored == r)
      && Metadata.Valid(r) && r.active == x && r.candidate == 0xFFFF_FFFF && r.attempts == 0
      && EntryOf(r, x) == Entry(3, i.crc, i.version, (i.end - Bottom(x) + 1) % 0x1_0000_0000)
      && EntryOf(r, Other(x)) == Entry(0, 0, 0, 0)
      && m.imageA == n.imageA && m.imageB == n.imageB
  {
    var i := ImageOf(n, x);
    TransitionsValid(n.stored, x, i.version, SizeOf(i, x), i.crc);
    hide Checksum, Metadata.Valid;
    SizeIs(i, x);
    DonePersistsIf(n.stored, FactoryOf(n, x), w);
  }

  lemma DonePersistsIf(stored: Record, r: Record, w: Writing)
    ensures w.Done? ==> Persisted(stored, r, w) == r
  {
    hide Metadata.Valid;
  }

  /** A boot of a slot that is neither active nor candidate, or whose image is not the recorded one, makes it the
      candidate, with one attempt used, and records the checksum, version and size of its image. */
  lemma NewImageRecord(n: Node, x: Word, source: ResetSource, w: Writing, w2: Writing, mark: bool)
    requires Metadata.Valid(n.stored) && IsSlot(x)
    requires (x != n.stored.active && x != n.stored.candidate) || ImageOf(n, x).crc != EntryOf(n.stored, x).crc
    ensures
      var (m, outcome) := BootCheck(n, x, source, w, w2, mark);
      var r, i := m.current, ImageOf(n, x);
      && outcome == Continue && m.up && m.slot == x && r.candidate == x && r.attempts == 1
      && r.active == n.stored.active
      && EntryOf(r, x) == Entry(3, i.crc, i.version, (i.end - Bottom(x) + 1) % 0x1_0000_0000)
  {
    hide Metadata.Valid, FallenBack, Factory, Checksum;
    SizeIs(ImageOf(n, x), x);
    BootedFields(n, x, source);
  }

  /** Whether a boot goes on, halts or falls back does not depend on the fate of the metadata writes, and a fallback
      marks the header even if the record could not be written. */
  lemma OutcomeIgnoresWrites(
    n: Node, x: Word, source: ResetSource, w: Writing, w2: Writing, v: Writing, v2: Writing, mark: bool)
    requires IsSlot(x)
    ensures var (m, outcome) := BootCheck(n, x, source, w, w2, mark);
      && outcome == BootCheck(n, x, source, v, v2, mark).1
      && (ImageOf(m, x).invalidated <==> ImageOf(n, x).invalidated || outcome == Reset)
      && (m.up <==> outcome == Continue)
  {
    hide Metadata.Valid, Booted, FallenBack, Factory;
  }

  // ---------------------------------------------------------------- an ordinary update

  /** An image of 4096 bytes for slot B, one version newer than `running`. */
  function Newer(running: Image, crc: Word, version: Word): Image
    requires running.secVer < 255
  {
    Image(true, crc, version, running.secVer + 1, true, 0x2E000, 0x2E100, 0x2EFFF, false)
  }

  function UpdateRun(n: Node, source: ResetSource, crc: Word, version: Word): seq<Event>
    requires n.imageA.secVer < 255
  {
    [Boots(0, source, Done, Done, true), Downloads(1, Newer(n.imageA, crc, version)), Stages(1, 0x1000, Done)]
  }

  lemma RunSnoc(n: Node, es: seq<Event>, e: Event)
    ensures Run(n, es + [e]) == Next(Run(n, es), e) && Run(n, []) == n
    ensures Legal(n, es + [e]) <==> Legal(n, es) && Enabled(Run(n, es), e)
    ensures Legal(n, [])
  {
    hide Next, Enabled;
    assert (es + [e])[..|es|] == es;
  }

  lemma RunThree(n: Node, e1: Event, e2: Event, e3: Event)
    ensures Run(n, [e1, e2]) == Next(Next(n, e1), e2)
    ensures Run(n, [e1, e2, e3]) == Next(Next(Next(n, e1), e2), e3)
    ensures Legal(n, [e1, e2, e3]) <==>
      Enabled(n, e1) && Enabled(Next(n, e1), e2) && Enabled(Next(Next(n, e1), e2), e3)
  {
    hide Next, Enabled, Run, Legal;
    RunSnoc(n, [], e1);
    RunSnoc(n, [e1], e2);
    RunSnoc(n, [e1, e2], e3);
    assert [] + [e1] == [e1] && [e1] + [e2] == [e1, e2] && [e1, e2] + [e3] == [e1, e2, e3];
  }

  /** A run in which an ordinary newer image is staged: a node without metadata boots slot A, receives the image in
      slot B, and stages it. */
  lemma NewerImageStaged(n: Node, source: ResetSource, crc: Word, version: Word)
    requires !Metadata.Valid(n.stored) && !n.up && n.imageA.secVer < 255 && !n.imageA.invalidated
    ensures var es := UpdateRun(n, source, crc, version);
      && Legal(n, es)
      && Stage(Run(n, es[..2]), 1, 0x1000, Done).1 && Sound(Run(n, es[..2])) && Run(n, es[..2]).up
      && Run(n, es).stored.candidate == 1
  {
    hide BootCheck, Stage, Metadata.Valid, Run, Legal;
    var es := UpdateRun(n, source, crc, version);
    var a := Next(n, es[0]);
    FirstBootRecord(n, 0, source, Done, Done, true);
    var b := Next(a, es[1]);
    FactorySound(a);
    RunThree(n, es[0], es[1], es[2]);
    assert es[..2] == [es[0], es[1]];
    StageIff(b, 1, 0x1000, Done);
  }

  lemma FactorySound(a: Node)
    requires Metadata.Valid(a.current) && a.stored == a.current && IsSlot(a.slot)
    requires IsSlot(a.current.active) && a.current.candidate == NO_SLOT
    ensures Sound(a)
  {
    hide Metadata.Valid;
  }

  // ---------------------------------------------------------------- an update that crashes

  /** The node is at home in slot `x`: active, with the image the record knows, and not given up. */
  predicate Home(n: Node, x: Word) {
    && Metadata.Valid(n.stored) && n.current == n.stored && Proper(n.stored) && n.stored.active == x
    && EntryOf(n.stored, x).crc == ImageOf(n, x).crc && EntryOf(n.stored, x).state != INVALID
    && ImageOf(n, x).hasId && (n.up ==> n.slot == x)
  }

  /** The node has given slot `x` up: its header is marked. */
  predicate Gone(n: Node, x: Word) {
    !n.up && ImageOf(n, x).invalidated
  }

  lemma HomeBoot(n: Node, x: Word, e: Event)
    requires IsSlot(x) && Home(n, x) && e.Boots? && e.slot == x && e.mark && Writes(e)
    ensures Home(Next(n, e), x) || Gone(Next(n, e), x)
  {
    hide Metadata.Valid, Booted, FallenBack, Factory, Proper;
    var r := Booted(n, x, e.source);
    BootedValid(n, x, e.source);
    BootedFields(n, x, e.source);
    BootedProper(n, x, e.source);
    DonePersists(n.stored, r, e.w);
  }

  lemma HomeSettle(n: Node, x: Word, w: Writing)
    requires IsSlot(x) && Home(n, x) && n.up && w.Done?
    ensures Home(ConfirmStable(n, w), x)
  {
    hide Metadata.Valid, Confirm;
    ConfirmFields(n.current, x);
    DonePersists(n.stored, Confirm(n.current, x).0, w);
  }

  lemma HomeStage(n: Node, x: Word, target: Word, fileSize: Word, w: Writing)
    requires IsSlot(x) && Home(n, x) && n.up && w.Done? && target == Other(x)
    ensures Home(Stage(n, target, fileSize, w).0, x)
  {
    hide Metadata.Valid, Staged, Accepts;
    StagingPossible(n, target);
    StagedFields(n, target);
    StagedProper(n, target);
    DonePersists(n.stored, Staged(n, target).0, w);
  }

  lemma HomeStep(n: Node, x: Word, e: Event)
    requires IsSlot(x) && Home(n, x) && Enabled(n, e) && Writes(e) && (e.Boots? ==> e.slot == x && e.mark)
    ensures Home(Next(n, e), x) || Gone(Next(n, e), x)
  {
    hide BootCheck, Stage, ConfirmStable, Metadata.Valid, Proper;
    match e
    case Boots(_, _, _, _, _) => HomeBoot(n, x, e);
    case Settles(w) => HomeSettle(n, x, w);
    case Stages(target, fileSize, w) => HomeStage(n, x, target, fileSize, w);
    case Downloads(_, _) =>
  }

  /** From a node without metadata, as long as it boots only slot `x`: while it is up it is at home there. */
  lemma {:induction false} StaysHome(n: Node, x: Word, es: seq<Event>)
    requires !Metadata.Valid(n.stored) && !n.up && IsSlot(x) && ImageOf(n, x).hasId && Legal(n, es) && es != []
    requires forall e :: e in es ==> Writes(e) && (e.Boots? ==> e.slot == x && e.mark)
    ensures Home(Run(n, es), x) || Gone(Run(n, es), x)
  {
    hide Next, Home, Metadata.Valid;
    var init, e := es[..|es| - 1], es[|es| - 1];
    assert e in es;
    if init == [] {
      FirstHome(n, x, e);
    } else {
      StaysHome(n, x, init);
      if Home(Run(n, init), x) {
        HomeStep(Run(n, init), x, e);
      } else {
        GoneIsOver(Run(n, init), x, e);
      }
    }
  }

  lemma FirstHome(n: Node, x: Word, e: Event)
    requires !Metadata.Valid(n.stored) && !n.up && IsSlot(x) && ImageOf(n, x).hasId && Enabled(n, e) && Writes(e)
    requires e.Boots? ==> e.slot == x
    ensures Home(Next(n, e), x)
  {
    hide BootCheck, Metadata.Valid;
    FirstBootRecord(n, x, e.source, e.w, e.w2, e.mark);
  }

  lemma GoneIsOver(n: Node, x: Word, e: Event)
    requires Gone(n, x) && (e.Boots? ==> e.slot == x)
    ensures !Enabled(n, e)
  {
  }

  /** Boots of the other slot leave what is recorded about `x` alone, as long as `x` holds the image the record knows.
      */
  lemma OtherKept(n: Node, x: Word, e: Event)
    requires IsSlot(x) && Metadata.Valid(n.stored) && EntryOf(n.stored, x).crc == ImageOf(n, x).crc
    requires e.Boots? && e.slot == Other(x) && Writes(e) && GoesOn(n, e)
    ensures Metadata.Valid(Next(n, e).stored) && EntryOf(Next(n, e).stored, x) == EntryOf(n.stored, x)
    ensures ImageOf(Next(n, e), x) == ImageOf(n, x)
  {
    hide Metadata.Valid, Booted, FallenBack, Factory;
    BootedValid(n, e.slot, e.source);
    BootedFields(n, e.slot, e.source);
    DonePersists(n.stored, Booted(n, e.slot, e.source), e.w);
  }

  lemma {:induction false} OtherKeptInLoop(n: Node, x: Word, es: seq<Event>)
    requires IsSlot(x) && Metadata.Valid(n.stored) && EntryOf(n.stored, x).crc == ImageOf(n, x).crc
    requires AllGoOn(n, es) && forall e :: e in es ==> e.Boots? && e.slot == Other(x) && Writes(e)
    ensures var m := Run(n, es);
      Metadata.Valid(m.stored) && EntryOf(m.stored, x) == EntryOf(n.stored, x) && ImageOf(m, x) == ImageOf(n, x)
  {
    hide Next, GoesOn, Metadata.Valid;
    if es == [] {
    } else {
      var init, e := es[..|es| - 1], es[|es| - 1];
      assert e in es;
      OtherKeptInLoop(n, x, init);
      OtherKept(Run(n, init), x, e);
    }
  }

  /** A failed update is rolled back. A node without metadata boots slot `x`, and after any confirmations, downloads,
      stagings and further boots of `x` stages an update in the other slot. If the update's boots use up four
      attempts, the first three let it run and the fourth falls back: `x` is active and confirmed again, the update is
      invalid and marked. */
  lemma FailedUpdateFallsBack(n: Node, x: Word, es: seq<Event>, fileSize: Word, boots: seq<Event>, last: Event)
    requires !Metadata.Valid(n.stored) && !n.up && IsSlot(x) && ImageOf(n, x).hasId && Legal(n, es) && es != []
    requires forall e :: e in es ==> Writes(e) && (e.Boots? ==> e.slot == x && e.mark)
    requires Run(n, es).up && Stage(Run(n, es), Other(x), fileSize, Done).1
    requires forall e :: e in boots + [last] ==> e.Boots? && e.slot == Other(x) && Writes(e) && e.mark
    requires var s := Stage(Run(n, es), Other(x), fileSize, Done).0;
      Attempts(s, boots) == 3 && Counts(Run(s, boots), last)
    ensures
      var s := Stage(Run(n, es), Other(x), fileSize, Done).0;
      && AllGoOn(s, boots) && FallsBack(Run(s, boots), last)
      && var f := Next(Run(s, boots), last);
      && f.stored.active == x && f.stored.candidate == 0xFFFF_FFFF && f.stored.attempts == 0
      && EntryOf(f.stored, x).state == 4 && EntryOf(f.stored, Other(x)).state == 5
      && ImageOf(f, Other(x)).invalidated
  {
    hide Next, Stage, Home, Metadata.Valid, Fresh, Trying, Counts, GoesOn, FallsBack, Attempts, AllGoOn;
    var m := Run(n, es);
    StaysHome(n, x, es);
    HomeStages(m, x, fileSize);
    var s := Stage(m, Other(x), fileSize, Done).0;
    assert forall e :: e in boots ==> e in boots + [last];
    assert last in boots + [last];
    CrashLoopBounded(s, Other(x), boots);
    NotEmpty(s, boots);
    OtherKeptInLoop(s, x, boots);
    var b := Run(s, boots);
    FourthBoot(b, Other(x), last);
    MarkedAfter(b, last);
  }

  lemma NotEmpty(s: Node, boots: seq<Event>)
    requires Attempts(s, boots) == 3
    ensures boots != []
  {
  }

  lemma MarkedAfter(b: Node, e: Event)
    requires FallsBack(b, e) && IsSlot(e.slot)
    ensures ImageOf(Next(b, e), e.slot).invalidated
  {
    hide Metadata.Valid, Booted, FallenBack, Factory;
  }

  lemma HomeStages(m: Node, x: Word, fileSize: Word)
    requires IsSlot(x) && (Home(m, x) || Gone(m, x)) && m.up && Stage(m, Other(x), fileSize, Done).1
    ensures var s := Stage(m, Other(x), fileSize, Done).0;
      && Metadata.Valid(s.stored) && BootLoops.Fresh(s, Other(x))
      && EntryOf(s.stored, x).crc == ImageOf(s, x).crc && EntryOf(s.stored, x).state != INVALID && ImageOf(s, x).hasId
  {
    hide Metadata.Valid, Staged, Accepts;
    StagingPossible(m, Other(x));
    StagedFields(m, Other(x));
    DonePersists(m.stored, Staged(m, Other(x)).0, Done);
  }
}
