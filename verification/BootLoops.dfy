/**
 Crash loops: when a node gives a slot up, and why it never comes back to it.
 */
module BootLoops {
  import opened Metadata
  import opened Boot
  import opened BootRuns

  // ---------------------------------------------------------------- no way back

  /** The node has fallen back from `x`: the slot is recorded as invalid together with the checksum of the image that
      is still in it, and its header is marked. */
  predicate Fallen(n: Node, x: Word) {
    && Metadata.Valid(n.stored) && n.current == n.stored && (n.up ==> n.slot == Other(x))
    && EntryOf(n.stored, x).state == INVALID && EntryOf(n.stored, x).crc == ImageOf(n, x).crc
    && ImageOf(n, x).invalidated
  }

  /** The boot that falls back. */
  predicate FallsBack(n: Node, e: Event) {
    e.Boots? && BootCheck(n, e.slot, e.source, e.w, e.w2, e.mark).1.Reset?
  }

  /** A boot that lets the slot run. */
  predicate GoesOn(n: Node, e: Event) {
    e.Boots? && BootCheck(n, e.slot, e.source, e.w, e.w2, e.mark).1.Continue?
  }

  function Fallbacks(n: Node, es: seq<Event>): nat {
    if es == [] then 0
    else
      Fallbacks(n, es[..|es| - 1]) + if FallsBack(Run(n, es[..|es| - 1]), es[|es| - 1]) then 1 else 0
  }

  lemma FallingBack(n: Node, e: Event)
    requires Enabled(n, e) && Writes(e) && FallsBack(n, e)
    ensures Fallen(Next(n, e), e.slot)
  {
    hide Metadata.Valid, Booted, FallenBack, Factory;
    var r := Booted(n, e.slot, e.source);
    BootedValid(n, e.slot, e.source);
    BootedFields(n, e.slot, e.source);
    FallenBackFields(r, e.slot);
    DonePersists(Persisted(n.stored, r, e.w), FallenBack(r, e.slot), e.w2);
  }

  /** A boot after the fallback runs the other slot, leaves the crashed one invalid and never falls back again: when its
      attempts are used up it ends in safe mode. */
  lemma BootAfterFallback(n: Node, x: Word, e: Event)
    requires IsSlot(x) && Fallen(n, x) && Enabled(n, e) && Writes(e) && e.Boots?
    ensures e.slot == Other(x) && Fallen(Next(n, e), x) && !FallsBack(n, e)
    ensures BootCheck(n, e.slot, e.source, e.w, e.w2, e.mark).1 ==
      if Next(n, e).stored.attempts > MAX_BOOT_ATTEMPTS then SafeMode else Continue
  {
    hide Metadata.Valid, Booted, FallenBack, Factory;
    var r := Booted(n, e.slot, e.source);
    BootedValid(n, e.slot, e.source);
    BootedFields(n, e.slot, e.source);
    DonePersists(n.stored, r, e.w);
  }

  lemma SettleAfterFallback(n: Node, x: Word, w: Writing)
    requires IsSlot(x) && Fallen(n, x) && n.up && w.Done?
    ensures Fallen(ConfirmStable(n, w), x)
  {
    hide Metadata.Valid, Confirm;
    ConfirmFields(n.current, n.slot);
    DonePersists(n.stored, Confirm(n.current, n.slot).0, w);
  }

  /** In any run of boots and confirmations over fixed slot contents there is at most one fallback, and after it the
      crashed slot stays invalid and marked. */
  lemma {:induction false} AtMostOneFallback(n: Node, es: seq<Event>) returns (x: Word)
    requires Legal(n, es) && forall e :: e in es ==> Writes(e) && (e.Boots? || e.Settles?)
    ensures Fallbacks(n, es) <= 1
    ensures IsSlot(x) && (Fallbacks(n, es) == 1 ==> Fallen(Run(n, es), x))
  {
    hide BootCheck, ConfirmStable, Fallen;
    if es == [] {
      x := A;
    } else {
      var init, e := es[..|es| - 1], es[|es| - 1];
      assert e in es;
      x := AtMostOneFallback(n, init);
      var m := Run(n, init);
      if Fallbacks(n, init) == 1 {
        if e.Boots? {
          BootAfterFallback(m, x, e);
        } else {
          SettleAfterFallback(m, x, e.w);
        }
      } else if FallsBack(m, e) {
        FallingBack(m, e);
        x := e.slot;
      }
    }
  }

  /** The mark is what keeps the crashed slot from running: if writing it fails, the node halts instead of resetting,
      and a later boot of that slot takes the image for a new one with all attempts but one left. */
  lemma UnmarkedSlotRunsAgain(n: Node, e: Event, again: Event)
    requires e.Boots? && Enabled(n, e) && Writes(e) && !e.mark && FallsBack(n, e.(mark := true))
    requires again.Boots? && again.slot == e.slot && Writes(again)
    ensures !FallsBack(n, e) && !GoesOn(n, e)
    ensures var m := Next(n, e); Enabled(m, again) && GoesOn(m, again) && Next(m, again).stored.attempts == 1
  {
    hide Metadata.Valid, Booted, FallenBack, Factory;
    var r := Booted(n, e.slot, e.source);
    BootedValid(n, e.slot, e.source);
    FallenBackFields(r, e.slot);
    DonePersists(Persisted(n.stored, r, e.w), FallenBack(r, e.slot), e.w2);
    var m := Next(n, e);
    BootedValid(m, again.slot, again.source);
    BootedFields(m, again.slot, again.source);
    DonePersists(m.stored, Booted(m, again.slot, again.source), again.w);
  }

  // ---------------------------------------------------------------- safe mode

  /** A crashed slot `x` with no attempts left and nothing to fall back to: the other slot holds no image, or one that
      is recorded as invalid. */
  predicate Stuck(n: Node, x: Word) {
    && Metadata.Valid(n.stored) && !New(n.stored, x, ImageOf(n, x)) && n.stored.attempts > MAX_BOOT_ATTEMPTS
    && var (entry, other) := (EntryOf(n.stored, Other(x)), ImageOf(n, Other(x)));
    !other.hasId || (entry.state == INVALID && entry.crc == other.crc)
  }

  predicate Halts(n: Node, e: Event) {
    e.Boots? && BootCheck(n, e.slot, e.source, e.w, e.w2, e.mark).1.SafeMode?
  }

  /** Safe mode is entered in just that state, unless it is because the header could not be marked. */
  lemma HaltingIsStuck(n: Node, e: Event)
    requires e.Boots? && IsSlot(e.slot) && Writes(e) && e.mark && Halts(n, e)
    ensures Stuck(Next(n, e), e.slot)
  {
    hide Metadata.Valid, Booted, FallenBack, Factory;
    BootedValid(n, e.slot, e.source);
    BootedFields(n, e.slot, e.source);
    DonePersists(n.stored, Booted(n, e.slot, e.source), e.w);
  }

  lemma StuckOutcome(n: Node, x: Word, e: Event)
    requires IsSlot(x) && Stuck(n, x) && e.Boots? && e.slot == x
    ensures Halts(n, e) <==> !(e.source.Abnormal? && n.stored.attempts == 0xFFFF_FFFF)
  {
    hide Metadata.Valid, Booted, FallenBack, Factory, Persisted;
    BootedFields(n, x, e.source);
  }

  lemma StuckBoot(n: Node, x: Word, e: Event)
    requires IsSlot(x) && Stuck(n, x) && e.Boots? && e.slot == x && Writes(e) && Halts(n, e)
    ensures Stuck(Next(n, e), x)
    ensures Next(n, e).stored.attempts == n.stored.attempts + if e.source.Abnormal? then 1 else 0
  {
    hide Metadata.Valid, Booted, FallenBack, Factory;
    BootedValid(n, x, e.source);
    BootedFields(n, x, e.source);
    DonePersists(n.stored, Booted(n, x, e.source), e.w);
  }

  function Abnormals(es: seq<Event>): nat {
    if es == [] then 0
    else Abnormals(es[..|es| - 1]) + if es[|es| - 1].Boots? && es[|es| - 1].source.Abnormal? then 1 else 0
  }

  predicate AllHalt(n: Node, es: seq<Event>) {
    es == [] || (AllHalt(n, es[..|es| - 1]) && Halts(Run(n, es[..|es| - 1]), es[|es| - 1]))
  }

  /** Safe mode holds through all further resets exactly as long as the 32-bit attempt counter does not wrap around. */
  lemma {:induction false} SafeModeHoldsIff(n: Node, x: Word, es: seq<Event>)
    requires IsSlot(x) && Stuck(n, x) && forall e :: e in es ==> Writes(e) && e.Boots? && e.slot == x
    ensures AllHalt(n, es) <==> n.stored.attempts + Abnormals(es) <= 0xFFFF_FFFF
    ensures AllHalt(n, es) ==>
      Stuck(Run(n, es), x) && Run(n, es).stored.attempts == n.stored.attempts + Abnormals(es)
  {
    hide BootCheck, Stuck, Halts, GoesOn;
    if es == [] {
    } else {
      var init, e := es[..|es| - 1], es[|es| - 1];
      assert e in es;
      SafeModeHoldsIff(n, x, init);
      if AllHalt(n, init) {
        StuckOutcome(Run(n, init), x, e);
        if Halts(Run(n, init), e) {
          StuckBoot(Run(n, init), x, e);
        }
      }
    }
  }

  // ---------------------------------------------------------------- bounded crash loop

  /** A boot that uses up an attempt. */
  predicate Counts(n: Node, e: Event) {
    e.Boots? && Metadata.Valid(n.stored) && (New(n.stored, e.slot, ImageOf(n, e.slot)) || e.source.Abnormal?)
  }

  function Attempts(n: Node, es: seq<Event>): nat {
    if es == [] then 0
    else Attempts(n, es[..|es| - 1]) + if Counts(Run(n, es[..|es| - 1]), es[|es| - 1]) then 1 else 0
  }

  predicate AllGoOn(n: Node, es: seq<Event>) {
    es == [] || (AllGoOn(n, es[..|es| - 1]) && GoesOn(Run(n, es[..|es| - 1]), es[|es| - 1]))
  }

  /** A slot with all its attempts left: none counted yet, a new image, or no record at all. */
  predicate Fresh(n: Node, x: Word) {
    !Metadata.Valid(n.stored) || n.stored.attempts == 0 || New(n.stored, x, ImageOf(n, x))
  }

  /** The record after boots of `x` that used up `k` attempts. */
  predicate Trying(n: Node, x: Word, k: nat) {
    && Metadata.Valid(n.stored) && !New(n.stored, x, ImageOf(n, x)) && n.stored.attempts == k <= MAX_BOOT_ATTEMPTS
  }

  lemma FirstBoot(n: Node, x: Word, e: Event)
    requires IsSlot(x) && Fresh(n, x) && Writes(e) && e.Boots? && e.slot == x
    ensures GoesOn(n, e) && Trying(Next(n, e), x, if Counts(n, e) then 1 else 0)
  {
    hide Booted, FallenBack, Checksum;
    if Metadata.Valid(n.stored) {
      hide Metadata.Valid;
      BootedValid(n, x, e.source);
      BootedFields(n, x, e.source);
      DonePersists(n.stored, Booted(n, x, e.source), e.w);
    } else {
      hide Metadata.Valid;
      var i := ImageOf(n, x);
      TransitionsValid(n.stored, x, i.version, SizeOf(i, x), i.crc);
      DonePersists(n.stored, FactoryOf(n, x), e.w);
    }
  }

  lemma NextBoot(n: Node, x: Word, k: nat, e: Event)
    requires IsSlot(x) && Trying(n, x, k) && Writes(e) && e.Boots? && e.slot == x
    ensures Counts(n, e) <==> e.source.Abnormal?
    ensures GoesOn(n, e) <==> k + (if Counts(n, e) then 1 else 0) <= MAX_BOOT_ATTEMPTS
    ensures GoesOn(n, e) ==> Trying(Next(n, e), x, k + if Counts(n, e) then 1 else 0)
  {
    hide Metadata.Valid, Booted, FallenBack, Factory;
    BootedValid(n, x, e.source);
    BootedFields(n, x, e.source);
    DonePersists(n.stored, Booted(n, x, e.source), e.w);
  }

  /** Boots of one slot go on exactly as long as at most three of them count: the fourth counted boot falls back or
      halts, however many power-on boots lie in between. */
  lemma {:induction false} CrashLoopBounded(n: Node, x: Word, es: seq<Event>)
    requires IsSlot(x) && Fresh(n, x)
    requires forall e :: e in es ==> Writes(e) && e.Boots? && e.slot == x
    ensures AllGoOn(n, es) <==> Attempts(n, es) <= MAX_BOOT_ATTEMPTS
    ensures AllGoOn(n, es) && es != [] ==> Trying(Run(n, es), x, Attempts(n, es))
  {
    hide BootCheck, Trying, Fresh, Counts, GoesOn;
    if es == [] {
    } else {
      var init, e := es[..|es| - 1], es[|es| - 1];
      assert e in es;
      CrashLoopBounded(n, x, init);
      if init == [] {
        FirstBoot(n, x, e);
      } else if AllGoOn(n, init) {
        NextBoot(Run(n, init), x, Attempts(n, init), e);
      }
    }
  }

  /** The fourth counted boot gives the slot up. It hands over to the other slot exactly when that holds an image which
      is not recorded as invalid, or is a different image than the one recorded, and the header could be marked. */
  lemma FourthBoot(n: Node, x: Word, e: Event)
    requires IsSlot(x) && Trying(n, x, 3) && Counts(n, e) && Writes(e) && e.slot == x
    ensures !GoesOn(n, e)
    ensures
      var entry, other := EntryOf(n.stored, Other(x)), ImageOf(n, Other(x));
      FallsBack(n, e) <==> e.mark && other.hasId && (entry.state != INVALID || entry.crc != other.crc)
    ensures FallsBack(n, e) ==>
      var r := Next(n, e).stored;
      && r.active == Other(x) && r.candidate == NO_SLOT && r.attempts == 0
      && EntryOf(r, Other(x)).state == CONFIRMED && EntryOf(r, x).state == INVALID
  {
    hide Metadata.Valid, Booted, FallenBack, Factory;
    var r := Booted(n, x, e.source);
    NextBoot(n, x, 3, e);
    BootedValid(n, x, e.source);
    BootedFields(n, x, e.source);
    FallenBackFields(r, x);
    DonePersists(Persisted(n.stored, r, e.w), FallenBack(r, x), e.w2);
  }

  /** The second crash loop, after a fallback: the other slot goes on exactly as long as at most three boots count, and
      otherwise the node halts. No boot falls back, so nothing but safe mode ends the loop. */
  lemma {:induction false} SecondCrashLoopHalts(n: Node, x: Word, es: seq<Event>)
    requires IsSlot(x) && Fallen(n, x) && Fresh(n, Other(x)) && Legal(n, es)
    requires forall e :: e in es ==> Writes(e) && e.Boots?
    ensures Fallen(Run(n, es), x) && Fallbacks(n, es) == 0 && forall e :: e in es ==> e.slot == Other(x)
    ensures HaltsSomewhere(n, es) <==> Attempts(n, es) > MAX_BOOT_ATTEMPTS
  {
    hide BootCheck, Fallen, Fresh, Counts, GoesOn, Halts, FallsBack;
    BootsStayInOther(n, x, es);
    CrashLoopBounded(n, Other(x), es);
    HaltsUnlessAllGoOn(n, x, es);
  }

  predicate HaltsSomewhere(n: Node, es: seq<Event>) {
    es != [] && (HaltsSomewhere(n, es[..|es| - 1]) || Halts(Run(n, es[..|es| - 1]), es[|es| - 1]))
  }

  lemma {:induction false} BootsStayInOther(n: Node, x: Word, es: seq<Event>)
    requires IsSlot(x) && Fallen(n, x) && Legal(n, es) && forall e :: e in es ==> Writes(e) && e.Boots?
    ensures Fallen(Run(n, es), x) && Fallbacks(n, es) == 0 && forall e :: e in es ==> e.slot == Other(x)
  {
    hide BootCheck, Fallen, FallsBack;
    if es == [] {
    } else {
      var init, e := es[..|es| - 1], es[|es| - 1];
      assert e in es && es == init + [e];
      BootsStayInOther(n, x, init);
      BootAfterFallback(Run(n, init), x, e);
    }
  }

  lemma {:induction false} HaltsUnlessAllGoOn(n: Node, x: Word, es: seq<Event>)
    requires IsSlot(x) && Fallen(n, x) && Legal(n, es) && forall e :: e in es ==> Writes(e) && e.Boots?
    ensures HaltsSomewhere(n, es) <==> !AllGoOn(n, es)
  {
    hide BootCheck, Fallen, FallsBack;
    if es == [] {
    } else {
      var init, e := es[..|es| - 1], es[|es| - 1];
      assert e in es;
      BootsStayInOther(n, x, init);
      HaltsUnlessAllGoOn(n, x, init);
      BootAfterFallback(Run(n, init), x, e);
    }
  }

  /** The fallback itself leaves the other slot with all its attempts. */
  lemma FallbackIsFresh(n: Node, e: Event)
    requires Enabled(n, e) && Writes(e) && FallsBack(n, e)
    ensures Fallen(Next(n, e), e.slot) && Fresh(Next(n, e), Other(e.slot))
  {
    hide Metadata.Valid, Booted, FallenBack, Factory;
    FallingBack(n, e);
    var r := Booted(n, e.slot, e.source);
    BootedValid(n, e.slot, e.source);
    FallenBackFields(r, e.slot);
    DonePersists(Persisted(n.stored, r, e.w), FallenBack(r, e.slot), e.w2);
  }

  /** The bound rests on the metadata writes: if each of them fails and leaves the record as it was, no attempt is ever
      recorded, and a crashing slot is booted for ever. */
  lemma {:induction false} UnrecordedLoop(n: Node, x: Word, es: seq<Event>)
    requires IsSlot(x) && Metadata.Valid(n.stored) && n.stored.attempts < MAX_BOOT_ATTEMPTS
    requires forall e :: e in es ==> e.Boots? && e.slot == x && e.w == Lost(n.stored)
    ensures AllGoOn(n, es) && Run(n, es).stored == n.stored
    ensures Run(n, es).imageA == n.imageA && Run(n, es).imageB == n.imageB
  {
    hide BootCheck, GoesOn, Metadata.Valid;
    if es == [] {
    } else {
      var init, e := es[..|es| - 1], es[|es| - 1];
      assert e in es;
      UnrecordedLoop(n, x, init);
      UnrecordedBoot(Run(n, init), e);
    }
  }

  lemma UnrecordedBoot(n: Node, e: Event)
    requires e.Boots? && IsSlot(e.slot) && e.w == Lost(n.stored)
    requires Metadata.Valid(n.stored) && n.stored.attempts < MAX_BOOT_ATTEMPTS
    ensures GoesOn(n, e) && Next(n, e).stored == n.stored
    ensures Next(n, e).imageA == n.imageA && Next(n, e).imageB == n.imageB
  {
    hide Metadata.Valid, Booted, FallenBack, Factory;
    BootedFields(n, e.slot, e.source);
  }

  // ---------------------------------------------------------------- the life of an update

  /** After staging, a first boot of the new slot and the stability window: the new image becomes active and confirmed
      exactly if the boot counted as an attempt, that is, if the reset was not a power-on, a pin reset or a wake-up.
      Otherwise the node runs it as a pending candidate that the stability window does not confirm. */
  lemma UpdateConfirmedIff(n: Node, target: Word, fileSize: Word, source: ResetSource)
    requires Sound(n) && n.up && IsSlot(target) && target != n.slot && Stage(n, target, fileSize, Done).1
    ensures
      var base := if Metadata.Valid(n.stored) then n.stored else FactoryOf(n, n.slot);
      var i, old' := ImageOf(n, target), ImageOf(n, n.slot);
      var (booted, outcome) := BootCheck(Stage(n, target, fileSize, Done).0, target, source, Done, Done, true);
      var r := ConfirmStable(booted, Done).stored;
      && outcome == Continue && booted.stored.attempts == (if source.Abnormal? then 1 else 0)
      && (r.active == target && r.candidate == NO_SLOT && EntryOf(r, target).state == CONFIRMED <==> source.Abnormal?)
      && r.attempts == 0 && (!source.Abnormal? ==> r.active == base.active && r.candidate == target)
      && EntryOf(r, target)
         == Entry(if source.Abnormal? then CONFIRMED else PENDING, i.crc, i.version, SizeOf(i, target))
      && EntryOf(r, n.slot)
         == if old'.hasId && old'.crc != EntryOf(base, n.slot).crc then Entry(EMPTY, 0, 0, 0) else EntryOf(base, n.slot)
  {
    hide Metadata.Valid, Staged, Booted, FallenBack, Factory, Confirm, Accepts;
    StagedFields(n, target);
    DonePersists(n.stored, Staged(n, target).0, Done);
    var staged := Stage(n, target, fileSize, Done).0;
    BootedValid(staged, target, source);
    BootedFields(staged, target, source);
    var r := Booted(staged, target, source);
    DonePersists(staged.stored, r, Done);
    ConfirmFields(r, target);
    DonePersists(r, Confirm(r, target).0, Done);
  }
}
