/**
 Whole runs of boots, confirmations, downloads and stagings.
 */
module BootRuns {
  import opened Metadata
  import opened Boot

  datatype Event =
    | Boots(slot: Word, source: ResetSource, w: Writing, w2: Writing, mark: bool)
    | Settles(w: Writing)
    | Stages(target: Word, fileSize: Word, w: Writing)
    | Downloads(target: Word, image: Image)

  /** The boot manager boots no slot whose header is marked; only a node that is up confirms, downloads or stages, and
      it downloads into and stages the slot it does not run. */
  predicate Enabled(n: Node, e: Event) {
    match e
    case Boots(slot, _, _, _, _) => IsSlot(slot) && !ImageOf(n, slot).invalidated
    case Settles(_) => n.up
    case Stages(target, _, _) => n.up && IsSlot(target) && target != n.slot
    case Downloads(target, _) => n.up && IsSlot(target) && target != n.slot
  }

  function Next(n: Node, e: Event): Node {
    match e
    case Boots(slot, source, w, w2, mark) => BootCheck(n, slot, source, w, w2, mark).0
    case Settles(w) => ConfirmStable(n, w)
    case Stages(target, fileSize, w) => Stage(n, target, fileSize, w).0
    case Downloads(target, image) => Holding(n, target, image)
  }

  /** A download, finished or not, leaves some image in the slot. */
  function Holding(n: Node, slot: Word, image: Image): Node {
    if slot == A then n.(imageA := image) else n.(imageB := image)
  }

  function Run(n: Node, es: seq<Event>): Node {
    if es == [] then n else Next(Run(n, es[..|es| - 1]), es[|es| - 1])
  }

  predicate Legal(n: Node, es: seq<Event>) {
    es == [] || (Legal(n, es[..|es| - 1]) && Enabled(Run(n, es[..|es| - 1]), es[|es| - 1]))
  }

  predicate Writes(e: Event) {
    match e
    case Boots(_, _, w, w2, _) => w.Done? && w2.Done?
    case Settles(w) => w.Done?
    case Stages(_, _, w) => w.Done?
    case Downloads(_, _) => true
  }

  // ---------------------------------------------------------------- transitions keep records valid

  lemma TransitionsValid(r: Record, slot: Word, version: Word, size: Word, crc: Word)
    ensures Metadata.Valid(Factory(slot, version, size, crc))
    ensures r.magic == MAGIC ==>
      Metadata.Valid(WithCandidate(r, slot, version, size, crc)) && Metadata.Valid(CountAttempt(r))
      && Metadata.Valid(MarkInvalid(r, slot)) && Metadata.Valid(WithoutSlot(r, slot))
      && (Metadata.Valid(Confirm(r, slot).0) || !Confirm(r, slot).1)
      && (Metadata.Valid(Verified(r, slot, version, size, crc).0) || !IsSlot(slot))
      && (Metadata.Valid(StageVerified(r, slot).0) || !StageVerified(r, slot).1)
  {
    hide Checksum, Metadata.Valid;
    var blank := Record(MAGIC, slot, NO_SLOT, EMPTY, EMPTY, 0, 0, 0, 0, 0, 0, 0, 0);
    RefreshedIsValid(WithEntry(blank, slot, Entry(PENDING, crc, version, size)));
    RefreshedIsValid(WithEntry(r, slot, Entry(PENDING, crc, version, size)).(candidate := slot, attempts := 1));
    RefreshedIsValid(r.(attempts := (r.attempts + 1) % 0x1_0000_0000));
    RefreshedIsValid(WithEntry(r, slot, EntryOf(r, slot).(state := INVALID)));
    RefreshedIsValid(WithEntry(r, slot, Entry(EMPTY, 0, 0, 0)));
    RefreshedIsValid(r);
    RefreshedIsValid(WithEntry(r, slot, EntryOf(r, slot).(state := CONFIRMED))
                     .(active := slot, candidate := NO_SLOT, attempts := 0));
    RefreshedIsValid(WithEntry(r, slot, Entry(VERIFIED, crc, version, size)));
    RefreshedIsValid(WithEntry(r, slot, EntryOf(r, slot).(state := PENDING)).(candidate := slot, attempts := 0));
  }

  lemma ValidMagic(r: Record)
    requires Metadata.Valid(r)
    ensures r.magic == MAGIC
  {
  }

  lemma BootedValid(n: Node, slot: Word, source: ResetSource)
    requires Metadata.Valid(n.stored)
    ensures Metadata.Valid(Counted(n.stored, slot, ImageOf(n, slot), source)) && Metadata.Valid(Booted(n, slot, source))
  {
    hide Metadata.Valid, WithCandidate, WithoutSlot, CountAttempt;
    var i := ImageOf(n, slot);
    ValidMagic(n.stored);
    TransitionsValid(n.stored, slot, i.version, SizeOf(i, slot), i.crc);
    var c := Counted(n.stored, slot, i, source);
    ValidMagic(c);
    TransitionsValid(c, Other(slot), 0, 0, 0);
  }

  /** The fields of the record after a boot. */
  lemma BootedFields(n: Node, slot: Word, source: ResetSource)
    requires IsSlot(slot)
    ensures var r, s := Booted(n, slot, source), n.stored;
      && EntryOf(r, slot).crc == ImageOf(n, slot).crc && r.active == s.active
      && (New(s, slot, ImageOf(n, slot)) ==>
        r.candidate == slot && r.attempts == 1 && EntryOf(r, slot).state == PENDING)
      && (!New(s, slot, ImageOf(n, slot)) ==>
        && r.candidate == s.candidate && EntryOf(r, slot) == EntryOf(s, slot)
        && r.attempts == if source.Abnormal? then (s.attempts + 1) % 0x1_0000_0000 else s.attempts)
      && EntryOf(r, Other(slot)) ==
         if ImageOf(n, Other(slot)).hasId && ImageOf(n, Other(slot)).crc != EntryOf(s, Other(slot)).crc
         then Entry(EMPTY, 0, 0, 0) else EntryOf(s, Other(slot))
  {
    hide Checksum;
  }

  lemma FallenBackFields(r: Record, slot: Word)
    requires IsSlot(slot) && Metadata.Valid(r)
    ensures var q := FallenBack(r, slot);
      && Metadata.Valid(q) && q.active == Other(slot) && q.candidate == NO_SLOT && q.attempts == 0
      && EntryOf(q, slot) == EntryOf(r, slot).(state := INVALID)
      && EntryOf(q, Other(slot)) == EntryOf(r, Other(slot)).(state := CONFIRMED)
  {
    ValidMagic(r);
    TransitionsValid(r, slot, 0, 0, 0);
    var m := MarkInvalid(r, slot);
    ValidMagic(m);
    TransitionsValid(m, Other(slot), 0, 0, 0);
    hide Checksum, Metadata.Valid;
  }

  lemma ConfirmFields(r: Record, slot: Word)
    requires IsSlot(slot) && Metadata.Valid(r)
    ensures var q := Confirm(r, slot).0;
      && Metadata.Valid(q) && q.active == slot && q.candidate == NO_SLOT && q.attempts == 0
      && EntryOf(q, slot) == EntryOf(r, slot).(state := CONFIRMED) && EntryOf(q, Other(slot)) == EntryOf(r, Other(slot))
  {
    ValidMagic(r);
    TransitionsValid(r, slot, 0, 0, 0);
    hide Checksum, Metadata.Valid;
  }

  // ---------------------------------------------------------------- the invariant of the record

  /** A valid record names a real slot as active, and its candidate, if any, is pending or was cleared. */
  predicate Proper(r: Record) {
    && Metadata.Valid(r) && IsSlot(r.active) && (r.candidate == NO_SLOT || IsSlot(r.candidate))
    && (r.candidate != NO_SLOT ==> EntryOf(r, r.candidate).state == PENDING || EntryOf(r, r.candidate).state == EMPTY)
  }

  predicate ProperIfValid(r: Record) {
    Metadata.Valid(r) ==> Proper(r)
  }

  /** What a failed write leaves behind is not a valid record made up by chance: it is invalid, or a proper record such
      as the one that was to be replaced. */
  predicate Harmless(w: Writing) {
    w.Lost? ==> ProperIfValid(w.left)
  }

  predicate FailsHarmlessly(e: Event) {
    match e
    case Boots(_, _, w, w2, _) => Harmless(w) && Harmless(w2)
    case Settles(w) => Harmless(w)
    case Stages(_, _, w) => Harmless(w)
    case Downloads(_, _) => true
  }

  predicate Sound(n: Node) {
    ProperIfValid(n.stored) && ProperIfValid(n.current) && (n.up ==> IsSlot(n.slot) && Metadata.Valid(n.current))
  }

  lemma PersistedSound(stored: Record, r: Record, w: Writing)
    requires ProperIfValid(stored) && Proper(r) && Harmless(w)
    ensures ProperIfValid(Persisted(stored, r, w))
    ensures Saved(stored, r, w) ==> Persisted(stored, r, w) == r
  {
    hide Metadata.Valid;
  }

  lemma FactoryProper(slot: Word, version: Word, size: Word, crc: Word)
    requires IsSlot(slot)
    ensures Proper(Factory(slot, version, size, crc))
  {
    TransitionsValid(Factory(slot, version, size, crc), slot, version, size, crc);
    hide Checksum, Metadata.Valid;
  }

  lemma BootedProper(n: Node, slot: Word, source: ResetSource)
    requires IsSlot(slot) && Proper(n.stored)
    ensures Proper(Booted(n, slot, source))
  {
    hide Metadata.Valid, Booted, New;
    BootedValid(n, slot, source);
    BootedFields(n, slot, source);
  }

  lemma StagedProper(n: Node, target: Word)
    requires IsSlot(n.slot) && ProperIfValid(n.stored) && Staged(n, target).1
    ensures Proper(Staged(n, target).0)
  {
    StagedFields(n, target);
    hide Staged, Metadata.Valid;
  }

  /** Staging: the target becomes the pending candidate with the downloaded image's data; the active slot and the other
      slot's entry are those of the stored record, or of a factory record for the running image if there is none. */
  lemma StagedFields(n: Node, target: Word)
    requires IsSlot(n.slot) && ProperIfValid(n.stored) && Staged(n, target).1
    ensures
      var base := if Metadata.Valid(n.stored) then n.stored else FactoryOf(n, n.slot);
      var r, i := Staged(n, target).0, ImageOf(n, target);
      && Proper(base) && IsSlot(target) && Metadata.Valid(r) && r.candidate == target && r.attempts == 0
      && r.active == base.active && EntryOf(r, Other(target)) == EntryOf(base, Other(target))
      && EntryOf(r, target) == Entry(PENDING, i.crc, i.version, SizeOf(i, target))
  {
    var base := if Metadata.Valid(n.stored) then n.stored else FactoryOf(n, n.slot);
    var i := ImageOf(n, target);
    FactoryProper(n.slot, ImageOf(n, n.slot).version, SizeOf(ImageOf(n, n.slot), n.slot), ImageOf(n, n.slot).crc);
    if IsSlot(target) {
      StageRecord(base, target, i.version, SizeOf(i, target), i.crc);
    }
    hide Metadata.Valid, Factory, StageVerified;
  }

  lemma StageRecord(base: Record, target: Word, version: Word, size: Word, crc: Word)
    requires Metadata.Valid(base) && IsSlot(target)
    ensures var v := Verified(base, target, version, size, crc);
      && v.1 && StageVerified(v.0, target).1
      && var r := StageVerified(v.0, target).0;
      && Metadata.Valid(r) && r.candidate == target && r.attempts == 0 && r.active == base.active
      && EntryOf(r, Other(target)) == EntryOf(base, Other(target))
      && EntryOf(r, target) == Entry(PENDING, crc, version, size)
  {
    hide Checksum, Metadata.Valid, Factory;
    ValidMagic(base);
    TransitionsValid(base, target, version, size, crc);
    var v := Verified(base, target, version, size, crc).0;
    ValidMagic(v);
    TransitionsValid(v, target, 0, 0, 0);
  }

  lemma BootSound(n: Node, slot: Word, source: ResetSource, w: Writing, w2: Writing, mark: bool)
    requires Sound(n) && IsSlot(slot) && Harmless(w) && Harmless(w2)
    ensures var m := BootCheck(n, slot, source, w, w2, mark).0;
      && Sound(m) && Proper(m.current) && (w.Done? && w2.Done? ==> m.stored == m.current)
  {
    hide Metadata.Valid, Booted, FallenBack, Factory, Harmless, Persisted;
    var i := ImageOf(n, slot);
    if Metadata.Valid(n.stored) {
      var r := Booted(n, slot, source);
      BootedProper(n, slot, source);
      PersistedSound(n.stored, r, w);
      ValidOf(r);
      FallenBackFields(r, slot);
      PersistedSound(Persisted(n.stored, r, w), FallenBack(r, slot), w2);
    } else {
      FactoryProper(slot, i.version, SizeOf(i, slot), i.crc);
      PersistedSound(n.stored, FactoryOf(n, slot), w);
    }
  }

  lemma ValidOf(r: Record)
    requires Proper(r)
    ensures Metadata.Valid(r)
  {
  }

  lemma SettleSound(n: Node, w: Writing)
    requires Sound(n) && Harmless(w)
    ensures Sound(ConfirmStable(n, w))
  {
    hide Metadata.Valid, Confirm, Harmless, Persisted;
    if IsSlot(n.slot) && Metadata.Valid(n.current) {
      ConfirmFields(n.current, n.slot);
      PersistedSound(n.stored, Confirm(n.current, n.slot).0, w);
    }
  }

  lemma StageSound(n: Node, target: Word, fileSize: Word, w: Writing)
    requires Sound(n) && IsSlot(n.slot) && Harmless(w)
    ensures Sound(Stage(n, target, fileSize, w).0)
  {
    hide Metadata.Valid, Staged, Harmless, Persisted, Accepts;
    var s := Staged(n, target);
    if s.1 {
      StagedProper(n, target);
      PersistedSound(n.stored, s.0, w);
    }
  }

  /** Leaving the sector as it was, or with the new record, or with an invalid one, is harmless. */
  lemma FailedWriteIsHarmless(stored: Record, r: Record, left: Record)
    requires ProperIfValid(stored) && Proper(r) && (left == stored || left == r || !Metadata.Valid(left))
    ensures Harmless(Lost(left))
  {
    hide Metadata.Valid;
  }

  /** From a node without valid metadata, whatever it boots, confirms, downloads and stages, and whichever writes fail:
      every record that validates, in flash or in memory, is proper. */
  lemma {:induction false} RecordsStayProper(n: Node, es: seq<Event>)
    requires !Metadata.Valid(n.stored) && !Metadata.Valid(n.current) && !n.up && Legal(n, es)
    requires forall e :: e in es ==> FailsHarmlessly(e)
    ensures Sound(Run(n, es))
  {
    hide Metadata.Valid, BootCheck, ConfirmStable, Stage, Harmless;
    if es == [] {
    } else {
      var init, e := es[..|es| - 1], es[|es| - 1];
      assert e in es && FailsHarmlessly(e);
      RecordsStayProper(n, init);
      var m := Run(n, init);
      match e
      case Boots(slot, source, w, w2, mark) => BootSound(m, slot, source, w, w2, mark);
      case Settles(w) => SettleSound(m, w);
      case Stages(target, fileSize, w) => StageSound(m, target, fileSize, w);
      case Downloads(_, _) =>
    }
  }

  lemma DonePersists(stored: Record, r: Record, w: Writing)
    requires w.Done?
    ensures Persisted(stored, r, w) == r
  {
    hide Metadata.Valid;
  }

  lemma NextInStep(n: Node, e: Event)
    requires Sound(n) && Enabled(n, e) && Writes(e) && (e.Boots? || (n.stored == n.current && Proper(n.current)))
    ensures Next(n, e).stored == Next(n, e).current && Proper(Next(n, e).current)
  {
    hide Metadata.Valid, BootCheck, Staged, Confirm, Accepts, Harmless;
    match e
    case Boots(slot, source, w, w2, mark) =>
      DoneIsHarmless(w);
      DoneIsHarmless(w2);
      BootSound(n, slot, source, w, w2, mark);
    case Settles(w) =>
      ValidOf(n.current);
      ConfirmFields(n.current, n.slot);
      DonePersists(n.stored, Confirm(n.current, n.slot).0, w);
    case Stages(target, fileSize, w) =>
      if Staged(n, target).1 {
        StagedProper(n, target);
        DonePersists(n.stored, Staged(n, target).0, w);
      }
    case Downloads(_, _) =>
  }

  lemma DoneEventIsHarmless(e: Event)
    requires Writes(e)
    ensures FailsHarmlessly(e)
  {
  }

  lemma DoneIsHarmless(w: Writing)
    requires w.Done?
    ensures Harmless(w)
  {
  }

  /** If no write fails, the sector holds a valid, proper record after every event, and memory agrees with it. */
  lemma {:induction false} PersistedRecordsValidate(n: Node, es: seq<Event>)
    requires !Metadata.Valid(n.stored) && !Metadata.Valid(n.current) && !n.up && Legal(n, es) && es != []
    requires forall e :: e in es ==> Writes(e)
    ensures Run(n, es).stored == Run(n, es).current && Proper(Run(n, es).stored)
  {
    hide Metadata.Valid, Next, Proper, Harmless;
    var init, e := es[..|es| - 1], es[|es| - 1];
    assert e in es && Writes(e);
    forall d | d in es
      ensures FailsHarmlessly(d)
    {
      DoneEventIsHarmless(d);
    }
    RecordsStayProper(n, init);
    if init == [] {
    } else {
      PersistedRecordsValidate(n, init);
    }
    NextInStep(Run(n, init), e);
  }
}
