/**
 Booting, confirming and staging on a node with two on-chip slots (`sensor-node-dual-onchip.c`).
 */
module Boot {
  import opened Wire
  import opened Metadata
  import TargetFlash

  const MAX_BOOT_ATTEMPTS: Word := 3

  /** What the code reads of a slot's image header. `fits` tells whether the image and technology type are those of the
      node; `invalidated` is the status byte 0xFC that keeps the boot manager from booting the slot. */
  datatype Image = Image(
    hasId: bool, crc: Word, version: Word, secVer: U8, fits: bool,
    start: Word, entry: Word, end: Word, invalidated: bool)

  datatype ResetSource = PowerOn | PinReset | WakeUp | Abnormal

  /** How a metadata write ends: done, or failed with the sector left in some state. */
  datatype Writing = Done | Lost(left: Record)

  datatype Outcome = Continue | Reset | SafeMode

  /** `slot` is the slot the node believes to run; `up` tells whether the last boot went on to the application. */
  datatype Node = Node(slot: Word, imageA: Image, imageB: Image, stored: Record, current: Record, up: bool)

  function ImageOf(n: Node, slot: Word): Image {
    if slot == A then n.imageA else n.imageB
  }

  function Start(slot: Word): Word {
    if slot == A then TargetFlash.SLOT_A_START else TargetFlash.SLOT_B_START
  }

  function Capacity(slot: Word): Word {
    if slot == A then TargetFlash.SLOT_A_SIZE else TargetFlash.SLOT_B_SIZE
  }

  /** The size an image header claims, in 32-bit arithmetic. */
  function SizeOf(i: Image, slot: Word): Word {
    (i.end - Start(slot) + 1) % 0x1_0000_0000
  }

  /** The metadata sector after a write, which is skipped when it would change nothing. */
  function Persisted(stored: Record, r: Record, w: Writing): Record {
    if Metadata.Valid(stored) && r == stored then stored else if w.Done? then r else w.left
  }

  predicate Saved(stored: Record, r: Record, w: Writing) {
    w.Done? || (Metadata.Valid(stored) && r == stored)
  }

  // ---------------------------------------------------------------- boot

  predicate New(r: Record, slot: Word, i: Image) {
    (slot != r.active && slot != r.candidate) || i.crc != EntryOf(r, slot).crc
  }

  function Counted(r: Record, slot: Word, i: Image, source: ResetSource): Record {
    if New(r, slot, i) then WithCandidate(r, slot, i.version, SizeOf(i, slot), i.crc)
    else if source.Abnormal? then CountAttempt(r)
    else r
  }

  /** Forgets what is recorded about the other slot when it holds a different image. */
  function Compared(r: Record, slot: Word, shadow: Image): Record {
    if shadow.hasId && shadow.crc != EntryOf(r, Other(slot)).crc then WithoutSlot(r, Other(slot)) else r
  }

  function FactoryOf(n: Node, slot: Word): Record {
    Factory(slot, ImageOf(n, slot).version, SizeOf(ImageOf(n, slot), slot), ImageOf(n, slot).crc)
  }

  /** The record a boot works with, when the stored one is valid. */
  function Booted(n: Node, slot: Word, source: ResetSource): Record {
    Compared(Counted(n.stored, slot, ImageOf(n, slot), source), slot, ImageOf(n, Other(slot)))
  }

  function FallenBack(r: Record, slot: Word): Record {
    Confirm(MarkInvalid(r, slot), Other(slot)).0
  }

  function Invalidated(n: Node, slot: Word): Node {
    if slot == A then n.(imageA := n.imageA.(invalidated := true)) else n.(imageB := n.imageB.(invalidated := true))
  }

  /** One boot in `slot`. `w` and `w2` are the fates of the metadata writes, `mark` that of the header write. */
  function BootCheck(n: Node, slot: Word, source: ResetSource, w: Writing, w2: Writing, mark: bool): (Node, Outcome)
  {
    var m := n.(slot := slot, up := false);
    if !Metadata.Valid(n.stored) then
      var r := FactoryOf(n, slot);
      (m.(current := r, stored := Persisted(n.stored, r, w), up := true), Continue)
    else
      var r := Booted(n, slot, source);
      var stored := Persisted(n.stored, r, w);
      if r.attempts <= MAX_BOOT_ATTEMPTS then (m.(current := r, stored := stored, up := true), Continue)
      else if EntryOf(r, Other(slot)).state == INVALID || !ImageOf(n, Other(slot)).hasId then
        (m.(current := r, stored := stored), SafeMode)
      else
        var q := FallenBack(r, slot);
        var fallen := m.(current := q, stored := Persisted(stored, q, w2));
        if mark then (Invalidated(fallen, slot), Reset) else (fallen, SafeMode)
  }

  function ConfirmStable(n: Node, w: Writing): Node {
    if IsSlot(n.slot) && Metadata.Valid(n.current) && n.current.attempts > 0 then
      var r := Confirm(n.current, n.slot).0;
      n.(current := r, stored := Persisted(n.stored, r, w))
    else n
  }

  // ---------------------------------------------------------------- staging

  predicate Accepts(image: Image, running: Image, target: Word, fileSize: Word) {
    var start, end := Start(target), (Start(target) + Capacity(target)) % 0x1_0000_0000;
    && image.hasId && image.secVer > running.secVer && image.fits
    && image.start == start && start <= image.entry < end && start <= image.end < end && image.end >= image.start
    && SizeOf(image, target) != 0 && SizeOf(image, target) <= fileSize && SizeOf(image, target) <= Capacity(target)
  }

  function Staged(n: Node, target: Word): (Record, bool) {
    var base := if Metadata.Valid(n.stored) then n.stored else FactoryOf(n, n.slot);
    var i := ImageOf(n, target);
    var v := Verified(base, target, i.version, SizeOf(i, target), i.crc);
    if v.1 then StageVerified(v.0, target) else (v.0, false)
  }

  function Stage(n: Node, target: Word, fileSize: Word, w: Writing): (Node, bool) {
    var s := Staged(n, target);
    if !Accepts(ImageOf(n, target), ImageOf(n, n.slot), target, fileSize) || !s.1 then (n, false)
    else if Saved(n.stored, s.0, w) then (n.(stored := Persisted(n.stored, s.0, w), current := s.0), true)
    else (n.(stored := Persisted(n.stored, s.0, w)), false)
  }

  // ---------------------------------------------------------------- the code over its static state

  class Machine {
    const metadata: Block
    var stored: Record
    var imageA: Image
    var imageB: Image
    var slot: Word
    var up: bool

    ghost function State(): Node
      reads this, metadata
    {
      Node(slot, imageA, imageB, stored, metadata.State(), up)
    }

    constructor (stored: Record, imageA: Image, imageB: Image)
      ensures this.stored == stored && this.imageA == imageA && this.imageB == imageB && !up && !IsSlot(slot)
      ensures fresh(metadata)
    {
      metadata := new Block(Record(0, 0, 0, 0, 0, 0, 0, 0, 0, 0, 0, 0, 0));
      this.stored, this.imageA, this.imageB, slot, up := stored, imageA, imageB, 0xFF, false;
    }

    method Header(of: Word) returns (i: Image)
      ensures i == ImageOf(State(), of)
    {
      return if of == A then imageA else imageB;
    }

    /** Copies the record out of flash and tells whether it validates. */
    method ReadMetadata(to: Block) returns (ok: bool)
      modifies to
      ensures to.State() == stored && ok == Metadata.Valid(stored)
    {
      to.Assign(stored);
      ok := to.CrcIsValid();
    }

    method WriteMetadata(r: Record, w: Writing) returns (ok: bool)
      modifies this`stored
      ensures stored == Persisted(old(stored), r, w) && ok == Saved(old(stored), r, w)
    {
      var flash := new Block(stored);
      var valid := flash.CrcIsValid();
      if valid && Bytes(r) == Bytes(flash.State()) {
        RecordRoundTrip(r, stored);
        return true;
      }
      RecordRoundTrip(r, stored);
      stored := if w.Done? then r else w.left;
      ok := w.Done?;
    }

    method InvalidateImageHeader(of: Word, mark: bool) returns (ok: bool)
      modifies this`imageA, this`imageB
      ensures State() == if mark then Invalidated(old(State()), of) else old(State())
      ensures ok == mark
    {
      if mark {
        if of == A {
          imageA := imageA.(invalidated := true);
        } else {
          imageB := imageB.(invalidated := true);
        }
      }
      ok := mark;
    }

    method Check(running: Word, source: ResetSource, w: Writing, w2: Writing, mark: bool) returns (outcome: Outcome)
      requires IsSlot(running)
      modifies this, metadata
      ensures (State(), outcome) == BootCheck(old(State()), running, source, w, w2, mark)
    {
      hide Metadata.Valid, Checksum, Confirm, MarkInvalid, WithCandidate, WithoutSlot, CountAttempt, Factory;
      slot, up := running, false;
      var image := Header(slot);
      var valid := ReadMetadata(metadata);
      if !valid {
        metadata.InitFactory(slot, image.version, SizeOf(image, slot), image.crc);
        var _ := WriteMetadata(metadata.State(), w);
        up := true;
        return Continue;
      }
      RecordBoot(image, source);
      var _ := WriteMetadata(metadata.State(), w);
      if metadata.attempts > MAX_BOOT_ATTEMPTS {
        outcome := FallBack(w2, mark);
      } else {
        up := true;
        outcome := Continue;
      }
    }

    method RecordBoot(image: Image, source: ResetSource)
      requires IsSlot(slot)
      modifies metadata
      ensures metadata.State()
        == Compared(Counted(old(metadata.State()), slot, image, source), slot, ImageOf(State(), Other(slot)))
    {
      hide Metadata.Valid, Checksum, Confirm, MarkInvalid, WithCandidate, WithoutSlot, CountAttempt, Factory;
      var saved := if slot == A then metadata.crcA else metadata.crcB;
      if (slot != metadata.active && slot != metadata.candidate) || image.crc != saved {
        metadata.SetCandidate(slot, image.version, SizeOf(image, slot), image.crc);
      } else if source != PowerOn && source != PinReset && source != WakeUp {
        metadata.IncrementBootAttempts();
      }
      var shadow := Header(if slot == A then B else A);
      if shadow.hasId {
        var shadowSaved := if slot == A then metadata.crcB else metadata.crcA;
        if shadow.crc != shadowSaved {
          metadata.ClearSlot(if slot == A then B else A);
        }
      }
    }

    method FallBack(w2: Writing, mark: bool) returns (outcome: Outcome)
      requires IsSlot(slot)
      modifies this`stored, this`imageA, this`imageB, metadata
      ensures
        var n := old(State());
        var r := n.current;
        var q := FallenBack(r, n.slot);
        var fallen := n.(current := q, stored := Persisted(n.stored, q, w2));
        (State(), outcome) ==
        if EntryOf(r, Other(n.slot)).state == INVALID || !ImageOf(n, Other(n.slot)).hasId then (n, SafeMode)
        else if mark then (Invalidated(fallen, n.slot), Reset) else (fallen, SafeMode)
    {
      hide Metadata.Valid, Checksum, Confirm, MarkInvalid, Persisted;
      var fallback := if slot == A then B else A;
      var image := Header(fallback);
      var invalid := if fallback == A then metadata.stateA == INVALID else metadata.stateB == INVALID;
      if invalid || !image.hasId {
        return SafeMode;
      }
      metadata.MarkSlotInvalid(slot);
      var _ := metadata.ConfirmRunningImage(fallback);
      var _ := WriteMetadata(metadata.State(), w2);
      var ok := InvalidateImageHeader(slot, mark);
      return if ok then Reset else SafeMode;
    }

    method Stable(w: Writing)
      modifies this`stored, metadata
      ensures State() == ConfirmStable(old(State()), w)
    {
      hide Metadata.Valid, Checksum, Confirm, Persisted;
      var valid := metadata.CrcIsValid();
      if slot <= B && valid && metadata.attempts > 0 {
        var _ := metadata.ConfirmRunningImage(slot);
        var _ := WriteMetadata(metadata.State(), w);
      }
    }

    method StageImage(target: Word, fileSize: Word, w: Writing) returns (ok: bool)
      modifies this`stored, metadata
      ensures (State(), ok) == Stage(old(State()), target, fileSize, w)
    {
      hide Metadata.Valid, Checksum, Verified, StageVerified, Persisted, Factory, Accepts;
      var image := Header(target);
      var running := Header(slot);
      if !Accepts(image, running, target, fileSize) {
        return false;
      }
      var m := new Block(stored);
      ok := ReadMetadata(m);
      if !ok {
        m.InitFactory(slot, running.version, SizeOf(running, slot), running.crc);
      }
      ok := m.MarkVerified(target, image.version, SizeOf(image, target), image.crc);
      if ok {
        ok := m.StageVerifiedImage(target);
      }
      if !ok {
        return;
      }
      ok := WriteMetadata(m.State(), w);
      if ok {
        metadata.Assign(m.State());
      }
    }
  }
}
