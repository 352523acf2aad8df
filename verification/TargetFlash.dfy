/**
 The internal flash of a node: two image slots, the metadata sectors and the boot manager (`ota-flash.c`).

 Flash is NOR: an erase sets a sector of 8192 bytes to 0xFF, programming can only clear bits. A failed
 erase leaves the sector in any state; a failed programming leaves every byte anywhere between its old
 value and the intended one.
 */
module TargetFlash {
  import opened Wire

  const SLOT_A: U8 := 0
  const SLOT_B: U8 := 1
  const SLOT_A_START: U32 := 0x0
  const SLOT_A_SIZE: U32 := 0x2A000
  const METADATA_START: U32 := 0x2A000
  const SLOT_B_START: U32 := 0x2E000
  const SLOT_B_SIZE: U32 := 0x28000
  const BIM_START: U32 := 0x56000
  const FLASH_END: U32 := 0x58000
  const SECTOR_SIZE: U32 := 0x2000

  /** How the flash controller answers: whether the next erase and the next programming succeed, and what
      they leave behind if they do not. */
  datatype Hardware = Hardware(eraseOk: bool, eraseLeft: seq<bv8>, programOk: bool, programKept: seq<bv8>)

  /** The contents of the flash and the sector that was erased last. */
  datatype Flash = Flash(bytes: seq<bv8>, memo: U32)

  function At(s: seq<bv8>, i: int, default: bv8): bv8 {
    if 0 <= i < |s| then s[i] else default
  }

  // ---------------------------------------------------------------- slots and bounds

  function SlotStart(slot: U8): U32 {
    if slot == SLOT_A then SLOT_A_START else SLOT_B_START
  }

  function SlotSize(slot: U8): U32 {
    if slot == SLOT_A then SLOT_A_SIZE else SLOT_B_SIZE
  }

  predicate BoundsOk(slot: U8, offset: U32, length: U32) {
    && slot <= SLOT_B
    && offset <= 0xFFFF_FFFF - length
    && offset + length <= SlotSize(slot)
  }

  // ---------------------------------------------------------------- raw flash

  /** One byte after programming `d` over `was`. */
  function ProgramByte(was: bv8, d: bv8, ok: bool, kept: bv8): bv8 {
    if ok then was & d else was & (d | kept)
  }

  function EraseBytes(bytes: seq<bv8>, addr: nat, hw: Hardware): (r: seq<bv8>)
    ensures |r| == |bytes|
  {
    seq(|bytes|, i requires 0 <= i < |bytes| =>
      if addr <= i < addr + 0x2000 then
        if hw.eraseOk then 0xFF else At(hw.eraseLeft, i - addr, bytes[i])
      else bytes[i])
  }

  function ProgramBytes(bytes: seq<bv8>, addr: nat, words: seq<bv8>, hw: Hardware): (r: seq<bv8>)
    ensures |r| == |bytes|
  {
    seq(|bytes|, i requires 0 <= i < |bytes| =>
      if addr <= i < addr + |words| then
        ProgramByte(bytes[i], words[i - addr], hw.programOk, At(hw.programKept, i - addr, 0))
      else bytes[i])
  }

  // ---------------------------------------------------------------- target operations

  /** Whether a request to erase a sector reaches the hardware. */
  predicate Erases(f: Flash, slot: U8, sector: U32) {
    && sector % 0x2000 == 0
    && BoundsOk(slot, sector, SECTOR_SIZE)
    && SlotStart(slot) + sector != f.memo
  }

  function EraseTarget(f: Flash, slot: U8, sector: U32, hw: Hardware): (r: (Flash, bool))
    ensures |r.0.bytes| == |f.bytes|
  {
    if sector % 0x2000 != 0 || !BoundsOk(slot, sector, SECTOR_SIZE) then (f, false)
    else if SlotStart(slot) + sector == f.memo then (f, true)
    else
      (Flash(EraseBytes(f.bytes, SlotStart(slot) + sector, hw),
             if hw.eraseOk then SlotStart(slot) + sector else f.memo),
       hw.eraseOk)
  }

  /** The word buffer: the payload, padded with 0xFF to whole words. Payload bytes that a short datagram
      does not carry read as zero. */
  function Words(data: seq<bv8>, length: U16): (r: seq<bv8>)
    ensures |r| == (length + 3) / 4 * 4
  {
    seq((length + 3) / 4 * 4, i requires i >= 0 => if i < length then At(data, i, 0) else 0xFF)
  }

  /** Whether a write request reaches the hardware. */
  predicate Programs(slot: U8, offset: U32, length: U16) {
    0 < length <= 64 && offset % 4 == 0 && BoundsOk(slot, offset, length)
  }

  function WriteTarget(f: Flash, slot: U8, offset: U32, data: seq<bv8>, length: U16, hw: Hardware): (r: (Flash, bool))
    ensures |r.0.bytes| == |f.bytes|
  {
    if length == 0 then (f, true)
    else if offset % 4 != 0 || length > 64 || !BoundsOk(slot, offset, length) then (f, false)
    else (f.(bytes := ProgramBytes(f.bytes, SlotStart(slot) + offset, Words(data, length), hw)), hw.programOk)
  }

  /** The bytes of a target range. */
  function ReadTarget(f: Flash, slot: U8, offset: U32, length: U32): (r: Option<seq<bv8>>)
    requires |f.bytes| == FLASH_END
    ensures r.Some? ==> |r.value| == length
  {
    if BoundsOk(slot, offset, length)
    then Some(f.bytes[SlotStart(slot) + offset..SlotStart(slot) + offset + length])
    else None
  }

  /** Staging rewrites the metadata sector; `metadata` is what it leaves there. */
  function WriteMetadata(f: Flash, metadata: seq<bv8>): (r: Flash)
    ensures |r.bytes| == |f.bytes|
  {
    f.(bytes := seq(|f.bytes|, i requires 0 <= i < |f.bytes| =>
      if METADATA_START <= i < METADATA_START + 0x2000 then At(metadata, i - METADATA_START, f.bytes[i])
      else f.bytes[i]))
  }

  // ---------------------------------------------------------------- the driver

  /** The flash driver: the memory itself and the last-erased-sector memo. */
  class Driver {
    var memory: array<bv8>
    var memo: U32

    ghost predicate Valid()
      reads this
    {
      memory.Length == FLASH_END
    }

    ghost function State(): Flash
      reads this, memory
    {
      Flash(memory[..], memo)
    }

    constructor ()
      ensures Valid() && fresh(memory) && memo == NONE
    {
      memory := new bv8[FLASH_END];
      memo := NONE;
    }

    method ResetEraseTracking()
      requires Valid()
      modifies this`memo
      ensures State() == old(State()).(memo := NONE)
    {
      memo := NONE;
    }

    method EraseFlashSector(addr: U32, hw: Hardware) returns (ok: bool)
      requires Valid() && addr + 0x2000 <= FLASH_END
      modifies memory
      ensures memory[..] == EraseBytes(old(memory[..]), addr, hw) && ok == hw.eraseOk
    {
      for i := 0 to 0x2000
        invariant forall j :: addr <= j < addr + i ==>
          memory[j] == if hw.eraseOk then 0xFF else At(hw.eraseLeft, j - addr, old(memory[..])[j])
        invariant forall j :: 0 <= j < FLASH_END && !(addr <= j < addr + i) ==> memory[j] == old(memory[..])[j]
      {
        memory[addr + i] := if hw.eraseOk then 0xFF else At(hw.eraseLeft, i, memory[addr + i]);
      }
      ok := hw.eraseOk;
    }

    method ProgramFlash(addr: U32, words: seq<bv8>, hw: Hardware) returns (ok: bool)
      requires Valid() && addr + |words| <= FLASH_END
      modifies memory
      ensures memory[..] == ProgramBytes(old(memory[..]), addr, words, hw) && ok == hw.programOk
    {
      for i := 0 to |words|
        invariant forall j :: addr <= j < addr + i ==>
          memory[j] == ProgramByte(old(memory[..])[j], words[j - addr], hw.programOk, At(hw.programKept, j - addr, 0))
        invariant forall j :: 0 <= j < FLASH_END && !(addr <= j < addr + i) ==> memory[j] == old(memory[..])[j]
      {
        memory[addr + i] := ProgramByte(memory[addr + i], words[i], hw.programOk, At(hw.programKept, i, 0));
      }
      ok := hw.programOk;
    }

    method EraseTargetSector(slot: U8, sector: U32, hw: Hardware) returns (ok: bool)
      requires Valid()
      modifies this`memo, memory
      ensures (State(), ok) == EraseTarget(old(State()), slot, sector, hw)
    {
      if sector % 0x2000 != 0 || !BoundsOk(slot, sector, SECTOR_SIZE) {
        return false;
      }
      var addr: U32 := SlotStart(slot) + sector;
      if addr == memo {
        return true;
      }
      ok := EraseFlashSector(addr, hw);
      if ok {
        memo := addr;
      }
    }

    method Write(slot: U8, offset: U32, data: seq<bv8>, length: U16, hw: Hardware) returns (ok: bool)
      requires Valid()
      modifies memory
      ensures (State(), ok) == WriteTarget(old(State()), slot, offset, data, length, hw)
    {
      if length == 0 {
        return true;
      }
      if offset % 4 != 0 || length > 64 || !BoundsOk(slot, offset, length) {
        return false;
      }
      ok := ProgramFlash(SlotStart(slot) + offset, Words(data, length), hw);
    }

    method ReplaceMetadata(metadata: seq<bv8>)
      requires Valid()
      modifies memory
      ensures State() == WriteMetadata(old(State()), metadata)
    {
      for i := 0 to 0x2000
        invariant forall j :: METADATA_START <= j < METADATA_START + i ==>
          memory[j] == At(metadata, j - METADATA_START, old(memory[..])[j])
        invariant forall j :: 0 <= j < FLASH_END && !(METADATA_START <= j < METADATA_START + i) ==>
          memory[j] == old(memory[..])[j]
      {
        memory[METADATA_START + i] := At(metadata, i, memory[METADATA_START + i]);
      }
    }

    method Read(slot: U8, offset: U32, length: U32) returns (r: Option<seq<bv8>>)
      requires Valid()
      ensures r == ReadTarget(State(), slot, offset, length)
    {
      if !BoundsOk(slot, offset, length) {
        return None;
      }
      var start := SlotStart(slot) + offset;
      assert memory[..][start..start + length] == memory[start..start + length];
      return Some(memory[start..start + length]);
    }
  }
}
