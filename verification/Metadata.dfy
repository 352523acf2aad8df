/**
 The boot metadata record (`ota-metadata.c`): thirteen words, a checksum over all of them, and the transitions that
 rewrite it.
 */
module Metadata {
  import opened Wire
  import opened Checksum32

  type Word = U32

  const MAGIC: Word := 0x4F54_4131
  const A: Word := 0
  const B: Word := 1
  const NO_SLOT: Word := 0xFFFF_FFFF

  const EMPTY: Word := 0
  const VERIFIED: Word := 2
  const PENDING: Word := 3
  const CONFIRMED: Word := 4
  const INVALID: Word := 5

  datatype Record = Record(
    magic: Word, active: Word, candidate: Word, stateA: Word, stateB: Word, versionA: Word, versionB: Word,
    sizeA: Word, sizeB: Word, crcA: Word, crcB: Word, attempts: Word, check: Word)

  // ---------------------------------------------------------------- layout

  function Words(r: Record): (ws: seq<Word>)
    ensures |ws| == 13
  {
    [r.magic, r.active, r.candidate, r.stateA, r.stateB, r.versionA, r.versionB,
     r.sizeA, r.sizeB, r.crcA, r.crcB, r.attempts, r.check]
  }

  /** The words as they lie in memory, least significant byte first. */
  function Bytes(r: Record): (bytes: seq<bv8>)
    ensures |bytes| == 52
  {
    Memory(Raws(Words(r)))
  }

  function Checksum(r: Record): Word {
    Value(Crc32(Bytes(r.(check := 0))))
  }

  predicate Valid(r: Record) {
    r.magic == MAGIC && Checksum(r) == r.check
  }

  // ---------------------------------------------------------------- transitions

  function Refreshed(r: Record): Record {
    r.(check := Checksum(r))
  }

  /** The state, checksum, version and size kept for a slot. */
  datatype Entry = Entry(state: Word, crc: Word, version: Word, size: Word)

  function EntryOf(r: Record, slot: Word): Entry {
    if slot == A then Entry(r.stateA, r.crcA, r.versionA, r.sizeA)
    else Entry(r.stateB, r.crcB, r.versionB, r.sizeB)
  }

  function WithEntry(r: Record, slot: Word, e: Entry): Record {
    if slot == A then r.(stateA := e.state, crcA := e.crc, versionA := e.version, sizeA := e.size)
    else r.(stateB := e.state, crcB := e.crc, versionB := e.version, sizeB := e.size)
  }

  predicate IsSlot(slot: Word) {
    slot == A || slot == B
  }

  function Other(slot: Word): Word {
    if slot == A then B else A
  }

  function Verified(r: Record, slot: Word, version: Word, size: Word, crc: Word): (Record, bool) {
    if r.magic != MAGIC || !IsSlot(slot) then (r, false)
    else (Refreshed(WithEntry(r, slot, Entry(VERIFIED, crc, version, size))), true)
  }

  function StageVerified(r: Record, slot: Word): (Record, bool) {
    if !Valid(r) || !IsSlot(slot) || EntryOf(r, slot).state != VERIFIED then (r, false)
    else
      (Refreshed(WithEntry(r, slot, EntryOf(r, slot).(state := PENDING)).(candidate := slot, attempts := 0)), true)
  }

  function Confirm(r: Record, slot: Word): (Record, bool) {
    if !Valid(r) || !IsSlot(slot) then (r, false)
    else
      (Refreshed(WithEntry(r, slot, EntryOf(r, slot).(state := CONFIRMED))
                 .(active := slot, candidate := NO_SLOT, attempts := 0)), true)
  }

  /** Factory state: everything is written except the checksum, which the refresh then computes. */
  function Factory(slot: Word, version: Word, size: Word, crc: Word): Record {
    var blank := Record(MAGIC, slot, NO_SLOT, EMPTY, EMPTY, 0, 0, 0, 0, 0, 0, 0, 0);
    Refreshed(WithEntry(blank, slot, Entry(PENDING, crc, version, size)))
  }

  function CountAttempt(r: Record): Record {
    Refreshed(r.(attempts := (r.attempts + 1) % 0x1_0000_0000))
  }

  function MarkInvalid(r: Record, slot: Word): Record {
    Refreshed(if IsSlot(slot) then WithEntry(r, slot, EntryOf(r, slot).(state := INVALID)) else r)
  }

  function WithCandidate(r: Record, slot: Word, version: Word, size: Word, crc: Word): Record {
    Refreshed(WithEntry(r, slot, Entry(PENDING, crc, version, size)).(candidate := slot, attempts := 1))
  }

  function WithoutCandidate(r: Record): Record {
    Refreshed(r.(candidate := NO_SLOT, attempts := 0))
  }

  function WithoutSlot(r: Record, slot: Word): Record {
    Refreshed(if IsSlot(slot) then WithEntry(r, slot, Entry(EMPTY, 0, 0, 0)) else r)
  }

  // ---------------------------------------------------------------- the record in memory

  class Block {
    var magic: Word
    var active: Word
    var candidate: Word
    var stateA: Word
    var stateB: Word
    var versionA: Word
    var versionB: Word
    var sizeA: Word
    var sizeB: Word
    var crcA: Word
    var crcB: Word
    var attempts: Word
    var check: Word

    function State(): Record
      reads this
    {
      Record(magic, active, candidate, stateA, stateB, versionA, versionB, sizeA, sizeB, crcA, crcB, attempts, check)
    }

    constructor (r: Record)
      ensures State() == r
    {
      magic, active, candidate, stateA, stateB := r.magic, r.active, r.candidate, r.stateA, r.stateB;
      versionA, versionB, sizeA, sizeB := r.versionA, r.versionB, r.sizeA, r.sizeB;
      crcA, crcB, attempts, check := r.crcA, r.crcB, r.attempts, r.check;
    }

    /** Structure assignment. */
    method Assign(r: Record)
      modifies this
      ensures State() == r
    {
      magic, active, candidate, stateA, stateB := r.magic, r.active, r.candidate, r.stateA, r.stateB;
      versionA, versionB, sizeA, sizeB := r.versionA, r.versionB, r.sizeA, r.sizeB;
      crcA, crcB, attempts, check := r.crcA, r.crcB, r.attempts, r.check;
    }

    method RefreshCrc()
      modifies this`check
      ensures State() == Refreshed(old(State()))
    {
      hide Words, Bytes, Crc32Update, Value;
      check := 0;
      var sum := Crc32UpdateData(0, Bytes(State()));
      check := Value(sum);
    }

    method CrcIsValid() returns (ok: bool)
      ensures ok <==> Valid(State())
    {
      hide Words, Bytes, Crc32Update, Value;
      if magic != MAGIC {
        return false;
      }
      var tmp := State().(check := 0);
      var sum := Crc32UpdateData(0, Bytes(tmp));
      return Value(sum) == check;
    }

    method MarkVerified(slot: Word, version: Word, size: Word, crc: Word) returns (ok: bool)
      modifies this
      ensures (State(), ok) == Verified(old(State()), slot, version, size, crc)
    {
      hide Checksum;
      if magic != MAGIC {
        return false;
      }
      if slot == A {
        versionA, sizeA, crcA, stateA := version, size, crc, VERIFIED;
      } else if slot == B {
        versionB, sizeB, crcB, stateB := version, size, crc, VERIFIED;
      } else {
        return false;
      }
      RefreshCrc();
      return true;
    }

    method StageVerifiedImage(slot: Word) returns (ok: bool)
      modifies this
      ensures (State(), ok) == StageVerified(old(State()), slot)
    {
      hide Checksum, Valid;
      ok := CrcIsValid();
      if !ok {
        return;
      }
      if slot == A && stateA == VERIFIED {
        candidate, stateA := A, PENDING;
      } else if slot == B && stateB == VERIFIED {
        candidate, stateB := B, PENDING;
      } else {
        return false;
      }
      attempts := 0;
      RefreshCrc();
      return true;
    }

    method ConfirmRunningImage(slot: Word) returns (ok: bool)
      modifies this
      ensures (State(), ok) == Confirm(old(State()), slot)
    {
      hide Checksum, Valid;
      ok := CrcIsValid();
      if !ok {
        return;
      }
      if slot == A {
        active, candidate, stateA := A, NO_SLOT, CONFIRMED;
      } else if slot == B {
        active, candidate, stateB := B, NO_SLOT, CONFIRMED;
      } else {
        return false;
      }
      attempts := 0;
      RefreshCrc();
      return true;
    }

    method InitFactory(slot: Word, version: Word, size: Word, crc: Word)
      modifies this
      ensures State() == Factory(slot, version, size, crc)
    {
      hide Checksum, Refreshed;
      magic, active, candidate, attempts := MAGIC, slot, NO_SLOT, 0;
      if slot == A {
        stateA, stateB, crcA, crcB := PENDING, EMPTY, crc, 0;
        versionA, sizeA, versionB, sizeB := version, size, 0, 0;
      } else {
        stateB, stateA, crcB, crcA := PENDING, EMPTY, crc, 0;
        versionB, sizeB, versionA, sizeA := version, size, 0, 0;
      }
      ghost var blank := Record(MAGIC, slot, NO_SLOT, EMPTY, EMPTY, 0, 0, 0, 0, 0, 0, 0, 0);
      ghost var r := WithEntry(blank, slot, Entry(PENDING, crc, version, size));
      assert State() == r.(check := check);
      RefreshIgnoresCheck(r, check);
      RefreshCrc();
    }

    method IncrementBootAttempts()
      modifies this
      ensures State() == CountAttempt(old(State()))
    {
      hide Checksum;
      attempts := (attempts + 1) % 0x1_0000_0000;
      RefreshCrc();
    }

    method MarkSlotInvalid(slot: Word)
      modifies this
      ensures State() == MarkInvalid(old(State()), slot)
    {
      hide Checksum;
      if slot == A {
        stateA := INVALID;
      } else if slot == B {
        stateB := INVALID;
      }
      RefreshCrc();
    }

    method SetCandidate(slot: Word, version: Word, size: Word, crc: Word)
      modifies this
      ensures State() == WithCandidate(old(State()), slot, version, size, crc)
    {
      hide Checksum;
      candidate, attempts := slot, 1;
      if slot == A {
        stateA, crcA, versionA, sizeA := PENDING, crc, version, size;
      } else {
        stateB, crcB, versionB, sizeB := PENDING, crc, version, size;
      }
      RefreshCrc();
    }

    method ClearCandidate()
      modifies this
      ensures State() == WithoutCandidate(old(State()))
    {
      hide Checksum;
      candidate, attempts := NO_SLOT, 0;
      RefreshCrc();
    }

    method ClearSlot(slot: Word)
      modifies this
      ensures State() == WithoutSlot(old(State()), slot)
    {
      hide Checksum;
      if slot == A {
        stateA, crcA, versionA, sizeA := EMPTY, 0, 0, 0;
      } else if slot == B {
        stateB, crcB, versionB, sizeB := EMPTY, 0, 0, 0;
      }
      RefreshCrc();
    }
  }

  // ---------------------------------------------------------------- validity

  lemma RefreshIgnoresCheck(r: Record, check: Word)
    ensures Refreshed(r.(check := check)) == Refreshed(r)
  {
    hide Words, Bytes, Crc32, Value;
    assert r.(check := check).(check := 0) == r.(check := 0);
  }

  lemma RefreshedChecksum(r: Record)
    ensures Checksum(Refreshed(r)) == Checksum(r)
  {
    hide Words, Bytes, Crc32, Value;
    assert Refreshed(r).(check := 0) == r.(check := 0);
  }

  /** A refreshed record validates exactly when its magic word is right, and a valid record needs no refresh. */
  lemma RefreshedIsValid(r: Record)
    ensures Valid(Refreshed(r)) <==> r.magic == MAGIC
    ensures Valid(r) ==> Refreshed(r) == r
  {
    hide Checksum;
    RefreshedChecksum(r);
  }

  /** No change to a single word of a valid record goes unnoticed. */
  lemma OneWordCorruptionDetected(r: Record, s: Record, k: nat)
    requires Valid(r) && k < 13 && Words(r)[k] != Words(s)[k]
    requires forall i :: 0 <= i < 13 && i != k ==> Words(r)[i] == Words(s)[i]
    ensures !Valid(s)
  {
    hide Crc32, Memory, Raw, Value;
    assert r.magic == Words(r)[0] && s.magic == Words(s)[0];
    assert r.check == Words(r)[12] && s.check == Words(s)[12];
    var u, v := Words(r.(check := 0)), Words(s.(check := 0));
    assert u == Words(r)[12 := 0] && v == Words(s)[12 := 0];
    if k == 12 {
      assert u == v;
    } else {
      RawRoundTrip(u[k]);
      RawRoundTrip(v[k]);
      OneWordDetected(Raws(u), Raws(v), k);
      ValueRoundTrip(Crc32(Memory(Raws(u))));
      ValueRoundTrip(Crc32(Memory(Raws(v))));
    }
  }

  // ---------------------------------------------------------------- words and bits

  function Byte(x: U8): bv8 { x as bv8 }

  function ByteValue(b: bv8): U8 { b as int }

  function Digit(w: Word, k: nat): U8
    requires k < 4
  {
    if k == 0 then w % 0x100 else if k == 1 then w / 0x100 % 0x100
    else if k == 2 then w / 0x1_0000 % 0x100 else w / 0x100_0000
  }

  function Number(d0: U8, d1: U8, d2: U8, d3: U8): Word {
    d0 + 0x100 * d1 + 0x1_0000 * d2 + 0x100_0000 * d3
  }

  lemma DigitsNumber(w: Word)
    ensures Number(Digit(w, 0), Digit(w, 1), Digit(w, 2), Digit(w, 3)) == w
  {
    assert w / 0x1_0000 == w / 0x100 / 0x100 && w / 0x100_0000 == w / 0x100 / 0x100 / 0x100;
  }

  lemma NumberDigits(d0: U8, d1: U8, d2: U8, d3: U8)
    ensures var w := Number(d0, d1, d2, d3);
      Digit(w, 0) == d0 && Digit(w, 1) == d1 && Digit(w, 2) == d2 && Digit(w, 3) == d3
  {
    var w := Number(d0, d1, d2, d3);
    assert w / 0x100 == d1 + 0x100 * d2 + 0x1_0000 * d3;
    assert w / 0x1_0000 == d2 + 0x100 * d3;
  }

  /** The bit pattern of a word. */
  function Raw(w: Word): bv32 {
    Join(Byte(Digit(w, 0)), Byte(Digit(w, 1)), Byte(Digit(w, 2)), Byte(Digit(w, 3)))
  }

  function Raws(ws: seq<Word>): (r: seq<bv32>)
    ensures |r| == |ws|
  {
    seq(|ws|, i requires 0 <= i < |ws| => Raw(ws[i]))
  }

  /** The word of a bit pattern. */
  function Value(b: bv32): Word {
    Number(ByteValue(Low(b)), ByteValue(Low(Rest(b))), ByteValue(Low(Rest(Rest(b)))),
           ByteValue(Low(Rest(Rest(Rest(b))))))
  }

  function Join(b0: bv8, b1: bv8, b2: bv8, b3: bv8): bv32 {
    (b0 as bv32) | (b1 as bv32 << 8) | (b2 as bv32 << 16) | (b3 as bv32 << 24)
  }

  lemma JoinParts(b0: bv8, b1: bv8, b2: bv8, b3: bv8)
    ensures var w := Join(b0, b1, b2, b3);
      Low(w) == b0 && Low(Rest(w)) == b1 && Low(Rest(Rest(w))) == b2 && Low(Rest(Rest(Rest(w)))) == b3
  {
  }

  lemma PartsJoin(w: bv32)
    ensures Join(Low(w), Low(Rest(w)), Low(Rest(Rest(w))), Low(Rest(Rest(Rest(w))))) == w
  {
  }

  lemma ByteOfValue(b: bv8)
    ensures Byte(ByteValue(b)) == b
  {
  }

  lemma NextByte(b: bv8)
    requires b != 0xFF
    ensures ByteValue(b + 1) == ByteValue(b) + 1
  {
  }

  lemma LastByte(b: bv8)
    ensures ByteValue(b) == 0xFF <==> b == 0xFF
    ensures ByteValue(0) == 0
  {
  }

  lemma {:induction false} SomeByte(x: U8) returns (b: bv8)
    ensures ByteValue(b) == x
  {
    hide ByteValue;
    if x == 0 {
      b := 0;
      LastByte(b);
    } else {
      b := SomeByte(x - 1);
      LastByte(b);
      NextByte(b);
      b := b + 1;
    }
  }

  lemma ValueOfByte(x: U8)
    ensures ByteValue(Byte(x)) == x
  {
    hide Byte, ByteValue;
    var b := SomeByte(x);
    ByteOfValue(b);
  }

  lemma RawRoundTrip(w: Word)
    ensures Value(Raw(w)) == w
  {
    hide Byte, ByteValue, Join, Low, Rest, Digit, Number;
    JoinParts(Byte(Digit(w, 0)), Byte(Digit(w, 1)), Byte(Digit(w, 2)), Byte(Digit(w, 3)));
    ValueOfByte(Digit(w, 0));
    ValueOfByte(Digit(w, 1));
    ValueOfByte(Digit(w, 2));
    ValueOfByte(Digit(w, 3));
    DigitsNumber(w);
  }

  lemma ValueRoundTrip(b: bv32)
    ensures Raw(Value(b)) == b
  {
    hide Byte, ByteValue, Join, Low, Rest, Digit, Number;
    NumberDigits(ByteValue(Low(b)), ByteValue(Low(Rest(b))), ByteValue(Low(Rest(Rest(b)))),
                 ByteValue(Low(Rest(Rest(Rest(b))))));
    ByteOfValue(Low(b));
    ByteOfValue(Low(Rest(b)));
    ByteOfValue(Low(Rest(Rest(b))));
    ByteOfValue(Low(Rest(Rest(Rest(b)))));
    PartsJoin(b);
  }

  // ---------------------------------------------------------------- reading back

  function WordFrom(bytes: seq<bv8>): Word
    requires |bytes| == 4
  {
    Value(Join(bytes[0], bytes[1], bytes[2], bytes[3]))
  }

  lemma WordRoundTrip(w: Word)
    ensures WordFrom(LittleEndian(Raw(w))) == w
  {
    hide Join, Low, Rest, Raw, Value;
    PartsJoin(Raw(w));
    RawRoundTrip(w);
  }

  function WordsFrom(bytes: seq<bv8>): (ws: seq<Word>)
    requires |bytes| % 4 == 0
    ensures |ws| == |bytes| / 4
  {
    if bytes == [] then [] else WordsFrom(bytes[..|bytes| - 4]) + [WordFrom(bytes[|bytes| - 4..])]
  }

  lemma WordsFromSnoc(bytes: seq<bv8>, four: seq<bv8>)
    requires |bytes| % 4 == 0 && |four| == 4
    ensures WordsFrom(bytes + four) == WordsFrom(bytes) + [WordFrom(four)]
  {
    hide WordFrom;
    var all := bytes + four;
    assert all[..|all| - 4] == bytes;
    assert all[|all| - 4..] == four;
  }

  lemma {:induction false} MemoryRoundTrip(ws: seq<Word>)
    ensures WordsFrom(Memory(Raws(ws))) == ws
  {
    hide WordFrom, WordsFrom, LittleEndian, Raw;
    if ws == [] {
      NoWords();
    } else {
      var n := |ws| - 1;
      assert Raws(ws)[..n] == Raws(ws[..n]);
      WordsFromSnoc(Memory(Raws(ws[..n])), LittleEndian(Raw(ws[n])));
      MemoryRoundTrip(ws[..n]);
      WordRoundTrip(ws[n]);
    }
  }

  lemma NoWords()
    ensures WordsFrom([]) == []
  {
  }

  function RecordFrom(bytes: seq<bv8>): Record
    requires |bytes| == 52
  {
    var w := WordsFrom(bytes);
    Record(w[0], w[1], w[2], w[3], w[4], w[5], w[6], w[7], w[8], w[9], w[10], w[11], w[12])
  }

  /** What was written is read back, and the byte comparison before a write is equality of records. */
  lemma RecordRoundTrip(r: Record, s: Record)
    ensures RecordFrom(Bytes(r)) == r
    ensures Bytes(r) == Bytes(s) <==> r == s
  {
    hide Memory, WordsFrom, Raws;
    MemoryRoundTrip(Words(r));
    MemoryRoundTrip(Words(s));
  }
}
