/**
 The 32-bit checksum of the boot metadata (`ota-metadata.c`), the reflected code of section 8 of RFC 1952, and the
 corruption it is certain to notice.
 */
module Checksum32 {
  import opened Checksum16

  // ---------------------------------------------------------------- the code

  function Not(x: bv32): bv32 { !x }

  function Plus(x: bv32, y: bv32): bv32 { x ^ y }

  predicate Low1(x: bv32) { x & 1 == 1 }

  function Shr1(x: bv32): bv32 { x >> 1 }

  /** One pass of the bit loop. */
  function Step(x: bv32): bv32 {
    if Low1(x) then Plus(Shr1(x), 0xEDB8_8320) else Shr1(x)
  }

  function Steps(n: nat, x: bv32): bv32 {
    if n == 0 then x else Step(Steps(n - 1, x))
  }

  /** The register after the bytes, without the complements. */
  function Register(acc: bv32, data: seq<bv8>): bv32 {
    if data == [] then acc
    else Steps(8, Plus(Register(acc, data[..|data| - 1]), data[|data| - 1] as bv32))
  }

  function Crc32Update(crc: bv32, data: seq<bv8>): bv32 {
    Not(Register(Not(crc), data))
  }

  function Crc32(data: seq<bv8>): bv32 {
    Crc32Update(0, data)
  }

  /** The nested loops, against the fold and against the bit-serial reference. */
  method Crc32UpdateData(crc: bv32, data: seq<bv8>) returns (r: bv32)
    ensures r == Crc32Update(crc, data)
    ensures r == Not(Serial(Not(crc), Bits(data)))
  {
    hide Step, Not, Plus, Bits, Serial;
    r := Not(crc);
    for i := 0 to |data|
      invariant r == Register(Not(crc), data[..i])
    {
      r := Plus(r, data[i] as bv32);
      ghost var start := r;
      for bit := 0 to 8
        invariant r == Steps(bit, start)
      {
        r := Step(r);
      }
      assert data[..i + 1][..i] == data[..i];
    }
    assert data[..|data|] == data;
    RegisterIsSerial(Not(crc), data);
    r := Not(r);
  }

  // ---------------------------------------------------------------- the reference

  /** One shift of the register; `bit` enters at the low end. */
  function Push(acc: bv32, bit: bool): bv32 {
    if Low1(acc) != bit then Plus(Shr1(acc), 0xEDB8_8320) else Shr1(acc)
  }

  function Serial(acc: bv32, bits: seq<bool>): bv32 {
    if bits == [] then acc else Push(Serial(acc, bits[..|bits| - 1]), bits[|bits| - 1])
  }

  function Wide(r: bv16): bv32 { r as bv32 }

  lemma {:induction false} SerialConcat(acc: bv32, s: seq<bool>, t: seq<bool>)
    ensures Serial(acc, s + t) == Serial(Serial(acc, s), t)
  {
    if t == [] {
      assert s + t == s;
    } else {
      assert (s + t)[..|s + t| - 1] == s + t[..|t| - 1];
      SerialConcat(acc, s, t[..|t| - 1]);
    }
  }

  lemma LowBitOnly(x: bv32)
    ensures x & 1 == 0 || x & 1 == 1
  {
  }

  /** Exclusive or works bit by bit. */
  lemma PlusParts(x: bv32, y: bv32)
    ensures Low1(Plus(x, y)) == (Low1(x) != Low1(y))
    ensures Shr1(Plus(x, y)) == Plus(Shr1(x), Shr1(y))
  {
    LowBitOnly(x);
    LowBitOnly(y);
    assert (x ^ y) & 1 == (x & 1) ^ (y & 1);
  }

  lemma PlusAssociative(x: bv32, y: bv32, z: bv32)
    ensures Plus(Plus(x, y), z) == Plus(x, Plus(y, z))
  {
  }

  lemma PlusCommutative(x: bv32, y: bv32)
    ensures Plus(x, y) == Plus(y, x)
  {
  }

  lemma PlusSwap(x: bv32, y: bv32, z: bv32)
    ensures Plus(Plus(x, y), z) == Plus(Plus(x, z), y)
  {
    hide Plus;
    PlusAssociative(x, y, z);
    PlusCommutative(y, z);
    PlusAssociative(x, z, y);
  }

  lemma WideParts(r: bv16)
    ensures Low1(Wide(r)) == Odd(r)
    ensures Shr1(Wide(r)) == Wide(Half(r))
  {
  }

  /** A bit added to the register beforehand acts like a bit fed in. */
  lemma StepAbsorbs(acc: bv32, r: bv16)
    ensures Step(Plus(acc, Wide(r))) == Plus(Push(acc, Odd(r)), Wide(Half(r)))
  {
    hide Plus, Low1, Shr1, Wide, Odd, Half;
    PlusParts(acc, Wide(r));
    WideParts(r);
    PlusSwap(Shr1(acc), Wide(Half(r)), 0xEDB8_8320);
  }

  function Halves(n: nat, r: bv16): bv16 {
    if n == 0 then r else Halves(n - 1, Half(r))
  }

  lemma {:induction false} StepsFront(n: nat, x: bv32)
    ensures Steps(n + 1, x) == Steps(n, Step(x))
  {
    hide Step;
    if n == 0 {
    } else {
      StepsFront(n - 1, x);
    }
  }

  lemma {:induction false} StepsAbsorb(n: nat, acc: bv32, r: bv16)
    ensures Steps(n, Plus(acc, Wide(r))) == Plus(Serial(acc, LowBits(n, r)), Wide(Halves(n, r)))
  {
    hide Step, Plus, Wide, Push, Half, Odd;
    if n == 0 {
    } else {
      var next := Push(acc, Odd(r));
      StepsFront(n - 1, Plus(acc, Wide(r)));
      StepAbsorbs(acc, r);
      StepsAbsorb(n - 1, next, Half(r));
      SerialConcat(acc, [Odd(r)], LowBits(n - 1, Half(r)));
      SerialOne(acc, Odd(r));
    }
  }

  lemma SerialOne(acc: bv32, bit: bool)
    ensures Serial(acc, [bit]) == Push(acc, bit)
  {
    assert [bit][..0] == [];
  }

  lemma ByteHalves(b: bv8)
    ensures Wide(Halves(8, b as bv16)) == 0
  {
    var r := b as bv16;
    assert Halves(8, r) == Half(Half(Half(Half(Half(Half(Half(Half(r)))))))) by {
      hide Half;
      HalvesEight(r);
    }
    assert Half(Half(Half(Half(Half(Half(Half(Half(r)))))))) == 0;
  }

  lemma HalvesEight(r: bv16)
    ensures Halves(8, r) == Half(Half(Half(Half(Half(Half(Half(Half(r))))))))
  {
    hide Half;
    var s := Half(Half(Half(Half(r))));
    assert Halves(8, r) == Halves(7, Half(r)) == Halves(6, Half(Half(r)));
    assert Halves(6, Half(Half(r))) == Halves(5, Half(Half(Half(r)))) == Halves(4, s);
    assert Halves(4, s) == Halves(3, Half(s)) == Halves(2, Half(Half(s)));
    assert Halves(2, Half(Half(s))) == Halves(1, Half(Half(Half(s)))) == Half(Half(Half(Half(s))));
  }

  lemma WideByte(b: bv8)
    ensures Wide(b as bv16) == b as bv32
  {
  }

  lemma PlusZero(x: bv32)
    ensures Plus(x, 0) == x
  {
  }

  lemma {:induction false} RegisterIsSerial(acc: bv32, data: seq<bv8>)
    ensures Register(acc, data) == Serial(acc, Bits(data))
  {
    hide Steps, Plus, Wide, Halves;
    if data == [] {
    } else {
      var n := |data| - 1;
      var before := Register(acc, data[..n]);
      RegisterIsSerial(acc, data[..n]);
      StepsAbsorb(8, before, data[n] as bv16);
      WideByte(data[n]);
      ByteHalves(data[n]);
      PlusZero(Serial(before, LowBits(8, data[n] as bv16)));
      SerialConcat(acc, Bits(data[..n]), LowBits(8, data[n] as bv16));
    }
  }

  // ---------------------------------------------------------------- composition

  lemma {:induction false} RegisterConcat(acc: bv32, s: seq<bv8>, t: seq<bv8>)
    ensures Register(acc, s + t) == Register(Register(acc, s), t)
  {
    hide Steps, Plus;
    if t == [] {
      assert s + t == s;
    } else {
      assert (s + t)[..|s + t| - 1] == s + t[..|t| - 1];
      RegisterConcat(acc, s, t[..|t| - 1]);
    }
  }

  /** The complements of consecutive updates cancel: a checksum can be continued piece by piece. */
  lemma Crc32Concat(crc: bv32, s: seq<bv8>, t: seq<bv8>)
    ensures Crc32Update(crc, s + t) == Crc32Update(Crc32Update(crc, s), t)
  {
    hide Register, Not;
    NotNot(Register(Not(crc), s));
    RegisterConcat(Not(crc), s, t);
  }

  lemma NotNot(x: bv32)
    ensures Not(Not(x)) == x
  {
  }

  // ---------------------------------------------------------------- words

  /** A 32-bit word as the four bytes it occupies in memory. */
  function LittleEndian(w: bv32): (r: seq<bv8>)
    ensures |r| == 4
  {
    [Low(w), Low(Rest(w)), Low(Rest(Rest(w))), Low(Rest(Rest(Rest(w))))]
  }

  function Low(w: bv32): bv8 { (w & 0xFF) as bv8 }

  function Rest(w: bv32): bv32 { w >> 8 }

  function Memory(words: seq<bv32>): (r: seq<bv8>)
    ensures |r| == 4 * |words|
  {
    if words == [] then [] else Memory(words[..|words| - 1]) + LittleEndian(words[|words| - 1])
  }

  function Shl1(y: bv32): bv32 { y << 1 }

  predicate TopClear(y: bv32) { y & 0x8000_0000 == 0 }

  lemma ShiftBack(y: bv32)
    requires TopClear(y)
    ensures Shr1(Shl1(y)) == y && !Low1(Shl1(y))
  {
  }

  /** Bits that have not reached the low end yet only move down. */
  lemma StepShifts(x: bv32, y: bv32)
    requires TopClear(y)
    ensures Step(Plus(x, Shl1(y))) == Plus(Step(x), y)
  {
    hide Plus, Low1, Shr1, Shl1, TopClear;
    PlusParts(x, Shl1(y));
    ShiftBack(y);
    PlusSwap(Shr1(x), y, 0xEDB8_8320);
  }

  /** `y` moved up by `n` places, none of its bits lost. */
  function Up(n: nat, y: bv32): bv32 {
    if n == 0 then y else Shl1(Up(n - 1, y))
  }

  predicate Fits(n: nat, y: bv32) {
    n == 0 || (Fits(n - 1, y) && TopClear(Up(n - 1, y)))
  }

  lemma {:induction false} StepsShift(n: nat, x: bv32, y: bv32)
    requires Fits(n, y)
    ensures Steps(n, Plus(x, Up(n, y))) == Plus(Steps(n, x), y)
  {
    hide Step, Plus, Shl1, TopClear;
    if n == 0 {
    } else {
      StepShifts(x, Up(n - 1, y));
      StepsFront(n - 1, Plus(x, Up(n, y)));
      StepsFront(n - 1, x);
      StepsShift(n - 1, Step(x), y);
    }
  }

  lemma UpEight(w: bv32)
    ensures Fits(8, Rest(w)) && Up(8, Rest(w)) == w & 0xFFFF_FF00
  {
    hide Shl1, TopClear, Rest;
    var y := Rest(w);
    ShiftTops(w);
    assert Up(1, y) == Shl1(y) && Fits(1, y);
    assert Up(2, y) == Shl1(Shl1(y)) && Fits(2, y);
    assert Up(3, y) == Shl1(Shl1(Shl1(y))) && Fits(3, y);
    assert Up(4, y) == Shl1(Shl1(Shl1(Shl1(y)))) && Fits(4, y);
    assert Up(5, y) == Shl1(Shl1(Shl1(Shl1(Shl1(y))))) && Fits(5, y);
    assert Up(6, y) == Shl1(Shl1(Shl1(Shl1(Shl1(Shl1(y)))))) && Fits(6, y);
    assert Up(7, y) == Shl1(Shl1(Shl1(Shl1(Shl1(Shl1(Shl1(y))))))) && Fits(7, y);
  }

  lemma ShiftTops(w: bv32)
    ensures var y := Rest(w);
      && TopClear(y) && TopClear(Shl1(y)) && TopClear(Shl1(Shl1(y))) && TopClear(Shl1(Shl1(Shl1(y))))
      && TopClear(Shl1(Shl1(Shl1(Shl1(y))))) && TopClear(Shl1(Shl1(Shl1(Shl1(Shl1(y))))))
      && TopClear(Shl1(Shl1(Shl1(Shl1(Shl1(Shl1(y)))))))
      && TopClear(Shl1(Shl1(Shl1(Shl1(Shl1(Shl1(Shl1(y))))))))
      && Shl1(Shl1(Shl1(Shl1(Shl1(Shl1(Shl1(Shl1(y)))))))) == w & 0xFFFF_FF00
  {
  }

  lemma SplitLow(acc: bv32, w: bv32)
    ensures Plus(acc, w) == Plus(Plus(acc, Low(w) as bv32), w & 0xFFFF_FF00)
  {
  }

  /** So the upper bytes of a word wait while its low byte is processed. */
  lemma ByteOfWord(acc: bv32, w: bv32)
    ensures Steps(8, Plus(acc, w)) == Plus(Steps(8, Plus(acc, Low(w) as bv32)), Rest(w))
  {
    hide Plus, Low, Rest, Up, Fits, Steps;
    SplitLow(acc, w);
    UpEight(w);
    StepsShift(8, Plus(acc, Low(w) as bv32), Rest(w));
  }

  lemma NoRest(w: bv32)
    ensures Rest(Rest(Rest(Rest(w)))) == 0
  {
  }

  lemma RegisterSnoc(acc: bv32, data: seq<bv8>, i: nat)
    requires i < |data|
    ensures Register(acc, data[..i + 1]) == Steps(8, Plus(Register(acc, data[..i]), data[i] as bv32))
    ensures Register(acc, []) == acc
  {
    hide Steps, Plus;
    assert data[..i + 1][..i] == data[..i];
  }

  lemma WordWaits(acc: bv32, w: bv32, a1: bv32, a2: bv32, a3: bv32, a4: bv32)
    requires a1 == Steps(8, Plus(acc, Low(w) as bv32)) && a2 == Steps(8, Plus(a1, Low(Rest(w)) as bv32))
    requires a3 == Steps(8, Plus(a2, Low(Rest(Rest(w))) as bv32))
    requires a4 == Steps(8, Plus(a3, Low(Rest(Rest(Rest(w)))) as bv32))
    ensures a4 == Steps(8, Steps(8, Steps(8, Steps(8, Plus(acc, w)))))
  {
    hide Plus, Low, Rest, Steps;
    ByteOfWord(acc, w);
    ByteOfWord(a1, Rest(w));
    ByteOfWord(a2, Rest(Rest(w)));
    ByteOfWord(a3, Rest(Rest(Rest(w))));
    NoRest(w);
    PlusZero(a4);
  }

  /** The register after a word in memory is 32 steps from the register with the word added. */
  lemma RegisterOfWord(acc: bv32, w: bv32)
    ensures Register(acc, LittleEndian(w)) == Steps(8, Steps(8, Steps(8, Steps(8, Plus(acc, w)))))
  {
    hide Plus, Low, Rest, Steps, Register;
    var b := LittleEndian(w);
    RegisterSnoc(acc, b, 0);
    RegisterSnoc(acc, b, 1);
    RegisterSnoc(acc, b, 2);
    RegisterSnoc(acc, b, 3);
    assert b[..0] == [] && b[..4] == b;
    WordWaits(acc, w, Register(acc, b[..1]), Register(acc, b[..2]), Register(acc, b[..3]), Register(acc, b));
  }

  // ---------------------------------------------------------------- detection

  lemma PlusInjective(x: bv32, y: bv32, z: bv32)
    ensures Plus(x, z) == Plus(y, z) <==> x == y
    ensures Plus(z, x) == Plus(z, y) <==> x == y
  {
  }

  predicate Top1(x: bv32) { x & 0x8000_0000 != 0 }

  lemma StepTop(x: bv32)
    ensures Top1(Step(x)) == Low1(x)
  {
  }

  lemma ShiftInjective(x: bv32, y: bv32)
    requires Low1(x) == Low1(y) && Shr1(x) == Shr1(y)
    ensures x == y
  {
    LowBitOnly(x);
    LowBitOnly(y);
    Recompose(x);
    Recompose(y);
  }

  lemma Recompose(x: bv32)
    ensures x == (Shr1(x) << 1) | (x & 1)
  {
  }

  lemma StepInjective(x: bv32, y: bv32)
    requires Step(x) == Step(y)
    ensures x == y
  {
    hide Plus, Low1, Shr1, Top1;
    StepTop(x);
    StepTop(y);
    PlusInjective(Shr1(x), Shr1(y), 0xEDB8_8320);
    ShiftInjective(x, y);
  }

  lemma {:induction false} StepsInjective(n: nat, x: bv32, y: bv32)
    requires Steps(n, x) == Steps(n, y)
    ensures x == y
  {
    hide Step;
    if n == 0 {
    } else {
      StepInjective(Steps(n - 1, x), Steps(n - 1, y));
      StepsInjective(n - 1, x, y);
    }
  }

  lemma WordInjective(a: bv32, b: bv32, v: bv32, w: bv32)
    requires Register(a, LittleEndian(v)) == Register(b, LittleEndian(w))
    ensures Plus(a, v) == Plus(b, w)
  {
    hide Register, LittleEndian, Plus, Steps;
    RegisterOfWord(a, v);
    RegisterOfWord(b, w);
    var x, y := Plus(a, v), Plus(b, w);
    StepsInjective(8, Steps(8, Steps(8, Steps(8, x))), Steps(8, Steps(8, Steps(8, y))));
    StepsInjective(8, Steps(8, Steps(8, x)), Steps(8, Steps(8, y)));
    StepsInjective(8, Steps(8, x), Steps(8, y));
    StepsInjective(8, x, y);
  }

  /** Strings of words that differ in exactly one word have different checksums. */
  lemma {:induction false} OneWordChangesRegister(acc: bv32, s: seq<bv32>, t: seq<bv32>, k: nat)
    requires k < |s| == |t| && s[k] != t[k] && forall i :: 0 <= i < |s| && i != k ==> s[i] == t[i]
    ensures Register(acc, Memory(s)) != Register(acc, Memory(t))
  {
    hide Register, LittleEndian, Plus;
    var n := |s| - 1;
    var a, b := Register(acc, Memory(s[..n])), Register(acc, Memory(t[..n]));
    RegisterConcat(acc, Memory(s[..n]), LittleEndian(s[n]));
    RegisterConcat(acc, Memory(t[..n]), LittleEndian(t[n]));
    if Register(acc, Memory(s)) == Register(acc, Memory(t)) {
      WordInjective(a, b, s[n], t[n]);
      if k == n {
        assert s[..n] == t[..n];
        PlusInjective(s[n], t[n], a);
      } else {
        OneWordChangesRegister(acc, s[..n], t[..n], k);
        PlusInjective(a, b, s[n]);
      }
    }
  }

  lemma OneWordDetected(s: seq<bv32>, t: seq<bv32>, k: nat)
    requires k < |s| == |t| && s[k] != t[k] && forall i :: 0 <= i < |s| && i != k ==> s[i] == t[i]
    ensures Crc32(Memory(s)) != Crc32(Memory(t))
  {
    hide Register, Not;
    OneWordChangesRegister(Not(0), s, t, k);
    NotNot(Register(Not(0), Memory(s)));
    NotNot(Register(Not(0), Memory(t)));
  }
}
