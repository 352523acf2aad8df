/**
 The 16-bit page and image checksum shared by the UART sender, the coordinator and the nodes.

 `Crc16Add` is the table-free byte update of the sender; `Crc16` is its fold over a byte string.
 The reference definition is a bit-serial shift register: the generator x^16 + x^12 + x^5 + 1,
 reflected (0x8408), fed least significant bit first.
 */
module Checksum16 {

  // ---------------------------------------------------------------- the code

  /** The byte swap and the three folding steps. The masks with 0xFFFF in the sender are the truncation of `bv16`. */
  function Fold(a0: bv16): bv16 {
    var a1 := (a0 >> 8) | (a0 << 8);
    var a2 := a1 ^ ((a1 & 0xFF00) << 4);
    var a3 := a2 ^ ((a2 >> 8) >> 4);
    a3 ^ ((a3 & 0xFF00) >> 5)
  }

  /** Exclusive or of two words. */
  function Sum(x: bv16, y: bv16): bv16 {
    x ^ y
  }

  /** One byte. */
  function Crc16Add(b: bv8, acc: bv16): bv16 {
    Fold(Sum(acc, b as bv16))
  }

  /** The checksum of `data` continued from `acc`. */
  function Crc16(acc: bv16, data: seq<bv8>): bv16 {
    if data == [] then acc else Crc16Add(data[|data| - 1], Crc16(acc, data[..|data| - 1]))
  }

  /** The accumulating loop of the sender, against the fold and against the bit-serial reference. */
  method Crc16Data(data: seq<bv8>, acc: bv16) returns (r: bv16)
    ensures r == Crc16(acc, data)
    ensures r == BitSerial(acc, Bits(data))
  {
    r := acc;
    for i := 0 to |data|
      invariant r == Crc16(acc, data[..i])
    {
      assert data[..i + 1][..i] == data[..i];
      r := Crc16Add(data[i], r);
    }
    assert data[..|data|] == data;
    Crc16IsBitSerial(acc, data);
  }

  // ---------------------------------------------------------------- the reference

  /** One shift of the register; `bit` enters at the low end. */
  function Shift(acc: bv16, bit: bool): bv16 {
    if (acc & 1 == 1) != bit then (acc >> 1) ^ 0x8408 else acc >> 1
  }

  function BitSerial(acc: bv16, bits: seq<bool>): bv16 {
    if bits == [] then acc else Shift(BitSerial(acc, bits[..|bits| - 1]), bits[|bits| - 1])
  }

  /** The low `n` bits of a word, least significant first. */
  function LowBits(n: nat, w: bv16): (r: seq<bool>)
    ensures |r| == n
  {
    if n == 0 then [] else [Odd(w)] + LowBits(n - 1, Half(w))
  }

  /** The bits of a byte string, each byte least significant bit first. */
  function Bits(data: seq<bv8>): seq<bool> {
    if data == [] then [] else Bits(data[..|data| - 1]) + LowBits(8, data[|data| - 1] as bv16)
  }

  lemma {:induction false} BitSerialConcat(acc: bv16, s: seq<bool>, t: seq<bool>)
    ensures BitSerial(acc, s + t) == BitSerial(BitSerial(acc, s), t)
  {
    if t == [] {
      assert s + t == s;
    } else {
      assert (s + t)[..|s + t| - 1] == s + t[..|t| - 1];
      BitSerialConcat(acc, s, t[..|t| - 1]);
    }
  }

  lemma SumZero(x: bv16, y: bv16)
    ensures Sum(x, 0) == x
    ensures Sum(x, y) == 0 <==> x == y
  {
    SumCancels(x, y);
    SumCancels(0, y);
    SumUnits(x);
    SumUnits(y);
    hide Sum;
  }

  lemma SumCancels(x: bv16, y: bv16)
    ensures Sum(Sum(x, y), y) == x
  {
  }

  lemma SumUnits(x: bv16)
    ensures Sum(x, 0) == x && Sum(0, x) == x && Sum(x, x) == 0
  {
  }

  /** A shift that takes no input bit, its feedback written as exclusive ors of the low bit. */
  function Roll(a: bv16): bv16 {
    (a >> 1) ^ ((a & 1) << 15) ^ ((a & 1) << 10) ^ ((a & 1) << 3)
  }

  function Rolls(n: nat, a: bv16): bv16 {
    if n == 0 then a else Rolls(n - 1, Roll(a))
  }

  function Half(w: bv16): bv16 { w >> 1 }

  predicate Odd(w: bv16) { w & 1 == 1 }

  /** A bit added to the register beforehand acts like a bit fed in. */
  lemma RollAbsorbs(a: bv16, r: bv16)
    ensures Roll(Sum(a, r)) == Sum(Shift(a, Odd(r)), Half(r))
  {
    hide Roll, Sum, Half, Odd;
    RollIsShift(Sum(a, r));
    OddSum(a, r);
    FeedbackSum(Half(a), Half(r));
    ShiftByHalf(a, Odd(r));
  }

  lemma ShiftByHalf(a: bv16, bit: bool)
    ensures Shift(a, bit) == if Odd(a) != bit then Sum(Half(a), 0x8408) else Half(a)
  {
  }

  lemma OddSum(a: bv16, r: bv16)
    ensures Odd(Sum(a, r)) == (Odd(a) != Odd(r))
    ensures Half(Sum(a, r)) == Sum(Half(a), Half(r))
  {
    LowBit(a);
    LowBit(r);
    assert (a ^ r) & 1 == (a & 1) ^ (r & 1);
  }

  lemma FeedbackSum(x: bv16, y: bv16)
    ensures Sum(Sum(x, y), 0x8408) == Sum(Sum(x, 0x8408), y)
  {
  }

  lemma LowBit(a: bv16)
    ensures a & 1 == 0 || a & 1 == 1
  {
  }

  lemma RollOdd(a: bv16)
    requires a & 1 == 1
    ensures Roll(a) == (a >> 1) ^ 0x8408
  {
  }

  lemma RollEven(a: bv16)
    requires a & 1 == 0
    ensures Roll(a) == a >> 1
  {
  }

  lemma RollIsShift(a: bv16)
    ensures Roll(a) == if Odd(a) then Sum(Half(a), 0x8408) else Half(a)
  {
    hide Roll;
    LowBit(a);
    if a & 1 == 1 {
      RollOdd(a);
    } else {
      RollEven(a);
    }
  }

  /** Feeding the low `n` bits of `w` one by one is adding `w` first and rolling `n` times. */
  lemma {:induction false} FeedIsRoll(n: nat, a: bv16, w: bv16)
    requires n <= 16
    ensures Rolls(n, Sum(a, w)) == Sum(BitSerial(a, LowBits(n, w)), ShiftRight(n, w))
  {
    hide Roll, Shift, Sum, Half, Odd;
    if n == 0 {
    } else {
      RollAbsorbs(a, w);
      var a' := Shift(a, Odd(w));
      FeedIsRoll(n - 1, a', Half(w));
      BitSerialConcat(a, [Odd(w)], LowBits(n - 1, Half(w)));
      assert BitSerial(a, [Odd(w)]) == a' by {
        assert [Odd(w)][..0] == [];
      }
    }
  }

  function ShiftRight(n: nat, w: bv16): bv16 {
    if n == 0 then w else ShiftRight(n - 1, Half(w))
  }

  lemma ShiftRightFour(n: nat, w: bv16)
    ensures ShiftRight(n + 4, w) == ShiftRight(n, w >> 4)
  {
    assert ShiftRight(n + 4, w) == ShiftRight(n + 3, w >> 1);
    assert ShiftRight(n + 3, w >> 1) == ShiftRight(n + 2, w >> 1 >> 1);
    assert ShiftRight(n + 2, w >> 1 >> 1) == ShiftRight(n + 1, w >> 1 >> 1 >> 1);
    assert w >> 1 >> 1 >> 1 >> 1 == w >> 4;
  }

  lemma ByteShiftedOut(b: bv8)
    ensures ShiftRight(8, b as bv16) == 0
  {
    var w := b as bv16;
    ShiftRightFour(4, w);
    ShiftRightFour(0, w >> 4);
    assert (w >> 4) >> 4 == 0;
  }

  /** Two words agree on the bits of a mask. */
  predicate Agree(mask: bv16, x: bv16, y: bv16) { x & mask == y & mask }

  /** Two words agree when their four nibbles do. */
  lemma ByNibbles(x: bv16, y: bv16)
    requires Agree(0x000F, x, y) && Agree(0x00F0, x, y) && Agree(0x0F00, x, y) && Agree(0xF000, x, y)
    ensures x == y
  {
  }

  function Roll8(a: bv16): bv16 {
    Roll(Roll(Roll(Roll(Roll(Roll(Roll(Roll(a))))))))
  }

  lemma FoldNibble0(a: bv16) ensures Agree(0x000F, Fold(a), Roll8(a)) {}
  lemma FoldNibble1(a: bv16) ensures Agree(0x00F0, Fold(a), Roll8(a)) {}
  lemma FoldNibble2(a: bv16) ensures Agree(0x0F00, Fold(a), Roll8(a)) {}
  lemma FoldNibble3(a: bv16) ensures Agree(0xF000, Fold(a), Roll8(a)) {}

  lemma FoldIsRoll8(a: bv16)
    ensures Fold(a) == Roll8(a)
  {
    hide Fold, Roll8, Agree;
    FoldNibble0(a);
    FoldNibble1(a);
    FoldNibble2(a);
    FoldNibble3(a);
    ByNibbles(Fold(a), Roll8(a));
  }

  lemma RollsFour(n: nat, a: bv16)
    ensures Rolls(n + 4, a) == Rolls(n, Roll(Roll(Roll(Roll(a)))))
  {
    hide Roll;
    assert Rolls(n + 4, a) == Rolls(n + 3, Roll(a));
    assert Rolls(n + 3, Roll(a)) == Rolls(n + 2, Roll(Roll(a)));
    assert Rolls(n + 2, Roll(Roll(a))) == Rolls(n + 1, Roll(Roll(Roll(a))));
  }

  lemma Roll8IsRolls(a: bv16)
    ensures Roll8(a) == Rolls(8, a)
  {
    hide Roll;
    RollsFour(4, a);
    RollsFour(0, Roll(Roll(Roll(Roll(a)))));
  }

  /** The byte update is eight shifts of the register, for every byte and accumulator. */
  lemma Crc16AddIsEightShifts(b: bv8, acc: bv16)
    ensures Crc16Add(b, acc) == BitSerial(acc, LowBits(8, b as bv16))
  {
    hide Fold, Roll8, Shift, Sum, Half, Odd;
    var w := b as bv16;
    FoldIsRoll8(Sum(acc, w));
    Roll8IsRolls(Sum(acc, w));
    FeedIsRoll(8, acc, w);
    ByteShiftedOut(b);
    SumZero(BitSerial(acc, LowBits(8, w)), 0);
  }

  /** The fast checksum is bit-serial division, for every byte string. */
  lemma {:induction false} Crc16IsBitSerial(acc: bv16, data: seq<bv8>)
    ensures Crc16(acc, data) == BitSerial(acc, Bits(data))
  {
    if data == [] {
    } else {
      var init, b := data[..|data| - 1], data[|data| - 1];
      Crc16IsBitSerial(acc, init);
      BitSerialConcat(acc, Bits(init), LowBits(8, b as bv16));
      Crc16AddIsEightShifts(b, Crc16(acc, init));
    }
  }

  // ---------------------------------------------------------------- structure

  /** A checksum may be taken piece by piece. */
  lemma {:induction false} Crc16Concat(acc: bv16, s: seq<bv8>, t: seq<bv8>)
    ensures Crc16(acc, s + t) == Crc16(Crc16(acc, s), t)
  {
    if t == [] {
      assert s + t == s;
    } else {
      assert (s + t)[..|s + t| - 1] == s + t[..|t| - 1];
      Crc16Concat(acc, s, t[..|t| - 1]);
    }
  }

  /** The bits in which `b` and `c` differ. */
  function Diff(b: bv8, c: bv8): bv8 {
    b ^ c
  }

  /** The bits in which two strings differ. */
  function Diffs(s: seq<bv8>, t: seq<bv8>): (r: seq<bv8>)
    requires |s| == |t|
    ensures |r| == |s|
  {
    seq(|s|, i requires 0 <= i < |s| => Diff(s[i], t[i]))
  }

  function Zeros(n: nat): (r: seq<bv8>)
    ensures |r| == n
  {
    seq(n, _ => 0 as bv8)
  }

  lemma FoldLinear0(a: bv16, b: bv16) ensures Fold(a ^ b) & 0x000F == (Fold(a) ^ Fold(b)) & 0x000F {}
  lemma FoldLinear1(a: bv16, b: bv16) ensures Fold(a ^ b) & 0x00F0 == (Fold(a) ^ Fold(b)) & 0x00F0 {}
  lemma FoldLinear2(a: bv16, b: bv16) ensures Fold(a ^ b) & 0x0F00 == (Fold(a) ^ Fold(b)) & 0x0F00 {}
  lemma FoldLinear3(a: bv16, b: bv16) ensures Fold(a ^ b) & 0xF000 == (Fold(a) ^ Fold(b)) & 0xF000 {}

  lemma Agree0(a: bv16, b: bv16)
    ensures Agree(0x000F, Fold(Sum(a, b)), Sum(Fold(a), Fold(b)))
  {
    hide Fold;
    FoldLinear0(a, b);
  }

  lemma Agree1(a: bv16, b: bv16)
    ensures Agree(0x00F0, Fold(Sum(a, b)), Sum(Fold(a), Fold(b)))
  {
    hide Fold;
    FoldLinear1(a, b);
  }

  lemma Agree2(a: bv16, b: bv16)
    ensures Agree(0x0F00, Fold(Sum(a, b)), Sum(Fold(a), Fold(b)))
  {
    hide Fold;
    FoldLinear2(a, b);
  }

  lemma Agree3(a: bv16, b: bv16)
    ensures Agree(0xF000, Fold(Sum(a, b)), Sum(Fold(a), Fold(b)))
  {
    hide Fold;
    FoldLinear3(a, b);
  }

  lemma FoldLinear(a: bv16, b: bv16)
    ensures Fold(Sum(a, b)) == Sum(Fold(a), Fold(b))
  {
    hide Fold, Sum, Agree;
    Agree0(a, b);
    Agree1(a, b);
    Agree2(a, b);
    Agree3(a, b);
    ByNibbles(Fold(Sum(a, b)), Sum(Fold(a), Fold(b)));
  }

  lemma SumsOfFour(b: bv8, c: bv8, x: bv16, y: bv16)
    ensures Sum(Sum(x, y), Diff(b, c) as bv16) == Sum(Sum(x, b as bv16), Sum(y, c as bv16))
  {
  }

  lemma Crc16AddLinear(b: bv8, c: bv8, x: bv16, y: bv16)
    ensures Crc16Add(Diff(b, c), Sum(x, y)) == Sum(Crc16Add(b, x), Crc16Add(c, y))
  {
    hide Fold, Sum, Diff;
    SumsOfFour(b, c, x, y);
    FoldLinear(Sum(x, b as bv16), Sum(y, c as bv16));
  }

  /** The checksum is linear over exclusive or. */
  lemma {:induction false} Crc16Linear(x: bv16, y: bv16, s: seq<bv8>, t: seq<bv8>)
    requires |s| == |t|
    ensures Crc16(Sum(x, y), Diffs(s, t)) == Sum(Crc16(x, s), Crc16(y, t))
  {
    hide Crc16Add, Sum, Diff;
    if s == [] {
    } else {
      var n := |s| - 1;
      assert Diffs(s, t)[..n] == Diffs(s[..n], t[..n]);
      Crc16Linear(x, y, s[..n], t[..n]);
      Crc16AddLinear(s[n], t[n], Crc16(x, s[..n]), Crc16(y, t[..n]));
    }
  }

  /** The accumulator and the data contribute separately. */
  lemma Crc16Split(acc: bv16, s: seq<bv8>)
    ensures Crc16(acc, s) == Sum(Crc16(acc, Zeros(|s|)), Crc16(0, s))
  {
    hide Crc16, Sum;
    assert Diffs(Zeros(|s|), s) == s;
    SumZero(acc, 0);
    Crc16Linear(acc, 0, Zeros(|s|), s);
  }

  /** Strings of one length with equal page checksums are interchangeable in the image checksum. */
  lemma Crc16Interchangeable(acc: bv16, s: seq<bv8>, t: seq<bv8>)
    requires |s| == |t| && Crc16(0, s) == Crc16(0, t)
    ensures Crc16(acc, s) == Crc16(acc, t)
  {
    Crc16Split(acc, s);
    Crc16Split(acc, t);
  }

  // ---------------------------------------------------------------- error detection

  lemma FoldKernel(a: bv16)
    requires Fold(a) == 0
    ensures a == 0
  {
  }

  lemma Crc16AddInjective(b: bv8, x: bv16, y: bv16)
    requires Crc16Add(b, x) == Crc16Add(b, y)
    ensures x == y
  {
    hide Crc16Add, Sum, Diff;
    Crc16AddLinear(b, b, x, y);
    SumZero(Crc16Add(b, x), Crc16Add(b, y));
    DiffZero(b, b);
    StepKernel(Sum(x, y));
    SumZero(x, y);
  }

  lemma StepKernel(a: bv16)
    requires Crc16Add(0, a) == 0
    ensures a == 0
  {
    FoldKernel(a);
  }

  lemma {:induction false} Crc16InjectiveInAcc(x: bv16, y: bv16, s: seq<bv8>)
    requires Crc16(x, s) == Crc16(y, s)
    ensures x == y
  {
    if s == [] {
    } else {
      var n := |s| - 1;
      Crc16AddInjective(s[n], Crc16(x, s[..n]), Crc16(y, s[..n]));
      Crc16InjectiveInAcc(x, y, s[..n]);
    }
  }

  /** The mask of the `k` low bits of a byte. */
  function Low(k: nat): bv8
    requires k < 8
  {
    match k
    case 0 => 0 case 1 => 1 case 2 => 3 case 3 => 7 case 4 => 15 case 5 => 31 case 6 => 63 case _ => 127
  }

  /** `s` and `t` differ only within 16 consecutive transmitted bits, the first of which is bit `k` of byte `at`. */
  ghost predicate Burst16(s: seq<bv8>, t: seq<bv8>, at: nat, k: nat)
    requires |s| == |t| && k < 8
  {
    && (forall i :: 0 <= i < |s| && !(at <= i <= at + 2) ==> s[i] == t[i])
    && (at < |s| ==> Diff(s[at], t[at]) & Low(k) == 0)
    && (at + 2 < |s| ==> Diff(s[at + 2], t[at + 2]) & Low(k) == Diff(s[at + 2], t[at + 2]))
  }

  /** The checksum of a three-byte window vanishes only for the zero window. */
  lemma WindowKernel(e: bv8, f: bv8, g: bv8, k: nat)
    requires k < 8 && e & Low(k) == 0 && g & Low(k) == g
    requires Crc16Add(g, Crc16Add(f, Crc16Add(e, 0))) == 0
    ensures e == 0 && f == 0 && g == 0
  {
    if k == 0 {} else if k == 1 {} else if k == 2 {} else if k == 3 {}
    else if k == 4 {} else if k == 5 {} else if k == 6 {} else {}
  }

  lemma WindowInjective(acc: bv16, b: bv8, c: bv8, d: bv8, b': bv8, c': bv8, d': bv8, k: nat)
    requires k < 8 && Diff(b, b') & Low(k) == 0 && Diff(d, d') & Low(k) == Diff(d, d')
    requires Crc16Add(d, Crc16Add(c, Crc16Add(b, acc))) == Crc16Add(d', Crc16Add(c', Crc16Add(b', acc)))
    ensures b == b' && c == c' && d == d'
  {
    hide Crc16Add, Low, Sum, Diff;
    Crc16AddLinear(b, b', acc, acc);
    Crc16AddLinear(c, c', Crc16Add(b, acc), Crc16Add(b', acc));
    Crc16AddLinear(d, d', Crc16Add(c, Crc16Add(b, acc)), Crc16Add(c', Crc16Add(b', acc)));
    SumZero(acc, acc);
    SumZero(Crc16Add(d, Crc16Add(c, Crc16Add(b, acc))), Crc16Add(d', Crc16Add(c', Crc16Add(b', acc))));
    WindowKernel(Diff(b, b'), Diff(c, c'), Diff(d, d'), k);
    DiffZero(b, b');
    DiffZero(c, c');
    DiffZero(d, d');
  }

  lemma DiffZero(b: bv8, c: bv8)
    ensures Diff(b, c) == 0 <==> b == c
  {
  }

  lemma Crc16Three(acc: bv16, b: bv8, c: bv8, d: bv8)
    ensures Crc16(acc, [b, c, d]) == Crc16Add(d, Crc16Add(c, Crc16Add(b, acc)))
  {
    hide Crc16Add;
    assert [b, c, d][..2] == [b, c];
    assert [b, c][..1] == [b];
    assert [b][..0] == [];
    assert Crc16(acc, [b]) == Crc16Add(b, acc);
    assert Crc16(acc, [b, c]) == Crc16Add(c, Crc16Add(b, acc));
  }

  lemma SameWindow(head: seq<bv8>, tail: seq<bv8>, b: bv8, c: bv8, d: bv8, b': bv8, c': bv8, d': bv8, k: nat)
    requires k < 8 && Diff(b, b') & Low(k) == 0 && Diff(d, d') & Low(k) == Diff(d, d')
    requires Crc16(0, head + [b, c, d] + tail) == Crc16(0, head + [b', c', d'] + tail)
    ensures [b, c, d] == [b', c', d']
  {
    hide Crc16, Crc16Add, Low, Diff;
    var acc, w, w' := Crc16(0, head), [b, c, d], [b', c', d'];
    Crc16Concat(0, head + w, tail);
    Crc16Concat(0, head + w', tail);
    Crc16InjectiveInAcc(Crc16(0, head + w), Crc16(0, head + w'), tail);
    Crc16Concat(0, head, w);
    Crc16Concat(0, head, w');
    Crc16Three(acc, b, c, d);
    Crc16Three(acc, b', c', d');
    WindowInjective(acc, b, c, d, b', c', d', k);
  }

  /** Two zero bytes of padding keep the window inside the string. */
  lemma Window(s: seq<bv8>, at: nat) returns (head: seq<bv8>, tail: seq<bv8>)
    requires at < |s|
    ensures head == s[..at] && tail == if at + 3 <= |s| then s[at + 3..] + [0, 0] else (s + [0, 0])[at + 3..]
    ensures s + [0, 0] == head + [s[at], Padded(s, at + 1), Padded(s, at + 2)] + tail
  {
    head, tail := s[..at], (s + [0, 0])[at + 3..];
  }

  function Padded(s: seq<bv8>, i: nat): bv8 {
    if i < |s| then s[i] else 0
  }

  /** An error burst of at most 16 bits never escapes the checksum, in strings of any length. */
  lemma BurstDetected(s: seq<bv8>, t: seq<bv8>, at: nat, k: nat)
    requires |s| == |t| && k < 8 && Burst16(s, t, at, k)
    ensures Crc16(0, s) == Crc16(0, t) <==> s == t
  {
    hide Crc16, Low, Diff;
    if Crc16(0, s) == Crc16(0, t) && at < |s| {
      Crc16Concat(0, s, [0, 0]);
      Crc16Concat(0, t, [0, 0]);
      var head, tail := Window(s, at);
      var head', tail' := Window(t, at);
      assert head == head';
      assert tail == tail';
      NoDiff(k);
      SameWindow(head, tail, s[at], Padded(s, at + 1), Padded(s, at + 2),
                 t[at], Padded(t, at + 1), Padded(t, at + 2), k);
      assert s + [0, 0] == t + [0, 0];
      assert (s + [0, 0])[..|s|] == s && (t + [0, 0])[..|t|] == t;
    }
  }

  lemma NoDiff(k: nat)
    requires k < 8
    ensures Diff(0, 0) & Low(k) == Diff(0, 0)
  {
  }
}
