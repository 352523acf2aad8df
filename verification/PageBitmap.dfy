/**
 The 64-bit chunk bitmap of a page, kept in eight bytes, and the set of chunks it stands for.
 */
module PageBitmap {

  /** The mask with bit `k` set. */
  function Bit(k: nat): bv8
    requires k < 8
  {
    1 << k
  }

  predicate Meets(b: bv8, m: bv8) { b & m != 0 }

  function Joined(b: bv8, m: bv8): bv8 { b | m }

  predicate HasBit(b: bv8, k: nat)
    requires k < 8
  {
    Meets(b, Bit(k))
  }

  function WithBit(b: bv8, k: nat): bv8
    requires k < 8
  {
    Joined(b, Bit(k))
  }

  function WithoutBit(b: bv8, k: nat): bv8
    requires k < 8
  {
    b & !Bit(k)
  }

  /** The chunks whose bit is set. */
  function Chunks(bytes: seq<bv8>): set<nat>
    requires |bytes| == 8
  {
    set c: nat | c < 64 && HasBit(bytes[c / 8], c % 8)
  }

  lemma BitTable(k: nat)
    requires k < 8
    ensures Bit(k) == if k == 0 then 1 else if k == 1 then 2 else if k == 2 then 4 else if k == 3 then 8
                      else if k == 4 then 16 else if k == 5 then 32 else if k == 6 then 64 else 128
  {
    if k == 0 {} else if k == 1 {} else if k == 2 {} else if k == 3 {}
    else if k == 4 {} else if k == 5 {} else if k == 6 {} else {}
  }

  lemma BitNonZero(k: nat)
    requires k < 8
    ensures Bit(k) != 0
  {
    hide Bit;
    BitTable(k);
  }

  lemma BitsDisjoint(k: nat, j: nat)
    requires k < 8 && j < 8 && k != j
    ensures Bit(k) & Bit(j) == 0
  {
    hide Bit;
    BitTable(k);
    BitTable(j);
    if k == 0 {} else if k == 1 {} else if k == 2 {} else if k == 3 {}
    else if k == 4 {} else if k == 5 {} else if k == 6 {} else {}
  }

  /** The effect of setting and clearing the bit of one mask on the bit of another. */
  lemma MaskSet(b: bv8, m: bv8, n: bv8)
    requires m != 0 && (n == m || m & n == 0)
    ensures Meets(Joined(b, m), n) <==> n == m || Meets(b, n)
  {
  }

  lemma MaskCleared(b: bv8, m: bv8, n: bv8)
    requires m != 0 && (n == m || m & n == 0)
    ensures b & !m & n != 0 <==> n != m && b & n != 0
  {
  }

  /** Masks of two bits are equal or disjoint. */
  lemma Masks(k: nat, j: nat)
    requires k < 8 && j < 8
    ensures Bit(k) != 0 && (k == j || (Bit(k) & Bit(j) == 0 && Bit(j) != Bit(k)))
  {
    hide Bit;
    BitNonZero(k);
    if k != j {
      BitsDisjoint(k, j);
      DisjointDiffer(Bit(k), Bit(j));
    }
  }

  lemma DisjointDiffer(m: bv8, n: bv8)
    requires m != 0 && m & n == 0
    ensures n != m
  {
  }

  lemma BitSet(b: bv8, k: nat, j: nat)
    requires k < 8 && j < 8
    ensures HasBit(WithBit(b, k), j) <==> j == k || HasBit(b, j)
  {
    hide Bit, Meets, Joined;
    Masks(k, j);
    MaskSet(b, Bit(k), Bit(j));
  }

  lemma BitCleared(b: bv8, k: nat, j: nat)
    requires k < 8 && j < 8
    ensures HasBit(WithoutBit(b, k), j) <==> j != k && HasBit(b, j)
  {
    hide Bit;
    Masks(k, j);
    MaskCleared(b, Bit(k), Bit(j));
  }

  lemma NoBit(j: nat)
    requires j < 8
    ensures !HasBit(0, j)
  {
  }

  lemma SetChunk(bytes: seq<bv8>, c: nat)
    requires |bytes| == 8 && c < 64
    ensures Chunks(bytes[c / 8 := WithBit(bytes[c / 8], c % 8)]) == Chunks(bytes) + {c}
  {
    hide Bit, HasBit, WithBit, WithoutBit;
    forall d: nat | d < 64 {
      BitSet(bytes[c / 8], c % 8, d % 8);
    }
  }

  lemma ClearChunk(bytes: seq<bv8>, c: nat)
    requires |bytes| == 8 && c < 64
    ensures Chunks(bytes[c / 8 := WithoutBit(bytes[c / 8], c % 8)]) == Chunks(bytes) - {c}
  {
    hide Bit, HasBit, WithBit, WithoutBit;
    forall d: nat | d < 64 {
      BitCleared(bytes[c / 8], c % 8, d % 8);
    }
  }

  lemma NoChunks(bytes: seq<bv8>)
    requires |bytes| == 8 && forall i :: 0 <= i < 8 ==> bytes[i] == 0
    ensures Chunks(bytes) == {}
  {
    hide Bit, HasBit, WithBit, WithoutBit;
    forall d: nat | d < 64 ensures d !in Chunks(bytes) {
      NoBit(d % 8);
    }
  }
}
