/**
 NOR programming as an order-free operation: what a sector holds depends only on which writes reached it.
 */
module Programming {
  import opened Wire
  import opened TargetFlash

  /** A write request together with what the controller does with it. */
  datatype Request = Request(slot: U8, offset: U32, data: seq<bv8>, length: U16, hw: Hardware)

  function WriteAll(f: Flash, requests: seq<Request>): (r: Flash)
    ensures |r.bytes| == |f.bytes|
  {
    if requests == [] then f
    else
      var w := requests[|requests| - 1];
      WriteTarget(WriteAll(f, requests[..|requests| - 1]), w.slot, w.offset, w.data, w.length, w.hw).0
  }

  predicate Has(b: bv8, m: bv8) {
    b & m == m
  }

  /** The bits a request leaves standing in byte `i`. */
  function Spares(w: Request, i: nat): bv8 {
    var at := SlotStart(w.slot) + w.offset;
    if Programs(w.slot, w.offset, w.length) && at <= i < at + |Words(w.data, w.length)|
    then ProgramByte(0xFF, Words(w.data, w.length)[i - at], w.hw.programOk, At(w.hw.programKept, i - at, 0))
    else 0xFF
  }

  function Both(a: bv8, b: bv8): bv8 { a & b }

  lemma ProgramMasks(was: bv8, d: bv8, ok: bool, kept: bv8)
    ensures ProgramByte(was, d, ok, kept) == Both(was, ProgramByte(0xFF, d, ok, kept))
  {
  }

  lemma HasBoth(a: bv8, b: bv8, m: bv8)
    ensures Has(Both(a, b), m) <==> Has(a, m) && Has(b, m)
    ensures Both(a, 0xFF) == a
  {
    if Has(a, m) && Has(b, m) {
      assert (a & b) & m == a & (b & m);
    } else if Has(Both(a, b), m) {
      BothWithin(a, b, m);
    }
  }

  lemma BothWithin(a: bv8, b: bv8, m: bv8)
    requires Has(Both(a, b), m)
    ensures Has(a, m) && Has(b, m)
  {
  }

  lemma WriteMasks(f: Flash, w: Request, i: nat)
    requires i < |f.bytes|
    ensures WriteTarget(f, w.slot, w.offset, w.data, w.length, w.hw).0.bytes[i] == Both(f.bytes[i], Spares(w, i))
  {
    hide ProgramByte, Words, Both;
    HasBoth(f.bytes[i], 0, 0);
    var at := SlotStart(w.slot) + w.offset;
    if Programs(w.slot, w.offset, w.length) && at <= i < at + |Words(w.data, w.length)| {
      ProgramMasks(f.bytes[i], Words(w.data, w.length)[i - at], w.hw.programOk, At(w.hw.programKept, i - at, 0));
    }
  }

  /** A bit stands after the writes exactly when it stood before and every one of them spared it. */
  lemma {:induction false} BitStandsIff(f: Flash, requests: seq<Request>, i: nat, m: bv8)
    requires i < |f.bytes|
    ensures Has(WriteAll(f, requests).bytes[i], m)
      <==> Has(f.bytes[i], m) && forall w :: w in requests ==> Has(Spares(w, i), m)
  {
    hide Has, Spares, Both, WriteTarget;
    if requests == [] {
    } else {
      var n := |requests| - 1;
      var w := requests[n];
      BitStandsIff(f, requests[..n], i, m);
      WriteMasks(WriteAll(f, requests[..n]), w, i);
      HasBoth(WriteAll(f, requests[..n]).bytes[i], Spares(w, i), m);
      assert requests == requests[..n] + [w];
    }
  }

  lemma SameBits(a: bv8, b: bv8)
    requires Has(a, b) && Has(b, a)
    ensures a == b
  {
  }

  lemma HasItself(a: bv8)
    ensures Has(a, a)
  {
  }

  /** Order, repetition and interleaving of writes do not matter: two sequences of the same writes, successful or not,
      leave the same flash. */
  lemma ContentsDependOnSetOfWrites(f: Flash, s: seq<Request>, t: seq<Request>)
    requires forall w :: w in s <==> w in t
    ensures WriteAll(f, s).bytes == WriteAll(f, t).bytes
  {
    hide Has, Spares, WriteAll;
    var x, y := WriteAll(f, s).bytes, WriteAll(f, t).bytes;
    forall i | 0 <= i < |x|
      ensures x[i] == y[i]
    {
      HasItself(x[i]);
      HasItself(y[i]);
      BitStandsIff(f, s, i, x[i]);
      BitStandsIff(f, t, i, x[i]);
      BitStandsIff(f, s, i, y[i]);
      BitStandsIff(f, t, i, y[i]);
      SameBits(x[i], y[i]);
    }
  }
}
