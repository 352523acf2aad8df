/**
 Page assembly from UART chunks: when does a full byte count mean a full page?
 */
module Assembly {
  import opened Wire
  import opened Coordinator

  /** A buffered chunk, at an offset relative to its page. */
  datatype Chunk = Chunk(at: nat, data: seq<bv8>)

  predicate Inside(c: Chunk, n: nat) {
    c.at + |c.data| <= n
  }

  function Range(a: nat, b: nat): (r: set<nat>)
    ensures forall i: nat :: i in r <==> a <= i < b
  {
    if a >= b then {} else Range(a, b - 1) + {b - 1}
  }

  function Cells(c: Chunk): set<nat> {
    Range(c.at, c.at + |c.data|)
  }

  /** The page bytes some chunk has written. */
  function Written(chunks: seq<Chunk>): set<nat> {
    if chunks == [] then {} else Written(chunks[..|chunks| - 1]) + Cells(chunks[|chunks| - 1])
  }

  /** The byte count the chunks add up to. */
  function Total(chunks: seq<Chunk>): nat {
    if chunks == [] then 0 else Total(chunks[..|chunks| - 1]) + |chunks[|chunks| - 1].data|
  }

  ghost predicate Disjoint(chunks: seq<Chunk>) {
    forall i, j :: 0 <= i < j < |chunks| ==> Cells(chunks[i]) !! Cells(chunks[j])
  }

  ghost predicate AllInside(chunks: seq<Chunk>, n: nat) {
    forall i :: 0 <= i < |chunks| ==> Inside(chunks[i], n)
  }

  // ---------------------------------------------------------------- counting

  lemma {:induction false} RangeSize(a: nat, b: nat)
    requires a <= b
    ensures |Range(a, b)| == b - a
  {
    if a < b {
      RangeSize(a, b - 1);
      assert Range(a, b) == Range(a, b - 1) + {b - 1};
    } else {
      assert Range(a, b) == {};
    }
  }

  lemma {:induction false} WrittenInside(chunks: seq<Chunk>, n: nat)
    requires AllInside(chunks, n)
    ensures Written(chunks) <= Range(0, n)
  {
    if chunks == [] {
    } else {
      WrittenInside(chunks[..|chunks| - 1], n);
      assert Inside(chunks[|chunks| - 1], n);
    }
  }

  lemma {:induction false} WrittenBy(chunks: seq<Chunk>, k: nat)
    requires k < |chunks|
    ensures Cells(chunks[k]) <= Written(chunks)
  {
    if k < |chunks| - 1 {
      WrittenBy(chunks[..|chunks| - 1], k);
    }
  }

  lemma {:induction false} WrittenFrom(chunks: seq<Chunk>, i: nat) returns (k: nat)
    requires i in Written(chunks)
    ensures k < |chunks| && i in Cells(chunks[k])
  {
    if i in Written(chunks[..|chunks| - 1]) {
      k := WrittenFrom(chunks[..|chunks| - 1], i);
    } else {
      k := |chunks| - 1;
    }
  }

  lemma UnionSize(a: set<nat>, b: set<nat>)
    ensures |a + b| <= |a| + |b|
    ensures |a + b| == |a| + |b| <==> a !! b
  {
    assert |a + b| == |a| + |b| - |a * b|;
  }

  /** A chunk overlaps nothing written so far exactly when it overlaps no single chunk. */
  lemma {:induction false} WrittenDisjoint(chunks: seq<Chunk>, c: Chunk)
    ensures Written(chunks) !! Cells(c) <==> forall k :: 0 <= k < |chunks| ==> Cells(chunks[k]) !! Cells(c)
  {
    if chunks == [] {
    } else {
      var init := chunks[..|chunks| - 1];
      WrittenDisjoint(init, c);
      assert forall k :: 0 <= k < |init| ==> init[k] == chunks[k];
    }
  }

  lemma CellCount(c: Chunk)
    ensures |Cells(c)| == |c.data|
  {
    RangeSize(c.at, c.at + |c.data|);
  }

  /** Never more bytes written than counted, and as many exactly when no two chunks overlap. */
  lemma {:induction false} WrittenSize(chunks: seq<Chunk>)
    ensures |Written(chunks)| <= Total(chunks)
    ensures |Written(chunks)| == Total(chunks) <==> Disjoint(chunks)
  {
    if chunks == [] {
    } else {
      hide Cells, Range, Disjoint;
      var init, c := chunks[..|chunks| - 1], chunks[|chunks| - 1];
      WrittenSize(init);
      UnionSize(Written(init), Cells(c));
      CellCount(c);
      WrittenDisjoint(init, c);
      DisjointSnoc(chunks);
    }
  }

  lemma DisjointSnoc(chunks: seq<Chunk>)
    requires chunks != []
    ensures var init, c := chunks[..|chunks| - 1], chunks[|chunks| - 1];
      Disjoint(chunks) <==> Disjoint(init) && forall k :: 0 <= k < |init| ==> Cells(init[k]) !! Cells(c)
  {
    hide Cells;
    var init := chunks[..|chunks| - 1];
    assert forall k :: 0 <= k < |init| ==> init[k] == chunks[k];
  }

  lemma FullSubset(s: set<nat>, n: nat)
    requires s <= Range(0, n)
    ensures |s| <= n
    ensures |s| == n <==> s == Range(0, n)
  {
    RangeSize(0, n);
    var rest := Range(0, n) - s;
    assert Range(0, n) == s + rest && s !! rest;
    if |s| == n {
      assert |rest| == 0;
    }
  }

  /** When the byte count of chunks inside the page equals the page size, the chunks cover the page exactly when
      they are pairwise disjoint. */
  lemma CoveredIffDisjoint(chunks: seq<Chunk>, n: nat)
    requires AllInside(chunks, n) && Total(chunks) == n
    ensures Written(chunks) == Range(0, n) <==> Disjoint(chunks)
  {
    WrittenInside(chunks, n);
    WrittenSize(chunks);
    FullSubset(Written(chunks), n);
  }

  /** Disjoint chunks never overrun the page, so the 16-bit count does not wrap. */
  lemma DisjointFits(chunks: seq<Chunk>, n: nat)
    requires AllInside(chunks, n) && Disjoint(chunks)
    ensures Total(chunks) <= n
  {
    WrittenInside(chunks, n);
    WrittenSize(chunks);
    FullSubset(Written(chunks), n);
  }

  // ---------------------------------------------------------------- the page buffer

  /** The buffer after the chunks have been copied in, in order. */
  function Filled(buffer: seq<bv8>, chunks: seq<Chunk>): (r: seq<bv8>)
    requires AllInside(chunks, |buffer|)
    ensures |r| == |buffer|
  {
    if chunks == [] then buffer
    else
      var c := chunks[|chunks| - 1];
      assert Inside(c, |buffer|);
      Overwrite(Filled(buffer, chunks[..|chunks| - 1]), c.at, c.data)
  }

  /** Every chunk carries the bytes of `page` at its place. */
  ghost predicate Carries(chunks: seq<Chunk>, page: seq<bv8>) {
    forall k :: 0 <= k < |chunks| ==>
      Inside(chunks[k], |page|) && chunks[k].data == page[chunks[k].at..chunks[k].at + |chunks[k].data|]
  }

  lemma OverwriteAt(buffer: seq<bv8>, at: nat, data: seq<bv8>, i: nat)
    requires at + |data| <= |buffer| && i < |buffer|
    ensures Overwrite(buffer, at, data)[i] == if at <= i < at + |data| then data[i - at] else buffer[i]
  {
  }

  /** A written byte of the buffer is the byte of the page. */
  lemma {:induction false} FilledAt(buffer: seq<bv8>, chunks: seq<Chunk>, page: seq<bv8>, i: nat)
    requires AllInside(chunks, |buffer|) && Carries(chunks, page) && |page| <= |buffer| && i in Written(chunks)
    ensures i < |page| && Filled(buffer, chunks)[i] == page[i]
  {
    var init, c := chunks[..|chunks| - 1], chunks[|chunks| - 1];
    assert Inside(c, |page|);
    var before := Filled(buffer, init);
    if i in Cells(c) {
      OverwriteAt(before, c.at, c.data, i);
    } else {
      FilledAt(buffer, init, page, i);
      OverwriteAt(before, c.at, c.data, i);
    }
  }

  lemma CarriesMore(chunks: seq<Chunk>, c: Chunk, page: seq<bv8>)
    requires Carries(chunks, page) && Inside(c, |page|) && c.data == page[c.at..c.at + |c.data|]
    ensures Carries(chunks + [c], page)
  {
  }

  /** Disjoint chunks that carry a page and count up to its size put the whole page into the buffer. */
  lemma DisjointChunksAssemble(buffer: seq<bv8>, chunks: seq<Chunk>, page: seq<bv8>)
    requires AllInside(chunks, |buffer|) && Carries(chunks, page) && |page| <= |buffer|
    requires Total(chunks) == |page| && Disjoint(chunks)
    ensures Filled(buffer, chunks)[..|page|] == page
  {
    assert AllInside(chunks, |page|);
    CoveredIffDisjoint(chunks, |page|);
    forall i | 0 <= i < |page|
      ensures Filled(buffer, chunks)[i] == page[i]
    {
      assert i in Range(0, |page|);
      FilledAt(buffer, chunks, page, i);
    }
  }

  /** A byte no chunk has written keeps what the buffer held before. */
  lemma {:induction false} UnwrittenKept(buffer: seq<bv8>, chunks: seq<Chunk>, i: nat)
    requires AllInside(chunks, |buffer|) && i < |buffer| && i !in Written(chunks)
    ensures Filled(buffer, chunks)[i] == buffer[i]
  {
    if chunks == [] {
    } else {
      var init, c := chunks[..|chunks| - 1], chunks[|chunks| - 1];
      UnwrittenKept(buffer, init, i);
      OverwriteAt(Filled(buffer, init), c.at, c.data, i);
    }
  }

  // ---------------------------------------------------------------- the coordinator

  /** The coordinator waits for the chunks of a page. */
  predicate Collecting(c: Coord) {
    WellFormed(c) && !c.admitting && c.nodes != [] && !c.inProgress && c.pc.Idle? && c.expected > 0
  }

  /** Feeds chunks of the current page until the distribution starts. */
  function Feed(c: Coord, chunks: seq<Chunk>): (d: Coord)
    requires WellFormed(c)
    ensures WellFormed(d)
  {
    if chunks == [] then c
    else
      var d := Feed(c, chunks[..|chunks| - 1]);
      var k := chunks[|chunks| - 1];
      if c.pageStart + k.at >= 0x1_0000_0000 then d
      else UartDataWellFormed(d, c.pageStart + k.at, k.data); OnUartData(d, c.pageStart + k.at, k.data).c
  }

  /** No proper prefix of the chunks makes the 16-bit count meet the page size. */
  ghost predicate NotBefore(chunks: seq<Chunk>, n: nat) {
    forall k :: 0 < k < |chunks| ==> Total(chunks[..k]) % 0x1_0000 != n
  }

  /** The 16-bit byte counter. */
  function Count16(n: nat): U16 {
    n % 0x1_0000
  }

  lemma AddMod(a: nat, b: nat)
    ensures Count16(Count16(a) + b) == Count16(a + b)
  {
  }

  lemma BeginStarts(c: Coord)
    requires WellFormed(c) && c.nodes != []
    ensures var d := Begin(c).c;
      !d.pc.Idle? && d == c.(pc := d.pc, total := d.total, pageCrc := d.pageCrc, bitmaps := d.bitmaps)
  {
  }

  /** One chunk, while no distribution is running. */
  lemma FeedOne(d: Coord, at: nat, data: seq<bv8>)
    requires Collecting(d) && at + |data| <= d.expected && data != []
    ensures d.pageStart + at < 0x1_0000_0000
    ensures var e := OnUartData(d, d.pageStart + at, data).c;
      && e.buffer == Overwrite(d.buffer, at, data) && e.received == Count16(d.received + |data|)
      && e.pageStart == d.pageStart && e.expected == d.expected && e.nodes == d.nodes && !e.admitting
      && (e.inProgress <==> e.received == e.expected) && (e.pc.Idle? <==> !e.inProgress)
  {
    hide Begin, Overwrite;
    assert Buffers(d, d.pageStart + at, data);
    var received := (d.received + |data|) % 0x1_0000;
    BeginStarts(d.(buffer := Overwrite(d.buffer, at, data), received := received, inProgress := true));
  }

  lemma NotBeforePrefix(chunks: seq<Chunk>, n: nat)
    requires chunks != [] && NotBefore(chunks, n)
    ensures var init := chunks[..|chunks| - 1];
      NotBefore(init, n) && (init != [] ==> Total(init) % 0x1_0000 != n)
  {
    var init := chunks[..|chunks| - 1];
    forall j | 0 < j < |init|
      ensures Total(init[..j]) % 0x1_0000 != n
    {
      assert init[..j] == chunks[..j];
    }
  }

  /** The coordinator after it has buffered the chunks of a page. */
  ghost predicate Fed(c: Coord, chunks: seq<Chunk>, d: Coord)
    requires AllInside(chunks, |c.buffer|)
  {
    && WellFormed(d) && d.buffer == Filled(c.buffer, chunks) && d.received == Count16(Total(chunks))
    && d.pageStart == c.pageStart && d.expected == c.expected && d.nodes == c.nodes && !d.admitting
    && (d.inProgress <==> Count16(Total(chunks)) == c.expected)
    && (d.pc.Idle? <==> !d.inProgress)
  }

  lemma {:induction false} FeedCollects(c: Coord, chunks: seq<Chunk>)
    requires Collecting(c) && c.received == 0 && AllInside(chunks, c.expected) && NotBefore(chunks, c.expected)
    requires forall k :: 0 <= k < |chunks| ==> chunks[k].data != []
    ensures AllInside(chunks, |c.buffer|) && Fed(c, chunks, Feed(c, chunks))
  {
    assert AllInside(chunks, |c.buffer|);
    if chunks == [] {
    } else {
      hide OnUartData, Overwrite, NotBefore, Fed;
      NotBeforePrefix(chunks, c.expected);
      FeedCollects(c, chunks[..|chunks| - 1]);
      FedSnoc(c, chunks);
    }
  }

  lemma InsideMore(chunks: seq<Chunk>, m: nat, n: nat)
    requires AllInside(chunks, m) && m <= n
    ensures AllInside(chunks, n)
  {
  }

  lemma FedCollecting(c: Coord, chunks: seq<Chunk>, d: Coord)
    requires Collecting(c) && AllInside(chunks, |c.buffer|) && Fed(c, chunks, d)
    requires if chunks == [] then d == c else Count16(Total(chunks)) != c.expected
    ensures WellFormed(c) && Collecting(d) && d.expected == c.expected && d.pageStart == c.pageStart
    ensures c.expected <= |c.buffer| == |d.buffer|
  {
  }

  lemma FedSnoc(c: Coord, chunks: seq<Chunk>)
    requires chunks != [] && Collecting(c) && AllInside(chunks, c.expected) && chunks[|chunks| - 1].data != []
    requires var init := chunks[..|chunks| - 1];
      && AllInside(init, |c.buffer|) && Fed(c, init, Feed(c, init))
      && (init != [] ==> Count16(Total(init)) != c.expected) && (init == [] ==> Feed(c, init) == c)
    ensures AllInside(chunks, |c.buffer|) && Fed(c, chunks, Feed(c, chunks))
  {
    hide OnUartData, Overwrite, Filled, Total, Count16, Feed, Fed, WellFormed;
    var init, k := chunks[..|chunks| - 1], chunks[|chunks| - 1];
    var d := Feed(c, init);
    assert Inside(k, c.expected);
    FedCollecting(c, init, d);
    FeedOne(d, k.at, k.data);
    InsideMore(chunks, c.expected, |c.buffer|);
    SnocParts(c, chunks);
    FedNext(c, chunks, d, Feed(c, chunks));
  }

  lemma FedNext(c: Coord, chunks: seq<Chunk>, d: Coord, e: Coord)
    requires chunks != [] && AllInside(chunks, |c.buffer|) && AllInside(chunks[..|chunks| - 1], |c.buffer|)
    requires Fed(c, chunks[..|chunks| - 1], d) && WellFormed(e)
    requires var k := chunks[|chunks| - 1];
      && k.at + |k.data| <= |d.buffer| && e.buffer == Overwrite(d.buffer, k.at, k.data)
      && e.received == Count16(d.received + |k.data|)
      && e.pageStart == d.pageStart && e.expected == d.expected && e.nodes == d.nodes && !e.admitting
      && (e.inProgress <==> e.received == e.expected) && (e.pc.Idle? <==> !e.inProgress)
    ensures Fed(c, chunks, e)
  {
    hide Overwrite, Count16;
    AddMod(Total(chunks[..|chunks| - 1]), |chunks[|chunks| - 1].data|);
  }

  /** How the folds over the chunks unfold. */
  lemma SnocParts(c: Coord, chunks: seq<Chunk>)
    requires WellFormed(c)
    requires chunks != [] && AllInside(chunks, |c.buffer|) && AllInside(chunks[..|chunks| - 1], |c.buffer|)
    ensures var init, k := chunks[..|chunks| - 1], chunks[|chunks| - 1];
      && k.at + |k.data| <= |c.buffer|
      && Filled(c.buffer, chunks) == Overwrite(Filled(c.buffer, init), k.at, k.data)
      && Total(chunks) == Total(init) + |k.data|
      && (c.pageStart + k.at < 0x1_0000_0000 ==>
        Feed(c, chunks) == OnUartData(Feed(c, init), c.pageStart + k.at, k.data).c)
  {
    hide OnUartData, Overwrite;
    assert Inside(chunks[|chunks| - 1], |c.buffer|);
  }

  /** When distribution starts on fewer than 65536 received bytes, every byte of the page has been received exactly
      when the chunks were pairwise disjoint. */
  lemma StartsCompleteIffDisjoint(c: Coord, chunks: seq<Chunk>)
    requires Collecting(c) && c.received == 0 && AllInside(chunks, c.expected) && NotBefore(chunks, c.expected)
    requires forall k :: 0 <= k < |chunks| ==> chunks[k].data != []
    requires Feed(c, chunks).inProgress && Total(chunks) < 0x1_0000
    ensures Written(chunks) == Range(0, c.expected) <==> Disjoint(chunks)
  {
    hide Feed, NotBefore, Written, Disjoint;
    FeedCollects(c, chunks);
    CoveredIffDisjoint(chunks, c.expected);
  }

  /** So one chunk that was buffered twice, as the sender does after a lost FW:ACK, makes the distribution start with
      a byte of the page missing: it still holds whatever the buffer held before. */
  lemma ResentChunkLeavesGap(c: Coord, chunks: seq<Chunk>, i: nat, j: nat) returns (gap: nat)
    requires Collecting(c) && c.received == 0 && AllInside(chunks, c.expected) && NotBefore(chunks, c.expected)
    requires forall k :: 0 <= k < |chunks| ==> chunks[k].data != []
    requires Feed(c, chunks).inProgress && Total(chunks) < 0x1_0000
    requires i < j < |chunks| && chunks[i] == chunks[j]
    ensures gap < c.expected && Feed(c, chunks).buffer[gap] == c.buffer[gap]
    ensures forall k :: 0 <= k < |chunks| ==> gap !in Cells(chunks[k])
  {
    StartsCompleteIffDisjoint(c, chunks);
    FeedCollects(c, chunks);
    assert chunks[i].at in Cells(chunks[i]) && chunks[i].at in Cells(chunks[j]);
    assert !Disjoint(chunks);
    WrittenInside(chunks, c.expected);
    gap :| gap in Range(0, c.expected) && gap !in Written(chunks);
    UnwrittenKept(c.buffer, chunks, gap);
    forall k | 0 <= k < |chunks|
      ensures gap !in Cells(chunks[k])
    {
      WrittenBy(chunks, k);
    }
  }
}
