/**
 The UART sender (`uart_sender.py`): slicing an image into pages of 4096 bytes and chunks of 32 bytes.
 */
module UartSender {
  import opened Wire
  import opened Coordinator
  import opened Assembly
  import opened Pages

  const CHUNK: nat := 32

  /** One DATA command; the offset is absolute in the image. */
  datatype Command = Command(offset: nat, data: seq<bv8>)

  function Relative(cmds: seq<Command>, base: nat): (r: seq<Chunk>)
    ensures |r| == |cmds|
  {
    seq(|cmds|, k requires 0 <= k < |cmds| =>
      Chunk(if cmds[k].offset >= base then cmds[k].offset - base else 0, cmds[k].data))
  }

  /** The chunks cut the first `n` bytes of a page into disjoint, non-empty pieces, all but the last of full size. */
  ghost predicate Cut(chunks: seq<Chunk>, page: seq<bv8>, n: nat) {
    && Carries(chunks, page) && AllInside(chunks, n) && Disjoint(chunks) && Total(chunks) == n <= CHUNK * |chunks|
    && forall k :: 0 <= k < |chunks| ==>
      chunks[k].at == CHUNK * k && 0 < |chunks[k].data| == MinLen(CHUNK, n - CHUNK * k)
  }

  lemma CutMore(chunks: seq<Chunk>, page: seq<bv8>, n: nat, c: Chunk)
    requires Cut(chunks, page, n) && n == CHUNK * |chunks|
    requires c.at == n && 0 < |c.data| <= CHUNK && n + |c.data| <= |page|
    requires c.data == page[n..n + |c.data|]
    ensures Cut(chunks + [c], page, n + |c.data|)
  {
    var more := chunks + [c];
    assert more[..|chunks|] == chunks;
    forall k | 0 <= k < |chunks|
      ensures Cells(chunks[k]) !! Cells(c)
    {
      assert Inside(chunks[k], n);
    }
    DisjointSnoc(more);
  }

  lemma RelativeSnoc(cmds: seq<Command>, c: Command, base: nat)
    requires c.offset >= base
    ensures Relative(cmds + [c], base) == Relative(cmds, base) + [Chunk(c.offset - base, c.data)]
  {
  }

  /** The inner loop: the commands of one page. */
  method PageCommands(image: seq<bv8>, pageOffset: nat) returns (cmds: seq<Command>)
    requires pageOffset < |image|
    ensures var size := MinLen(4096, |image| - pageOffset);
      Cut(Relative(cmds, pageOffset), image[pageOffset..pageOffset + size], size)
    ensures forall i :: 0 <= i < |cmds| ==> cmds[i].offset == pageOffset + CHUNK * i
  {
    hide Cut, Relative;
    var size := MinLen(4096, |image| - pageOffset);
    ghost var page := image[pageOffset..pageOffset + size];
    cmds := [];
    CutNothing(page, pageOffset);
    var i := 0;
    while i < size
      invariant i == CHUNK * |cmds|
      invariant Cut(Relative(cmds, pageOffset), page, MinLen(i, size))
      invariant forall k :: 0 <= k < |cmds| ==> cmds[k].offset == pageOffset + CHUNK * k
    {
      var at := pageOffset + i;
      var data := image[at..at + MinLen(CHUNK, size - i)];
      SubSlice(image, pageOffset, size, i, |data|);
      CutMore(Relative(cmds, pageOffset), page, i, Chunk(i, data));
      RelativeSnoc(cmds, Command(at, data), pageOffset);
      cmds := cmds + [Command(at, data)];
      i := i + CHUNK;
    }
  }

  lemma CutNothing(page: seq<bv8>, base: nat)
    ensures Cut(Relative([], base), page, 0)
  {
  }

  /** The commands cut page `k` of the image. */
  ghost predicate CutsPage(cmds: seq<Command>, image: seq<bv8>, k: nat) {
    var size := MinLen(4096, |image| - 4096 * k);
    && 0 < size && 4096 * k + size <= |image|
    && Cut(Relative(cmds, 4096 * k), image[4096 * k..4096 * k + size], size)
    && forall i :: 0 <= i < |cmds| ==> cmds[i].offset == 4096 * k + CHUNK * i
  }

  /** The outer loop: one list of commands for every page of the image. */
  method ImageCommands(image: seq<bv8>) returns (pages: seq<seq<Command>>)
    ensures |pages| == PageCount(|image|)
    ensures forall k :: 0 <= k < |pages| ==> CutsPage(pages[k], image, k)
  {
    hide Cut;
    pages := [];
    var offset := 0;
    while offset < |image|
      invariant offset == 4096 * |pages| && offset < |image| + 4096
      invariant forall k :: 0 <= k < |pages| ==> CutsPage(pages[k], image, k)
    {
      var cmds := PageCommands(image, offset);
      assert CutsPage(cmds, image, |pages|);
      pages := pages + [cmds];
      offset := offset + 4096;
    }
  }

  // ---------------------------------------------------------------- against the coordinator

  lemma {:induction false} TotalGrows(chunks: seq<Chunk>, k: nat)
    requires k <= |chunks| && forall j :: 0 <= j < |chunks| ==> chunks[j].data != []
    ensures Total(chunks[..k]) <= Total(chunks)
    ensures k < |chunks| ==> Total(chunks[..k]) < Total(chunks)
  {
    if k == |chunks| {
      assert chunks[..k] == chunks;
    } else {
      var init := chunks[..|chunks| - 1];
      TotalGrows(init, k);
      assert init[..k] == chunks[..k];
    }
  }

  /** The commands of a page start its distribution at the last of them and not before, with exactly the page's
      bytes in the buffer. */
  lemma CommandsFillPage(c: Coord, image: seq<bv8>, cmds: seq<Command>)
    requires Collecting(c) && c.received == 0 && c.pageStart + c.expected <= |image|
    requires Cut(Relative(cmds, c.pageStart), image[c.pageStart..c.pageStart + c.expected], c.expected)
    ensures var d := Feed(c, Relative(cmds, c.pageStart));
      && d.inProgress && !d.pc.Idle? && d.pageStart == c.pageStart && d.expected == c.expected
      && d.buffer[..c.expected] == image[c.pageStart..c.pageStart + c.expected]
    ensures forall k :: 0 <= k < |cmds| ==> !Feed(c, Relative(cmds, c.pageStart)[..k]).inProgress
  {
    hide Feed, Filled, Disjoint, Carries, Total;
    var chunks := Relative(cmds, c.pageStart);
    var page := image[c.pageStart..c.pageStart + c.expected];
    forall k | 0 <= k < |chunks|
      ensures Total(chunks[..k]) < c.expected
      ensures !Feed(c, chunks[..k]).inProgress
    {
      TotalGrows(chunks, k);
      PrefixCollects(c, chunks, k);
    }
    assert NotBefore(chunks, c.expected);
    FeedCollects(c, chunks);
    DisjointChunksAssemble(c.buffer, chunks, page);
  }

  lemma PrefixCollects(c: Coord, chunks: seq<Chunk>, k: nat)
    requires Collecting(c) && c.received == 0 && AllInside(chunks, c.expected) && k <= |chunks|
    requires forall j :: 0 <= j < |chunks| ==> chunks[j].data != []
    requires Total(chunks[..k]) < c.expected
    ensures !Feed(c, chunks[..k]).inProgress
  {
    hide Feed, Filled, Total;
    var some := chunks[..k];
    forall j | 0 < j < k
      ensures Total(some[..j]) % 0x1_0000 != c.expected
    {
      TotalGrows(some, j);
    }
    assert AllInside(some, c.expected);
    FeedCollects(c, some);
  }

  // ---------------------------------------------------------------- a repeated command

  /** The chunks of a page with chunk `j` sent twice. */
  function Repeated(chunks: seq<Chunk>, j: nat): (r: seq<Chunk>)
    requires j < |chunks|
    ensures |r| == |chunks| + 1
    ensures forall k :: 0 <= k < |r| ==> r[k] == chunks[if k <= j then k else k - 1]
  {
    chunks[..j + 1] + chunks[j..]
  }

  lemma TotalSnoc(chunks: seq<Chunk>, k: nat)
    requires k < |chunks|
    ensures Total(chunks[..k + 1]) == Total(chunks[..k]) + |chunks[k].data|
  {
    assert chunks[..k + 1][..k] == chunks[..k];
  }

  /** Every chunk but the last counts 32 bytes, so the repeat pushes the count up by one chunk. */
  lemma {:induction false} RepeatedTotal(chunks: seq<Chunk>, page: seq<bv8>, n: nat, j: nat, k: nat)
    requires Cut(chunks, page, n) && j + 1 < |chunks| && k <= |chunks|
    ensures Total(Repeated(chunks, j)[..k]) == CHUNK * k
  {
    hide Cut, Total, Repeated;
    var all := Repeated(chunks, j);
    RepeatedAt(chunks, j);
    if k == 0 {
      assert all[..k] == [];
      EmptyTotal();
    } else {
      RepeatedTotal(chunks, page, n, j, k - 1);
      TotalSnoc(all, k - 1);
      FullChunk(chunks, page, n, if k - 1 <= j then k - 1 else k - 2);
    }
  }

  lemma FullChunk(chunks: seq<Chunk>, page: seq<bv8>, n: nat, i: nat)
    requires Cut(chunks, page, n) && i + 1 < |chunks|
    ensures |chunks[i].data| == CHUNK && chunks[i].at + CHUNK <= CHUNK * (|chunks| - 1) < n
  {
    assert |chunks[|chunks| - 1].data| > 0;
  }

  lemma RepeatedShape(chunks: seq<Chunk>, page: seq<bv8>, n: nat, j: nat, k: nat)
    requires Cut(chunks, page, n) && j + 1 < |chunks| && k <= |chunks| + 1
    ensures var some := Repeated(chunks, j)[..k];
      AllInside(some, n) && forall i :: 0 <= i < |some| ==> some[i].data != []
  {
    var all := Repeated(chunks, j);
    forall i | 0 <= i < k
      ensures Inside(all[i], n) && all[i].data != []
    {
      assert all[i] == chunks[if i <= j then i else i - 1];
      assert Inside(chunks[if i <= j then i else i - 1], n);
    }
  }

  /** No prefix of the repeated list counts up to the page, except all but its last chunk if the page is a whole number
      of chunks. */
  lemma RepeatedCounts(chunks: seq<Chunk>, page: seq<bv8>, n: nat, j: nat, k: nat)
    requires Cut(chunks, page, n) && n <= 4096 && j + 1 < |chunks| && 0 < k <= |chunks| + 1
    ensures Count16(Total(Repeated(chunks, j)[..k])) == n <==> k == |chunks| && n == CHUNK * |chunks|
  {
    hide Cut, Total, Repeated, Count16;
    var all, m := Repeated(chunks, j), |chunks|;
    RepeatedAt(chunks, j);
    LastChunk(chunks, page, n);
    if k <= m {
      RepeatedTotal(chunks, page, n, j, k);
      SmallCount(CHUNK * k);
    } else {
      RepeatedTotal(chunks, page, n, j, m);
      TotalSnoc(all, m);
      SmallCount(CHUNK * m + |chunks[m - 1].data|);
    }
  }

  lemma RepeatedAt(chunks: seq<Chunk>, j: nat)
    requires j < |chunks|
    ensures var r := Repeated(chunks, j);
      |r| == |chunks| + 1 && forall k :: 0 <= k < |r| ==> r[k] == chunks[if k <= j then k else k - 1]
  {
  }

  lemma LastChunk(chunks: seq<Chunk>, page: seq<bv8>, n: nat)
    requires Cut(chunks, page, n) && chunks != []
    ensures n == CHUNK * (|chunks| - 1) + |chunks[|chunks| - 1].data| && 0 < |chunks[|chunks| - 1].data| <= CHUNK
  {
  }

  lemma SmallCount(n: nat)
    requires n < 0x1_0000
    ensures Count16(n) == n
  {
  }

  lemma RepeatedFeed(c: Coord, chunks: seq<Chunk>, page: seq<bv8>, j: nat, k: nat)
    requires Collecting(c) && c.received == 0 && Cut(chunks, page, c.expected) && j + 1 < |chunks|
    requires k <= |chunks| + 1 && (k <= |chunks| || c.expected != CHUNK * |chunks|)
    ensures var some := Repeated(chunks, j)[..k];
      && AllInside(some, |c.buffer|) && Feed(c, some).buffer == Filled(c.buffer, some)
      && (Feed(c, some).inProgress <==> k == |chunks| && c.expected == CHUNK * |chunks|)
  {
    hide Cut, Feed, Filled, Total, Repeated;
    ExpectedFits(c);
    var all := Repeated(chunks, j);
    var some := all[..k];
    RepeatedShape(chunks, page, c.expected, j, k);
    forall i | 0 < i < k
      ensures Total(some[..i]) % 0x1_0000 != c.expected
    {
      assert some[..i] == all[..i];
      RepeatedCounts(chunks, page, c.expected, j, i);
    }
    FeedCollects(c, some);
    if k == 0 {
      assert some == [];
      FullChunk(chunks, page, c.expected, j);
      EmptyTotal();
    } else {
      RepeatedCounts(chunks, page, c.expected, j, k);
    }
  }

  lemma EmptyTotal()
    ensures Total([]) == 0
  {
  }

  lemma ExpectedFits(c: Coord)
    requires Collecting(c)
    ensures 0 < c.expected <= 4096 == |c.buffer|
  {
  }

  /** One command that the coordinator buffers twice, as the sender makes it do after a lost acknowledgement. If the
      page is a whole number of chunks, as every full page is, its distribution starts before the last chunk has come,
      whose bytes are those the buffer held before. Otherwise the count overshoots and the distribution never starts.
      The last command cannot be buffered twice: it has started the distribution. */
  lemma RepeatedCommandIff(c: Coord, image: seq<bv8>, cmds: seq<Command>, j: nat)
    requires Collecting(c) && c.received == 0 && c.pageStart + c.expected <= |image| && j + 1 < |cmds|
    requires Cut(Relative(cmds, c.pageStart), image[c.pageStart..c.pageStart + c.expected], c.expected)
    ensures var sent := Repeated(Relative(cmds, c.pageStart), j);
      && ((exists k :: 0 <= k <= |cmds| + 1 && Feed(c, sent[..k]).inProgress) <==> c.expected == CHUNK * |cmds|)
      && (c.expected == CHUNK * |cmds| ==>
        && !Feed(c, sent[..|cmds| - 1]).inProgress && Feed(c, sent[..|cmds|]).inProgress
        && forall i :: c.expected - CHUNK <= i < c.expected ==> Feed(c, sent[..|cmds|]).buffer[i] == c.buffer[i])
  {
    hide Cut, Feed, Filled, Repeated, Relative;
    var chunks, page := Relative(cmds, c.pageStart), image[c.pageStart..c.pageStart + c.expected];
    var sent, m := Repeated(chunks, j), |cmds|;
    RelativeSize(cmds, c.pageStart);
    if c.expected == CHUNK * m {
      RepeatedFeed(c, chunks, page, j, m - 1);
      RepeatedFeed(c, chunks, page, j, m);
      forall i | c.expected - CHUNK <= i < c.expected
        ensures Feed(c, sent[..m]).buffer[i] == c.buffer[i]
      {
        LastChunkUnwritten(chunks, page, c.expected, j, i);
        ExpectedFits(c);
        UnwrittenKept(c.buffer, sent[..m], i);
      }
    } else {
      forall k | 0 <= k <= m + 1
        ensures !Feed(c, sent[..k]).inProgress
      {
        RepeatedFeed(c, chunks, page, j, k);
      }
    }
  }

  lemma RelativeSize(cmds: seq<Command>, base: nat)
    ensures |Relative(cmds, base)| == |cmds|
  {
  }

  lemma LastChunkUnwritten(chunks: seq<Chunk>, page: seq<bv8>, n: nat, j: nat, i: nat)
    requires Cut(chunks, page, n) && n == CHUNK * |chunks| && j + 1 < |chunks| && n - CHUNK <= i
    ensures i !in Written(Repeated(chunks, j)[..|chunks|])
  {
    hide Cut, Written;
    var all := Repeated(chunks, j);
    var some := all[..|chunks|];
    if i in Written(some) {
      var k := WrittenFrom(some, i);
      assert some[k] == all[k] == chunks[if k <= j then k else k - 1];
      FullChunk(chunks, page, n, if k <= j then k else k - 1);
    }
  }
}
