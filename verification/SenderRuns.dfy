/**
 The sender's own commands keep the order that a delivered image needs, as long as none of them is buffered twice.
 */
module SenderRuns {
  import opened Wire
  import opened Checksum16
  import opened Sensor
  import opened Coordinator
  import opened Assembly
  import opened UartSender
  import opened EndToEnd
  import opened SessionInvariant
  import opened EndToEndSafety
  import opened ImageRuns

  /** A command of some page. */
  predicate IsCommand(pages: seq<seq<Command>>, offset: nat, data: seq<bv8>) {
    exists k, i :: 0 <= k < |pages| && 0 <= i < |pages[k]| && pages[k][i] == Command(offset, data)
  }

  /** What is buffered are commands of the sender, none of them twice for the same page. */
  ghost predicate SenderFeeds(w: World, actions: seq<Action>, pages: seq<seq<Command>>)
    requires Exec(w, actions).Some?
  {
    actions != [] ==>
      var init, a := actions[..|actions| - 1], actions[|actions| - 1];
      var u := Exec(w, init).value;
      && SenderFeeds(w, init, pages)
      && (Buffering(u, a) ==>
        && IsCommand(pages, a.input.offset, a.input.data)
        && forall k :: 0 <= k < |Log(w, init)| ==> Log(w, init)[k].at != ChunkOf(u, a).at)
  }

  lemma CommandAt(cmds: seq<Command>, image: seq<bv8>, k: nat, i: nat)
    requires CutsPage(cmds, image, k) && i < |cmds|
    ensures var size := MinLen(4096, |image| - 4096 * k);
      && 4096 * k + size <= |image| && cmds[i].offset == 4096 * k + CHUNK * i
      && 0 < |cmds[i].data| <= CHUNK && CHUNK * i + |cmds[i].data| <= size
      && cmds[i].data == image[4096 * k..4096 * k + size][CHUNK * i..CHUNK * i + |cmds[i].data|]
  {
    hide Disjoint, Total;
    var c := Relative(cmds, 4096 * k)[i];
    assert c == Chunk(CHUNK * i, cmds[i].data);
    assert Inside(c, MinLen(4096, |image| - 4096 * k));
  }

  /** A command carries its bytes of the image, on the 32-byte grid. */
  lemma CommandOfImage(pages: seq<seq<Command>>, image: seq<bv8>, offset: nat, data: seq<bv8>)
    requires IsCommand(pages, offset, data) && forall k :: 0 <= k < |pages| ==> CutsPage(pages[k], image, k)
    ensures offset % CHUNK == 0 && 0 < |data| <= CHUNK
    ensures offset + |data| <= |image| && data == image[offset..offset + |data|]
  {
    hide CutsPage, MinLen;
    var k, i :| 0 <= k < |pages| && 0 <= i < |pages[k]| && pages[k][i] == Command(offset, data);
    assert CutsPage(pages[k], image, k);
    CommandAt(pages[k], image, k, i);
    SubSlice(image, 4096 * k, MinLen(4096, |image| - 4096 * k), CHUNK * i, |data|);
    GridOffset(128 * k + i);
    assert offset == CHUNK * (128 * k + i);
  }

  lemma GridOffset(m: nat)
    ensures (CHUNK * m) % CHUNK == 0
  {
  }

  /** A chunk on the grid of its page. */
  predicate OnGrid(c: Chunk) {
    c.at % CHUNK == 0 && 0 < |c.data| <= CHUNK
  }

  lemma GridDisjoint(c: Chunk, d: Chunk)
    requires OnGrid(c) && OnGrid(d) && c.at != d.at
    ensures Cells(c) !! Cells(d)
  {
    var i, j := c.at / CHUNK, d.at / CHUNK;
    assert c.at == CHUNK * i && d.at == CHUNK * j;
    if i < j {
      assert c.at + |c.data| <= d.at;
    } else {
      assert d.at + |d.data| <= c.at;
    }
  }

  lemma GridMore(log: seq<Chunk>, c: Chunk)
    requires Disjoint(log) && OnGrid(c) && forall k :: 0 <= k < |log| ==> OnGrid(log[k]) && log[k].at != c.at
    ensures Disjoint(log + [c])
  {
    hide Cells, OnGrid;
    forall k | 0 <= k < |log|
      ensures Cells(log[k]) !! Cells(c)
    {
      GridDisjoint(log[k], c);
    }
    assert (log + [c])[..|log|] == log;
    DisjointSnoc(log + [c]);
  }

  /** A page that takes a chunk begins on a page boundary of the file. */
  lemma BufferingPage(u: World, s: Session, a: Action)
    requires Inv(u, s) && Buffering(u, a)
    ensures WellFormed(u.c) && u.c.pageStart % 4096 == 0
  {
    hide NetInv, AdmissionInv, ExitsTrue, InSession;
  }

  lemma ChunkOnGrid(u: World, s: Session, a: Action)
    requires Inv(u, s) && Buffering(u, a) && a.input.offset % CHUNK == 0 && 0 < |a.input.data| <= CHUNK
    ensures OnGrid(ChunkOf(u, a))
  {
    hide Inv;
    BufferingPage(u, s, a);
    var q, t := u.c.pageStart / 4096, a.input.offset / CHUNK;
    assert u.c.pageStart == 4096 * q && a.input.offset == CHUNK * t;
    GridOffset(t - 128 * q);
  }

  ghost predicate GridLog(log: seq<Chunk>) {
    Disjoint(log) && forall k :: 0 <= k < |log| ==> OnGrid(log[k])
  }

  lemma {:induction false} SenderIsOrderly(
    w: World, s: Session, actions: seq<Action>, image: seq<bv8>, pages: seq<seq<Command>>)
    requires Begins(w, s) && Exec(w, actions).Some? && SenderFeeds(w, actions, pages)
    requires forall k :: 0 <= k < |pages| ==> CutsPage(pages[k], image, k)
    ensures Orderly(w, actions, image) && GridLog(Log(w, actions))
  {
    hide Begins, Inv, Apply, Sane, Enabled, Buffers, Disjoint, OnGrid, CutsPage, IsCommand;
    if actions == [] {
      NoLog();
    } else {
      var init, a := actions[..|actions| - 1], actions[|actions| - 1];
      var u := Exec(w, init).value;
      SenderIsOrderly(w, s, init, image, pages);
      if Buffering(u, a) {
        InvAlways(w, s, init);
        CommandOfImage(pages, image, a.input.offset, a.input.data);
        ChunkOnGrid(u, s, a);
        GridMore(Log(w, init), ChunkOf(u, a));
      }
      NoLog();
    }
  }

  lemma NoLog()
    ensures GridLog([])
  {
  }

  /** From the sender's loops to remote flash: whatever the network and the hardware do, when a transfer of the commands
      for an image completes, with none of them buffered twice, every node still in the session holds the image and
      verifies it. */
  lemma SenderDelivers(w: World, s: Session, actions: seq<Action>, image: seq<bv8>, pages: seq<seq<Command>>)
    requires Begins(w, s) && |image| == s.size && Exec(w, actions).Some? && SenderFeeds(w, actions, pages)
    requires forall k :: 0 <= k < |pages| ==> CutsPage(pages[k], image, k)
    requires TransferComplete(Exec(w, actions).value, s)
    ensures var v := Exec(w, actions).value;
      forall id :: id in v.c.nodes ==>
        && HasImage(v, s, id)
        && SlotBytes(v.peers[id].node, 0, s.size) == image
        && forall metadata :: HandleVerify(v.peers[id].node, Crc16(0, image), s.target, metadata).2 == Matched
  {
    hide Begins, Orderly, TransferComplete, SenderFeeds, CutsPage, HasImage;
    SenderIsOrderly(w, s, actions, image, pages);
    ImageDelivered(w, s, actions, image);
  }
}
