/** What the code as it stands does wrong, and when.

    The split never tells the free segment behind it that its free predecessor has changed.
    When that segment is allocated in its turn, it is unlinked from the wrong predecessor and
    stays on the free list: the next request of the same size gets the same block again. */
module LiteralSplit {
  import opened Segments
  import opened Headers
  import opened LinkSteps
  import opened FreeChain
  import opened PrivateArea

  /** A chain only depends on the links and sizes of its own headers. */
  lemma {:induction false} ChainUntouched(m: Memory, m': Memory, p: Pointer, nodes: seq<nat>, r: nat)
    requires Chain(m, p, nodes) && |m'| == |m|
    requires forall o :: o in nodes && o < |m| ==>
               Walkable(m', o) && m'[o].nextFree == m[o].nextFree && m'[o].next == m[o].next
    ensures Chain(m', p, nodes) && Pick(m', p, nodes, r) == Pick(m, p, nodes, r)
    decreases |nodes|
  {
    if nodes != [] {
      assert nodes[0] in nodes;
      ChainUntouched(m, m', m[nodes[0]].nextFree, nodes[1..], r);
    }
  }

  lemma {:induction false} FreeStartsAreFree(segs: Segs, k: nat, o: nat)
    requires k <= |segs| && o in FreeStarts(segs, k)
    ensures exists i :: k <= i < |segs| && segs[i].free && segs[i].start == o
    decreases |segs| - k
  {
    if k < |segs| && !(segs[k].free && segs[k].start == o) {
      FreeStartsAreFree(segs, k + 1, o);
    }
  }

  lemma {:induction false} UnlinkMissesAt(st: State, segs: Segs, f: nat, a: nat, m: Memory, i: nat)
    requires f < |segs| && segs[f].free && RepresentsBut(st, segs, {segs[f].start}) && a < f && !segs[a].free
    requires segs[f].start < |st.mem| && st.mem[segs[f].start].prevFree == At(segs[a].start)
    requires i < |segs| && segs[i].free && segs[i].start < |st.mem| && Walkable(st.mem, segs[i].start)
    requires |m| == |st.mem| && m[segs[i].start] == AfterUnlink(st.mem, segs[f].start, segs[i].start)
    ensures var o := segs[i].start;
            Walkable(m, o) && m[o].nextFree == st.mem[o].nextFree && m[o].next == st.mem[o].next
  {
    StartsDiffer(segs, |st.mem|, a, i);
    StartsDiffer(segs, |st.mem|, f, i);
    assert HeaderOk(st.mem, segs, f, {segs[f].start});
  }

  lemma {:induction false} StaleIsSound(st: State, segs: Segs, f: nat, a: nat)
    requires f < |segs| && segs[f].free && RepresentsBut(st, segs, {segs[f].start})
    requires a < f && segs[f].start < |st.mem| && st.mem[segs[f].start].prevFree == At(segs[a].start)
    ensures Sound(st.mem, segs[f].start) && BufferSize(st.mem, segs[f].start) == segs[f].capacity
  {
    FreeIsWalkable(st, segs, f, {segs[f].start});
    StartsDiffer(segs, |st.mem|, a, f);
  }

  /** Unlinking a header that is not the one its `prevFree` should be leaves the free list as it was. */
  lemma {:induction false} UnlinkMisses(st: State, segs: Segs, f: nat, a: nat, r: nat)
    requires f < |segs| && segs[f].free && RepresentsBut(st, segs, {segs[f].start})
    requires a < f && !segs[a].free
    requires segs[f].start < |st.mem| && st.mem[segs[f].start].prevFree == At(segs[a].start)
    ensures Chain(st.mem, st.first, FreeStarts(segs, 0)) && Sound(st.mem, segs[f].start)
    ensures var t := UnlinkMem(st, segs[f].start);
            && Chain(t.mem, t.first, FreeStarts(segs, 0)) && Sound(t.mem, segs[f].start)
            && Pick(t.mem, t.first, FreeStarts(segs, 0), r) == Pick(st.mem, st.first, FreeStarts(segs, 0), r)
  {
    var nodes := FreeStarts(segs, 0);
    StartsDiffer(segs, |st.mem|, a, f);
    RepresentedChain(st, segs, {segs[f].start});
    StaleIsSound(st, segs, f, a);
    UnlinkCells(st, segs[f].start);
    var t := UnlinkMem(st, segs[f].start);
    forall o | o in nodes && o < |st.mem|
      ensures Walkable(t.mem, o) && t.mem[o].nextFree == st.mem[o].nextFree && t.mem[o].next == st.mem[o].next
    {
      FreeStartsAreFree(segs, 0, o);
      var i :| 0 <= i < |segs| && segs[i].free && segs[i].start == o;
      FreeIsWalkable(st, segs, i, {segs[f].start});
      UnlinkMissesAt(st, segs, f, a, t.mem, i);
    }
    UnlinkMissesAt(st, segs, f, a, t.mem, f);
    ChainUntouched(st.mem, t.mem, st.first, nodes, r);
  }

  /** A header left stale, when allocated whole, is handed out again by the same request. */
  lemma {:induction false} StaleGrantsTwice(st: State, segs: Segs, f: nat, a: nat, r: nat)
    requires f < |segs| && segs[f].free && RepresentsBut(st, segs, {segs[f].start})
    requires a < f && !segs[a].free
    requires segs[f].start < |st.mem| && st.mem[segs[f].start].prevFree == At(segs[a].start)
    requires FirstFit(segs, 0, r) == f && !Splits(segs[f], r)
    ensures var nodes := FreeStarts(segs, 0);
            && Chain(st.mem, st.first, nodes) && Pick(st.mem, st.first, nodes, r) == At(segs[f].start)
            && Sound(st.mem, segs[f].start) && BufferSize(st.mem, segs[f].start) >= r
            && var t := AllocateAt(st, segs[f].start, r, false);
               && Chain(t.mem, t.first, nodes) && Pick(t.mem, t.first, nodes, r) == At(segs[f].start)
               && Sound(t.mem, segs[f].start)
  {
    UnlinkMisses(st, segs, f, a, r);
    StaleIsSound(st, segs, f, a);
    PickIsFirstFit(st, segs, {segs[f].start}, 0, r);
  }

  lemma {:induction false} AfterLiteralSplit(st: State, segs: Segs, i: nat, r: nat)
    requires Represents(st, segs) && WellFormed(segs, |st.mem|) && r % 8 == 0
    requires i < |segs| && segs[i].free && SplitsBeforeFree(segs, i, r)
    ensures Sound(st.mem, segs[i].start) && BufferSize(st.mem, segs[i].start) == segs[i].capacity
    ensures var u, f := Take(segs, i, r), NextFree(segs, i + 1);
            var t := AllocateAt(st, segs[i].start, r, false);
            && f + 1 < |u| && u[f + 1] == segs[f] && !u[i].free && u[i].start == segs[i].start
            && RepresentsBut(t, u, {segs[f].start})
            && segs[f].start < |t.mem| && t.mem[segs[f].start].prevFree == At(segs[i].start)
  {
    AllocateTakes(st, segs, i, r, false, {});
    assert StaleAfter(segs, i, r, false, {}) == {segs[NextFree(segs, i + 1)].start};
    LiteralLeavesStale(st, segs, i, r);
    NextFreeAfterTake(segs, i, r);
  }

  /** After the literal code has split before free segment `f`, a request whose first fit is
      `f` and that uses it up gets `f`, and so does the same request again. */
  lemma {:induction false} SameBlockTwice(st: State, segs: Segs, i: nat, r: nat, r2: nat)
    requires Represents(st, segs) && WellFormed(segs, |st.mem|) && r % 8 == 0
    requires i < |segs| && segs[i].free && SplitsBeforeFree(segs, i, r)
    requires var f := NextFree(segs, i + 1);
             FirstFit(Take(segs, i, r), 0, r2) == f + 1 && !Splits(segs[f], r2)
    ensures Sound(st.mem, segs[i].start) && BufferSize(st.mem, segs[i].start) == segs[i].capacity
    ensures var block := At(segs[NextFree(segs, i + 1)].start);
            var nodes := FreeStarts(Take(segs, i, r), 0);
            var st1 := AllocateAt(st, segs[i].start, r, false);
            && Chain(st1.mem, st1.first, nodes) && Pick(st1.mem, st1.first, nodes, r2) == block
            && Sound(st1.mem, block.offset) && BufferSize(st1.mem, block.offset) >= r2
            && var st2 := AllocateAt(st1, block.offset, r2, false);
               && Chain(st2.mem, st2.first, nodes) && Pick(st2.mem, st2.first, nodes, r2) == block
               && Sound(st2.mem, block.offset)
  {
    hide AllocateAt, Take, Represents, RepresentsBut, WellFormed;
    AfterLiteralSplit(st, segs, i, r);
    var t, u, f := AllocateAt(st, segs[i].start, r, false), Take(segs, i, r), NextFree(segs, i + 1);
    StaleGrantsTwice(t, u, f + 1, i, r2);
  }

  /** The same, as calls on the code as it stands. */
  method SplitThenTwice(a: Allocator, n: Size, n2: Size) returns (p: Pointer, q: Pointer)
    requires a.Valid() && !a.relinks
    requires var i := FirstFit(a.segs, 0, RoundUp(n));
             && i < |a.segs| && SplitsBeforeFree(a.segs, i, RoundUp(n))
             && var f := NextFree(a.segs, i + 1);
                FirstFit(Take(a.segs, i, RoundUp(n)), 0, RoundUp(n2)) == f + 1 && !Splits(a.segs[f], RoundUp(n2))
    modifies a, a.base
    ensures p.At? && p == q
  {
    hide AllocateAt, Served, SplitsBeforeFree, Splits, RepresentsBut, WellFormed, Sound, Take;
    ghost var i := FirstFit(a.segs, 0, RoundUp(n));
    ghost var before := FreeStarts(a.segs, 0);
    ghost var nodes := FreeStarts(Take(a.segs, i, RoundUp(n)), 0);
    RoundUpCovers(n);
    RepresentedChain(a.Now(), a.segs, {});
    SearchFindsFirstFit(a.Now(), a.segs, {}, before, RoundUp(n));
    SameBlockTwice(a.Now(), a.segs, i, RoundUp(n), RoundUp(n2));
    var x := a.Allocate(n, before, {});
    p := a.Allocate(n2, nodes, {});
    q := a.Allocate(n2, nodes, {});
  }

  // ---------------------------------------------------------------- a concrete run

  ghost function Area(end: nat): Segs
    requires end >= 1024
  {
    [Segment(0, 128, true), Segment(HEADER + 128, 8, false), Segment(2 * HEADER + 136, 256, true),
     Segment(3 * HEADER + 392, 8, false), Segment(4 * HEADER + 400, end - 5 * HEADER - 400, true)]
  }

  /** The area with the first and third block still alive, and the last `k` segments not yet cut. */
  ghost function Growing(end: nat, blocks: nat): Segs
    requires end >= 1024 && blocks <= 4
  {
    if blocks == 0 then Initial(end)
    else if blocks == 1 then [Segment(0, 128, false), Segment(HEADER + 128, end - 2 * HEADER - 128, true)]
    else if blocks == 2 then
      [Segment(0, 128, false), Segment(HEADER + 128, 8, false), Segment(2 * HEADER + 136, end - 3 * HEADER - 136, true)]
    else if blocks == 3 then
      [Segment(0, 128, false), Segment(HEADER + 128, 8, false), Segment(2 * HEADER + 136, 256, false),
       Segment(3 * HEADER + 392, end - 4 * HEADER - 392, true)]
    else
      [Segment(0, 128, false), Segment(HEADER + 128, 8, false), Segment(2 * HEADER + 136, 256, false),
       Segment(3 * HEADER + 392, 8, false), Segment(4 * HEADER + 400, end - 5 * HEADER - 400, true)]
  }

  lemma {:induction false} Grows(end: nat, k: nat, r: nat)
    requires end >= 1024 && k < 4 && r == if k == 0 then 128 else if k == 2 then 256 else 8
    ensures var s := Growing(end, k);
            && k < |s| && RoundUp(r) == r && FirstFit(s, 0, r) == k && Take(s, k, r) == Growing(end, k + 1)
            && !SplitsBeforeFree(s, k, r)
  {
    var s := Growing(end, k);
    assert Splits(s[k], r);
    assert forall m :: 0 <= m < k ==> !s[m].free;
    assert Take(s, k, r) == Growing(end, k + 1);
  }

  lemma {:induction false} ThenTwoGivenBack(end: nat)
    requires end >= 1024
    ensures var s := Growing(end, 4);
            var t := Release(s, 0);
            && |t| == 5 && t[2] == s[2] && !s[0].free && !t[2].free
            && Release(t, 2) == Area(end)
  {
  }

  lemma {:induction false} ThenSplitBeforeFree(end: nat)
    requires end >= 1024
    ensures var s := Area(end);
            && RoundUp(8) == 8 && RoundUp(256) == 256
            && FirstFit(s, 0, 8) == 0 && NextFree(s, 1) == 2 && SplitsBeforeFree(s, 0, 8)
            && FirstFit(Take(s, 0, 8), 0, 256) == 3 && !Splits(s[2], 256)
  {
    var s := Area(end);
    assert !s[1].free && s[2].free;
    var u := Take(s, 0, 8);
    assert u == [Segment(0, 8, false), Segment(HEADER + 8, 120 - HEADER, true)] + s[1..];
    assert u[3] == s[2] && u[2] == s[1];
  }

  method OneBlock(a: Allocator, k: nat)
    requires a.Valid() && !a.relinks && a.size >= 1024 && k < 4 && a.segs == Growing(a.size, k)
    modifies a, a.base
    ensures a.Valid() && a.base == old(a.base) && a.size == old(a.size) && a.segs == Growing(a.size, k + 1)
  {
    hide Growing, RepresentsBut, WellFormed, HeadersOnly, AllocateAt, Sound, Take, RoundUp, Chain, Pick;
    var n := if k == 0 then 128 else if k == 2 then 256 else 8;
    RepresentedChain(a.Now(), a.segs, {});
    Grows(a.size, k, n);
    PickIsFresh(a.Now(), a.segs, {}, FreeStarts(a.segs, 0), n);
    var x := a.Allocate(n, FreeStarts(a.segs, 0), {});
  }

  /** Allocate 128, 8, 256 and 8 bytes. */
  method FourBlocks(buf: array<Header>) returns (a: Allocator)
    requires buf.Length >= 1024
    modifies buf
    ensures fresh(a) && a.Valid() && a.base == buf && !a.relinks && a.segs == Growing(buf.Length, 4)
  {
    a := new Allocator(false);
    a.SetWorkingArea(buf, buf.Length);
    assert a.segs == Growing(buf.Length, 0);
    hide Growing, RepresentsBut, WellFormed;
    for k := 0 to 4
      invariant a.Valid() && a.base == buf && !a.relinks && fresh(a) && a.segs == Growing(buf.Length, k)
    {
      OneBlock(a, k);
    }
  }

  /** Give back the first and the third. */
  method GiveTwoBack(a: Allocator)
    requires a.Valid() && a.size >= 1024 && a.segs == Growing(a.size, 4)
    modifies a, a.base
    ensures a.Valid() && a.base == old(a.base) && a.size == old(a.size) && a.segs == Area(a.size)
  {
    ThenTwoGivenBack(a.size);
    hide RepresentsBut, WellFormed, HeadersOnly, Mended, Release;
    MendedIsLess(a.segs, 0, {});
    a.Deallocate(HEADER, 0, {});
    MendedIsLess(a.segs, 2, {});
    a.Deallocate(3 * HEADER + 136, 2, {});
  }

  /** One such run on the code as it stands, for every header size and every area of at least
      1024 bytes: the last two requests, both successful, return the same block. */
  method LiteralRun(buf: array<Header>) returns (p: Pointer, q: Pointer)
    requires buf.Length >= 1024
    modifies buf
    ensures p.At? && p == q
  {
    var a := FourBlocks(buf);
    GiveTwoBack(a);
    ThenSplitBeforeFree(buf.Length);
    p, q := SplitThenTwice(a, 8, 256);
  }
}
