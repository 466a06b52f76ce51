/** The free list as the search of `allocate` walks it: a chain of headers, whatever else is
    in memory. */
module FreeChain {
  import opened Segments
  import opened Headers
  import opened LinkSteps

  /** The payload size that the links of the header at `s` stand for. */
  function BufferSize(m: Memory, s: nat): int
    requires s < |m|
  {
    if m[s].next.At? then m[s].next.offset - (s + HEADER) else |m| - (s + HEADER)
  }

  /** The header at `o` can be read and followed. */
  ghost predicate Walkable(m: Memory, o: nat) {
    o < |m| && InArea(m, m[o].next) && InArea(m, m[o].nextFree) && m[o].nextFree != At(o) && BufferSize(m, o) >= 0
  }

  /** It can also be taken off the free list. */
  ghost predicate Sound(m: Memory, o: nat) {
    Walkable(m, o) && InArea(m, m[o].prevFree) && m[o].prevFree != At(o)
  }

  /** Following `nextFree` from `p` visits exactly `nodes`. */
  ghost predicate Chain(m: Memory, p: Pointer, nodes: seq<nat>)
    decreases |nodes|
  {
    if nodes == [] then p == Null
    else p == At(nodes[0]) && Walkable(m, nodes[0]) && Chain(m, m[nodes[0]].nextFree, nodes[1..])
  }

  /** The first header of the chain that is big enough. */
  ghost function Pick(m: Memory, p: Pointer, nodes: seq<nat>, r: nat): (q: Pointer)
    requires Chain(m, p, nodes)
    ensures q.At? ==> Walkable(m, q.offset) && BufferSize(m, q.offset) >= r
    decreases |nodes|
  {
    if nodes == [] then Null
    else if BufferSize(m, nodes[0]) >= r then At(nodes[0])
    else Pick(m, m[nodes[0]].nextFree, nodes[1..], r)
  }

  /** What a successful `allocate` of `r` bytes from the header at `s` does to memory. */
  ghost function AllocateAt(st: State, s: nat, r: nat, relink: bool): (t: State)
    requires Sound(st.mem, s) && BufferSize(st.mem, s) >= r
    ensures |t.mem| == |st.mem|
  {
    if BufferSize(st.mem, s) - r >= SMALLEST_SPLIT then
      var m := SplitMem(st.mem, s, r, relink);
      UnlinkMem(State(m, st.first), s)
    else
      UnlinkMem(st, s)
  }

  // ---------------------------------------------------------------- the chain of a represented state

  function FreeStarts(segs: Segs, k: nat): seq<nat>
    requires k <= |segs|
    decreases |segs| - k
  {
    if k == |segs| then []
    else if segs[k].free then [segs[k].start] + FreeStarts(segs, k + 1)
    else FreeStarts(segs, k + 1)
  }

  lemma {:induction false} BufferSizeIs(m: Memory, segs: Segs, i: nat, stale: set<nat>)
    requires Tiles(segs, |m|) && i < |segs| && HeaderOk(m, segs, i, stale)
    ensures BufferSize(m, segs[i].start) == segs[i].capacity
  {
    assert segs[i].End() == Boundary(segs, i + 1, |m|);
  }

  lemma {:induction false} FreeIsWalkable(st: State, segs: Segs, i: nat, stale: set<nat>)
    requires RepresentsBut(st, segs, stale) && i < |segs| && segs[i].free
    ensures Walkable(st.mem, segs[i].start) && BufferSize(st.mem, segs[i].start) == segs[i].capacity
  {
    assert HeaderOk(st.mem, segs, i, stale);
    BufferSizeIs(st.mem, segs, i, stale);
    var f := NextFree(segs, i + 1);
    if i + 1 < |segs| { StartsDiffer(segs, |st.mem|, i, i + 1); }
    if f < |segs| { StartsDiffer(segs, |st.mem|, i, f); }
  }

  lemma {:induction false} FreeIsSound(st: State, segs: Segs, i: nat, stale: set<nat>)
    requires RepresentsBut(st, segs, stale) && i < |segs| && segs[i].free && segs[i].start !in stale
    ensures Sound(st.mem, segs[i].start) && BufferSize(st.mem, segs[i].start) == segs[i].capacity
    ensures st.mem[segs[i].start].prevFree == PointerTo(segs, PrevFree(segs, i))
  {
    FreeIsWalkable(st, segs, i, stale);
    assert HeaderOk(st.mem, segs, i, stale);
    var b := PrevFree(segs, i);
    if b >= 0 { StartsDiffer(segs, |st.mem|, i, b); }
  }

  lemma {:induction false} ChainOf(st: State, segs: Segs, stale: set<nat>, k: nat)
    requires RepresentsBut(st, segs, stale) && k <= |segs|
    ensures Chain(st.mem, PointerTo(segs, NextFree(segs, k)), FreeStarts(segs, k))
    decreases |segs| - k
  {
    if k < |segs| {
      ChainOf(st, segs, stale, k + 1);
      assert HeaderOk(st.mem, segs, k, stale);
      if segs[k].free {
        FreeIsWalkable(st, segs, k, stale);
        assert FreeStarts(segs, k)[1..] == FreeStarts(segs, k + 1);
      }
    }
  }

  lemma {:induction false} ChainIsUnique(m: Memory, p: Pointer, a: seq<nat>, b: seq<nat>)
    requires Chain(m, p, a) && Chain(m, p, b)
    ensures a == b
    decreases |a|
  {
    if a != [] && b != [] {
      ChainIsUnique(m, m[a[0]].nextFree, a[1..], b[1..]);
      assert a == [a[0]] + a[1..] && b == [b[0]] + b[1..];
    }
  }

  /** Stale back-links do not matter to the free list as it is walked. */
  lemma {:induction false} RepresentedChain(st: State, segs: Segs, stale: set<nat>)
    requires RepresentsBut(st, segs, stale)
    ensures Chain(st.mem, st.first, FreeStarts(segs, 0))
  {
    ChainOf(st, segs, stale, 0);
  }

  /** Walking the chain finds the lowest free segment that fits. */
  lemma {:induction false} PickIsFirstFit(st: State, segs: Segs, stale: set<nat>, k: nat, r: nat)
    requires RepresentsBut(st, segs, stale) && k <= |segs|
    requires Chain(st.mem, PointerTo(segs, NextFree(segs, k)), FreeStarts(segs, k))
    ensures Pick(st.mem, PointerTo(segs, NextFree(segs, k)), FreeStarts(segs, k), r)
            == PointerTo(segs, FirstFit(segs, k, r))
    decreases |segs| - k
  {
    if k < |segs| {
      assert HeaderOk(st.mem, segs, k, stale);
      if segs[k].free {
        assert FreeStarts(segs, k)[1..] == FreeStarts(segs, k + 1);
        BufferSizeIs(st.mem, segs, k, stale);
      }
      PickIsFirstFit(st, segs, stale, k + 1, r);
    }
  }

  lemma {:induction false} SearchFindsFirstFit(st: State, segs: Segs, stale: set<nat>, nodes: seq<nat>, r: nat)
    requires RepresentsBut(st, segs, stale) && Chain(st.mem, st.first, nodes)
    ensures Pick(st.mem, st.first, nodes, r) == PointerTo(segs, FirstFit(segs, 0, r))
  {
    RepresentedChain(st, segs, stale);
    ChainIsUnique(st.mem, st.first, nodes, FreeStarts(segs, 0));
    PickIsFirstFit(st, segs, stale, 0, r);
  }

  // ---------------------------------------------------------------- what allocate means

  /** The one case the literal code gets wrong: it splits a segment that has a free successor. */
  predicate SplitsBeforeFree(segs: Segs, i: nat, r: nat)
    requires i < |segs|
  {
    Splits(segs[i], r) && NextFree(segs, i + 1) < |segs|
  }

  /** Headers whose `prevFree` is stale after an allocation. */
  ghost function StaleAfter(segs: Segs, i: nat, r: nat, relink: bool, stale: set<nat>): set<nat>
    requires i < |segs|
  {
    if Splits(segs[i], r) then SplitStale(segs, i, relink, stale) else WithoutNext(segs, i, stale)
  }

  /** An allocation of `r` bytes from segment `i`, when that is not stale, takes the segment;
      the links are right everywhere but in the headers that are stale afterwards. */
  lemma {:induction false} AllocateTakes(st: State, segs: Segs, i: nat, r: nat, relink: bool, stale: set<nat>)
    requires RepresentsBut(st, segs, stale) && Aligned(segs) && r % 8 == 0
    requires i < |segs| && segs[i].free && segs[i].capacity >= r && segs[i].start !in stale
    ensures Sound(st.mem, segs[i].start) && BufferSize(st.mem, segs[i].start) == segs[i].capacity
    ensures RepresentsBut(AllocateAt(st, segs[i].start, r, relink), Take(segs, i, r), StaleAfter(segs, i, r, relink, stale))
  {
    hide RepresentsBut, Aligned, Sound, BufferSize, SplitMem, UnlinkMem, Mark, Cut;
    FreeIsSound(st, segs, i, stale);
    if Splits(segs[i], r) {
      SplitThenUnlink(st, segs, i, r, relink, stale);
    } else {
      UnlinkRepresents(st, segs, i, stale);
    }
  }

  lemma {:induction false} SplitThenUnlink(st: State, segs: Segs, i: nat, r: nat, relink: bool, stale: set<nat>)
    requires RepresentsBut(st, segs, stale) && Aligned(segs) && r % 8 == 0
    requires i < |segs| && segs[i].free && Splits(segs[i], r) && segs[i].start !in stale
    ensures var s := segs[i].start;
            && s + HEADER + r < |st.mem| && InArea(st.mem, st.mem[s].next) && InArea(st.mem, st.mem[s].nextFree)
            && var st1 := State(SplitMem(st.mem, s, r, relink), st.first);
               && InArea(st1.mem, st1.mem[s].prevFree) && InArea(st1.mem, st1.mem[s].nextFree)
               && RepresentsBut(UnlinkMem(st1, s), Mark(Cut(segs, i, r), i, false), SplitStale(segs, i, relink, stale))
  {
    hide RepresentsBut, Aligned, SplitMem, UnlinkMem, Mark, Cut;
    SplitRepresents(st, segs, i, r, relink, stale);
    var u := Cut(segs, i, r);
    var st1 := State(SplitMem(st.mem, segs[i].start, r, relink), st.first);
    var left := SplitStale(segs, i, relink, stale);
    assert segs[i].start !in left by { NextFreeElsewhere(st, segs, i, stale); }
    UnlinkRepresents(st1, u, i, left);
    FewerStale(UnlinkMem(st1, segs[i].start), Mark(u, i, false), WithoutNext(u, i, left), left);
  }

  lemma {:induction false} NextFreeElsewhere(st: State, segs: Segs, i: nat, stale: set<nat>)
    requires RepresentsBut(st, segs, stale) && i < |segs|
    ensures var f := NextFree(segs, i + 1);
            f < |segs| ==> segs[f].start != segs[i].start
  {
    var f := NextFree(segs, i + 1);
    if f < |segs| { StartsDiffer(segs, |st.mem|, i, f); }
  }

  /** After the literal split, the next free header still names the segment that was taken. */
  lemma {:induction false} LiteralLeavesStale(st: State, segs: Segs, i: nat, r: nat)
    requires Represents(st, segs) && Aligned(segs) && r % 8 == 0
    requires i < |segs| && segs[i].free && SplitsBeforeFree(segs, i, r)
    ensures Sound(st.mem, segs[i].start) && BufferSize(st.mem, segs[i].start) == segs[i].capacity
    ensures var f := segs[NextFree(segs, i + 1)].start;
            f < |st.mem| && AllocateAt(st, segs[i].start, r, false).mem[f].prevFree == At(segs[i].start)
  {
    var s := segs[i].start;
    var f := NextFree(segs, i + 1);
    assert HeaderOk(st.mem, segs, i, {}) && HeaderOk(st.mem, segs, f, {});
    PrevFreeIs(segs, f, i);
    FreeIsSound(st, segs, i, {});
    StartsDiffer(segs, |st.mem|, i, f);
    SplitReady(st.mem, segs, i, r, {});
    SplitCells(st.mem, s, r, false);
    SplitThenUnlinkKeeps(st, s, r, segs[f].start);
  }

  lemma {:induction false} SplitThenUnlinkKeeps(st: State, s: nat, r: nat, o: nat)
    requires Sound(st.mem, s) && BufferSize(st.mem, s) - r >= SMALLEST_SPLIT
    requires o < |st.mem| && o != s && o != s + HEADER + r
    requires var m := SplitMem(st.mem, s, r, false);
             forall k :: 0 <= k < |m| ==> m[k] == AfterSplit(st.mem, s, s + HEADER + r, false, k)
    ensures AllocateAt(st, s, r, false).mem[o].prevFree == st.mem[o].prevFree
  {
  }

  lemma {:induction false} NextFreeAfterTake(segs: Segs, i: nat, r: nat)
    requires i < |segs| && segs[i].free && SplitsBeforeFree(segs, i, r)
    ensures var u := Take(segs, i, r);
            var f := NextFree(segs, i + 1);
            && |u| == |segs| + 1
            && u[f + 1] == segs[f] && PrevFree(u, f + 1) == i + 1
            && u[i + 1].free && u[i + 1].start == segs[i].Payload() + r
  {
    var c := Cut(segs, i, r);
    var f := NextFree(segs, i + 1);
    PrevFreeIs(segs, f, i);
    CutAfter(segs, i, r, c, f);
    MarkAfter(c, i, Mark(c, i, false), f + 1);
  }

  lemma {:induction false} NextFreeBehindTaken(segs: Segs, i: nat, r: nat)
    requires i < |segs| && segs[i].free && Splits(segs[i], r)
    ensures var u := Take(segs, i, r);
            && |u| == |segs| + 1 && u[i + 1].free && !u[i].free
            && NextFree(u, i + 2) == NextFree(segs, i + 1) + 1
            && (NextFree(segs, i + 1) < |segs| ==> u[NextFree(u, i + 2)] == segs[NextFree(segs, i + 1)])
  {
    var c := Cut(segs, i, r);
    CutAfter(segs, i, r, c, i + 1);
    MarkAfter(c, i, Mark(c, i, false), i + 2);
  }

  lemma {:induction false} StaleIsWrong(t: State, u: Segs, f: nat, n: nat, old_start: nat)
    requires f < |u| && u[f].free && PrevFree(u, f) == n && u[n].start != old_start
    requires u[f].start < |t.mem| && t.mem[u[f].start].prevFree == At(old_start)
    ensures !Represents(t, u)
  {
    assert Represents(t, u) ==> HeaderOk(t.mem, u, f, {});
  }

  lemma {:induction false} LiteralIsWrong(st: State, segs: Segs, i: nat, r: nat)
    requires Represents(st, segs) && Aligned(segs) && r % 8 == 0
    requires i < |segs| && segs[i].free && SplitsBeforeFree(segs, i, r)
    ensures Sound(st.mem, segs[i].start) && BufferSize(st.mem, segs[i].start) == segs[i].capacity
    ensures !Represents(AllocateAt(st, segs[i].start, r, false), Take(segs, i, r))
  {
    hide AllocateAt, Take, Represents, RepresentsBut, Aligned, NextFree, PrevFree, Sound, BufferSize;
    LiteralLeavesStale(st, segs, i, r);
    NextFreeAfterTake(segs, i, r);
    var t, u := AllocateAt(st, segs[i].start, r, false), Take(segs, i, r);
    StaleIsWrong(t, u, NextFree(segs, i + 1) + 1, i + 1, segs[i].start);
  }

  /** The literal split leaves a state that does not stand for the segments it should
      exactly when it cuts a segment that has a free successor. */
  lemma {:induction false} AllocateIsRightExactlyWhen(st: State, segs: Segs, i: nat, r: nat, relink: bool)
    requires Represents(st, segs) && Aligned(segs) && r % 8 == 0
    requires i < |segs| && segs[i].free && segs[i].capacity >= r
    ensures Sound(st.mem, segs[i].start) && BufferSize(st.mem, segs[i].start) == segs[i].capacity
    ensures Represents(AllocateAt(st, segs[i].start, r, relink), Take(segs, i, r))
            <==> relink || !SplitsBeforeFree(segs, i, r)
  {
    AllocateTakes(st, segs, i, r, relink, {});
    assert relink || !SplitsBeforeFree(segs, i, r) ==> StaleAfter(segs, i, r, relink, {}) == {};
    hide AllocateAt, Take;
    if !relink && SplitsBeforeFree(segs, i, r) {
      LiteralIsWrong(st, segs, i, r);
    }
  }

  /** What a request for `r` bytes is meant to do: nothing when no free segment fits, else
      take the lowest that does.  `t` is memory afterwards, `u` its segments. */
  ghost predicate Served(segs: Segs, r: nat, relink: bool, stale: set<nat>, t: State, u: Segs, result: Pointer) {
    var i := FirstFit(segs, 0, r);
    if i == |segs| then result == Null && u == segs && RepresentsBut(t, u, stale)
    else
      && result == At(segs[i].Payload())
      && u == Take(segs, i, r)
      && RepresentsBut(t, u, StaleAfter(segs, i, r, relink, stale))
      && (stale == {} ==> (Represents(t, u) <==> relink || !SplitsBeforeFree(segs, i, r)))
  }

  /** The request finds no segment whose back-link is stale. */
  ghost predicate FindsFresh(segs: Segs, r: nat, stale: set<nat>) {
    var i := FirstFit(segs, 0, r);
    i < |segs| ==> segs[i].start !in stale
  }

  lemma {:induction false} AllocateServes(st: State, segs: Segs, stale: set<nat>, nodes: seq<nat>, r: nat, relink: bool)
    requires RepresentsBut(st, segs, stale) && WellFormed(segs, |st.mem|) && r % 8 == 0
    requires Chain(st.mem, st.first, nodes) && FindsFresh(segs, r, stale)
    ensures var p := Pick(st.mem, st.first, nodes, r);
            var i := FirstFit(segs, 0, r);
            if p.Null? then Served(segs, r, relink, stale, st, segs, Null)
            else && i < |segs| && WellFormed(Take(segs, i, r), |st.mem|) && Sound(st.mem, p.offset)
                 && Served(segs, r, relink, stale, AllocateAt(st, p.offset, r, relink), Take(segs, i, r), At(p.offset + HEADER))
  {
    hide WellFormed, Take, AllocateAt, RepresentsBut, Sound, BufferSize;
    var i := FirstFit(segs, 0, r);
    SearchFindsFirstFit(st, segs, stale, nodes, r);
    if i < |segs| {
      AlignedOf(segs, |st.mem|);
      AllocateTakes(st, segs, i, r, relink, stale);
      if stale == {} { AllocateIsRightExactlyWhen(st, segs, i, r, relink); }
      TakeWellFormed(segs, |st.mem|, i, r);
    }
  }

  lemma {:induction false} AlignedOf(segs: Segs, size: nat)
    requires WellFormed(segs, size)
    ensures Aligned(segs)
  {
  }

  // ---------------------------------------------------------------- taking a stale segment

  /** An allocation writes to no `nextFree` but the segment's own, the new header's and the one
      its back-link names. */
  lemma {:induction false} NextFreeKept(st: State, s: nat, r: nat, relink: bool, o: nat)
    requires Sound(st.mem, s) && BufferSize(st.mem, s) >= r
    requires BufferSize(st.mem, s) - r >= SMALLEST_SPLIT ==>
               && st.mem[s].next != At(s) && st.mem[s].next != At(s + HEADER + r)
               && st.mem[s].nextFree != At(s + HEADER + r) && o != s + HEADER + r
    requires o < |st.mem| && o != s && st.mem[s].prevFree != At(o)
    ensures AllocateAt(st, s, r, relink).mem[o].nextFree == st.mem[o].nextFree
  {
    hide SplitMem, UnlinkMem;
    if BufferSize(st.mem, s) - r >= SMALLEST_SPLIT {
      var m := SplitMem(st.mem, s, r, relink);
      SplitCells(st.mem, s, r, relink);
      assert m[s] == AfterSplit(st.mem, s, s + HEADER + r, relink, s);
      assert m[o] == AfterSplit(st.mem, s, s + HEADER + r, relink, o);
      UnlinkCells(State(m, st.first), s);
      assert UnlinkMem(State(m, st.first), s).mem[o] == AfterUnlink(m, s, o);
    } else {
      UnlinkCells(st, s);
      assert UnlinkMem(st, s).mem[o] == AfterUnlink(st.mem, s, o);
    }
  }

  lemma {:induction false} FirstKept(st: State, s: nat, r: nat, relink: bool)
    requires Sound(st.mem, s) && BufferSize(st.mem, s) >= r && st.mem[s].prevFree != Null
    requires BufferSize(st.mem, s) - r >= SMALLEST_SPLIT ==>
               && st.mem[s].next != At(s) && st.mem[s].next != At(s + HEADER + r)
               && st.mem[s].nextFree != At(s + HEADER + r)
    ensures AllocateAt(st, s, r, relink).first == st.first
  {
    hide SplitMem;
    if BufferSize(st.mem, s) - r >= SMALLEST_SPLIT {
      SplitCells(st.mem, s, r, relink);
      assert SplitMem(st.mem, s, r, relink)[s] == AfterSplit(st.mem, s, s + HEADER + r, relink, s);
    }
  }

  /** Before a segment that is taken, everything stays, and looks past it. */
  lemma {:induction false} TakenBefore(segs: Segs, i: nat, r: nat)
    requires i < |segs| && segs[i].free && segs[i].capacity >= r
    ensures var u, b := Take(segs, i, r), PrevFree(segs, i);
            && i < |u| && u[i].start == segs[i].start
            && (b >= 0 ==> u[b] == segs[b] && NextFree(u, b + 1) > i)
            && (b == -1 ==> NextFree(u, 0) > i)
  {
    hide Mark, Cut;
    var u, b := Take(segs, i, r), PrevFree(segs, i);
    assert !u[i].free && forall m :: 0 <= m < i ==> u[m] == segs[m];
    assert forall m :: b < m <= i ==> !u[m].free;
  }

  lemma {:induction false} StillNamed(t: State, u: Segs, b: nat, i: nat, left: set<nat>)
    requires b < i < |u| && u[b].free && NextFree(u, b + 1) > i
    requires u[b].start < |t.mem| && t.mem[u[b].start].nextFree == At(u[i].start)
    ensures !RepresentsBut(t, u, left)
  {
    if RepresentsBut(t, u, left) {
      var f := NextFree(u, b + 1);
      assert HeaderOk(t.mem, u, b, left);
      if f < |u| { StartsDiffer(u, |t.mem|, i, f); }
      assert false;
    }
  }

  lemma {:induction false} StillFirst(t: State, u: Segs, i: nat, left: set<nat>)
    requires i < |u| && NextFree(u, 0) > i && t.first == At(u[i].start)
    ensures !RepresentsBut(t, u, left)
  {
    if RepresentsBut(t, u, left) {
      var f := NextFree(u, 0);
      if f < |u| { StartsDiffer(u, |t.mem|, i, f); }
      assert false;
    }
  }

  /** Unlinking through a wrong back-link leaves the segment on the free list: its true
      predecessor, or the head of the list, still names it. */
  lemma {:induction false} WrongLinkKeepsIt(st: State, segs: Segs, stale: set<nat>, i: nat, r: nat, relink: bool,
                                            left: set<nat>)
    requires RepresentsBut(st, segs, stale)
    requires i < |segs| && segs[i].free && segs[i].capacity >= r
    requires Sound(st.mem, segs[i].start) && BufferSize(st.mem, segs[i].start) == segs[i].capacity
    requires st.mem[segs[i].start].prevFree != PointerTo(segs, PrevFree(segs, i))
    ensures !RepresentsBut(AllocateAt(st, segs[i].start, r, relink), Take(segs, i, r), left)
  {
    hide AllocateAt, Take, Sound, BufferSize;
    var s, b := segs[i].start, PrevFree(segs, i);
    var t, u := AllocateAt(st, s, r, relink), Take(segs, i, r);
    TakenBefore(segs, i, r);
    assert HeaderOk(st.mem, segs, i, stale);
    if Splits(segs[i], r) { SplitReady(st.mem, segs, i, r, stale); }
    if b >= 0 {
      StartsDiffer(segs, |st.mem|, i, b);
      assert HeaderOk(st.mem, segs, b, stale);
      NextFreeIs(segs, b + 1, i);
      NextFreeKept(st, s, r, relink, segs[b].start);
      StillNamed(t, u, b, i, left);
    } else {
      NextFreeIs(segs, 0, i);
      FirstKept(st, s, r, relink);
      StillFirst(t, u, i, left);
    }
  }

  lemma {:induction false} NotReallyStale(st: State, segs: Segs, stale: set<nat>, i: nat)
    requires RepresentsBut(st, segs, stale) && i < |segs| && segs[i].start < |st.mem|
    requires st.mem[segs[i].start].prevFree == PointerTo(segs, PrevFree(segs, i))
    ensures RepresentsBut(st, segs, stale - {segs[i].start})
  {
    hide NextFree, PrevFree;
    forall k | 0 <= k < |segs| ensures HeaderOk(st.mem, segs, k, stale - {segs[i].start}) {
      assert HeaderOk(st.mem, segs, k, stale);
      StartsDiffer(segs, |st.mem|, i, k);
    }
  }

  /** Whatever back-links are wrong: an allocation leaves both lists right, up to back-links,
      if and only if the back-link of the segment it takes is right. */
  lemma {:induction false} AllocateKeepsListsExactlyWhen(st: State, segs: Segs, stale: set<nat>, i: nat, r: nat, relink: bool)
    requires RepresentsBut(st, segs, stale) && Aligned(segs) && r % 8 == 0
    requires i < |segs| && segs[i].free && segs[i].capacity >= r && Sound(st.mem, segs[i].start)
    ensures BufferSize(st.mem, segs[i].start) == segs[i].capacity
    ensures var t, u := AllocateAt(st, segs[i].start, r, relink), Take(segs, i, r);
            (exists left: set<nat> :: RepresentsBut(t, u, left))
            <==> st.mem[segs[i].start].prevFree == PointerTo(segs, PrevFree(segs, i))
  {
    hide AllocateAt, Take, RepresentsBut, Sound, BufferSize, NextFree, PrevFree;
    FreeIsWalkable(st, segs, i, stale);
    WalkableInArea(st.mem, segs[i].start);
    var t, u := AllocateAt(st, segs[i].start, r, relink), Take(segs, i, r);
    if st.mem[segs[i].start].prevFree == PointerTo(segs, PrevFree(segs, i)) {
      NotReallyStale(st, segs, stale, i);
      AllocateTakes(st, segs, i, r, relink, stale - {segs[i].start});
      assert RepresentsBut(t, u, StaleAfter(segs, i, r, relink, stale - {segs[i].start}));
    } else {
      forall left: set<nat> ensures !RepresentsBut(t, u, left) {
        WrongLinkKeepsIt(st, segs, stale, i, r, relink, left);
      }
    }
  }

  lemma {:induction false} WalkableInArea(m: Memory, o: nat)
    requires Walkable(m, o)
    ensures o < |m|
  {
  }

  // ---------------------------------------------------------------- what a release mends

  /** What stays stale when segment `i` is released: its own back-link and that of the next
      free segment are set, and swallowing that one sets the back-link of the free segment
      behind it. */
  ghost function Mended(segs: Segs, i: nat, stale: set<nat>): set<nat>
    requires i < |segs|
  {
    MendedNext(segs, i, Relinked(segs, i, stale))
  }

  ghost function MendedNext(segs: Segs, i: nat, stale: set<nat>): set<nat>
    requires i < |segs|
  {
    if i + 1 < |segs| && segs[i + 1].free then WithoutNext(segs, i + 1, stale) else stale
  }

  lemma {:induction false} MendedAfterMark(segs: Segs, i: nat, stale: set<nat>)
    requires i < |segs| && !segs[i].free
    ensures MendedNext(Mark(segs, i, true), i, stale) == MendedNext(segs, i, stale)
  {
    if i + 1 < |segs| { MarkAfter(Mark(segs, i, true), i, segs, i + 2); }
  }

  /** A release never makes a back-link stale. */
  lemma {:induction false} MendedIsLess(segs: Segs, i: nat, stale: set<nat>)
    requires i < |segs|
    ensures Mended(segs, i, stale) <= stale && (stale == {} ==> Mended(segs, i, stale) == {})
  {
  }

  /** Releasing the segment just taken restores the segments and mends what the split left stale. */
  lemma {:induction false} ReleaseMends(segs: Segs, size: nat, i: nat, r: nat, relink: bool, stale: set<nat>)
    requires WellFormed(segs, size)
    requires i < |segs| && segs[i].free && segs[i].capacity >= r
    ensures var u := Take(segs, i, r);
            && i < |u| && !u[i].free && u[i].Payload() == segs[i].Payload()
            && Release(u, i) == segs
            && Mended(u, i, StaleAfter(segs, i, r, relink, stale)) <= stale
  {
    ReleaseUndoesTake(segs, size, i, r);
    if Splits(segs[i], r) { NextFreeBehindTaken(segs, i, r); }
  }

  // ---------------------------------------------------------------- only headers are written

  ghost function Starts(segs: Segs): set<nat> {
    set s | s in segs :: s.start
  }

  /** Between `m` and `t` only headers of `segs` have been written. */
  ghost predicate HeadersOnly(m: Memory, t: Memory, segs: Segs) {
    |t| == |m| && forall o :: 0 <= o < |m| && t[o] != m[o] ==> o in Starts(segs)
  }

  lemma {:induction false} PointsToHeader(segs: Segs, k: int)
    ensures var p := PointerTo(segs, k);
            p.At? ==> p.offset in Starts(segs)
  {
    if 0 <= k < |segs| { assert segs[k] in segs; }
  }

  /** No header starts inside a payload: writing headers leaves payloads alone. */
  lemma {:induction false} PayloadUntouched(m: Memory, t: Memory, segs: Segs, s: Segment)
    requires Tiles(segs, |m|) && HeadersOnly(m, t, segs) && s in segs
    ensures s.End() <= |m| == |t| && forall o :: s.Payload() <= o < s.End() ==> t[o] == m[o]
  {
    InAddressOrder(segs, |m|);
    var k :| 0 <= k < |segs| && segs[k] == s;
    forall o | s.Payload() <= o < s.End() ensures o !in Starts(segs) {
      NoHeaderInside(segs, |m|, k, o);
    }
  }

  lemma {:induction false} NoHeaderInside(segs: Segs, size: nat, k: nat, o: nat)
    requires Tiles(segs, size) && k < |segs| && segs[k].start < o < segs[k].End()
    ensures o !in Starts(segs)
  {
    InAddressOrder(segs, size);
    forall j | 0 <= j < |segs| ensures segs[j].start != o {
      assert j < k ==> segs[j].End() <= segs[k].start;
    }
  }

  lemma {:induction false} HeadersTwice(m: Memory, t: Memory, u: Memory, segs: Segs, more: Segs)
    requires HeadersOnly(m, t, segs) && HeadersOnly(t, u, more) && Starts(more) <= Starts(segs)
    ensures HeadersOnly(m, u, segs)
  {
  }

  lemma {:induction false} MarkStarts(segs: Segs, i: nat, free: bool)
    requires i < |segs|
    ensures Starts(Mark(segs, i, free)) == Starts(segs)
  {
    var u := Mark(segs, i, free);
    forall o | o in Starts(segs) ensures o in Starts(u) {
      var k :| 0 <= k < |segs| && segs[k].start == o;
      assert u[k] in u;
    }
    forall o | o in Starts(u) ensures o in Starts(segs) {
      var k :| 0 <= k < |u| && u[k].start == o;
      assert segs[k] in segs;
    }
  }

  lemma {:induction false} FuseStarts(segs: Segs, i: nat)
    requires i + 1 < |segs|
    ensures Starts(Fuse(segs, i)) <= Starts(segs)
  {
    var u := Fuse(segs, i);
    forall o | o in Starts(u) ensures o in Starts(segs) {
      var k :| 0 <= k < |u| && u[k].start == o;
      assert segs[if k <= i then k else k + 1] in segs;
    }
  }

  lemma {:induction false} CutStarts(segs: Segs, i: nat, r: nat)
    requires i < |segs| && Splits(segs[i], r)
    ensures Starts(segs) <= Starts(Cut(segs, i, r)) && segs[i].Payload() + r in Starts(Cut(segs, i, r))
  {
    var u := Cut(segs, i, r);
    assert u[i + 1] in u;
    forall o | o in Starts(segs) ensures o in Starts(u) {
      var k :| 0 <= k < |segs| && segs[k].start == o;
      assert u[if k <= i then k else k + 1] in u;
    }
  }

  lemma {:induction false} SplitStores(st: State, segs: Segs, i: nat, r: nat, relink: bool, stale: set<nat>)
    requires RepresentsBut(st, segs, stale) && i < |segs| && segs[i].free && Splits(segs[i], r)
    ensures var s := segs[i].start;
            && s + HEADER + r < |st.mem| && InArea(st.mem, st.mem[s].next) && InArea(st.mem, st.mem[s].nextFree)
            && var m := SplitMem(st.mem, s, r, relink);
               && HeadersOnly(st.mem, m, Cut(segs, i, r))
               && m[s].prevFree == st.mem[s].prevFree && m[s].nextFree == At(s + HEADER + r)
  {
    hide SplitMem, Cut, Starts, Tiles, NextFree, PrevFree;
    var s := segs[i].start;
    assert HeaderOk(st.mem, segs, i, stale);
    SplitReady(st.mem, segs, i, r, stale);
    SplitCells(st.mem, s, r, relink);
    CutStarts(segs, i, r);
    PointsToHeader(segs, i);
    PointsToHeader(segs, i + 1);
    PointsToHeader(segs, NextFree(segs, i + 1));
    var m := SplitMem(st.mem, s, r, relink);
    assert m[s] == AfterSplit(st.mem, s, s + HEADER + r, relink, s);
    forall o | 0 <= o < |m| && m[o] != st.mem[o] ensures o in Starts(Cut(segs, i, r)) {
      assert m[o] == AfterSplit(st.mem, s, s + HEADER + r, relink, o);
    }
  }

  lemma {:induction false} UnlinkStores(st: State, s: nat, segs: Segs)
    requires s < |st.mem| && InArea(st.mem, st.mem[s].prevFree) && InArea(st.mem, st.mem[s].nextFree)
    requires st.mem[s].prevFree != At(s) && st.mem[s].nextFree != At(s)
    requires s in Starts(segs) && (st.mem[s].prevFree.At? ==> st.mem[s].prevFree.offset in Starts(segs))
    requires st.mem[s].nextFree.At? ==> st.mem[s].nextFree.offset in Starts(segs)
    ensures HeadersOnly(st.mem, UnlinkMem(st, s).mem, segs)
  {
    hide UnlinkMem, Starts;
    UnlinkCells(st, s);
    forall o | 0 <= o < |st.mem| && UnlinkMem(st, s).mem[o] != st.mem[o] ensures o in Starts(segs) {
      assert UnlinkMem(st, s).mem[o] == AfterUnlink(st.mem, s, o);
    }
  }

  /** An allocation writes to headers only, the new one included. */
  lemma {:induction false} AllocateStores(st: State, segs: Segs, i: nat, r: nat, relink: bool, stale: set<nat>)
    requires RepresentsBut(st, segs, stale)
    requires i < |segs| && segs[i].free && segs[i].capacity >= r && segs[i].start !in stale
    ensures Sound(st.mem, segs[i].start) && BufferSize(st.mem, segs[i].start) == segs[i].capacity
    ensures HeadersOnly(st.mem, AllocateAt(st, segs[i].start, r, relink).mem, Take(segs, i, r))
  {
    hide RepresentsBut, SplitMem, UnlinkMem, Starts, Cut, Mark, NextFree, PrevFree, HeadersOnly;
    var s, c := segs[i].start, Take(segs, i, r);
    FreeIsSound(st, segs, i, stale);
    FreeNext(st, segs, i, stale);
    PointsToHeader(segs, i);
    PointsToHeader(segs, PrevFree(segs, i));
    PointsToHeader(segs, NextFree(segs, i + 1));
    if Splits(segs[i], r) {
      var u := Cut(segs, i, r);
      CutStarts(segs, i, r);
      MarkStarts(u, i, false);
      SplitStores(st, segs, i, r, relink, stale);
      var m := SplitMem(st.mem, s, r, relink);
      UnlinkStores(State(m, st.first), s, u);
      HeadersTwice(st.mem, m, UnlinkMem(State(m, st.first), s).mem, u, u);
      SameStarts(st.mem, UnlinkMem(State(m, st.first), s).mem, u, c);
    } else {
      MarkStarts(segs, i, false);
      UnlinkStores(st, s, segs);
      SameStarts(st.mem, UnlinkMem(st, s).mem, segs, c);
    }
  }

  lemma {:induction false} FreeNext(st: State, segs: Segs, i: nat, stale: set<nat>)
    requires RepresentsBut(st, segs, stale) && i < |segs| && segs[i].free
    ensures segs[i].start < |st.mem| && st.mem[segs[i].start].nextFree == PointerTo(segs, NextFree(segs, i + 1))
  {
    assert HeaderOk(st.mem, segs, i, stale);
  }

  lemma {:induction false} SameStarts(m: Memory, t: Memory, segs: Segs, more: Segs)
    requires HeadersOnly(m, t, segs) && Starts(more) == Starts(segs)
    ensures HeadersOnly(m, t, more)
  {
  }

  lemma {:induction false} RelinkStores(st: State, segs: Segs, i: nat)
    requires Tiles(segs, |st.mem|) && i < |segs| && !segs[i].free && segs[i].start < |st.mem|
    requires InArea(st.mem, PointerTo(segs, PrevFree(segs, i))) && InArea(st.mem, PointerTo(segs, NextFree(segs, i + 1)))
    ensures HeadersOnly(st.mem, RelinkMem(st, segs[i].start, PointerTo(segs, PrevFree(segs, i)),
                                          PointerTo(segs, NextFree(segs, i + 1))).mem, segs)
  {
    hide RelinkMem, Starts;
    var s, b, f := segs[i].start, PrevFree(segs, i), NextFree(segs, i + 1);
    if f < |segs| { StartsDiffer(segs, |st.mem|, f, i); }
    if b >= 0 { StartsDiffer(segs, |st.mem|, b, i); }
    RelinkCells(st, s, PointerTo(segs, b), PointerTo(segs, f));
    PointsToHeader(segs, i);
    PointsToHeader(segs, b);
    PointsToHeader(segs, f);
    var t := RelinkMem(st, s, PointerTo(segs, b), PointerTo(segs, f)).mem;
    forall o | 0 <= o < |t| && t[o] != st.mem[o] ensures o in Starts(segs) {
      assert t[o] == AfterRelink(st.mem, s, PointerTo(segs, b), PointerTo(segs, f), o);
    }
  }

  lemma {:induction false} JoinStores(st: State, segs: Segs, i: nat, stale: set<nat>)
    requires RepresentsBut(st, segs, stale) && i + 1 < |segs| && segs[i].free && segs[i + 1].free
    ensures var s, n := segs[i].start, segs[i + 1].start;
            && s < |st.mem| && n < |st.mem| && InArea(st.mem, st.mem[n].next) && InArea(st.mem, st.mem[n].nextFree)
            && HeadersOnly(st.mem, JoinMem(st.mem, s, n), segs)
  {
    hide JoinMem, Starts, NextFree;
    var m, s, n := st.mem, segs[i].start, segs[i + 1].start;
    assert HeaderOk(m, segs, i + 1, stale);
    JoinReady(m, segs, i, stale);
    JoinCells(m, s, n);
    PointsToHeader(segs, i);
    PointsToHeader(segs, i + 2);
    PointsToHeader(segs, NextFree(segs, i + 2));
    forall o | 0 <= o < |m| && JoinMem(m, s, n)[o] != m[o] ensures o in Starts(segs) {
      assert JoinMem(m, s, n)[o] == AfterJoin(m, s, n, o);
    }
  }

  lemma {:induction false} NothingStored(m: Memory, segs: Segs)
    ensures HeadersOnly(m, m, segs)
  {
  }

  /** What is picked, when it is not stale, can be taken off the free list. */
  lemma {:induction false} PickIsFresh(st: State, segs: Segs, stale: set<nat>, nodes: seq<nat>, r: nat)
    requires RepresentsBut(st, segs, stale) && Chain(st.mem, st.first, nodes) && FindsFresh(segs, r, stale)
    ensures var p := Pick(st.mem, st.first, nodes, r);
            p.At? ==> Sound(st.mem, p.offset)
  {
    SearchFindsFirstFit(st, segs, stale, nodes, r);
    var i := FirstFit(segs, 0, r);
    if i < |segs| { FreeIsSound(st, segs, i, stale); }
  }

  lemma {:induction false} StoresOfRequest(st: State, segs: Segs, stale: set<nat>, nodes: seq<nat>, r: nat, relink: bool)
    requires RepresentsBut(st, segs, stale) && Chain(st.mem, st.first, nodes) && FindsFresh(segs, r, stale)
    ensures var p := Pick(st.mem, st.first, nodes, r);
            var i := FirstFit(segs, 0, r);
            p.At? ==> && i < |segs| && Sound(st.mem, p.offset)
                      && HeadersOnly(st.mem, AllocateAt(st, p.offset, r, relink).mem, Take(segs, i, r))
  {
    hide AllocateAt, Take, Sound, HeadersOnly;
    SearchFindsFirstFit(st, segs, stale, nodes, r);
    var i := FirstFit(segs, 0, r);
    if i < |segs| { AllocateStores(st, segs, i, r, relink, stale); }
  }
}
