/** What the four pointer updates of the allocator mean for the segments: each takes memory
    that stands for a sequence of segments to memory that stands for the sequence after the
    matching step.  For each step, one lemma per kind of place (before, at and behind the
    segment concerned) looks at a single header; the last lemma puts the places together. */
module LinkSteps {
  import opened Segments
  import opened Headers

  lemma {:induction false} StartsDiffer(segs: Segs, size: nat, a: nat, b: nat)
    requires Tiles(segs, size) && a < |segs| && b < |segs|
    ensures segs[a].start == segs[b].start <==> a == b
    ensures segs[a].End() <= size && segs[b].End() <= size
    ensures a < b ==> segs[a].End() <= segs[b].start
    ensures b < a ==> segs[b].End() <= segs[a].start
  {
    InAddressOrder(segs, size);
  }

  /** The free neighbours of segment `i` have a start of their own. */
  lemma {:induction false} NeighboursDiffer(segs: Segs, size: nat, i: nat, k: nat, b: int, f: int)
    requires Tiles(segs, size) && i < |segs| && k < |segs| && b < i < f
    ensures 0 <= b ==> (segs[b].start == segs[k].start <==> b == k)
    ensures f < |segs| ==> (segs[f].start == segs[k].start <==> f == k)
    ensures segs[i].start == segs[k].start <==> i == k
  {
    StartsDiffer(segs, size, i, k);
    if f < |segs| { StartsDiffer(segs, size, f, k); }
    if b >= 0 { StartsDiffer(segs, size, b, k); }
  }

  lemma {:induction false} Confirm(m: Memory, segs: Segs, i: nat, stale: set<nat>, nf: int, pf: int, trusted: bool)
    requires i < |segs| && HeaderIs(m, segs, i, nf, pf, trusted)
    requires segs[i].free ==> nf == NextFree(segs, i + 1)
    requires segs[i].free && segs[i].start !in stale ==> trusted && pf == PrevFree(segs, i)
    ensures HeaderOk(m, segs, i, stale)
  {
  }

  /** Behind free segment `i`, every free segment has a free segment before it, and only the
      next free one has `i` itself. */
  lemma {:induction false} FreeOrder(segs: Segs, i: nat, k: nat)
    requires i < k < |segs| && segs[i].free
    ensures i <= PrevFree(segs, k) < k < NextFree(segs, k + 1)
    ensures segs[k].free ==> (NextFree(segs, i + 1) == k <==> PrevFree(segs, k) == i)
    ensures segs[k].free ==> NextFree(segs, i + 1) <= k
  {
  }

  // ---------------------------------------------------------------- split

  lemma {:induction false} SplitAhead(m: Memory, segs: Segs, i: nat, r: nat, relink: bool, t: Memory, u: Segs,
                                      f: int, k: nat, nf: int, pf: int, trusted: bool)
    requires Tiles(segs, |m|) && i < k < |segs| && Splits(segs[i], r) && IsCut(segs, i, r, u)
    requires |t| == |m| && HeaderIs(m, segs, i, f, -1, false) && segs[i].free && i < f <= |segs|
    requires segs[k].start < |m|
    requires t[segs[k].start] == AfterSplit(m, segs[i].start, segs[i].Payload() + r, relink, segs[k].start)
    requires HeaderIs(m, segs, k, nf, pf, trusted) && nf > k
    requires segs[k].free ==> i <= pf < k <= nf && (k == f <==> pf == i)
    ensures HeaderIs(t, u, k + 1, nf + 1, pf + 1, if k == f then relink else trusted)
  {
    StartsDiffer(segs, |m|, i, k);
    StartsDiffer(segs, |m|, i + 1, k);
    if f < |segs| { StartsDiffer(segs, |m|, f, k); }
    assert u[k + 1] == segs[k];
    if segs[k].free && pf > i { assert u[pf + 1] == segs[pf]; }
  }

  lemma {:induction false} SplitBehind(m: Memory, segs: Segs, i: nat, r: nat, relink: bool, t: Memory, u: Segs,
                                       f: int, k: nat, nf: int, pf: int, trusted: bool)
    requires Tiles(segs, |m|) && k < i < |segs| && Splits(segs[i], r) && IsCut(segs, i, r, u)
    requires |t| == |m| && HeaderIs(m, segs, i, f, -1, false) && segs[i].free && i < f <= |segs|
    requires segs[k].start < |m|
    requires t[segs[k].start] == AfterSplit(m, segs[i].start, segs[i].Payload() + r, relink, segs[k].start)
    requires HeaderIs(m, segs, k, nf, pf, trusted) && pf < k && nf <= i
    ensures HeaderIs(t, u, k, nf, pf, trusted)
  {
    StartsDiffer(segs, |m|, i, k);
    if i + 1 < |segs| { StartsDiffer(segs, |m|, i + 1, k); }
    if f < |segs| { StartsDiffer(segs, |m|, f, k); }
  }

  lemma {:induction false} SplitHere(m: Memory, segs: Segs, i: nat, r: nat, relink: bool, t: Memory, u: Segs,
                                     f: int, pf: int, trusted: bool)
    requires Tiles(segs, |m|) && i < |segs| && Splits(segs[i], r) && IsCut(segs, i, r, u)
    requires |t| == |m| && HeaderIs(m, segs, i, f, pf, trusted) && segs[i].free && pf < i < f <= |segs|
    requires forall o :: 0 <= o < |m| ==> t[o] == AfterSplit(m, segs[i].start, segs[i].Payload() + r, relink, o)
    ensures HeaderIs(t, u, i, i + 1, pf, trusted) && HeaderIs(t, u, i + 1, f + 1, i, true)
  {
    StartsDiffer(segs, |m|, i, i);
    if f < |segs| { StartsDiffer(segs, |m|, f, i); }
    assert t[u[i].start] == AfterSplit(m, segs[i].start, segs[i].Payload() + r, relink, u[i].start);
    assert t[u[i + 1].start] == AfterSplit(m, segs[i].start, segs[i].Payload() + r, relink, u[i + 1].start);
  }

  lemma {:induction false} SplitReady(m: Memory, segs: Segs, i: nat, r: nat, stale: set<nat>)
    requires Tiles(segs, |m|) && i < |segs| && segs[i].free && Splits(segs[i], r)
    requires HeaderOk(m, segs, i, stale)
    ensures var s := segs[i].start;
            var n := s + HEADER + r;
            && n < |m| && InArea(m, m[s].next) && InArea(m, m[s].nextFree)
            && m[s].next != At(s) && m[s].next != At(n) && m[s].nextFree != At(s) && m[s].nextFree != At(n)
  {
    var f := NextFree(segs, i + 1);
    StartsDiffer(segs, |m|, i, i);
    if f < |segs| { StartsDiffer(segs, |m|, i, f); }
    if i + 1 < |segs| { StartsDiffer(segs, |m|, i, i + 1); }
  }

  /** What is stale after a split: without the back-link, also the next free header; with it,
      that header is right whatever it was before. */
  ghost function SplitStale(segs: Segs, i: nat, relink: bool, stale: set<nat>): set<nat>
    requires i < |segs|
  {
    var f := NextFree(segs, i + 1);
    if f == |segs| then stale else if relink then stale - {segs[f].start} else stale + {segs[f].start}
  }

  lemma {:induction false} SplitPlaceBehind(m: Memory, segs: Segs, i: nat, r: nat, relink: bool, stale: set<nat>, t: Memory, u: Segs,
                                            k: nat)
    requires Tiles(segs, |m|) && i < |segs| && segs[i].free && Splits(segs[i], r) && IsCut(segs, i, r, u)
    requires |t| == |m| && segs[i].start < |m| && HeaderOk(m, segs, i, stale)
    requires k < i && HeaderOk(m, segs, k, stale)
    requires t[segs[k].start] == AfterSplit(m, segs[i].start, segs[i].Payload() + r, relink, segs[k].start)
    ensures HeaderOk(t, u, k, SplitStale(segs, i, relink, stale))
  {
    hide Tiles, NextFree, PrevFree, AfterSplit;
    var nf, pf := NextFree(segs, k + 1), PrevFree(segs, k);
    var trusted := segs[k].start !in stale;
    var f := NextFree(segs, i + 1);
    SplitBehind(m, segs, i, r, relink, t, u, f, k, nf, pf, trusted);
    CutBefore(segs, i, r, u, k);
    CutBefore(segs, i, r, u, k + 1);
    if f < |segs| { StartsDiffer(segs, |m|, f, k); }
    Confirm(t, u, k, SplitStale(segs, i, relink, stale), nf, pf, trusted);
  }

  lemma {:induction false} SplitPlaceAhead(m: Memory, segs: Segs, i: nat, r: nat, relink: bool, stale: set<nat>, t: Memory, u: Segs,
                                           k: nat)
    requires Tiles(segs, |m|) && i < |segs| && segs[i].free && Splits(segs[i], r) && IsCut(segs, i, r, u)
    requires |t| == |m| && segs[i].start < |m| && HeaderOk(m, segs, i, stale)
    requires i < k < |segs| && HeaderOk(m, segs, k, stale)
    requires t[segs[k].start] == AfterSplit(m, segs[i].start, segs[i].Payload() + r, relink, segs[k].start)
    requires NextFree(u, k + 2) == NextFree(segs, k + 1) + 1 && PrevFree(u, k + 1) == PrevFree(segs, k) + 1
    ensures HeaderOk(t, u, k + 1, SplitStale(segs, i, relink, stale))
  {
    hide Tiles, NextFree, PrevFree, AfterSplit;
    var nf, pf := NextFree(segs, k + 1), PrevFree(segs, k);
    var f := NextFree(segs, i + 1);
    FreeOrder(segs, i, k);
    var trusted := segs[k].start !in stale;
    SplitAhead(m, segs, i, r, relink, t, u, f, k, nf, pf, trusted);
    if f < |segs| { StartsDiffer(segs, |m|, f, k); }
    assert u[k + 1] == segs[k];
    Confirm(t, u, k + 1, SplitStale(segs, i, relink, stale), nf + 1, pf + 1, if k == f then relink else trusted);
  }

  lemma {:induction false} SplitPlaceHere(m: Memory, segs: Segs, i: nat, r: nat, relink: bool, stale: set<nat>, t: Memory, u: Segs)
    requires Tiles(segs, |m|) && i < |segs| && segs[i].free && Splits(segs[i], r) && IsCut(segs, i, r, u)
    requires |t| == |m| && segs[i].start < |m| && HeaderOk(m, segs, i, stale)
    requires forall o :: 0 <= o < |m| ==> t[o] == AfterSplit(m, segs[i].start, segs[i].Payload() + r, relink, o)
    ensures HeaderOk(t, u, i, SplitStale(segs, i, relink, stale)) && HeaderOk(t, u, i + 1, SplitStale(segs, i, relink, stale))
  {
    hide Tiles, NextFree, PrevFree, AfterSplit;
    var f, pf := NextFree(segs, i + 1), PrevFree(segs, i);
    var trusted := segs[i].start !in stale;
    SplitHere(m, segs, i, r, relink, t, u, f, pf, trusted);
    if f < |segs| { StartsDiffer(segs, |m|, f, i); }
    CutBefore(segs, i, r, u, i);
    CutAfter(segs, i, r, u, i + 1);
    NextFreeIs(u, i + 1, i + 1);
    PrevFreeIs(u, i + 1, i);
    Confirm(t, u, i, SplitStale(segs, i, relink, stale), i + 1, pf, trusted);
    Confirm(t, u, i + 1, SplitStale(segs, i, relink, stale), f + 1, i, true);
  }

  lemma {:induction false} AroundCut(segs: Segs, i: nat, r: nat, u: Segs, k: nat)
    requires i < k < |segs| && segs[i].free && Splits(segs[i], r) && IsCut(segs, i, r, u)
    ensures NextFree(u, k + 2) == NextFree(segs, k + 1) + 1 && PrevFree(u, k + 1) == PrevFree(segs, k) + 1
  {
    CutAfter(segs, i, r, u, k);
    CutAfter(segs, i, r, u, k + 1);
  }

  lemma {:induction false} SplitPlacesAhead(m: Memory, segs: Segs, i: nat, r: nat, relink: bool, stale: set<nat>, left: set<nat>,
                                            t: Memory, u: Segs)
    requires Tiles(segs, |m|) && i < |segs| && segs[i].free && Splits(segs[i], r) && IsCut(segs, i, r, u)
    requires left == SplitStale(segs, i, relink, stale) && |t| == |m| && segs[i].start < |m|
    requires forall j :: 0 <= j < |segs| ==> HeaderOk(m, segs, j, stale)
    requires forall o :: 0 <= o < |m| ==> t[o] == AfterSplit(m, segs[i].start, segs[i].Payload() + r, relink, o)
    ensures forall j :: i + 1 < j < |u| ==> HeaderOk(t, u, j, left)
  {
    hide Tiles, NextFree, PrevFree, SplitStale, AfterSplit;
    forall j | i + 1 < j < |u| ensures HeaderOk(t, u, j, left) {
      AroundCut(segs, i, r, u, j - 1);
      SplitPlaceAhead(m, segs, i, r, relink, stale, t, u, j - 1);
    }
  }

  lemma {:induction false} SplitPlaces(m: Memory, segs: Segs, i: nat, r: nat, relink: bool, stale: set<nat>, t: Memory, u: Segs)
    requires Tiles(segs, |m|) && i < |segs| && segs[i].free && Splits(segs[i], r) && IsCut(segs, i, r, u)
    requires |t| == |m| && segs[i].start < |m|
    requires forall j :: 0 <= j < |segs| ==> HeaderOk(m, segs, j, stale)
    requires forall o :: 0 <= o < |m| ==> t[o] == AfterSplit(m, segs[i].start, segs[i].Payload() + r, relink, o)
    ensures forall j :: 0 <= j < |u| ==> HeaderOk(t, u, j, SplitStale(segs, i, relink, stale))
  {
    var left := SplitStale(segs, i, relink, stale);
    forall j | 0 <= j < i ensures HeaderOk(t, u, j, left) {
      assert HeaderOk(m, segs, j, stale);
      SplitPlaceBehind(m, segs, i, r, relink, stale, t, u, j);
    }
    SplitPlacesAhead(m, segs, i, r, relink, stale, left, t, u);
    assert HeaderOk(m, segs, i, stale);
    SplitPlaceHere(m, segs, i, r, relink, stale, t, u);
  }

  /** Splitting free segment `i` cuts it in two; without the back-link, the free segment
      behind it is left with a stale `prevFree`. */
  lemma {:induction false} SplitRepresents(st: State, segs: Segs, i: nat, r: nat, relink: bool, stale: set<nat>)
    requires RepresentsBut(st, segs, stale) && Aligned(segs)
    requires i < |segs| && segs[i].free && Splits(segs[i], r) && r % 8 == 0
    ensures var s := segs[i].start;
            && s + HEADER + r < |st.mem| && InArea(st.mem, st.mem[s].next) && InArea(st.mem, st.mem[s].nextFree)
            && RepresentsBut(State(SplitMem(st.mem, s, r, relink), st.first), Cut(segs, i, r), SplitStale(segs, i, relink, stale))
  {
    var m := st.mem;
    assert HeaderOk(m, segs, i, stale);
    SplitReady(m, segs, i, r, stale);
    SplitCells(m, segs[i].start, r, relink);
    var t := SplitMem(m, segs[i].start, r, relink);
    var u := Cut(segs, i, r);
    CutTiles(segs, |m|, i, r);
    CutBefore(segs, i, r, u, 0);
    SplitPlaces(m, segs, i, r, relink, stale, t, u);
  }

  // ---------------------------------------------------------------- unlink

  /** The next free header gets a correct `prevFree`, whatever it had before. */
  ghost function WithoutNext(segs: Segs, i: nat, stale: set<nat>): set<nat>
    requires i < |segs|
  {
    var f := NextFree(segs, i + 1);
    if f == |segs| then stale else stale - {segs[f].start}
  }

  lemma {:induction false} UnlinkBehind(m: Memory, segs: Segs, i: nat, t: Memory, u: Segs,
                                        b: int, f: int, k: nat, nf: int, pf: int, trusted: bool)
    requires Tiles(segs, |m|) && k < i < |segs| && IsMark(segs, i, false, u)
    requires |t| == |m| && HeaderIs(m, segs, i, f, b, true) && segs[i].free && b < i < f <= |segs|
    requires segs[k].start < |m| && t[segs[k].start] == AfterUnlink(m, segs[i].start, segs[k].start)
    requires HeaderIs(m, segs, k, nf, pf, trusted) && pf < k && (segs[k].free ==> (nf == i <==> k == b))
    ensures HeaderIs(t, u, k, if nf == i then f else nf, pf, trusted)
  {
    NeighboursDiffer(segs, |m|, i, k, b, f);
  }

  lemma {:induction false} UnlinkAhead(m: Memory, segs: Segs, i: nat, t: Memory, u: Segs,
                                       b: int, f: int, k: nat, nf: int, pf: int, trusted: bool)
    requires Tiles(segs, |m|) && i < k < |segs| && IsMark(segs, i, false, u)
    requires |t| == |m| && HeaderIs(m, segs, i, f, b, true) && segs[i].free && b < i < f <= |segs|
    requires segs[k].start < |m| && t[segs[k].start] == AfterUnlink(m, segs[i].start, segs[k].start)
    requires HeaderIs(m, segs, k, nf, pf, trusted) && nf > k && (segs[k].free ==> (pf == i <==> k == f))
    ensures HeaderIs(t, u, k, nf, if pf == i then b else pf, trusted || k == f)
  {
    NeighboursDiffer(segs, |m|, i, k, b, f);
  }

  lemma {:induction false} UnlinkPlaceBehind(m: Memory, segs: Segs, i: nat, stale: set<nat>, t: Memory, u: Segs, k: nat)
    requires Tiles(segs, |m|) && i < |segs| && segs[i].free && segs[i].start !in stale && IsMark(segs, i, false, u)
    requires |t| == |m| && HeaderOk(m, segs, i, stale)
    requires k < i && HeaderOk(m, segs, k, stale)
    requires t[segs[k].start] == AfterUnlink(m, segs[i].start, segs[k].start)
    ensures HeaderOk(t, u, k, WithoutNext(segs, i, stale))
  {
    hide Tiles, NextFree, PrevFree, AfterUnlink;
    var b, f := PrevFree(segs, i), NextFree(segs, i + 1);
    var nf, pf := NextFree(segs, k + 1), PrevFree(segs, k);
    var trusted := segs[k].start !in stale;
    UnlinkBehind(m, segs, i, t, u, b, f, k, nf, pf, trusted);
    if f < |segs| { StartsDiffer(segs, |m|, f, k); }
    MarkBefore(segs, i, u, k);
    MarkBefore(segs, i, u, k + 1);
    Confirm(t, u, k, WithoutNext(segs, i, stale), if nf == i then f else nf, pf, trusted);
  }

  lemma {:induction false} UnlinkPlaceAhead(m: Memory, segs: Segs, i: nat, stale: set<nat>, t: Memory, u: Segs, k: nat)
    requires Tiles(segs, |m|) && i < |segs| && segs[i].free && segs[i].start !in stale && IsMark(segs, i, false, u)
    requires |t| == |m| && HeaderOk(m, segs, i, stale)
    requires i < k < |segs| && HeaderOk(m, segs, k, stale)
    requires t[segs[k].start] == AfterUnlink(m, segs[i].start, segs[k].start)
    ensures HeaderOk(t, u, k, WithoutNext(segs, i, stale))
  {
    hide Tiles, NextFree, PrevFree, AfterUnlink;
    var b, f := PrevFree(segs, i), NextFree(segs, i + 1);
    var nf, pf := NextFree(segs, k + 1), PrevFree(segs, k);
    var trusted := segs[k].start !in stale;
    UnlinkAhead(m, segs, i, t, u, b, f, k, nf, pf, trusted);
    if f < |segs| { StartsDiffer(segs, |m|, f, k); }
    MarkAfter(segs, i, u, k);
    MarkAfter(segs, i, u, k + 1);
    Confirm(t, u, k, WithoutNext(segs, i, stale), nf, if pf == i then b else pf, trusted || k == f);
  }

  lemma {:induction false} UnlinkPlaces(m: Memory, segs: Segs, i: nat, stale: set<nat>, t: Memory, u: Segs)
    requires Tiles(segs, |m|) && i < |segs| && segs[i].free && segs[i].start !in stale && IsMark(segs, i, false, u)
    requires |t| == |m| && forall j :: 0 <= j < |segs| ==> HeaderOk(m, segs, j, stale)
    requires forall o :: 0 <= o < |m| ==> segs[i].start < |m| && t[o] == AfterUnlink(m, segs[i].start, o)
    ensures forall j :: 0 <= j < |u| ==> HeaderOk(t, u, j, WithoutNext(segs, i, stale))
  {
    hide Tiles, WithoutNext, NextFree, PrevFree;
    var left := WithoutNext(segs, i, stale);
    assert HeaderOk(m, segs, i, stale);
    forall k | 0 <= k < i ensures HeaderOk(t, u, k, left) {
      assert HeaderOk(m, segs, k, stale);
      UnlinkPlaceBehind(m, segs, i, stale, t, u, k);
    }
    forall k | i < k < |u| ensures HeaderOk(t, u, k, left) {
      assert HeaderOk(m, segs, k, stale);
      UnlinkPlaceAhead(m, segs, i, stale, t, u, k);
    }
    assert HeaderOk(t, u, i, left);
  }

  /** Taking segment `i` off the free list marks it live and changes nothing else. */
  lemma {:induction false} UnlinkRepresents(st: State, segs: Segs, i: nat, stale: set<nat>)
    requires RepresentsBut(st, segs, stale)
    requires i < |segs| && segs[i].free && segs[i].start !in stale
    ensures var s := segs[i].start;
            && s < |st.mem| && InArea(st.mem, st.mem[s].prevFree) && InArea(st.mem, st.mem[s].nextFree)
            && RepresentsBut(UnlinkMem(st, s), Mark(segs, i, false), WithoutNext(segs, i, stale))
  {
    var m := st.mem;
    var u := Mark(segs, i, false);
    var b, f := PrevFree(segs, i), NextFree(segs, i + 1);
    assert HeaderOk(m, segs, i, stale);
    if f < |segs| { StartsDiffer(segs, |m|, f, i); }
    if b >= 0 { StartsDiffer(segs, |m|, b, i); }
    UnlinkCells(st, segs[i].start);
    MarkTiles(segs, |m|, i, false);
    UnlinkFirst(segs, i, u);
    var t := UnlinkMem(st, segs[i].start).mem;
    UnlinkPlaces(m, segs, i, stale, t, u);
  }

  lemma {:induction false} UnlinkFirst(segs: Segs, i: nat, u: Segs)
    requires i < |segs| && segs[i].free && IsMark(segs, i, false, u)
    ensures PrevFree(segs, i) == -1 <==> NextFree(segs, 0) == i
    ensures PointerTo(u, NextFree(u, 0))
            == if PrevFree(segs, i) == -1 then PointerTo(segs, NextFree(segs, i + 1)) else PointerTo(segs, NextFree(segs, 0))
  {
  }

  // ---------------------------------------------------------------- relink

  /** The first free segment lies below segment `i` exactly when `i` has a free segment before it. */
  lemma {:induction false} FirstBefore(segs: Segs, size: nat, i: nat)
    requires Tiles(segs, size) && i < |segs| && !segs[i].free
    ensures var first := PointerTo(segs, NextFree(segs, 0));
            PrevFree(segs, i) == -1 <==> first.Null? || segs[i].start < first.offset
    ensures PrevFree(segs, i) == -1 ==> NextFree(segs, 0) == NextFree(segs, i + 1)
  {
    var j := NextFree(segs, 0);
    if j < |segs| { StartsDiffer(segs, size, i, j); }
  }

  /** Relinking sets the back-links of the segment itself and of the next free one. */
  ghost function Relinked(segs: Segs, i: nat, stale: set<nat>): set<nat>
    requires i < |segs|
  {
    WithoutNext(segs, i, stale) - {segs[i].start}
  }

  lemma {:induction false} RelinkBehind(m: Memory, segs: Segs, i: nat, t: Memory, u: Segs,
                                        b: int, f: int, k: nat, nf: int, pf: int, trusted: bool)
    requires Tiles(segs, |m|) && k < i < |segs| && IsMark(segs, i, true, u)
    requires |t| == |m| && segs[i].start < |m| && b < i < f <= |segs|
    requires segs[k].start < |m|
             && t[segs[k].start] == AfterRelink(m, segs[i].start, PointerTo(segs, b), PointerTo(segs, f), segs[k].start)
    requires HeaderIs(m, segs, k, nf, pf, trusted) && pf < k && (segs[k].free && k != b ==> nf <= b)
    ensures HeaderIs(t, u, k, if k == b then i else nf, pf, trusted)
  {
    NeighboursDiffer(segs, |m|, i, k, b, f);
  }

  lemma {:induction false} RelinkAhead(m: Memory, segs: Segs, i: nat, t: Memory, u: Segs,
                                       b: int, f: int, k: nat, nf: int, pf: int, trusted: bool)
    requires Tiles(segs, |m|) && i < k < |segs| && IsMark(segs, i, true, u)
    requires |t| == |m| && segs[i].start < |m| && b < i < f <= |segs|
    requires segs[k].start < |m|
             && t[segs[k].start] == AfterRelink(m, segs[i].start, PointerTo(segs, b), PointerTo(segs, f), segs[k].start)
    requires HeaderIs(m, segs, k, nf, pf, trusted) && nf > k && (segs[k].free && k != f ==> pf >= f)
    ensures HeaderIs(t, u, k, nf, if k == f then i else pf, trusted || k == f)
  {
    NeighboursDiffer(segs, |m|, i, k, b, f);
  }

  lemma {:induction false} RelinkPlaceBehind(m: Memory, segs: Segs, i: nat, stale: set<nat>, t: Memory, u: Segs, k: nat)
    requires Tiles(segs, |m|) && i < |segs| && !segs[i].free && IsMark(segs, i, true, u)
    requires |t| == |m| && segs[i].start < |m|
    requires k < i && HeaderOk(m, segs, k, stale)
    requires t[segs[k].start]
             == AfterRelink(m, segs[i].start, PointerTo(segs, PrevFree(segs, i)), PointerTo(segs, NextFree(segs, i + 1)), segs[k].start)
    ensures HeaderOk(t, u, k, Relinked(segs, i, stale))
  {
    hide Tiles, NextFree, PrevFree, AfterRelink;
    var b, f := PrevFree(segs, i), NextFree(segs, i + 1);
    var nf, pf := NextFree(segs, k + 1), PrevFree(segs, k);
    var trusted := segs[k].start !in stale;
    RelinkBehind(m, segs, i, t, u, b, f, k, nf, pf, trusted);
    MarkBefore(u, i, segs, k);
    MarkBefore(u, i, segs, k + 1);
    StartsDiffer(segs, |m|, i, k);
    if f < |segs| { StartsDiffer(segs, |m|, f, k); }
    Confirm(t, u, k, Relinked(segs, i, stale), if k == b then i else nf, pf, trusted);
  }

  lemma {:induction false} RelinkPlaceAhead(m: Memory, segs: Segs, i: nat, stale: set<nat>, t: Memory, u: Segs, k: nat)
    requires Tiles(segs, |m|) && i < |segs| && !segs[i].free && IsMark(segs, i, true, u)
    requires |t| == |m| && segs[i].start < |m|
    requires i < k < |segs| && HeaderOk(m, segs, k, stale)
    requires t[segs[k].start]
             == AfterRelink(m, segs[i].start, PointerTo(segs, PrevFree(segs, i)), PointerTo(segs, NextFree(segs, i + 1)), segs[k].start)
    ensures HeaderOk(t, u, k, Relinked(segs, i, stale))
  {
    hide Tiles, NextFree, PrevFree, AfterRelink;
    var b, f := PrevFree(segs, i), NextFree(segs, i + 1);
    var nf, pf := NextFree(segs, k + 1), PrevFree(segs, k);
    var trusted := segs[k].start !in stale;
    RelinkAhead(m, segs, i, t, u, b, f, k, nf, pf, trusted);
    MarkAfter(u, i, segs, k);
    MarkAfter(u, i, segs, k + 1);
    StartsDiffer(segs, |m|, i, k);
    if f < |segs| { StartsDiffer(segs, |m|, f, k); }
    Confirm(t, u, k, Relinked(segs, i, stale), nf, if k == f then i else pf, trusted || k == f);
  }

  lemma {:induction false} RelinkPlaceHere(m: Memory, segs: Segs, i: nat, stale: set<nat>, t: Memory, u: Segs)
    requires Tiles(segs, |m|) && i < |segs| && !segs[i].free && IsMark(segs, i, true, u)
    requires |t| == |m| && segs[i].start < |m|
    requires HeaderOk(m, segs, i, stale)
    requires t[segs[i].start]
             == AfterRelink(m, segs[i].start, PointerTo(segs, PrevFree(segs, i)), PointerTo(segs, NextFree(segs, i + 1)), segs[i].start)
    ensures HeaderOk(t, u, i, Relinked(segs, i, stale))
  {
    var b, f := PrevFree(segs, i), NextFree(segs, i + 1);
    MarkBefore(u, i, segs, i);
    MarkAfter(u, i, segs, i + 1);
    Confirm(t, u, i, Relinked(segs, i, stale), f, b, true);
  }

  lemma {:induction false} RelinkPlaces(m: Memory, segs: Segs, i: nat, stale: set<nat>, t: Memory, u: Segs)
    requires Tiles(segs, |m|) && i < |segs| && !segs[i].free && IsMark(segs, i, true, u)
    requires |t| == |m| && segs[i].start < |m|
    requires forall j :: 0 <= j < |segs| ==> HeaderOk(m, segs, j, stale)
    requires forall o :: 0 <= o < |m| ==>
               t[o] == AfterRelink(m, segs[i].start, PointerTo(segs, PrevFree(segs, i)), PointerTo(segs, NextFree(segs, i + 1)), o)
    ensures forall j :: 0 <= j < |u| ==> HeaderOk(t, u, j, Relinked(segs, i, stale))
  {
    assert HeaderOk(m, segs, i, stale);
    forall k | 0 <= k < i ensures HeaderOk(t, u, k, Relinked(segs, i, stale)) {
      assert HeaderOk(m, segs, k, stale);
      RelinkPlaceBehind(m, segs, i, stale, t, u, k);
    }
    forall k | i < k < |u| ensures HeaderOk(t, u, k, Relinked(segs, i, stale)) {
      assert HeaderOk(m, segs, k, stale);
      RelinkPlaceAhead(m, segs, i, stale, t, u, k);
    }
    RelinkPlaceHere(m, segs, i, stale, t, u);
  }

  /** Putting live segment `i` between its free neighbours marks it free and changes nothing else. */
  lemma {:induction false} RelinkRepresents(st: State, segs: Segs, i: nat, stale: set<nat>)
    requires RepresentsBut(st, segs, stale) && i < |segs| && !segs[i].free
    ensures var s := segs[i].start;
            var before := PointerTo(segs, PrevFree(segs, i));
            var after := PointerTo(segs, NextFree(segs, i + 1));
            && s < |st.mem| && InArea(st.mem, before) && InArea(st.mem, after)
            && RepresentsBut(RelinkMem(st, s, before, after), Mark(segs, i, true), Relinked(segs, i, stale))
  {
    var m := st.mem;
    var u := Mark(segs, i, true);
    var b, f := PrevFree(segs, i), NextFree(segs, i + 1);
    assert HeaderOk(m, segs, i, stale);
    if f < |segs| { StartsDiffer(segs, |m|, f, i); }
    if b >= 0 { StartsDiffer(segs, |m|, b, i); }
    RelinkCells(st, segs[i].start, PointerTo(segs, b), PointerTo(segs, f));
    MarkTiles(segs, |m|, i, true);
    UnlinkFirst(u, i, segs);
    MarkBefore(u, i, segs, i);
    MarkAfter(u, i, segs, i + 1);
    var t := RelinkMem(st, segs[i].start, PointerTo(segs, b), PointerTo(segs, f)).mem;
    RelinkPlaces(m, segs, i, stale, t, u);
  }

  // ---------------------------------------------------------------- join

  lemma {:induction false} JoinAhead(m: Memory, segs: Segs, i: nat, t: Memory, u: Segs,
                                     f: int, k: nat, nf: int, pf: int, trusted: bool)
    requires Tiles(segs, |m|) && i + 1 < k < |segs| && IsFuse(segs, i, u)
    requires |t| == |m| && segs[i].start < |m| && HeaderIs(m, segs, i + 1, f, -1, false) && segs[i + 1].free
    requires i + 1 < f <= |segs|
    requires segs[k].start < |m| && t[segs[k].start] == AfterJoin(m, segs[i].start, segs[i + 1].start, segs[k].start)
    requires HeaderIs(m, segs, k, nf, pf, trusted) && nf > k
    requires segs[k].free ==> i + 1 <= pf < k && (k == f <==> pf == i + 1)
    ensures HeaderIs(t, u, k - 1, nf - 1, pf - 1, trusted || k == f)
  {
    StartsDiffer(segs, |m|, i, k);
    StartsDiffer(segs, |m|, i + 2, k);
    if f < |segs| { StartsDiffer(segs, |m|, f, k); }
    assert u[k - 1] == segs[k];
    if segs[k].free && pf > i + 1 { assert u[pf - 1] == segs[pf]; }
  }

  lemma {:induction false} JoinBehind(m: Memory, segs: Segs, i: nat, t: Memory, u: Segs,
                                      f: int, k: nat, nf: int, pf: int, trusted: bool)
    requires Tiles(segs, |m|) && k < i && i + 1 < |segs| && IsFuse(segs, i, u)
    requires |t| == |m| && segs[i].start < |m| && HeaderIs(m, segs, i + 1, f, -1, false) && segs[i + 1].free
    requires i + 1 < f <= |segs|
    requires segs[k].start < |m| && t[segs[k].start] == AfterJoin(m, segs[i].start, segs[i + 1].start, segs[k].start)
    requires HeaderIs(m, segs, k, nf, pf, trusted) && pf < k && nf <= i
    ensures HeaderIs(t, u, k, nf, pf, trusted)
  {
    StartsDiffer(segs, |m|, i, k);
    if i + 2 < |segs| { StartsDiffer(segs, |m|, i + 2, k); }
    if f < |segs| { StartsDiffer(segs, |m|, f, k); }
  }

  lemma {:induction false} JoinHere(m: Memory, segs: Segs, i: nat, t: Memory, u: Segs,
                                    f: int, nf: int, pf: int, trusted: bool)
    requires Tiles(segs, |m|) && i + 1 < |segs| && IsFuse(segs, i, u)
    requires |t| == |m| && segs[i].start < |m| && HeaderIs(m, segs, i + 1, f, -1, false) && segs[i + 1].free
    requires i + 1 < f <= |segs|
    requires t[segs[i].start] == AfterJoin(m, segs[i].start, segs[i + 1].start, segs[i].start)
    requires HeaderIs(m, segs, i, nf, pf, trusted) && pf < i
    ensures HeaderIs(t, u, i, f - 1, pf, trusted)
  {
  }

  lemma {:induction false} JoinReady(m: Memory, segs: Segs, i: nat, stale: set<nat>)
    requires Tiles(segs, |m|) && i + 1 < |segs| && segs[i].free && segs[i + 1].free
    requires HeaderOk(m, segs, i + 1, stale)
    ensures var s, n := segs[i].start, segs[i + 1].start;
            && s < |m| && n < |m| && s != n && InArea(m, m[n].next) && InArea(m, m[n].nextFree)
            && m[n].next != At(s) && m[n].next != At(n) && m[n].nextFree != At(s) && m[n].nextFree != At(n)
  {
    var f := NextFree(segs, i + 2);
    StartsDiffer(segs, |m|, i, i + 1);
    if f < |segs| {
      StartsDiffer(segs, |m|, i, f);
      StartsDiffer(segs, |m|, i + 1, f);
    }
    if i + 2 < |segs| {
      StartsDiffer(segs, |m|, i, i + 2);
      StartsDiffer(segs, |m|, i + 1, i + 2);
    }
  }

  lemma {:induction false} JoinPlaceBehind(m: Memory, segs: Segs, i: nat, stale: set<nat>, t: Memory, u: Segs, k: nat)
    requires Tiles(segs, |m|) && i + 1 < |segs| && segs[i].free && segs[i + 1].free && IsFuse(segs, i, u)
    requires |t| == |m| && segs[i].start < |m| && HeaderOk(m, segs, i + 1, stale)
    requires k < i && HeaderOk(m, segs, k, stale)
    requires t[segs[k].start] == AfterJoin(m, segs[i].start, segs[i + 1].start, segs[k].start)
    ensures HeaderOk(t, u, k, WithoutNext(segs, i + 1, stale))
  {
    hide Tiles, NextFree, PrevFree, AfterJoin;
    var f := NextFree(segs, i + 2);
    var nf, pf := NextFree(segs, k + 1), PrevFree(segs, k);
    var trusted := segs[k].start !in stale;
    JoinBehind(m, segs, i, t, u, f, k, nf, pf, trusted);
    FuseBefore(segs, i, u, k);
    FuseBefore(segs, i, u, k + 1);
    if f < |segs| { StartsDiffer(segs, |m|, f, k); }
    Confirm(t, u, k, WithoutNext(segs, i + 1, stale), nf, pf, trusted);
  }

  lemma {:induction false} JoinPlaceAhead(m: Memory, segs: Segs, i: nat, stale: set<nat>, t: Memory, u: Segs, k: nat)
    requires Tiles(segs, |m|) && i + 1 < |segs| && segs[i].free && segs[i + 1].free && IsFuse(segs, i, u)
    requires |t| == |m| && segs[i].start < |m| && HeaderOk(m, segs, i + 1, stale)
    requires i + 1 < k < |segs| && HeaderOk(m, segs, k, stale)
    requires t[segs[k].start] == AfterJoin(m, segs[i].start, segs[i + 1].start, segs[k].start)
    requires NextFree(u, k) == NextFree(segs, k + 1) - 1 && PrevFree(u, k - 1) == PrevFree(segs, k) - 1
    ensures HeaderOk(t, u, k - 1, WithoutNext(segs, i + 1, stale))
  {
    hide Tiles, NextFree, PrevFree, AfterJoin;
    var f := NextFree(segs, i + 2);
    var nf, pf := NextFree(segs, k + 1), PrevFree(segs, k);
    var trusted := segs[k].start !in stale;
    FreeOrder(segs, i + 1, k);
    JoinAhead(m, segs, i, t, u, f, k, nf, pf, trusted);
    if f < |segs| { StartsDiffer(segs, |m|, f, k); }
    assert u[k - 1] == segs[k];
    assert segs[k].start !in WithoutNext(segs, i + 1, stale) ==> trusted || k == f;
    Confirm(t, u, k - 1, WithoutNext(segs, i + 1, stale), nf - 1, pf - 1, trusted || k == f);
  }

  lemma {:induction false} JoinPlaceHere(m: Memory, segs: Segs, i: nat, stale: set<nat>, t: Memory, u: Segs)
    requires Tiles(segs, |m|) && i + 1 < |segs| && segs[i].free && segs[i + 1].free && IsFuse(segs, i, u)
    requires |t| == |m| && segs[i].start < |m| && HeaderOk(m, segs, i + 1, stale)
    requires HeaderOk(m, segs, i, stale)
    requires t[segs[i].start] == AfterJoin(m, segs[i].start, segs[i + 1].start, segs[i].start)
    ensures HeaderOk(t, u, i, WithoutNext(segs, i + 1, stale))
  {
    hide Tiles, NextFree, PrevFree, AfterJoin;
    var f := NextFree(segs, i + 2);
    var nf, pf := NextFree(segs, i + 1), PrevFree(segs, i);
    var trusted := segs[i].start !in stale;
    JoinHere(m, segs, i, t, u, f, nf, pf, trusted);
    FuseBefore(segs, i, u, i);
    FuseAfter(segs, i, u, i + 2);
    if f < |segs| { StartsDiffer(segs, |m|, f, i); }
    Confirm(t, u, i, WithoutNext(segs, i + 1, stale), f - 1, pf, trusted);
  }

  lemma {:induction false} AroundFuse(segs: Segs, i: nat, u: Segs, k: nat)
    requires i + 1 < k < |segs| && segs[i].free && segs[i + 1].free && IsFuse(segs, i, u)
    ensures NextFree(u, k) == NextFree(segs, k + 1) - 1 && PrevFree(u, k - 1) == PrevFree(segs, k) - 1
  {
    FuseAfter(segs, i, u, k);
    FuseAfter(segs, i, u, k + 1);
  }

  lemma {:induction false} JoinPlacesAhead(m: Memory, segs: Segs, i: nat, stale: set<nat>, left: set<nat>, t: Memory,
                                           u: Segs)
    requires Tiles(segs, |m|) && i + 1 < |segs| && segs[i].free && segs[i + 1].free && IsFuse(segs, i, u)
    requires |t| == |m| && segs[i].start < |m| && segs[i + 1].start < |m| && left == WithoutNext(segs, i + 1, stale)
    requires forall j :: 0 <= j < |segs| ==> HeaderOk(m, segs, j, stale)
    requires forall o :: 0 <= o < |m| ==> t[o] == AfterJoin(m, segs[i].start, segs[i + 1].start, o)
    ensures forall j :: i < j < |u| ==> HeaderOk(t, u, j, left)
  {
    hide Tiles, NextFree, PrevFree, WithoutNext, AfterJoin;
    forall j | i < j < |u| ensures HeaderOk(t, u, j, left) {
      AroundFuse(segs, i, u, j + 1);
      JoinPlaceAhead(m, segs, i, stale, t, u, j + 1);
    }
  }

  lemma {:induction false} JoinPlaces(m: Memory, segs: Segs, i: nat, stale: set<nat>, left: set<nat>, t: Memory,
                                      u: Segs)
    requires Tiles(segs, |m|) && i + 1 < |segs| && segs[i].free && segs[i + 1].free && IsFuse(segs, i, u)
    requires |t| == |m| && segs[i].start < |m| && segs[i + 1].start < |m| && left == WithoutNext(segs, i + 1, stale)
    requires forall j :: 0 <= j < |segs| ==> HeaderOk(m, segs, j, stale)
    requires forall o :: 0 <= o < |m| ==> t[o] == AfterJoin(m, segs[i].start, segs[i + 1].start, o)
    ensures forall j :: 0 <= j < |u| ==> HeaderOk(t, u, j, left)
  {
    assert HeaderOk(m, segs, i, stale) && HeaderOk(m, segs, i + 1, stale);
    JoinPlaceHere(m, segs, i, stale, t, u);
    forall j | 0 <= j < i ensures HeaderOk(t, u, j, left) {
      JoinPlaceBehind(m, segs, i, stale, t, u, j);
    }
    JoinPlacesAhead(m, segs, i, stale, left, t, u);
  }

  /** Dissolving free segment `i + 1` into free segment `i` fuses the two. */
  lemma {:induction false} JoinRepresents(st: State, segs: Segs, i: nat, stale: set<nat>)
    requires RepresentsBut(st, segs, stale)
    requires i + 1 < |segs| && segs[i].free && segs[i + 1].free
    ensures var s, n := segs[i].start, segs[i + 1].start;
            && s < |st.mem| && n < |st.mem| && InArea(st.mem, st.mem[n].next) && InArea(st.mem, st.mem[n].nextFree)
            && RepresentsBut(State(JoinMem(st.mem, s, n), st.first), Fuse(segs, i), WithoutNext(segs, i + 1, stale))
  {
    var m := st.mem;
    assert HeaderOk(m, segs, i + 1, stale);
    JoinReady(m, segs, i, stale);
    JoinCells(m, segs[i].start, segs[i + 1].start);
    var t := JoinMem(m, segs[i].start, segs[i + 1].start);
    var u := Fuse(segs, i);
    FuseTiles(segs, |m|, i);
    FuseBefore(segs, i, u, 0);
    JoinPlaces(m, segs, i, stale, WithoutNext(segs, i + 1, stale), t, u);
  }
}
