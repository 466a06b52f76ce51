/** The segment headers in memory: the links that run through them, the pointer updates of
    the allocator written as functions on memory, and what they mean for the segments. */
module Headers {
  import opened Segments

  datatype Pointer = Null | At(offset: nat)

  datatype Header = Header(next: Pointer, prev: Pointer, free: bool, nextFree: Pointer, prevFree: Pointer)

  /** What would be read at each offset of the area if a header were there. */
  type Memory = seq<Header>

  datatype State = State(mem: Memory, first: Pointer)

  predicate InArea(m: Memory, p: Pointer) {
    p.At? ==> p.offset < |m|
  }

  // ---------------------------------------------------------------- single stores, skipped for NULL

  function SetNext(m: Memory, p: Pointer, v: Pointer): (r: Memory)
    requires InArea(m, p)
    ensures |r| == |m|
  {
    if p.Null? then m else m[p.offset := m[p.offset].(next := v)]
  }

  function SetPrev(m: Memory, p: Pointer, v: Pointer): (r: Memory)
    requires InArea(m, p)
    ensures |r| == |m|
  {
    if p.Null? then m else m[p.offset := m[p.offset].(prev := v)]
  }

  function SetFree(m: Memory, p: Pointer, v: bool): (r: Memory)
    requires InArea(m, p)
    ensures |r| == |m|
  {
    if p.Null? then m else m[p.offset := m[p.offset].(free := v)]
  }

  function SetNextFree(m: Memory, p: Pointer, v: Pointer): (r: Memory)
    requires InArea(m, p)
    ensures |r| == |m|
  {
    if p.Null? then m else m[p.offset := m[p.offset].(nextFree := v)]
  }

  function SetPrevFree(m: Memory, p: Pointer, v: Pointer): (r: Memory)
    requires InArea(m, p)
    ensures |r| == |m|
  {
    if p.Null? then m else m[p.offset := m[p.offset].(prevFree := v)]
  }

  // ---------------------------------------------------------------- memory that stands for segments

  /** The start of segment `j`, NULL outside the sequence. */
  function PointerTo(segs: Segs, j: int): Pointer {
    if 0 <= j < |segs| then At(segs[j].start) else Null
  }

  /** The header of segment `i` is linked to its neighbours in the physical list and, when
      free, to segments `pf` and `nf` in the free list; `prevFree` only if `trusted`. */
  ghost predicate HeaderIs(m: Memory, segs: Segs, i: nat, nf: int, pf: int, trusted: bool)
    requires i < |segs|
  {
    var s := segs[i].start;
    && s < |m|
    && m[s].next == PointerTo(segs, i + 1)
    && m[s].prev == PointerTo(segs, i - 1)
    && m[s].free == segs[i].free
    && (segs[i].free ==> m[s].nextFree == PointerTo(segs, nf))
    && (segs[i].free && trusted ==> m[s].prevFree == PointerTo(segs, pf))
  }

  /** The header of segment `i` says what it should.  `stale` lists the headers whose
      `prevFree` is not vouched for. */
  ghost predicate HeaderOk(m: Memory, segs: Segs, i: nat, stale: set<nat>)
    requires i < |segs|
  {
    HeaderIs(m, segs, i, NextFree(segs, i + 1), PrevFree(segs, i), segs[i].start !in stale)
  }

  ghost predicate RepresentsBut(st: State, segs: Segs, stale: set<nat>) {
    && Tiles(segs, |st.mem|)
    && st.first == PointerTo(segs, NextFree(segs, 0))
    && forall i :: 0 <= i < |segs| ==> HeaderOk(st.mem, segs, i, stale)
  }

  /** The physical list is exactly `segs` in address order, doubly linked; the free list is
      exactly the free segments in address order, doubly linked. */
  ghost predicate Represents(st: State, segs: Segs) {
    RepresentsBut(st, segs, {})
  }

  lemma {:induction false} FewerStale(st: State, segs: Segs, stale: set<nat>, more: set<nat>)
    requires RepresentsBut(st, segs, stale) && stale <= more
    ensures RepresentsBut(st, segs, more)
  {
    forall i | 0 <= i < |segs| ensures HeaderOk(st.mem, segs, i, more) {
      assert HeaderOk(st.mem, segs, i, stale);
    }
  }

  // ---------------------------------------------------------------- allocate's two updates

  /** A new header at `n`, behind `s` in the physical list. */
  function InsertMem(m: Memory, s: nat, n: nat): (t: Memory)
    requires s < |m| && n < |m| && InArea(m, m[s].next)
    ensures |t| == |m|
  {
    var m1 := SetFree(SetPrev(SetNext(m, At(n), m[s].next), At(n), At(s)), At(n), true);
    var m2 := SetNext(m1, At(s), At(n));
    SetPrev(m2, m2[n].next, At(n))
  }

  /** And behind `s` in the free list.  The source leaves out the last line; `relink` adds it. */
  function InsertFreeMem(m: Memory, s: nat, n: nat, relink: bool): (t: Memory)
    requires s < |m| && n < |m| && InArea(m, m[s].nextFree)
    ensures |t| == |m|
  {
    var m1 := SetPrevFree(SetNextFree(m, At(n), m[s].nextFree), At(n), At(s));
    var m2 := SetNextFree(m1, At(s), At(n));
    if relink then SetPrevFree(m2, m2[n].nextFree, At(n)) else m2
  }

  /** Split: a new header `r` payload bytes behind `s`, linked into both lists. */
  function SplitMem(m: Memory, s: nat, r: nat, relink: bool): (t: Memory)
    requires s < |m| && s + HEADER + r < |m|
    requires InArea(m, m[s].next) && InArea(m, m[s].nextFree)
    ensures |t| == |m|
  {
    InsertFreeMem(InsertMem(m, s, s + HEADER + r), s, s + HEADER + r, relink)
  }

  /** Take `s` out of the free list. */
  function UnlinkMem(st: State, s: nat): (t: State)
    requires s < |st.mem| && InArea(st.mem, st.mem[s].prevFree) && InArea(st.mem, st.mem[s].nextFree)
    ensures |t.mem| == |st.mem|
  {
    var h := st.mem[s];
    var m1 := SetFree(st.mem, At(s), false);
    var m2 := SetNextFree(m1, h.prevFree, h.nextFree);
    var m3 := SetPrevFree(m2, m2[s].nextFree, m2[s].prevFree);
    State(m3, if h.prevFree.Null? then h.nextFree else st.first)
  }

  // ---------------------------------------------------------------- deallocate's two updates

  /** Put `s` on the free list between `before` and `after`. */
  function RelinkMem(st: State, s: nat, before: Pointer, after: Pointer): (t: State)
    requires s < |st.mem| && InArea(st.mem, before) && InArea(st.mem, after)
    ensures |t.mem| == |st.mem|
  {
    var m1 := SetFree(st.mem, At(s), true);
    var m2 := SetPrevFree(m1, At(s), before);
    var m3 := SetNextFree(m2, before, At(s));
    var m4 := SetNextFree(m3, At(s), after);
    var m5 := SetPrevFree(m4, after, At(s));
    State(m5, if before.Null? then At(s) else st.first)
  }

  /** Dissolve the header at `n` into the one at `s`. */
  function JoinMem(m: Memory, s: nat, n: nat): (t: Memory)
    requires s < |m| && n < |m| && InArea(m, m[n].next) && InArea(m, m[n].nextFree)
    ensures |t| == |m|
  {
    var m1 := SetNext(m, At(s), m[n].next);
    var m2 := SetPrev(m1, m1[n].next, At(s));
    var m3 := SetNextFree(m2, At(s), m2[n].nextFree);
    SetPrevFree(m3, m3[n].nextFree, At(s))
  }

  // ---------------------------------------------------------------- the updates, cell by cell

  function AfterSplit(m: Memory, s: nat, n: nat, relink: bool, o: nat): Header
    requires s < |m| && o < |m|
  {
    if o == s then m[s].(next := At(n), nextFree := At(n))
    else if o == n then Header(m[s].next, At(s), true, m[s].nextFree, At(s))
    else
      var h := if At(o) == m[s].next then m[o].(prev := At(n)) else m[o];
      if relink && At(o) == m[s].nextFree then h.(prevFree := At(n)) else h
  }

  lemma {:induction false} SplitCells(m: Memory, s: nat, r: nat, relink: bool)
    requires s < |m| && s + HEADER + r < |m|
    requires InArea(m, m[s].next) && InArea(m, m[s].nextFree)
    requires var n := s + HEADER + r;
             m[s].next != At(s) && m[s].next != At(n) && m[s].nextFree != At(s) && m[s].nextFree != At(n)
    ensures var t := SplitMem(m, s, r, relink);
            forall o :: 0 <= o < |m| ==> t[o] == AfterSplit(m, s, s + HEADER + r, relink, o)
  {
  }

  function AfterUnlink(m: Memory, s: nat, o: nat): Header
    requires s < |m| && o < |m|
  {
    if o == s then m[s].(free := false)
    else
      var h := if At(o) == m[s].prevFree then m[o].(nextFree := m[s].nextFree) else m[o];
      if At(o) == m[s].nextFree then h.(prevFree := m[s].prevFree) else h
  }

  lemma {:induction false} UnlinkCells(st: State, s: nat)
    requires s < |st.mem| && InArea(st.mem, st.mem[s].prevFree) && InArea(st.mem, st.mem[s].nextFree)
    requires st.mem[s].prevFree != At(s) && st.mem[s].nextFree != At(s)
    ensures var t := UnlinkMem(st, s).mem;
            forall o :: 0 <= o < |st.mem| ==> t[o] == AfterUnlink(st.mem, s, o)
  {
  }

  function AfterRelink(m: Memory, s: nat, before: Pointer, after: Pointer, o: nat): Header
    requires s < |m| && o < |m|
  {
    if o == s then m[s].(free := true, nextFree := after, prevFree := before)
    else
      var h := if At(o) == before then m[o].(nextFree := At(s)) else m[o];
      if At(o) == after then h.(prevFree := At(s)) else h
  }

  lemma {:induction false} RelinkCells(st: State, s: nat, before: Pointer, after: Pointer)
    requires s < |st.mem| && InArea(st.mem, before) && InArea(st.mem, after)
    requires before != At(s) && after != At(s)
    ensures var t := RelinkMem(st, s, before, after).mem;
            forall o :: 0 <= o < |st.mem| ==> t[o] == AfterRelink(st.mem, s, before, after, o)
  {
  }

  function AfterJoin(m: Memory, s: nat, n: nat, o: nat): Header
    requires s < |m| && n < |m| && o < |m|
  {
    if o == s then m[s].(next := m[n].next, nextFree := m[n].nextFree)
    else
      var h := if At(o) == m[n].next then m[o].(prev := At(s)) else m[o];
      if At(o) == m[n].nextFree then h.(prevFree := At(s)) else h
  }

  lemma {:induction false} JoinCells(m: Memory, s: nat, n: nat)
    requires s < |m| && n < |m| && s != n && InArea(m, m[n].next) && InArea(m, m[n].nextFree)
    requires m[n].next != At(s) && m[n].next != At(n) && m[n].nextFree != At(s) && m[n].nextFree != At(n)
    ensures var t := JoinMem(m, s, n);
            forall o :: 0 <= o < |m| ==> t[o] == AfterJoin(m, s, n, o)
  {
  }

  // ---------------------------------------------------------------- free neighbours after each step

  lemma {:induction false} NextFreeIs(segs: Segs, k: nat, j: nat)
    requires k <= j <= |segs| && (j < |segs| ==> segs[j].free)
    requires forall m :: k <= m < j ==> !segs[m].free
    ensures NextFree(segs, k) == j
  {
  }

  lemma {:induction false} PrevFreeIs(segs: Segs, k: nat, j: int)
    requires -1 <= j < k <= |segs| && (j >= 0 ==> segs[j].free)
    requires forall m :: j < m < k ==> !segs[m].free
    ensures PrevFree(segs, k) == j
  {
  }

  lemma {:induction false} CutBefore(segs: Segs, i: nat, r: nat, t: Segs, j: nat)
    requires i < |segs| && segs[i].free && Splits(segs[i], r) && IsCut(segs, i, r, t) && j <= i
    ensures PrevFree(t, j) == PrevFree(segs, j) && NextFree(t, j) == NextFree(segs, j)
  {
  }

  lemma {:induction false} CutAfter(segs: Segs, i: nat, r: nat, t: Segs, j: nat)
    requires i < j <= |segs| && segs[i].free && Splits(segs[i], r) && IsCut(segs, i, r, t)
    ensures PrevFree(t, j + 1) == PrevFree(segs, j) + 1 && NextFree(t, j + 1) == NextFree(segs, j) + 1
  {
    PrevFreeIs(t, j + 1, PrevFree(segs, j) + 1);
    NextFreeIs(t, j + 1, NextFree(segs, j) + 1);
  }

  lemma {:induction false} FuseBefore(segs: Segs, i: nat, t: Segs, j: nat)
    requires i + 1 < |segs| && segs[i].free && segs[i + 1].free && IsFuse(segs, i, t) && j <= i
    ensures PrevFree(t, j) == PrevFree(segs, j) && NextFree(t, j) == NextFree(segs, j)
  {
  }

  lemma {:induction false} FuseAfter(segs: Segs, i: nat, t: Segs, j: nat)
    requires i + 1 < j <= |segs| && segs[i].free && segs[i + 1].free && IsFuse(segs, i, t)
    ensures PrevFree(t, j - 1) == PrevFree(segs, j) - 1 && NextFree(t, j - 1) == NextFree(segs, j) - 1
  {
    PrevFreeIs(t, j - 1, PrevFree(segs, j) - 1);
    NextFreeIs(t, j - 1, NextFree(segs, j) - 1);
  }

  /** With `i` live instead of free, what was before it looks past it ... */
  lemma {:induction false} MarkBefore(segs: Segs, i: nat, t: Segs, j: nat)
    requires i < |segs| && segs[i].free && IsMark(segs, i, false, t) && j <= i
    ensures PrevFree(t, j) == PrevFree(segs, j)
    ensures NextFree(t, j) == if NextFree(segs, j) == i then NextFree(segs, i + 1) else NextFree(segs, j)
  {
  }

  /** ... and so does what was behind it. */
  lemma {:induction false} MarkAfter(segs: Segs, i: nat, t: Segs, j: nat)
    requires i < j <= |segs| && segs[i].free && IsMark(segs, i, false, t)
    ensures NextFree(t, j) == NextFree(segs, j)
    ensures PrevFree(t, j) == if PrevFree(segs, j) == i then PrevFree(segs, i) else PrevFree(segs, j)
  {
  }
}
