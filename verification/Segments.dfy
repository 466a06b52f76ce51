/** The private working area of the allocator, seen as a sequence of segments.

    A segment is a header of `HEADER` bytes followed by `capacity` payload bytes.  This
    module says what a good sequence of segments is and what the four steps of the
    allocator (split, take, release, join) do to it; it knows nothing about links. */
module Segments {

  /** The distance from the start of a header to its payload: a multiple of the strictest
      alignment, and small enough for a split-off segment to hold it.  Left open, because
      it depends on the platform. */
  type HeaderSize = h: nat | 0 < h <= 56 && h % 8 == 0 witness 40
  const HEADER: HeaderSize

  /** One more than the largest `size_t`; left open as well. */
  type WordLimit = w: nat | w >= 0x1_0000 && w % 8 == 0 witness 0x1_0000
  const SIZE_LIMIT: WordLimit
  type Size = n: nat | n < SIZE_LIMIT

  const SMALLEST_SPLIT: nat := 64
  const ROUND_UP: nat := 8

  datatype Segment = Segment(start: nat, capacity: nat, free: bool) {
    function Payload(): nat { start + HEADER }
    function End(): nat { start + HEADER + capacity }
  }

  type Segs = seq<Segment>

  // ---------------------------------------------------------------- rounding of a request

  /** The three statements that round a request up, with the addition wrapping around. */
  function RoundUp(n: Size): nat {
    var bumped := if n + (ROUND_UP - 1) < SIZE_LIMIT then n + (ROUND_UP - 1)
                  else n + (ROUND_UP - 1) - SIZE_LIMIT;
    bumped / ROUND_UP * ROUND_UP
  }

  /** The rounded request is the least multiple of 8 that covers the request; it covers it
      exactly when the addition does not wrap around, and is 0 when it does. */
  lemma {:induction false} RoundUpCovers(n: Size)
    ensures RoundUp(n) % 8 == 0
    ensures n <= RoundUp(n) <==> n + 7 < SIZE_LIMIT
    ensures n + 7 < SIZE_LIMIT ==> RoundUp(n) < n + 8
    ensures n + 7 >= SIZE_LIMIT ==> RoundUp(n) == 0
  {
  }

  // ---------------------------------------------------------------- good sequences

  /** Where segment `j` starts, or the end of the area when there is no segment `j`. */
  function Boundary(segs: Segs, j: nat, size: nat): nat {
    if j < |segs| then segs[j].start else size
  }

  ghost predicate Tiles(segs: Segs, size: nat) {
    && |segs| > 0
    && segs[0].start == 0
    && forall i {:trigger segs[i].End()} :: 0 <= i < |segs| ==> segs[i].End() == Boundary(segs, i + 1, size)
  }

  ghost predicate Aligned(segs: Segs) {
    forall i :: 0 <= i < |segs| ==> segs[i].start % 8 == 0
  }

  ghost predicate Coalesced(segs: Segs) {
    forall i, j :: 0 <= i < |segs| && j == i + 1 && j < |segs| ==> !(segs[i].free && segs[j].free)
  }

  ghost predicate WellFormed(segs: Segs, size: nat) {
    Tiles(segs, size) && Aligned(segs) && Coalesced(segs)
  }

  /** Segments do not overlap and lie in address order. */
  lemma {:induction false} EndsBefore(segs: Segs, size: nat, a: nat, b: nat)
    requires Tiles(segs, size)
    requires a < b < |segs|
    ensures segs[a].End() <= segs[b].start
    decreases b - a
  {
    assert segs[a].End() == Boundary(segs, a + 1, size);
    if a + 1 < b {
      EndsBefore(segs, size, a + 1, b);
    }
  }

  lemma {:induction false} InAddressOrder(segs: Segs, size: nat)
    requires Tiles(segs, size)
    ensures forall a, b :: 0 <= a < b < |segs| ==> segs[a].End() <= segs[b].start
    ensures forall a :: 0 <= a < |segs| ==> segs[a].End() <= size
  {
    forall a, b | 0 <= a < b < |segs| ensures segs[a].End() <= segs[b].start {
      EndsBefore(segs, size, a, b);
    }
    forall a | 0 <= a < |segs| ensures segs[a].End() <= size {
      var last := |segs| - 1;
      assert segs[last].End() == Boundary(segs, last + 1, size);
      if a < last {
        EndsBefore(segs, size, a, last);
      }
    }
  }

  // ---------------------------------------------------------------- free neighbours

  /** Index of the first free segment at or after `k`, or the length. */
  function NextFree(segs: Segs, k: nat): (j: nat)
    requires k <= |segs|
    ensures k <= j <= |segs|
    ensures j < |segs| ==> segs[j].free
    ensures forall m :: k <= m < j ==> !segs[m].free
    decreases |segs| - k
  {
    if k == |segs| || segs[k].free then k else NextFree(segs, k + 1)
  }

  /** Index of the last free segment before `k`, or -1. */
  function PrevFree(segs: Segs, k: nat): (j: int)
    requires k <= |segs|
    ensures -1 <= j < k
    ensures j >= 0 ==> segs[j].free
    ensures forall m :: j < m < k ==> !segs[m].free
  {
    if k == 0 then -1 else if segs[k - 1].free then k - 1 else PrevFree(segs, k - 1)
  }

  /** Index of the lowest free segment at or after `k` that can hold `r` bytes, or the length. */
  function FirstFit(segs: Segs, k: nat, r: nat): (j: nat)
    requires k <= |segs|
    ensures k <= j <= |segs|
    ensures j < |segs| ==> segs[j].free && segs[j].capacity >= r
    ensures forall m :: k <= m < j ==> !(segs[m].free && segs[m].capacity >= r)
    decreases |segs| - k
  {
    if k == |segs| || (segs[k].free && segs[k].capacity >= r) then k else FirstFit(segs, k + 1, r)
  }

  // ---------------------------------------------------------------- the four steps

  predicate Splits(s: Segment, r: nat) {
    s.capacity >= r + SMALLEST_SPLIT
  }

  /** `u` is `segs` with segment `i` cut in two, said place by place. */
  ghost predicate IsCut(segs: Segs, i: nat, r: nat, u: Segs)
    requires i < |segs| && Splits(segs[i], r)
  {
    && |u| == |segs| + 1
    && (forall j :: 0 <= j < i ==> u[j] == segs[j])
    && u[i] == Segment(segs[i].start, r, segs[i].free)
    && u[i + 1] == Segment(segs[i].Payload() + r, segs[i].capacity - r - HEADER, true)
    && (forall j {:trigger u[j]} :: i + 1 < j < |u| ==> u[j] == segs[j - 1])
  }

  /** `u` is `segs` with segment `i` marked `free`. */
  ghost predicate IsMark(segs: Segs, i: nat, free: bool, u: Segs)
    requires i < |segs|
  {
    && |u| == |segs|
    && u[i] == segs[i].(free := free)
    && forall j :: 0 <= j < |segs| && j != i ==> u[j] == segs[j]
  }

  /** `u` is `segs` with segment `i + 1` dissolved into segment `i`. */
  ghost predicate IsFuse(segs: Segs, i: nat, u: Segs)
    requires i + 1 < |segs|
  {
    && |u| == |segs| - 1
    && (forall j :: 0 <= j < i ==> u[j] == segs[j])
    && u[i] == Segment(segs[i].start, segs[i].capacity + HEADER + segs[i + 1].capacity, segs[i].free)
    && (forall j {:trigger u[j]} :: i < j < |u| ==> u[j] == segs[j + 1])
  }

  /** Cut free segment `i` after `r` payload bytes. */
  function Cut(segs: Segs, i: nat, r: nat): (t: Segs)
    requires i < |segs| && Splits(segs[i], r)
    ensures IsCut(segs, i, r, t)
  {
    var s := segs[i];
    segs[..i]
    + [Segment(s.start, r, s.free), Segment(s.start + HEADER + r, s.capacity - r - HEADER, true)]
    + segs[i + 1..]
  }

  function Mark(segs: Segs, i: nat, free: bool): (t: Segs)
    requires i < |segs|
    ensures IsMark(segs, i, free, t)
  {
    segs[i := segs[i].(free := free)]
  }

  /** Dissolve segment `i + 1` into segment `i`. */
  function Fuse(segs: Segs, i: nat): (t: Segs)
    requires i + 1 < |segs|
    ensures IsFuse(segs, i, t)
  {
    var s := segs[i];
    segs[..i]
    + [Segment(s.start, s.capacity + HEADER + segs[i + 1].capacity, s.free)]
    + segs[i + 2..]
  }

  /** Allocation of `r` bytes (already rounded) out of segment `i`. */
  function Take(segs: Segs, i: nat, r: nat): Segs
    requires i < |segs| && segs[i].capacity >= r
  {
    if Splits(segs[i], r) then Mark(Cut(segs, i, r), i, false) else Mark(segs, i, false)
  }

  /** Join `i` with its successor when both are free. */
  function FuseForward(segs: Segs, i: nat): (t: Segs)
    requires i < |segs|
    ensures i < |t| && t[..i] == segs[..i]
    ensures t[i].start == segs[i].start && t[i].free == segs[i].free
  {
    if i + 1 < |segs| && segs[i + 1].free then Fuse(segs, i) else segs
  }

  /** Deallocation of segment `i`. */
  function Release(segs: Segs, i: nat): Segs
    requires i < |segs|
  {
    var t := FuseForward(Mark(segs, i, true), i);
    if i > 0 && t[i - 1].free then Fuse(t, i - 1) else t
  }

  // ---------------------------------------------------------------- the steps keep tilings

  lemma {:induction false} CutStart(start: nat, r: nat)
    requires start % 8 == 0 && r % 8 == 0
    ensures (start + HEADER + r) % 8 == 0
  {
  }

  lemma {:induction false} CutTileAt(segs: Segs, size: nat, i: nat, r: nat, t: Segs, j: nat)
    requires Tiles(segs, size) && i < |segs| && Splits(segs[i], r) && IsCut(segs, i, r, t) && j < |t|
    ensures t[j].End() == Boundary(t, j + 1, size)
  {
    var k := if j <= i then j else j - 1;
    assert segs[k].End() == Boundary(segs, k + 1, size);
  }

  lemma {:induction false} CutAligned(segs: Segs, i: nat, r: nat, t: Segs)
    requires Aligned(segs) && i < |segs| && Splits(segs[i], r) && IsCut(segs, i, r, t) && r % 8 == 0
    ensures Aligned(t)
  {
    CutStart(segs[i].start, r);
  }

  lemma {:induction false} CutTiles(segs: Segs, size: nat, i: nat, r: nat)
    requires Tiles(segs, size) && Aligned(segs)
    requires i < |segs| && Splits(segs[i], r) && r % 8 == 0
    ensures Tiles(Cut(segs, i, r), size) && Aligned(Cut(segs, i, r))
  {
    hide Cut, Aligned, Boundary;
    var t := Cut(segs, i, r);
    CutAligned(segs, i, r, t);
    forall j | 0 <= j < |t| ensures t[j].End() == Boundary(t, j + 1, size) {
      CutTileAt(segs, size, i, r, t, j);
    }
  }

  lemma {:induction false} MarkTiles(segs: Segs, size: nat, i: nat, free: bool)
    requires Tiles(segs, size) && i < |segs|
    ensures Tiles(Mark(segs, i, free), size)
    ensures Aligned(segs) ==> Aligned(Mark(segs, i, free))
  {
    var t := Mark(segs, i, free);
    forall j | 0 <= j < |t| ensures t[j].End() == Boundary(t, j + 1, size) {
      assert segs[j].End() == Boundary(segs, j + 1, size);
    }
  }

  lemma {:induction false} FuseTiles(segs: Segs, size: nat, i: nat)
    requires Tiles(segs, size) && i + 1 < |segs|
    ensures Tiles(Fuse(segs, i), size)
    ensures Aligned(segs) ==> Aligned(Fuse(segs, i))
  {
    var t := Fuse(segs, i);
    assert segs[i].End() == Boundary(segs, i + 1, size);
    forall j | 0 <= j < |t| ensures t[j].End() == Boundary(t, j + 1, size) {
      if j < i {
        assert segs[j].End() == Boundary(segs, j + 1, size);
      } else {
        assert segs[j + 1].End() == Boundary(segs, j + 2, size);
      }
    }
  }

  lemma {:induction false} TakeWellFormed(segs: Segs, size: nat, i: nat, r: nat)
    requires WellFormed(segs, size)
    requires i < |segs| && segs[i].free && segs[i].capacity >= r && r % 8 == 0
    ensures WellFormed(Take(segs, i, r), size)
  {
    if Splits(segs[i], r) {
      CutTiles(segs, size, i, r);
      MarkTiles(Cut(segs, i, r), size, i, false);
      var t := Take(segs, i, r);
      forall a, b | 0 <= a < |t| && b == a + 1 && b < |t| ensures !(t[a].free && t[b].free) {
        if b < i {
        } else if a > i {
          assert t[b] == segs[b - 1];
          if a > i + 1 { assert t[a] == segs[a - 1]; }
        }
      }
    } else {
      MarkTiles(segs, size, i, false);
    }
  }

  lemma {:induction false} ReleaseTiles(segs: Segs, size: nat, i: nat)
    requires Tiles(segs, size) && Aligned(segs) && i < |segs|
    ensures Tiles(Release(segs, i), size) && Aligned(Release(segs, i))
  {
    hide Tiles, Aligned, Mark, Fuse;
    var m := Mark(segs, i, true);
    MarkTiles(segs, size, i, true);
    if i + 1 < |m| && m[i + 1].free { FuseTiles(m, size, i); }
    var t := FuseForward(m, i);
    if i > 0 && t[i - 1].free { FuseTiles(t, size, i - 1); }
  }

  /** Joining forward leaves segment `i` in front of a live one, or last. */
  lemma {:induction false} ForwardCoalesced(segs: Segs, i: nat)
    requires Coalesced(segs) && i < |segs| && !segs[i].free
    ensures var t := FuseForward(Mark(segs, i, true), i);
            forall a, b :: 0 <= a < |t| && b == a + 1 && b < |t| && b != i ==> !(t[a].free && t[b].free)
  {
    hide Mark, Fuse;
    var m := Mark(segs, i, true);
    var t := FuseForward(m, i);
    if i + 1 < |m| && m[i + 1].free {
      assert forall j :: i < j < |t| ==> t[j] == segs[j + 1];
    }
  }

  lemma {:induction false} ReleaseWellFormed(segs: Segs, size: nat, i: nat)
    requires WellFormed(segs, size) && i < |segs| && !segs[i].free
    ensures WellFormed(Release(segs, i), size)
  {
    hide Tiles, Aligned, Mark, Fuse, FuseForward;
    ReleaseTiles(segs, size, i);
    ForwardCoalesced(segs, i);
    var t := FuseForward(Mark(segs, i, true), i);
    if i > 0 && t[i - 1].free {
      var u := Fuse(t, i - 1);
      assert forall j :: i <= j < |u| ==> u[j] == t[j + 1];
    }
  }

  // ---------------------------------------------------------------- allocate, then deallocate

  /** Releasing a segment just taken gives back the sequence there was, split or not. */
  lemma {:induction false} ReleaseUndoesTake(segs: Segs, size: nat, i: nat, r: nat)
    requires WellFormed(segs, size)
    requires i < |segs| && segs[i].free && segs[i].capacity >= r
    ensures i < |Take(segs, i, r)|
    ensures Release(Take(segs, i, r), i) == segs
  {
    var t := Take(segs, i, r);
    var m := Mark(t, i, true);
    if Splits(segs[i], r) {
      assert m == Cut(segs, i, r);
      assert Fuse(m, i) == segs;
    } else {
      assert m == segs;
    }
    assert i > 0 ==> !segs[i - 1].free;
  }

  // ---------------------------------------------------------------- live blocks

  function Live(segs: Segs): set<Segment> {
    set s | s in segs && !s.free
  }

  /** The initial state: one free segment over the whole area. */
  function Initial(size: nat): Segs
    requires size >= HEADER
  {
    [Segment(0, size - HEADER, true)]
  }

  /** Allocation adds exactly one live block and touches no other. */
  lemma {:induction false} TakeAddsOne(segs: Segs, size: nat, i: nat, r: nat)
    requires Tiles(segs, size) && i < |segs| && segs[i].free && segs[i].capacity >= r
    ensures i < |Take(segs, i, r)|
    ensures var s := Take(segs, i, r)[i];
            && s.start == segs[i].start && r <= s.capacity < r + 64
            && s !in Live(segs) && Live(Take(segs, i, r)) == Live(segs) + {s}
            && forall l :: l in Live(segs) ==> l.start != s.start
  {
    InAddressOrder(segs, size);
    if Splits(segs[i], r) {
      CutKeepsLive(segs, i, r);
      MarkTaken(Cut(segs, i, r), i);
    } else {
      MarkTaken(segs, i);
    }
  }

  /** `segs` with `r` bytes handed out of segment `i`: the whole segment when fewer than 64
      bytes would be left over; otherwise `r` bytes exactly, and a new free segment behind. */
  function HandedOut(segs: Segs, i: nat, r: nat): Segs
    requires i < |segs| && segs[i].capacity >= r
  {
    var s := segs[i];
    segs[..i]
    + (if s.capacity < r + 64 then [Segment(s.start, s.capacity, false)]
       else [Segment(s.start, r, false), Segment(s.start + HEADER + r, s.capacity - r - HEADER, true)])
    + segs[i + 1..]
  }

  /** Allocation splits exactly when 64 bytes or more would be left over. */
  lemma {:induction false} TakeSplitsExactlyWhen(segs: Segs, i: nat, r: nat)
    requires i < |segs| && segs[i].capacity >= r
    ensures Take(segs, i, r) == HandedOut(segs, i, r)
  {
    hide Cut, Mark;
    if segs[i].capacity < r + 64 {
      assert Mark(segs, i, false) == segs[..i] + [segs[i].(free := false)] + segs[i + 1..];
    } else {
      CutThenTaken(segs, i, r);
    }
  }

  lemma {:induction false} CutThenTaken(segs: Segs, i: nat, r: nat)
    requires i < |segs| && Splits(segs[i], r)
    ensures Mark(Cut(segs, i, r), i, false)
            == segs[..i]
               + [Segment(segs[i].start, r, false),
                  Segment(segs[i].start + HEADER + r, segs[i].capacity - r - HEADER, true)]
               + segs[i + 1..]
  {
    hide Cut;
    var m := Mark(Cut(segs, i, r), i, false);
    var one, two := Segment(segs[i].start, r, false),
                    Segment(segs[i].start + HEADER + r, segs[i].capacity - r - HEADER, true);
    assert m[i] == one && m[i + 1] == two;
    assert m == segs[..i] + [one, two] + segs[i + 1..];
  }

  /** Deallocation removes exactly one live block and touches no other. */
  lemma {:induction false} ReleaseRemovesOne(segs: Segs, size: nat, i: nat)
    requires Tiles(segs, size) && i < |segs| && !segs[i].free
    ensures Live(Release(segs, i)) == Live(segs) - {segs[i]}
  {
    MarkReleased(segs, size, i);
    var m := Mark(segs, i, true);
    var t := FuseForward(m, i);
    if t != m { FuseKeepsLive(m, i); }
    if i > 0 && t[i - 1].free { FuseKeepsLive(t, i - 1); }
  }

  lemma {:induction false} MarkTaken(segs: Segs, i: nat)
    requires i < |segs| && segs[i].free
    ensures Live(Mark(segs, i, false)) == Live(segs) + {Mark(segs, i, false)[i]}
  {
  }

  lemma {:induction false} MarkReleased(segs: Segs, size: nat, i: nat)
    requires Tiles(segs, size) && i < |segs| && !segs[i].free
    ensures Live(Mark(segs, i, true)) == Live(segs) - {segs[i]}
  {
    var m := Mark(segs, i, true);
    forall l | l in Live(segs) - {segs[i]} ensures l in m {
      var k :| 0 <= k < |segs| && segs[k] == l;
      assert m[k] == l;
    }
    forall l | l in Live(m) ensures l in segs && l != segs[i] {
      var k :| 0 <= k < |m| && m[k] == l;
      assert segs[k] == l;
      if k < i { EndsBefore(segs, size, k, i); } else if i < k { EndsBefore(segs, size, i, k); }
    }
  }

  lemma {:induction false} CutKeepsLive(segs: Segs, i: nat, r: nat)
    requires i < |segs| && segs[i].free && Splits(segs[i], r)
    ensures Live(Cut(segs, i, r)) == Live(segs)
  {
  }

  lemma {:induction false} FuseKeepsLive(segs: Segs, i: nat)
    requires i + 1 < |segs| && segs[i].free && segs[i + 1].free
    ensures Live(Fuse(segs, i)) == Live(segs)
  {
  }

  // ---------------------------------------------------------------- the live blocks decide everything

  /** A good sequence of segments is determined by its live blocks: the free segments can
      only be the maximal gaps between them. */
  lemma {:induction false} Canonical(a: Segs, b: Segs, size: nat, k: nat)
    requires WellFormed(a, size) && WellFormed(b, size) && Live(a) == Live(b)
    requires k <= |a| && k <= |b| && forall m :: 0 <= m < k ==> a[m] == b[m]
    requires Boundary(a, k, size) == Boundary(b, k, size)
    ensures a == b
    decreases |a| - k
  {
    InAddressOrder(a, size);
    InAddressOrder(b, size);
    if k < |a| && k < |b| {
      SameHead(a, b, size, k);
      assert a[k].End() == Boundary(a, k + 1, size) && b[k].End() == Boundary(b, k + 1, size);
      Canonical(a, b, size, k + 1);
    } else if k < |a| || k < |b| {
      assert false;
    }
  }

  lemma {:induction false} SameHead(a: Segs, b: Segs, size: nat, k: nat)
    requires WellFormed(a, size) && WellFormed(b, size) && Live(a) == Live(b)
    requires k < |a| && k < |b| && a[k].start == b[k].start
    ensures a[k] == b[k]
  {
    if !a[k].free {
      LiveAtItsPlace(a, b, size, k);
    } else if !b[k].free {
      LiveAtItsPlace(b, a, size, k);
    } else {
      NotShorter(a, b, size, k);
      NotShorter(b, a, size, k);
    }
  }

  lemma {:induction false} LiveAtItsPlace(a: Segs, b: Segs, size: nat, k: nat)
    requires WellFormed(a, size) && WellFormed(b, size) && Live(a) == Live(b)
    requires k < |a| && k < |b| && a[k].start == b[k].start && !a[k].free
    ensures a[k] == b[k]
  {
    InAddressOrder(b, size);
    assert a[k] in Live(a);
    var j :| 0 <= j < |b| && b[j] == a[k];
  }

  lemma {:induction false} NoStartInside(segs: Segs, size: nat, k: nat, l: Segment)
    requires Tiles(segs, size) && k < |segs|
    requires segs[k].start < l.start < segs[k].End()
    ensures l !in segs
  {
    InAddressOrder(segs, size);
  }

  lemma {:induction false} NotShorter(a: Segs, b: Segs, size: nat, k: nat)
    requires WellFormed(a, size) && WellFormed(b, size) && Live(a) == Live(b)
    requires k < |a| && k < |b| && a[k].start == b[k].start && a[k].free && b[k].free
    ensures a[k].capacity >= b[k].capacity
  {
    InAddressOrder(b, size);
    if a[k].capacity < b[k].capacity {
      assert a[k].End() == Boundary(a, k + 1, size);
      assert b[k].End() <= size;
      var l := a[k + 1];
      assert l in Live(a) && l in b;
      NoStartInside(b, size, k, l);
      assert false;
    }
  }

  // ---------------------------------------------------------------- bytes

  function FreeBytes(segs: Segs): nat {
    if segs == [] then 0 else FreeBytes(segs[1..]) + if segs[0].free then segs[0].capacity else 0
  }

  function LiveBytes(segs: Segs): nat {
    if segs == [] then 0 else LiveBytes(segs[1..]) + if segs[0].free then 0 else segs[0].capacity
  }

  function Biggest(segs: Segs): nat {
    if segs == [] then 0
    else
      var rest := Biggest(segs[1..]);
      if segs[0].free && segs[0].capacity > rest then segs[0].capacity else rest
  }

  function Max(a: nat, b: nat): nat {
    if a > b then a else b
  }

  /** Live segments count for nothing in the free totals. */
  lemma {:induction false} FreeFrom(segs: Segs, k: nat)
    requires k <= |segs|
    ensures FreeBytes(segs[k..]) == FreeBytes(segs[NextFree(segs, k)..])
    ensures Biggest(segs[k..]) == Biggest(segs[NextFree(segs, k)..])
    decreases |segs| - k
  {
    if k < |segs| && !segs[k].free {
      assert segs[k..][1..] == segs[k + 1..];
      FreeFrom(segs, k + 1);
    }
  }

  lemma {:induction false} NothingBehind(segs: Segs)
    ensures FreeBytes(segs[|segs|..]) == Biggest(segs[|segs|..]) == 0
  {
  }

  /** What the free segment at `k` adds to the totals of those behind it. */
  lemma {:induction false} FreeAt(segs: Segs, k: nat)
    requires k < |segs| && segs[k].free
    ensures var next := NextFree(segs, k + 1);
            && FreeBytes(segs[k..]) == segs[k].capacity + FreeBytes(segs[next..])
            && Biggest(segs[k..]) == Max(segs[k].capacity, Biggest(segs[next..]))
            && NextFree(segs, next) == next
  {
    assert segs[k..][1..] == segs[k + 1..];
    FreeFrom(segs, k + 1);
  }

  lemma {:induction false} BytesFrom(segs: Segs, size: nat, k: nat)
    requires Tiles(segs, size) && k <= |segs|
    ensures LiveBytes(segs[k..]) + FreeBytes(segs[k..]) + HEADER * (|segs| - k) + Boundary(segs, k, size) == size
    decreases |segs| - k
  {
    if k < |segs| {
      BytesFrom(segs, size, k + 1);
      assert segs[k..][1..] == segs[k + 1..];
      assert segs[k].End() == Boundary(segs, k + 1, size);
      assert HEADER * (|segs| - k) == HEADER * (|segs| - (k + 1)) + HEADER;
    }
  }

  lemma {:induction false} FreeBytesJoin(a: Segs, b: Segs)
    ensures FreeBytes(a + b) == FreeBytes(a) + FreeBytes(b)
  {
    if a == [] {
      assert a + b == b;
    } else {
      FreeBytesJoin(a[1..], b);
      assert (a + b)[1..] == a[1..] + b;
    }
  }

  lemma {:induction false} FreeBytesInside(a: Segs, s: Segment, b: Segs)
    ensures FreeBytes(a + [s] + b) == FreeBytes(a) + (if s.free then s.capacity else 0) + FreeBytes(b)
  {
    FreeBytesJoin(a, [s] + b);
    assert a + [s] + b == a + ([s] + b) && ([s] + b)[1..] == b;
  }

  /** An allocation takes the whole segment from the free bytes when fewer than 64 bytes would
      be left over, and the request with one header otherwise. */
  lemma {:induction false} TakeCosts(segs: Segs, i: nat, r: nat)
    requires i < |segs| && segs[i].free && segs[i].capacity >= r
    ensures FreeBytes(segs) == FreeBytes(Take(segs, i, r))
                               + if segs[i].capacity < r + 64 then segs[i].capacity else r + HEADER
  {
    hide Take;
    var s := segs[i];
    var before, after := segs[..i], segs[i + 1..];
    TakeSplitsExactlyWhen(segs, i, r);
    assert segs == before + [s] + after;
    FreeBytesInside(before, s, after);
    if s.capacity < r + 64 {
      FreeBytesInside(before, s.(free := false), after);
    } else {
      var one, two := Segment(s.start, r, false), Segment(s.start + HEADER + r, s.capacity - r - HEADER, true);
      assert before + [one, two] + after == before + [one] + ([two] + after);
      FreeBytesInside(before, one, [two] + after);
      FreeBytesInside([], two, after);
      assert [] + [two] + after == [two] + after;
    }
  }

  /** No byte is lost: live bytes, free bytes and headers add up to the area. */
  lemma {:induction false} BytesConserved(segs: Segs, size: nat)
    requires Tiles(segs, size)
    ensures LiveBytes(segs) + FreeBytes(segs) + HEADER * |segs| == size
  {
    BytesFrom(segs, size, 0);
    assert segs[0..] == segs;
  }

  lemma {:induction false} FirstFitFrom(segs: Segs, k: nat, r: nat)
    requires k <= |segs| && r > 0
    ensures FirstFit(segs, k, r) < |segs| <==> r <= Biggest(segs[k..])
    decreases |segs| - k
  {
    if k < |segs| {
      FirstFitFrom(segs, k + 1, r);
      assert segs[k..][1..] == segs[k + 1..];
    }
  }

  /** A request can be met exactly when the biggest free segment can hold it, except that
      an empty request needs just some free segment. */
  lemma {:induction false} FitsExactlyWhenBiggestDoes(segs: Segs, r: nat)
    ensures r > 0 ==> (FirstFit(segs, 0, r) < |segs| <==> r <= Biggest(segs))
    ensures FirstFit(segs, 0, 0) < |segs| <==> exists i :: 0 <= i < |segs| && segs[i].free
  {
    if r > 0 {
      FirstFitFrom(segs, 0, r);
      assert segs[0..] == segs;
    }
  }
}
