/** The allocator itself, statement by statement over an array of headers. */
module PrivateArea {
  import opened Segments
  import opened Headers
  import opened LinkSteps
  import opened FreeChain

  class Allocator {
    var base: array?<Header>
    var size: nat
    var first: Pointer

    /** False for the code as it stands; true adds the back-link the split forgets. */
    const relinks: bool

    /** The segments the area is meant to hold. */
    ghost var segs: Segs

    ghost predicate Active()
      reads this
    {
      base != null && size == base.Length
    }

    ghost function Now(): State
      reads this, base
      requires Active()
    {
      State(base[..], first)
    }

    ghost predicate ValidBut(stale: set<nat>)
      reads this, base
    {
      Active() && RepresentsBut(Now(), segs, stale) && WellFormed(segs, size)
    }

    ghost predicate Valid()
      reads this, base
    {
      ValidBut({})
    }

    constructor (relinks: bool)
      ensures base == null && size == 0 && first == Null && this.relinks == relinks
    {
      this.relinks := relinks;
      base := null;
      size := 0;
      first := Null;
      segs := [];
    }

    method SetWorkingArea(buf: array?<Header>, size: nat)
      requires base == null
      requires buf != null && size != 0 ==> size == buf.Length && size >= HEADER
      modifies this, buf
      ensures if buf != null && size != 0
              then Valid() && base == buf && this.size == size && segs == Initial(size)
              else base == null && this.size == old(this.size) && first == old(first)
    {
      if buf != null && size != 0 {
        base := buf;
        this.size := size;
        buf[0] := buf[0].(next := Null);
        buf[0] := buf[0].(prev := Null);
        buf[0] := buf[0].(free := true);
        buf[0] := buf[0].(nextFree := Null);
        buf[0] := buf[0].(prevFree := Null);
        first := At(0);
        segs := Initial(size);
        assert HeaderOk(base[..], segs, 0, {});
      }
    }

    /** First fit along the free list.  `nodes` is the free list as it is, which needs not be
        the one it should be. */
    method Search(requested: nat, ghost nodes: seq<nat>) returns (segment: Pointer)
      requires Active() && Chain(base[..], first, nodes)
      ensures segment == Pick(base[..], first, nodes, requested)
    {
      segment := first;
      ghost var rest := nodes;
      while segment != Null
        invariant Chain(base[..], segment, rest)
        invariant Pick(base[..], segment, rest, requested) == Pick(base[..], first, nodes, requested)
        decreases |rest|
      {
        var bufSize := BufferSizeAt(segment.offset);
        if bufSize >= requested {
          return;
        }
        segment := base[segment.offset].nextFree;
        rest := rest[1..];
      }
    }

    method BufferSizeAt(segment: nat) returns (result: int)
      requires Active() && segment < size
      ensures result == BufferSize(base[..], segment)
    {
      if base[segment].next != Null {
        result := base[segment].next.offset - (segment + HEADER);
      } else {
        result := size - (segment + HEADER);
      }
    }

    method Split(segment: nat, requested: nat)
      requires Active() && Sound(base[..], segment)
      requires BufferSize(base[..], segment) - requested >= SMALLEST_SPLIT
      modifies base
      ensures base[..] == old(SplitMem(base[..], segment, requested, relinks))
    {
      hide InsertFreeMem;
      var newSegment := segment + HEADER + requested;
      Insert(segment, newSegment);
      InsertFree(segment, newSegment);
    }

    method Insert(segment: nat, newSegment: nat)
      requires Active() && segment < size && newSegment < size && InArea(base[..], base[segment].next)
      modifies base
      ensures base[..] == old(InsertMem(base[..], segment, newSegment))
    {
      ghost var m := base[..];
      base[newSegment] := base[newSegment].(next := base[segment].next);
      base[newSegment] := base[newSegment].(prev := At(segment));
      base[newSegment] := base[newSegment].(free := true);
      ghost var m1 := base[..];
      assert m1 == SetFree(SetPrev(SetNext(m, At(newSegment), m[segment].next), At(newSegment), At(segment)),
                           At(newSegment), true);
      base[segment] := base[segment].(next := At(newSegment));
      ghost var m2 := base[..];
      assert m2 == SetNext(m1, At(segment), At(newSegment));
      if base[newSegment].next != Null {
        var after := base[newSegment].next.offset;
        base[after] := base[after].(prev := At(newSegment));
      }
    }

    method InsertFree(segment: nat, newSegment: nat)
      requires Active() && segment < size && newSegment < size && InArea(base[..], base[segment].nextFree)
      modifies base
      ensures base[..] == old(InsertFreeMem(base[..], segment, newSegment, relinks))
    {
      ghost var m := base[..];
      base[newSegment] := base[newSegment].(nextFree := base[segment].nextFree);
      base[newSegment] := base[newSegment].(prevFree := At(segment));
      ghost var m1 := base[..];
      assert m1 == SetPrevFree(SetNextFree(m, At(newSegment), m[segment].nextFree), At(newSegment), At(segment));
      base[segment] := base[segment].(nextFree := At(newSegment));
      ghost var m2 := base[..];
      assert m2 == SetNextFree(m1, At(segment), At(newSegment));
      if relinks && base[newSegment].nextFree != Null {
        var after := base[newSegment].nextFree.offset;
        base[after] := base[after].(prevFree := At(newSegment));
      }
    }

    method Unlink(segment: nat)
      requires Active() && segment < size
      requires InArea(base[..], base[segment].prevFree) && InArea(base[..], base[segment].nextFree)
      modifies this`first, base
      ensures Active() && Now() == old(UnlinkMem(Now(), segment))
    {
      ghost var m := base[..];
      base[segment] := base[segment].(free := false);
      assert base[..] == SetFree(m, At(segment), false);
      ghost var m1 := base[..];
      if base[segment].prevFree != Null {
        var before := base[segment].prevFree.offset;
        base[before] := base[before].(nextFree := base[segment].nextFree);
      } else {
        first := base[segment].nextFree;
      }
      assert base[..] == SetNextFree(m1, m[segment].prevFree, m[segment].nextFree);
      if base[segment].nextFree != Null {
        var after := base[segment].nextFree.offset;
        base[after] := base[after].(prevFree := base[segment].prevFree);
      }
    }

    /** Split when there is room for another segment, then take the header off the free list. */
    method TakeFrom(segment: nat, requested: nat)
      requires Active() && Sound(base[..], segment) && BufferSize(base[..], segment) >= requested
      modifies this`first, base
      ensures Active() && Now() == old(AllocateAt(Now(), segment, requested, relinks))
    {
      var bufSize := BufferSizeAt(segment);
      if bufSize - requested >= SMALLEST_SPLIT {
        Split(segment, requested);
      }
      Unlink(segment);
    }

    /** An allocation takes the lowest free segment that fits, and writes to headers only.
        The area is then in order, except that the code as it stands leaves a back-link stale
        when it splits a segment that has a free segment somewhere behind it. */
    method Allocate(requestedSize: Size, ghost nodes: seq<nat>, ghost stale: set<nat>) returns (result: Pointer)
      requires Active() && Chain(base[..], first, nodes)
      requires var p := Pick(base[..], first, nodes, RoundUp(requestedSize));
               p.At? ==> Sound(base[..], p.offset)
      modifies this, base
      ensures Active() && base == old(base) && size == old(size)
      // what the code does, whatever state it finds
      ensures var p := old(Pick(base[..], first, nodes, RoundUp(requestedSize)));
              if p.Null? then result == Null && Now() == old(Now())
              else
                && result == At(p.offset + HEADER)
                && Now() == old(AllocateAt(Now(), p.offset, RoundUp(requestedSize), relinks))
      // what that means when the segment it takes is not stale
      ensures old(ValidBut(stale) && FindsFresh(segs, RoundUp(requestedSize), stale)) ==>
                && WellFormed(segs, size)
                && Served(old(segs), RoundUp(requestedSize), relinks, stale, Now(), segs, result)
                && HeadersOnly(old(base[..]), base[..], segs)
                && (result != Null ==>
                      segs == HandedOut(old(segs), FirstFit(old(segs), 0, RoundUp(requestedSize)), RoundUp(requestedSize)))
    {
      hide WellFormed, Served, Take, RepresentsBut, AllocateAt, RoundUp, Chain, HeadersOnly, Sound, FindsFresh;
      var requested := RoundUp(requestedSize);
      RoundUpCovers(requestedSize);
      ghost var good := ValidBut(stale) && FindsFresh(segs, requested, stale);
      ghost var i := FirstFit(segs, 0, requested);
      if good {
        AllocateServes(Now(), segs, stale, nodes, requested, relinks);
        NothingStored(base[..], segs);
        StoresOfRequest(Now(), segs, stale, nodes, requested, relinks);
      }
      var segment := Search(requested, nodes);
      result := Null;
      if segment != Null {
        TakeFrom(segment.offset, requested);
        result := At(segment.offset + HEADER);
        if good {
          TakeSplitsExactlyWhen(segs, i, requested);
          segs := Take(segs, i, requested);
        }
      }
    }

    /** A deallocation releases the segment, joins it with its free neighbours, and writes to
        headers only.  It also mends the stale back-links it comes across. */
    method Deallocate(p: nat, ghost i: nat, ghost stale: set<nat>)
      requires ValidBut(stale)
      requires i < |segs| && !segs[i].free && segs[i].Payload() == p
      modifies this, base
      ensures base == old(base) && size == old(size)
      ensures segs == Release(old(segs), i)
      ensures ValidBut(Mended(old(segs), i, stale))
      ensures HeadersOnly(old(base[..]), base[..], old(segs))
    {
      hide RepresentsBut, WellFormed, HeadersOnly, Starts, Mark, Fuse, Relinked, MendedNext;
      var segment := p - HEADER;
      ghost var was, m := segs, base[..];
      Relink(segment, i, stale);
      MendedAfterMark(was, i, Relinked(was, i, stale));
      MarkStarts(was, i, true);
      segs := Mark(segs, i, true);
      ghost var m1 := base[..];
      JoinWithNext(segment, i, Relinked(was, i, stale));
      HeadersTwice(m, m1, base[..], was, Mark(was, i, true));
      if i + 1 < |was| && was[i + 1].free { FuseStarts(Mark(was, i, true), i); }
      ghost var m2, joined := base[..], segs;
      JoinWithPrevious(segment, i, Mended(was, i, stale));
      HeadersTwice(m, m2, base[..], was, joined);
      ReleaseWellFormed(was, size, i);
    }

    method Relink(segment: nat, ghost i: nat, ghost stale: set<nat>)
      requires Active() && RepresentsBut(Now(), segs, stale)
      requires i < |segs| && !segs[i].free && segs[i].start == segment
      modifies this`first, base
      ensures Active() && RepresentsBut(Now(), Mark(segs, i, true), Relinked(segs, i, stale))
      ensures HeadersOnly(old(base[..]), base[..], segs)
    {
      ghost var st := Now();
      ghost var b, f := PrevFree(segs, i), NextFree(segs, i + 1);
      RelinkRepresents(st, segs, i, stale);
      RelinkStores(st, segs, i);
      FirstBefore(segs, size, i);
      if first == Null || segment < first.offset {
        base[segment] := base[segment].(free := true);
        base[segment] := base[segment].(prevFree := Null);
        base[segment] := base[segment].(nextFree := first);
        if first != Null {
          var oldFirst := first.offset;
          base[oldFirst] := base[oldFirst].(prevFree := At(segment));
        }
        first := At(segment);
      } else {
        var before := EarlierFree(segment, i, stale);
        var after := FurtherFree(segment, i, stale);
        base[segment] := base[segment].(free := true);
        base[segment] := base[segment].(prevFree := before);
        base[before.offset] := base[before.offset].(nextFree := At(segment));
        base[segment] := base[segment].(nextFree := after);
        if after != Null {
          base[after.offset] := base[after.offset].(prevFree := At(segment));
        }
      }
    }

    /** The backward scan meets a free segment before it runs off the area. */
    method EarlierFree(segment: nat, ghost i: nat, ghost stale: set<nat>) returns (iter: Pointer)
      requires Active() && RepresentsBut(Now(), segs, stale)
      requires i < |segs| && segs[i].start == segment && PrevFree(segs, i) >= 0
      ensures iter == PointerTo(segs, PrevFree(segs, i)) && iter != Null
    {
      ghost var k := i - 1;
      assert HeaderOk(base[..], segs, i, stale);
      iter := base[segment].prev;
      assert HeaderOk(base[..], segs, k, stale);
      while base[iter.offset].free == false
        invariant PrevFree(segs, i) <= k < i && iter == PointerTo(segs, k) && HeaderOk(base[..], segs, k, stale)
        decreases k
      {
        iter := base[iter.offset].prev;
        k := k - 1;
        assert HeaderOk(base[..], segs, k, stale);
      }
    }

    /** The forward scan ends at a free segment or at the end of the area. */
    method FurtherFree(segment: nat, ghost i: nat, ghost stale: set<nat>) returns (iter: Pointer)
      requires Active() && RepresentsBut(Now(), segs, stale)
      requires i < |segs| && segs[i].start == segment
      ensures iter == PointerTo(segs, NextFree(segs, i + 1))
    {
      ghost var k := i + 1;
      assert HeaderOk(base[..], segs, i, stale);
      iter := base[segment].next;
      while iter != Null && base[iter.offset].free == false
        invariant i < k <= NextFree(segs, i + 1) && iter == PointerTo(segs, k)
        invariant k < |segs| ==> HeaderOk(base[..], segs, k, stale)
        decreases |segs| - k
      {
        iter := base[iter.offset].next;
        k := k + 1;
        assert k < |segs| ==> HeaderOk(base[..], segs, k, stale);
      }
    }

    method JoinWithNext(segment: nat, ghost i: nat, ghost stale: set<nat>)
      requires Active() && RepresentsBut(Now(), segs, stale)
      requires i < |segs| && segs[i].free && segs[i].start == segment
      modifies this`segs, base
      ensures Active() && segs == FuseForward(old(segs), i)
      ensures RepresentsBut(Now(), segs, MendedNext(old(segs), i, stale))
      ensures HeadersOnly(old(base[..]), base[..], old(segs))
    {
      assert HeaderOk(base[..], segs, i, stale);
      if base[segment].next != Null {
        var nextSegment := base[segment].next.offset;
        assert HeaderOk(base[..], segs, i + 1, stale);
        if base[nextSegment].free {
          JoinRepresents(Now(), segs, i, stale);
          JoinStores(Now(), segs, i, stale);
          Join(segment, nextSegment);
          segs := Fuse(segs, i);
        }
      }
    }

    method JoinWithPrevious(segment: nat, ghost i: nat, ghost stale: set<nat>)
      requires Active() && RepresentsBut(Now(), segs, stale)
      requires i < |segs| && segs[i].free && segs[i].start == segment
      modifies this`segs, base
      ensures Active() && segs == if i > 0 && old(segs)[i - 1].free then Fuse(old(segs), i - 1) else old(segs)
      ensures RepresentsBut(Now(), segs, stale)
      ensures HeadersOnly(old(base[..]), base[..], old(segs))
    {
      assert HeaderOk(base[..], segs, i, stale);
      if base[segment].prev != Null {
        var previousSegment := base[segment].prev.offset;
        assert HeaderOk(base[..], segs, i - 1, stale);
        if base[previousSegment].free {
          JoinRepresents(Now(), segs, i - 1, stale);
          JoinStores(Now(), segs, i - 1, stale);
          Join(previousSegment, segment);
          segs := Fuse(segs, i - 1);
          FewerStale(Now(), segs, WithoutNext(old(segs), i, stale), stale);
        }
      }
    }

    method Join(segment: nat, dissolved: nat)
      requires Active() && segment < size && dissolved < size
      requires InArea(base[..], base[dissolved].next) && InArea(base[..], base[dissolved].nextFree)
      modifies base
      ensures base[..] == old(JoinMem(base[..], segment, dissolved))
    {
      ghost var m := base[..];
      base[segment] := base[segment].(next := base[dissolved].next);
      ghost var m1 := base[..];
      assert m1 == SetNext(m, At(segment), m[dissolved].next);
      if base[dissolved].next != Null {
        var after := base[dissolved].next.offset;
        base[after] := base[after].(prev := At(segment));
      }
      ghost var m2 := base[..];
      assert m2 == SetPrev(m1, m1[dissolved].next, At(segment));
      base[segment] := base[segment].(nextFree := base[dissolved].nextFree);
      ghost var m3 := base[..];
      assert m3 == SetNextFree(m2, At(segment), m2[dissolved].nextFree);
      if base[dissolved].nextFree != Null {
        var after := base[dissolved].nextFree.offset;
        base[after] := base[after].(prevFree := At(segment));
      }
    }

    /** The biggest free segment, and all free bytes, whatever back-links are stale. */
    method GetFreeSize(ghost stale: set<nat>) returns (biggest: nat, all: nat)
      requires base != null ==> ValidBut(stale)
      ensures base == null ==> biggest == 0 && all == 0
      ensures base != null ==> biggest == Biggest(segs) && all == FreeBytes(segs)
    {
      hide FreeBytes, Biggest, NextFree, Tiles, WellFormed;
      biggest, all := 0, 0;
      if base != null {
        var segment := first;
        ghost var k := NextFree(segs, 0);
        FreeFrom(segs, 0);
        NothingBehind(segs);
        assert segs[0..] == segs;
        while segment != Null
          invariant k <= |segs| && NextFree(segs, k) == k && segment == PointerTo(segs, k)
          invariant all + FreeBytes(segs[k..]) == FreeBytes(segs)
          invariant Max(biggest, Biggest(segs[k..])) == Biggest(segs)
          decreases |segs| - k
        {
          assert HeaderOk(base[..], segs, k, stale);
          BufferSizeIs(base[..], segs, k, stale);
          var bufSize := BufferSizeAt(segment.offset);
          if bufSize > biggest {
            biggest := bufSize;
          }
          all := all + bufSize;
          segment := base[segment.offset].nextFree;
          FreeAt(segs, k);
          k := NextFree(segs, k + 1);
        }
      }
    }

    /** Whatever the state, with the back-link or without, giving a block back at once undoes
        the allocation that handed it out, as long as that took no stale segment. */
    method AllocateThenDeallocate(requestedSize: Size, ghost stale: set<nat>)
      requires ValidBut(stale) && FindsFresh(segs, RoundUp(requestedSize), stale)
      modifies this, base
      ensures ValidBut(stale) && base == old(base) && size == old(size) && segs == old(segs)
    {
      hide RepresentsBut, WellFormed, HeadersOnly, Mended, StaleAfter;
      ghost var was := segs;
      ghost var r := RoundUp(requestedSize);
      ghost var i := FirstFit(segs, 0, r);
      RepresentedChain(Now(), segs, stale);
      PickIsFresh(Now(), segs, stale, FreeStarts(segs, 0), r);
      var p := Allocate(requestedSize, FreeStarts(segs, 0), stale);
      if p != Null {
        ReleaseMends(was, size, i, r, relinks, stale);
        Deallocate(p.offset, i, StaleAfter(was, i, r, relinks, stale));
        FewerStale(Now(), segs, Mended(Take(was, i, r), i, StaleAfter(was, i, r, relinks, stale)), stale);
      }
    }
  }
}
