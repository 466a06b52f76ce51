/** Whole runs of the allocator: what holds after any sequence of legal calls. */
module AllocatorRuns {
  import opened Segments
  import opened Headers
  import opened LinkSteps
  import opened FreeChain
  import opened PrivateArea

  /** A call, or the client writing the byte at `at` in a block it holds.  Afterwards, what
      would be read as a header `d` bytes before that byte is `junk[d]`. */
  datatype Op = Request(size: Size) | GiveBack(p: nat) | Write(at: nat, junk: seq<Header>)

  /** Index of the live segment whose payload is at `p`, or the length. */
  function LiveAt(segs: Segs, k: nat, p: nat): (j: nat)
    requires k <= |segs|
    ensures k <= j <= |segs|
    ensures j < |segs| ==> !segs[j].free && segs[j].Payload() == p
    ensures forall m :: k <= m < j ==> segs[m].free || segs[m].Payload() != p
    decreases |segs| - k
  {
    if k == |segs| || (!segs[k].free && segs[k].Payload() == p) then k else LiveAt(segs, k + 1, p)
  }

  ghost predicate InsidePayload(segs: Segs, at: nat) {
    exists s :: s in Live(segs) && s.Payload() <= at < s.End()
  }

  /** What a client may do: give back only blocks it holds, write only inside them. */
  ghost predicate Legal(segs: Segs, op: Op) {
    match op
    case Request(_) => true
    case GiveBack(p) => LiveAt(segs, 0, p) < |segs|
    case Write(at, _) => InsidePayload(segs, at)
  }

  ghost function Step(segs: Segs, op: Op): Segs
    requires Legal(segs, op)
  {
    match op
    case Request(n) =>
      var i := FirstFit(segs, 0, RoundUp(n));
      if i == |segs| then segs else Take(segs, i, RoundUp(n))
    case GiveBack(p) => Release(segs, LiveAt(segs, 0, p))
    case Write(_, _) => segs
  }

  ghost predicate LegalRun(segs: Segs, ops: seq<Op>)
    decreases |ops|
  {
    ops != [] ==> Legal(segs, ops[0]) && LegalRun(Step(segs, ops[0]), ops[1..])
  }

  ghost function Run(segs: Segs, ops: seq<Op>): Segs
    requires LegalRun(segs, ops)
    decreases |ops|
  {
    if ops == [] then segs else Run(Step(segs, ops[0]), ops[1..])
  }

  // ---------------------------------------------------------------- what every step keeps

  lemma {:induction false} StepWellFormed(segs: Segs, size: nat, op: Op)
    requires WellFormed(segs, size) && Legal(segs, op)
    ensures WellFormed(Step(segs, op), size)
  {
    match op
    case Request(n) =>
      RoundUpCovers(n);
      var i := FirstFit(segs, 0, RoundUp(n));
      if i < |segs| { TakeWellFormed(segs, size, i, RoundUp(n)); }
    case GiveBack(p) => ReleaseWellFormed(segs, size, LiveAt(segs, 0, p));
    case Write(_, _) =>
  }

  /** After any legal run the segments tile the area, are aligned, and no two free ones touch. */
  lemma {:induction false} RunWellFormed(segs: Segs, size: nat, ops: seq<Op>)
    requires WellFormed(segs, size) && LegalRun(segs, ops)
    ensures WellFormed(Run(segs, ops), size)
    decreases |ops|
  {
    if ops != [] {
      StepWellFormed(segs, size, ops[0]);
      RunWellFormed(Step(segs, ops[0]), size, ops[1..]);
    }
  }

  lemma {:induction false} InitialWellFormed(size: nat)
    requires size >= HEADER
    ensures WellFormed(Initial(size), size) && Live(Initial(size)) == {}
  {
  }

  /** Live payloads are aligned, lie inside the area, and share no byte with any header or
      with each other. */
  lemma {:induction false} PayloadsApart(segs: Segs, size: nat, s: Segment, other: Segment)
    requires WellFormed(segs, size) && s in Live(segs) && other in segs && other != s
    ensures s.Payload() % 8 == 0 && s.End() <= size
    ensures s.End() <= other.start || other.End() <= s.start
  {
    var a :| 0 <= a < |segs| && segs[a] == s;
    var b :| 0 <= b < |segs| && segs[b] == other;
    StartsDiffer(segs, size, a, b);
    CutStart(segs[a].start, 0);
  }

  // ---------------------------------------------------------------- what happens to a block

  lemma {:induction false} StepLive(segs: Segs, size: nat, op: Op)
    requires WellFormed(segs, size) && Legal(segs, op)
    ensures op.GiveBack? ==> Live(Step(segs, op)) == set s | s in Live(segs) && s.Payload() != op.p
    ensures op.Write? ==> Live(Step(segs, op)) == Live(segs)
    ensures op.Request? ==> Live(segs) <= Live(Step(segs, op))
    ensures op.Request? ==> forall s :: s in Live(Step(segs, op)) - Live(segs) ==>
                              RoundUp(op.size) <= s.capacity < RoundUp(op.size) + 64
  {
    match op
    case Request(n) =>
      hide Take;
      var i := FirstFit(segs, 0, RoundUp(n));
      if i < |segs| { TakeAddsOne(segs, size, i, RoundUp(n)); }
    case GiveBack(p) =>
      GiveBackLive(segs, size, p);
    case Write(_, _) =>
  }

  lemma {:induction false} GiveBackLive(segs: Segs, size: nat, p: nat)
    requires Tiles(segs, size) && LiveAt(segs, 0, p) < |segs|
    ensures Live(Release(segs, LiveAt(segs, 0, p))) == set s | s in Live(segs) && s.Payload() != p
  {
    hide Release;
    var i := LiveAt(segs, 0, p);
    ReleaseRemovesOne(segs, size, i);
    InAddressOrder(segs, size);
  }

  /** A block keeps its address and capacity until it is given back. */
  lemma {:induction false} BlockSurvives(segs: Segs, size: nat, ops: seq<Op>, s: Segment)
    requires WellFormed(segs, size) && LegalRun(segs, ops)
    requires s in Live(segs) && GiveBack(s.Payload()) !in ops
    ensures s in Live(Run(segs, ops))
    decreases |ops|
  {
    if ops != [] {
      StepLive(segs, size, ops[0]);
      StepWellFormed(segs, size, ops[0]);
      assert ops[0] in ops;
      BlockSurvives(Step(segs, ops[0]), size, ops[1..], s);
    }
  }

  /** The block a request is answered with. */
  ghost function Answer(segs: Segs, n: Size): (s: Segment)
    requires FirstFit(segs, 0, RoundUp(n)) < |segs|
    ensures s.Payload() == segs[FirstFit(segs, 0, RoundUp(n))].Payload()
  {
    var i := FirstFit(segs, 0, RoundUp(n));
    Take(segs, i, RoundUp(n))[i]
  }

  lemma {:induction false} RequestLive(segs: Segs, size: nat, n: Size)
    requires WellFormed(segs, size)
    ensures if FirstFit(segs, 0, RoundUp(n)) == |segs| then Step(segs, Request(n)) == segs
            else var s := Answer(segs, n);
                 && Live(Step(segs, Request(n))) == Live(segs) + {s}
                 && RoundUp(n) <= s.capacity < RoundUp(n) + 64
                 && forall l :: l in Live(segs) ==> l.Payload() != s.Payload()
  {
    var i := FirstFit(segs, 0, RoundUp(n));
    if i < |segs| {
      hide Take;
      TakeAddsOne(segs, size, i, RoundUp(n));
    }
  }

  /** Which requests split: the lowest fit is handed out whole when fewer than 64 bytes would be
      left over; otherwise the block has exactly the rounded size, and there is one more
      segment.  The free bytes shrink accordingly. */
  lemma {:induction false} RequestSplitsExactlyWhen(segs: Segs, n: Size)
    requires FirstFit(segs, 0, RoundUp(n)) < |segs|
    ensures var i, t, s := FirstFit(segs, 0, RoundUp(n)), Step(segs, Request(n)), Answer(segs, n);
            if segs[i].capacity < RoundUp(n) + 64 then
              |t| == |segs| && s.capacity == segs[i].capacity
              && FreeBytes(t) == FreeBytes(segs) - segs[i].capacity
            else
              |t| == |segs| + 1 && s.capacity == RoundUp(n)
              && FreeBytes(t) == FreeBytes(segs) - RoundUp(n) - HEADER
  {
    hide Take, RoundUp;
    var i, r := FirstFit(segs, 0, RoundUp(n)), RoundUp(n);
    TakeSplitsExactlyWhen(segs, i, r);
    TakeCosts(segs, i, r);
  }

  /** `s` is the block some request of the run was answered with, and it has not been given
      back since. */
  ghost predicate Granted(segs: Segs, ops: seq<Op>, s: Segment)
    requires LegalRun(segs, ops)
    decreases |ops|
  {
    ops != [] &&
    ((ops[0].Request? && FirstFit(segs, 0, RoundUp(ops[0].size)) < |segs| && Answer(segs, ops[0].size) == s
      && GiveBack(s.Payload()) !in ops[1..])
     || Granted(Step(segs, ops[0]), ops[1..], s))
  }

  /** The block a request returns stays at its place, as big as it was granted, until it is
      itself given back. */
  lemma {:induction false} GrantLives(segs: Segs, size: nat, n: Size, after: seq<Op>)
    requires WellFormed(segs, size) && FirstFit(segs, 0, RoundUp(n)) < |segs|
    requires LegalRun(Step(segs, Request(n)), after)
    requires GiveBack(Answer(segs, n).Payload()) !in after
    ensures var s := Answer(segs, n);
            && s in Live(Run(Step(segs, Request(n)), after))
            && RoundUp(n) <= s.capacity < RoundUp(n) + 64
  {
    RequestLive(segs, size, n);
    StepWellFormed(segs, size, Request(n));
    BlockSurvives(Step(segs, Request(n)), size, after, Answer(segs, n));
  }

  /** Alive at the end are exactly the blocks of the start that were not given back, and the
      answers to requests of the run that were not given back since.  Those are at least as
      big as the request they answer and less than 64 bytes bigger. */
  lemma {:induction false} BlocksAreGranted(segs: Segs, size: nat, ops: seq<Op>, s: Segment)
    requires WellFormed(segs, size) && LegalRun(segs, ops)
    ensures s in Live(Run(segs, ops))
            <==> (s in Live(segs) && GiveBack(s.Payload()) !in ops) || Granted(segs, ops, s)
    ensures Granted(segs, ops, s) ==>
              exists n: Size :: Request(n) in ops && RoundUp(n) <= s.capacity < RoundUp(n) + 64
    decreases |ops|
  {
    if ops != [] {
      var next := Step(segs, ops[0]);
      StepWellFormed(segs, size, ops[0]);
      BlocksAreGranted(next, size, ops[1..], s);
      AliveAfterStep(segs, size, ops[0], s);
      GrantedFits(segs, size, ops, s);
      assert ops == [ops[0]] + ops[1..];
    }
  }

  lemma {:induction false} AliveAfterStep(segs: Segs, size: nat, op: Op, s: Segment)
    requires WellFormed(segs, size) && Legal(segs, op)
    ensures s in Live(Step(segs, op))
            <==> (s in Live(segs) && op != GiveBack(s.Payload()))
                 || (op.Request? && FirstFit(segs, 0, RoundUp(op.size)) < |segs| && Answer(segs, op.size) == s)
  {
    hide Answer, Step;
    StepLive(segs, size, op);
    if op.Request? { RequestLive(segs, size, op.size); }
  }

  lemma {:induction false} GrantedFits(segs: Segs, size: nat, ops: seq<Op>, s: Segment)
    requires WellFormed(segs, size) && LegalRun(segs, ops) && ops != []
    requires Granted(Step(segs, ops[0]), ops[1..], s) ==>
               exists n: Size :: Request(n) in ops[1..] && RoundUp(n) <= s.capacity < RoundUp(n) + 64
    ensures Granted(segs, ops, s) ==>
              exists n: Size :: Request(n) in ops && RoundUp(n) <= s.capacity < RoundUp(n) + 64
  {
    if Granted(Step(segs, ops[0]), ops[1..], s) {
      var n: Size :| Request(n) in ops[1..] && RoundUp(n) <= s.capacity < RoundUp(n) + 64;
      assert Request(n) in ops;
    } else if Granted(segs, ops, s) {
      RequestLive(segs, size, ops[0].size);
      assert Request(ops[0].size) in ops;
    }
  }

  // ---------------------------------------------------------------- the end state

  /** Two runs that leave the same blocks alive leave the same segments: no trace of the
      order of calls, of splits or of joins remains. */
  lemma {:induction false} OnlyLiveBlocksMatter(size: nat, ops: seq<Op>, ops': seq<Op>)
    requires size >= HEADER
    requires LegalRun(Initial(size), ops) && LegalRun(Initial(size), ops')
    requires Live(Run(Initial(size), ops)) == Live(Run(Initial(size), ops'))
    ensures Run(Initial(size), ops) == Run(Initial(size), ops')
  {
    InitialWellFormed(size);
    RunWellFormed(Initial(size), size, ops);
    RunWellFormed(Initial(size), size, ops');
    Canonical(Run(Initial(size), ops), Run(Initial(size), ops'), size, 0);
  }

  /** Once every block has been given back, in whatever order, the area is one free segment again. */
  lemma {:induction false} AllGivenBack(size: nat, ops: seq<Op>)
    requires size >= HEADER && LegalRun(Initial(size), ops)
    requires Live(Run(Initial(size), ops)) == {}
    ensures Run(Initial(size), ops) == Initial(size)
    ensures Biggest(Run(Initial(size), ops)) == FreeBytes(Run(Initial(size), ops)) == size - HEADER
  {
    InitialWellFormed(size);
    OnlyLiveBlocksMatter(size, ops, []);
    assert Initial(size)[1..] == [];
  }

  ghost function GiveBackAll(ps: seq<nat>): seq<Op> {
    seq(|ps|, i requires 0 <= i < |ps| => GiveBack(ps[i]))
  }

  lemma {:induction false} GivenBack(segs: Segs, size: nat, ps: seq<nat>)
    requires WellFormed(segs, size) && LegalRun(segs, GiveBackAll(ps))
    ensures Live(Run(segs, GiveBackAll(ps))) == set s | s in Live(segs) && s.Payload() !in ps
    decreases |ps|
  {
    if ps != [] {
      var ops := GiveBackAll(ps);
      assert ops[1..] == GiveBackAll(ps[1..]);
      StepLive(segs, size, ops[0]);
      StepWellFormed(segs, size, ops[0]);
      GivenBack(Step(segs, ops[0]), size, ps[1..]);
    }
  }

  /** The order in which blocks are given back does not matter. */
  lemma {:induction false} OrderDoesNotMatter(segs: Segs, size: nat, ps: seq<nat>, qs: seq<nat>)
    requires WellFormed(segs, size)
    requires LegalRun(segs, GiveBackAll(ps)) && LegalRun(segs, GiveBackAll(qs))
    requires forall p :: p in ps <==> p in qs
    ensures Run(segs, GiveBackAll(ps)) == Run(segs, GiveBackAll(qs))
  {
    GivenBack(segs, size, ps);
    GivenBack(segs, size, qs);
    RunWellFormed(segs, size, GiveBackAll(ps));
    RunWellFormed(segs, size, GiveBackAll(qs));
    Canonical(Run(segs, GiveBackAll(ps)), Run(segs, GiveBackAll(qs)), size, 0);
  }

  // ---------------------------------------------------------------- requests only

  /** All blocks, and after them at most one free segment. */
  ghost predicate Packed(segs: Segs) {
    forall i :: 0 <= i < |segs| - 1 ==> !segs[i].free
  }

  /** As long as nothing is given back, each block is handed out above all earlier ones. */
  lemma {:induction false} RequestsAscend(segs: Segs, size: nat, ops: seq<Op>, n: Size)
    requires WellFormed(segs, size) && Packed(segs)
    requires forall op :: op in ops ==> op.Request?
    requires LegalRun(segs, ops)
    ensures var end := Run(segs, ops);
            var i := FirstFit(end, 0, RoundUp(n));
            && Packed(end)
            && (i < |end| ==> forall s :: s in Live(end) ==> s.End() <= end[i].start)
    decreases |ops|
  {
    if ops == [] {
      InAddressOrder(segs, size);
    } else {
      assert ops[0] in ops;
      StepWellFormed(segs, size, ops[0]);
      RequestsAscend(Step(segs, ops[0]), size, ops[1..], n);
    }
  }

  // ---------------------------------------------------------------- the links behind the segments

  /** The segments decide every link the allocator relies on: two states of memory that stand
      for the same segments agree on both lists. */
  lemma {:induction false} LinksDetermined(st: State, st': State, segs: Segs, i: nat)
    requires Represents(st, segs) && Represents(st', segs) && i < |segs|
    ensures st.first == st'.first
    ensures segs[i].start < |st.mem| && segs[i].start < |st'.mem|
    ensures var h, h' := st.mem[segs[i].start], st'.mem[segs[i].start];
            && h.next == h'.next && h.prev == h'.prev && h.free == h'.free == segs[i].free
            && (h.free ==> h.nextFree == h'.nextFree && h.prevFree == h'.prevFree)
  {
    assert HeaderOk(st.mem, segs, i, {}) && HeaderOk(st'.mem, segs, i, {});
  }

  /** The header at `o`, were there one, would cover the byte at `at`. */
  predicate Covers(o: nat, at: nat) {
    o <= at < o + HEADER
  }

  /** Writing a byte inside a block disturbs no header, whatever becomes of the readings that
      cover it. */
  lemma {:induction false} WriteIsHarmless(st: State, segs: Segs, stale: set<nat>, at: nat, m: Memory)
    requires RepresentsBut(st, segs, stale) && InsidePayload(segs, at)
    requires |m| == |st.mem| && forall o :: 0 <= o < |m| && !Covers(o, at) ==> m[o] == st.mem[o]
    ensures at < |m| && RepresentsBut(State(m, st.first), segs, stale)
  {
    var s :| s in Live(segs) && s.Payload() <= at < s.End();
    var a :| 0 <= a < |segs| && segs[a] == s;
    StartsDiffer(segs, |st.mem|, a, a);
    forall i | 0 <= i < |segs| ensures HeaderOk(m, segs, i, stale) {
      assert HeaderOk(st.mem, segs, i, stale);
      StartsDiffer(segs, |st.mem|, a, i);
      assert !Covers(segs[i].start, at);
    }
  }

  // ---------------------------------------------------------------- stale back-links over a run

  ghost function StepStale(segs: Segs, op: Op, relink: bool, stale: set<nat>): set<nat>
    requires Legal(segs, op)
  {
    match op
    case Request(n) =>
      var i := FirstFit(segs, 0, RoundUp(n));
      if i == |segs| then stale else StaleAfter(segs, i, RoundUp(n), relink, stale)
    case GiveBack(p) => Mended(segs, LiveAt(segs, 0, p), stale)
    case Write(_, _) => stale
  }

  ghost function StaleAtEnd(segs: Segs, ops: seq<Op>, relink: bool, stale: set<nat>): set<nat>
    requires LegalRun(segs, ops)
    decreases |ops|
  {
    if ops == [] then stale
    else StaleAtEnd(Step(segs, ops[0]), ops[1..], relink, StepStale(segs, ops[0], relink, stale))
  }

  ghost predicate OpFindsFresh(segs: Segs, op: Op, stale: set<nat>) {
    op.Request? ==> FindsFresh(segs, RoundUp(op.size), stale)
  }

  /** No request of the run takes a segment whose back-link is stale at that time. */
  ghost predicate NeverTakesStale(segs: Segs, ops: seq<Op>, relink: bool, stale: set<nat>)
    requires LegalRun(segs, ops)
    decreases |ops|
  {
    ops != [] ==>
      && OpFindsFresh(segs, ops[0], stale)
      && NeverTakesStale(Step(segs, ops[0]), ops[1..], relink, StepStale(segs, ops[0], relink, stale))
  }

  /** No request of the run splits a segment that has a free segment behind it. */
  ghost predicate NeverSplitsBeforeFree(segs: Segs, ops: seq<Op>)
    requires LegalRun(segs, ops)
    decreases |ops|
  {
    ops != [] ==>
      && (ops[0].Request? ==>
            var i := FirstFit(segs, 0, RoundUp(ops[0].size));
            i < |segs| ==> !SplitsBeforeFree(segs, i, RoundUp(ops[0].size)))
      && NeverSplitsBeforeFree(Step(segs, ops[0]), ops[1..])
  }

  /** With the back-link, or without any split before a free segment, nothing ever is stale. */
  lemma {:induction false} NothingStale(segs: Segs, ops: seq<Op>, relink: bool)
    requires LegalRun(segs, ops) && (relink || NeverSplitsBeforeFree(segs, ops))
    ensures NeverTakesStale(segs, ops, relink, {}) && StaleAtEnd(segs, ops, relink, {}) == {}
    decreases |ops|
  {
    if ops != [] {
      assert StepStale(segs, ops[0], relink, {}) == {};
      NothingStale(Step(segs, ops[0]), ops[1..], relink);
    }
  }

  // ---------------------------------------------------------------- the code over whole runs

  /** What the requests of a run are answered with. */
  ghost function Results(segs: Segs, ops: seq<Op>): seq<Pointer>
    requires LegalRun(segs, ops)
    decreases |ops|
  {
    if ops == [] then []
    else
      var rest := Results(Step(segs, ops[0]), ops[1..]);
      if !ops[0].Request? then rest
      else if FirstFit(segs, 0, RoundUp(ops[0].size)) == |segs| then [Null] + rest
      else [At(Answer(segs, ops[0].size).Payload())] + rest
  }

  /** The client does not write over any byte of the reading at `o`. */
  ghost predicate Unwritten(ops: seq<Op>, o: nat) {
    forall op :: op in ops && op.Write? ==> !Covers(o, op.at)
  }

  /** Blocks of `segs` that are not given back read as before wherever the client did not write. */
  ghost predicate ContentsKept(m: Memory, t: Memory, segs: Segs, ops: seq<Op>) {
    && |t| == |m|
    && forall s, o ::
         (s in Live(segs) && s.Payload() <= o < s.End() && o < |m| && GiveBack(s.Payload()) !in ops && Unwritten(ops, o))
         ==> t[o] == m[o]
  }

  lemma {:induction false} HeadersSpareContents(m: Memory, t: Memory, segs: Segs, size: nat, op: Op, written: Segs)
    requires WellFormed(segs, size) && WellFormed(written, size) && size == |m| && Legal(segs, op)
    requires HeadersOnly(m, t, written) && (written == segs || written == Step(segs, op))
    ensures ContentsKept(m, t, segs, [op])
  {
    hide Step, WellFormed, HeadersOnly;
    HeadersKeepLength(m, t, written);
    forall s, o | s in Live(segs) && s.Payload() <= o < s.End() && o < |m| && GiveBack(s.Payload()) !in [op]
      ensures t[o] == m[o]
    {
      StepLive(segs, size, op);
      TilesOf(written, size);
      assert s in Live(written);
      PayloadUntouched(m, t, written, s);
    }
  }

  lemma {:induction false} HeadersKeepLength(m: Memory, t: Memory, segs: Segs)
    requires HeadersOnly(m, t, segs)
    ensures |t| == |m|
  {
  }

  lemma {:induction false} TilesOf(segs: Segs, size: nat)
    requires WellFormed(segs, size)
    ensures Tiles(segs, size)
  {
  }

  lemma {:induction false} WriteSparesContents(m: Memory, t: Memory, segs: Segs, at: nat, junk: seq<Header>)
    requires |t| == |m| && forall o :: 0 <= o < |m| && !Covers(o, at) ==> t[o] == m[o]
    ensures ContentsKept(m, t, segs, [Write(at, junk)])
  {
    forall o | 0 <= o < |m| && Unwritten([Write(at, junk)], o) ensures t[o] == m[o] {
      assert Write(at, junk) in [Write(at, junk)];
    }
  }

  lemma {:induction false} ContentsStep(m: Memory, m1: Memory, t: Memory, segs: Segs, size: nat, ops: seq<Op>)
    requires WellFormed(segs, size) && LegalRun(segs, ops) && ops != []
    requires ContentsKept(m, m1, segs, [ops[0]])
    requires ContentsKept(m1, t, Step(segs, ops[0]), ops[1..])
    ensures ContentsKept(m, t, segs, ops)
  {
    hide Step, WellFormed;
    forall s, o | s in Live(segs) && s.Payload() <= o < s.End() && o < |m| && GiveBack(s.Payload()) !in ops
                  && Unwritten(ops, o)
      ensures t[o] == m[o]
    {
      assert ops[0] in ops && forall op :: op in ops[1..] ==> op in ops;
      StepLive(segs, size, ops[0]);
      assert Unwritten([ops[0]], o) && Unwritten(ops[1..], o);
      assert m1[o] == m[o];
    }
  }

  /** One call or write. */
  method Perform(a: Allocator, op: Op, ghost stale: set<nat>) returns (results: seq<Pointer>)
    requires a.ValidBut(stale) && Legal(a.segs, op) && OpFindsFresh(a.segs, op, stale)
    modifies a, a.base
    ensures a.base == old(a.base) && a.size == old(a.size)
    ensures a.ValidBut(StepStale(old(a.segs), op, a.relinks, stale))
    ensures a.segs == Step(old(a.segs), op)
    ensures results == if op.Request? then [if FirstFit(old(a.segs), 0, RoundUp(op.size)) == |old(a.segs)| then Null
                                            else At(Answer(old(a.segs), op.size).Payload())] else []
    ensures ContentsKept(old(a.base[..]), a.base[..], old(a.segs), [op])
  {
    hide RepresentsBut, WellFormed, HeadersOnly, ContentsKept, Take, Release, Mended, StaleAfter, FindsFresh;
    ghost var was, m := a.segs, a.base[..];
    results := [];
    match op {
      case Request(n) =>
        RepresentedChain(a.Now(), a.segs, stale);
        PickIsFresh(a.Now(), a.segs, stale, FreeStarts(a.segs, 0), RoundUp(n));
        var p := a.Allocate(n, FreeStarts(a.segs, 0), stale);
        results := [p];
        HeadersSpareContents(m, a.base[..], was, a.size, op, a.segs);
      case GiveBack(p) =>
        a.Deallocate(p, LiveAt(a.segs, 0, p), stale);
        HeadersSpareContents(m, a.base[..], was, a.size, op, was);
      case Write(at, junk) =>
        forall o | 0 <= o < a.base.Length && Covers(o, at) && at - o < |junk| {
          a.base[o] := junk[at - o];
        }
        WriteIsHarmless(State(m, a.first), a.segs, stale, at, a.base[..]);
        WriteSparesContents(m, a.base[..], was, at, junk);
    }
  }

  /** Any legal run of calls and writes in which no request takes a stale segment leaves
      exactly the segments and links it should, up to the back-links still stale; hands out
      exactly the blocks it should; and leaves the contents of blocks alone.  With the
      back-link, and for the code as it stands as long as it never splits before a free
      segment, nothing ever is stale (`NothingStale`). */
  method Execute(a: Allocator, ops: seq<Op>, ghost stale: set<nat>) returns (results: seq<Pointer>)
    requires a.ValidBut(stale) && LegalRun(a.segs, ops)
    requires NeverTakesStale(a.segs, ops, a.relinks, stale)
    modifies a, a.base
    ensures a.base == old(a.base) && a.size == old(a.size)
    ensures a.ValidBut(StaleAtEnd(old(a.segs), ops, a.relinks, stale))
    ensures a.segs == Run(old(a.segs), ops)
    ensures results == Results(old(a.segs), ops)
    ensures ContentsKept(old(a.base[..]), a.base[..], old(a.segs), ops)
    decreases |ops|
  {
    hide RepresentsBut, ContentsKept, Step, StepStale, Answer, OpFindsFresh, WellFormed;
    ghost var was, m := a.segs, a.base[..];
    if ops == [] {
      NothingChanged(m, was);
      return [];
    }
    results := Perform(a, ops[0], stale);
    ghost var m1 := a.base[..];
    var more := Execute(a, ops[1..], StepStale(was, ops[0], a.relinks, stale));
    results := results + more;
    ContentsStep(m, m1, a.base[..], was, a.size, ops);
  }

  lemma {:induction false} NothingChanged(m: Memory, segs: Segs)
    ensures ContentsKept(m, m, segs, [])
  {
  }
}
