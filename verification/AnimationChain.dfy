/** A chain of animations on one object: entries are stepped one at a time, in the order they
    were added, each for its number of loops. */
module AnimationChain {

  /** `elapsed` is the entry's own clock. */
  datatype Entry = Entry(duration: real, elapsed: real)

  /** What an entry does: show progress `t`, call onLoop, call onComplete. */
  datatype Event = Update(id: nat, t: real) | Looped(id: nat) | Completed(id: nat)

  datatype Chain = Chain(entries: map<nat, Entry>, loops: map<nat, int>, next: nat, paused: bool)

  // ---------------------------------------------------------------- one step

  /** The lowest key in use, as a for-in loop over a sparse array meets it first. */
  function First(entries: map<nat, Entry>, k: nat, next: nat): (x: nat)
    requires k <= next
    ensures k <= x <= next
    ensures x < next ==> x in entries
    ensures forall y :: k <= y < x ==> y !in entries
    decreases next - k
  {
    if k == next || k in entries then k else First(entries, k + 1, next)
  }

  predicate Finished(e: Entry) {
    e.elapsed >= e.duration
  }

  function Shown(e: Entry): real
    requires e.elapsed >= 0.0
  {
    if Finished(e) then 1.0 else e.elapsed / e.duration
  }

  /** No entry in the chain has run out of loops: it is deleted in the step that ends its last. */
  predicate Sound(c: Chain) {
    forall x :: x in c.entries ==> x in c.loops && c.loops[x] != 0 && x < c.next && c.entries[x].elapsed >= 0.0
  }

  /** One step of the animation manager on this object. */
  function Step(c: Chain, ts: real): (r: (Chain, seq<Event>))
    requires ts >= 0.0 && Sound(c)
    ensures Sound(r.0)
  {
    var x := First(c.entries, 0, c.next);
    if c.paused || x == c.next then (c, [])
    else
      var e := c.entries[x];
      if !Finished(e) then
        (c.(entries := c.entries[x := e.(elapsed := e.elapsed + ts)]), [Update(x, Shown(e))])
      else
        var left := c.loops[x] - 1;
        var done := c.(entries := c.entries[x := e.(elapsed := 0.0)], loops := c.loops[x := left]);
        if left == 0 then
          (done.(entries := done.entries - {x}), [Update(x, Shown(e)), Looped(x), Completed(x)])
        else (done, [Update(x, Shown(e)), Looped(x)])
  }

  // ---------------------------------------------------------------- how long an entry takes

  /** Steps until the clock reaches the duration. */
  function Ticks(duration: real, ts: real): (n: nat)
    requires ts > 0.0
  {
    if duration <= 0.0 then 0
    else
      assert duration / ts > 0.0;
      -((-(duration / ts)).Floor)
  }

  lemma {:induction false} Scaled(d: real, ts: real, j: real)
    requires ts > 0.0
    ensures j * ts >= d <==> j >= d / ts
  {
  }

  /** The clock, after `j` ticks, has reached the duration exactly when `j` is at least
      `Ticks`: the ceiling of duration over timestep. */
  lemma {:induction false} TicksExactly(d: real, ts: real, j: nat)
    requires ts > 0.0
    ensures j as real * ts >= d <==> j >= Ticks(d, ts)
  {
    Scaled(d, ts, j as real);
    if d <= 0.0 {
      assert j as real * ts >= 0.0;
    } else {
      assert d / ts > 0.0;
    }
  }

  // ---------------------------------------------------------------- what is still to come

  /** The entries are those from `lo` on; all but the first have not started, and the first
      is `j` ticks into its current loop. */
  ghost predicate Running(c: Chain, ts: real, lo: nat, j: nat) {
    && ts > 0.0 && lo <= c.next && !c.paused
    && (forall x :: x in c.entries <==> lo <= x < c.next)
    && (forall x :: lo <= x < c.next ==> x in c.loops && c.loops[x] != 0)
    && (forall x :: lo < x < c.next ==> c.entries[x].elapsed == 0.0)
    && (lo < c.next ==> c.entries[lo].elapsed == j as real * ts && j <= Ticks(c.entries[lo].duration, ts))
    && (lo == c.next ==> j == 0)
    && (forall x :: x in c.entries ==> c.entries[x].elapsed >= 0.0)
  }

  ghost predicate AllFinite(c: Chain, lo: nat)
    requires forall x :: lo <= x < c.next ==> x in c.loops
  {
    forall x :: lo <= x < c.next ==> c.loops[x] > 0
  }

  /** The updates of one loop from tick `j` on, and its onLoop. */
  function LoopEvents(id: nat, duration: real, ts: real, j: nat): seq<Event>
    requires ts > 0.0
    decreases Ticks(duration, ts) - j
  {
    if j >= Ticks(duration, ts) then [Update(id, 1.0), Looped(id)]
    else
      TicksExactly(duration, ts, j);
      [Update(id, if duration > 0.0 then j as real * ts / duration else 0.0)] + LoopEvents(id, duration, ts, j + 1)
  }

  /** `n` more whole loops, then onComplete. */
  function EntryEvents(id: nat, duration: real, ts: real, n: nat): seq<Event>
    requires ts > 0.0
  {
    if n == 0 then [Completed(id)] else LoopEvents(id, duration, ts, 0) + EntryEvents(id, duration, ts, n - 1)
  }

  /** Everything that entries `lo` and later will do, none of them having started. */
  function ChainEvents(c: Chain, ts: real, lo: nat): seq<Event>
    requires ts > 0.0 && lo <= c.next
    requires forall x :: lo <= x < c.next ==> x in c.entries && x in c.loops && c.loops[x] > 0
    decreases c.next - lo
  {
    if lo == c.next then []
    else EntryEvents(lo, c.entries[lo].duration, ts, c.loops[lo]) + ChainEvents(c, ts, lo + 1)
  }

  /** `n` times `steps`. */
  function Times(n: nat, steps: nat): nat {
    if n == 0 then 0 else steps + Times(n - 1, steps)
  }

  lemma {:induction false} TimesIsProduct(n: nat, steps: nat)
    ensures Times(n, steps) == n * steps
  {
    if n > 0 { TimesIsProduct(n - 1, steps); }
  }

  /** The number of steps that takes: loops times one more than the ticks of a loop. */
  function ChainSteps(c: Chain, ts: real, lo: nat): nat
    requires ts > 0.0 && lo <= c.next
    requires forall x :: lo <= x < c.next ==> x in c.entries && x in c.loops && c.loops[x] > 0
    decreases c.next - lo
  {
    if lo == c.next then 0
    else Times(c.loops[lo], Ticks(c.entries[lo].duration, ts) + 1) + ChainSteps(c, ts, lo + 1)
  }

  /** What is still to come when the first entry is `j` ticks into a loop. */
  ghost function Pending(c: Chain, ts: real, lo: nat, j: nat): seq<Event>
    requires Running(c, ts, lo, j) && AllFinite(c, lo)
  {
    if lo == c.next then []
    else
      var d := c.entries[lo].duration;
      LoopEvents(lo, d, ts, j) + EntryEvents(lo, d, ts, c.loops[lo] - 1) + ChainEvents(c, ts, lo + 1)
  }

  ghost function Remaining(c: Chain, ts: real, lo: nat, j: nat): nat
    requires Running(c, ts, lo, j) && AllFinite(c, lo)
  {
    if lo == c.next then 0
    else
      var t := Ticks(c.entries[lo].duration, ts);
      (t - j + 1) + Times(c.loops[lo] - 1, t + 1) + ChainSteps(c, ts, lo + 1)
  }

  lemma {:induction false} FirstIs(c: Chain, ts: real, lo: nat, j: nat)
    requires Running(c, ts, lo, j)
    ensures First(c.entries, 0, c.next) == lo
  {
    var x := First(c.entries, 0, c.next);
    assert x < c.next ==> x in c.entries && lo <= x;
    assert lo < c.next ==> lo in c.entries;
  }

  /** The rest of the chain does not notice what happens to earlier entries. */
  lemma {:induction false} RestUnchanged(c: Chain, c': Chain, ts: real, lo: nat)
    requires ts > 0.0 && lo <= c.next && c'.next == c.next
    requires forall x :: lo <= x < c.next ==> x in c.entries && x in c.loops && c.loops[x] > 0
    requires forall x :: lo <= x < c.next ==>
               x in c'.entries && x in c'.loops && c'.loops[x] == c.loops[x] && c'.entries[x] == c.entries[x]
    ensures ChainEvents(c', ts, lo) == ChainEvents(c, ts, lo)
    ensures ChainSteps(c', ts, lo) == ChainSteps(c, ts, lo)
    decreases c.next - lo
  {
    if lo < c.next {
      RestUnchanged(c, c', ts, lo + 1);
    }
  }

  /** Where a step leads: the next tick, the next loop, or the next entry. */
  ghost function NextPlace(c: Chain, ts: real, lo: nat, j: nat): (nat, nat)
    requires Running(c, ts, lo, j)
  {
    if lo == c.next then (lo, 0)
    else if j < Ticks(c.entries[lo].duration, ts) then (lo, j + 1)
    else if c.loops[lo] == 1 then (lo + 1, 0)
    else (lo, 0)
  }

  lemma {:induction false} OneTickMore(j: nat, ts: real)
    requires ts > 0.0
    ensures j as real * ts >= 0.0 && (j + 1) as real * ts == j as real * ts + ts
  {
  }

  lemma {:induction false} TickRuns(c: Chain, ts: real, lo: nat, j: nat)
    requires Running(c, ts, lo, j) && lo < c.next && j < Ticks(c.entries[lo].duration, ts)
    ensures Running(Step(c, ts).0, ts, lo, j + 1)
  {
    hide First, Ticks;
    FirstIs(c, ts, lo, j);
    TicksExactly(c.entries[lo].duration, ts, j);
    OneTickMore(j, ts);
  }

  lemma {:induction false} LoopEndRuns(c: Chain, ts: real, lo: nat, j: nat)
    requires Running(c, ts, lo, j) && lo < c.next && j == Ticks(c.entries[lo].duration, ts)
    ensures Running(Step(c, ts).0, ts, if c.loops[lo] == 1 then lo + 1 else lo, 0)
  {
    FirstIs(c, ts, lo, j);
    TicksExactly(c.entries[lo].duration, ts, j);
  }

  lemma {:induction false} StepRuns(c: Chain, ts: real, lo: nat, j: nat)
    requires Running(c, ts, lo, j)
    ensures var (lo', j') := NextPlace(c, ts, lo, j);
            Running(Step(c, ts).0, ts, lo', j')
  {
    FirstIs(c, ts, lo, j);
    if lo < c.next {
      if j < Ticks(c.entries[lo].duration, ts) {
        TickRuns(c, ts, lo, j);
      } else {
        LoopEndRuns(c, ts, lo, j);
      }
    }
  }

  lemma {:induction false} TickIs(c: Chain, ts: real, lo: nat, j: nat)
    requires Running(c, ts, lo, j) && lo < c.next && j < Ticks(c.entries[lo].duration, ts)
    ensures Sound(c)
    ensures var e := c.entries[lo];
            && e.duration > 0.0
            && Step(c, ts) == (c.(entries := c.entries[lo := e.(elapsed := e.elapsed + ts)]),
                               [Update(lo, j as real * ts / e.duration)])
  {
    hide First, Ticks;
    FirstIs(c, ts, lo, j);
    TicksExactly(c.entries[lo].duration, ts, j);
    OneTickMore(j, ts);
  }

  lemma {:induction false} StepTicks(c: Chain, ts: real, lo: nat, j: nat)
    requires Running(c, ts, lo, j) && AllFinite(c, lo) && lo < c.next && j < Ticks(c.entries[lo].duration, ts)
    requires Running(Step(c, ts).0, ts, lo, j + 1)
    ensures var (c', events) := Step(c, ts);
            && AllFinite(c', lo)
            && events + Pending(c', ts, lo, j + 1) == Pending(c, ts, lo, j)
            && Remaining(c', ts, lo, j + 1) == Remaining(c, ts, lo, j) - 1
  {
    hide Pending, Remaining, EntryEvents, ChainEvents, ChainSteps, Times, Ticks, First, Step;
    TickIs(c, ts, lo, j);
    var (c', events) := Step(c, ts);
    RestUnchanged(c, c', ts, lo + 1);
    PendingParts(c, ts, lo, j);
    PendingParts(c', ts, lo, j + 1);
  }

  lemma {:induction false} StepLoops(c: Chain, ts: real, lo: nat, j: nat)
    requires Running(c, ts, lo, j) && AllFinite(c, lo) && lo < c.next && j == Ticks(c.entries[lo].duration, ts)
    requires c.loops[lo] > 1 && Running(Step(c, ts).0, ts, lo, 0)
    ensures var (c', events) := Step(c, ts);
            && AllFinite(c', lo)
            && events + Pending(c', ts, lo, 0) == Pending(c, ts, lo, j)
            && Remaining(c', ts, lo, 0) == Remaining(c, ts, lo, j) - 1
  {
    hide Pending, Remaining, ChainEvents, ChainSteps, Ticks, First;
    FirstIs(c, ts, lo, j);
    TicksExactly(c.entries[lo].duration, ts, j);
    var (c', events) := Step(c, ts);
    RestUnchanged(c, c', ts, lo + 1);
    PendingParts(c, ts, lo, j);
    PendingParts(c', ts, lo, 0);
  }

  lemma {:induction false} StepCompletes(c: Chain, ts: real, lo: nat, j: nat)
    requires Running(c, ts, lo, j) && AllFinite(c, lo) && lo < c.next && j == Ticks(c.entries[lo].duration, ts)
    requires c.loops[lo] == 1 && Running(Step(c, ts).0, ts, lo + 1, 0)
    ensures var (c', events) := Step(c, ts);
            && AllFinite(c', lo + 1)
            && events + Pending(c', ts, lo + 1, 0) == Pending(c, ts, lo, j)
            && Remaining(c', ts, lo + 1, 0) == Remaining(c, ts, lo, j) - 1
  {
    hide Pending, Remaining, ChainEvents, ChainSteps, Ticks, First;
    FirstIs(c, ts, lo, j);
    TicksExactly(c.entries[lo].duration, ts, j);
    var (c', events) := Step(c, ts);
    RestUnchanged(c, c', ts, lo + 1);
    PendingParts(c, ts, lo, j);
    PendingFromStart(c', ts, lo + 1);
  }

  /** Before the first entry has started, everything is still to come. */
  lemma {:induction false} PendingFromStart(c: Chain, ts: real, lo: nat)
    requires Running(c, ts, lo, 0) && AllFinite(c, lo)
    ensures Pending(c, ts, lo, 0) == ChainEvents(c, ts, lo)
    ensures Remaining(c, ts, lo, 0) == ChainSteps(c, ts, lo)
  {
  }

  /** Every step does the next thing due, and takes one off the steps that remain. */
  lemma {:induction false} StepDoesTheNextThing(c: Chain, ts: real, lo: nat, j: nat)
    requires Running(c, ts, lo, j) && AllFinite(c, lo) && lo < c.next
    ensures var (lo', j') := NextPlace(c, ts, lo, j);
            var (c', events) := Step(c, ts);
            && Running(c', ts, lo', j') && AllFinite(c', lo')
            && events + Pending(c', ts, lo', j') == Pending(c, ts, lo, j)
            && Remaining(c', ts, lo', j') == Remaining(c, ts, lo, j) - 1
  {
    StepRuns(c, ts, lo, j);
    hide Pending, Remaining, Step, AllFinite;
    if j < Ticks(c.entries[lo].duration, ts) {
      StepTicks(c, ts, lo, j);
    } else if c.loops[lo] == 1 {
      StepCompletes(c, ts, lo, j);
    } else {
      StepLoops(c, ts, lo, j);
    }
  }

  // ---------------------------------------------------------------- whole runs

  /** `n` steps, and everything that happened in them. */
  function Steps(c: Chain, ts: real, n: nat): (r: (Chain, seq<Event>))
    requires ts >= 0.0 && Sound(c)
    decreases n
  {
    if n == 0 then (c, [])
    else
      var (c1, events) := Step(c, ts);
      var (c2, more) := Steps(c1, ts, n - 1);
      (c2, events + more)
  }

  /** A paused chain, or an empty one, does nothing and changes nothing, however often it is
      stepped. */
  lemma {:induction false} Idles(c: Chain, ts: real, n: nat)
    requires ts >= 0.0 && Sound(c) && (c.paused || c.entries == map[])
    ensures Steps(c, ts, n) == (c, [])
    decreases n
  {
    if n > 0 {
      var x := First(c.entries, 0, c.next);
      assert c.entries == map[] ==> x !in c.entries;
      Idles(c, ts, n - 1);
      assert Steps(c, ts, n).1 == [] + [];
    }
  }

  lemma {:induction false} EmptyExactlyAtEnd(c: Chain, ts: real, lo: nat, j: nat)
    requires Running(c, ts, lo, j) && AllFinite(c, lo)
    ensures c.entries == map[] <==> Remaining(c, ts, lo, j) == 0
    ensures Remaining(c, ts, lo, j) > 0 ==> lo < c.next
    ensures Remaining(c, ts, lo, j) == 0 ==> Pending(c, ts, lo, j) == []
  {
  }

  /** `n` steps do the beginning of what is pending, and empty the chain exactly when they are
      as many as remain. */
  ghost predicate OnSchedule(c: Chain, ts: real, lo: nat, j: nat, n: nat)
    requires Running(c, ts, lo, j) && AllFinite(c, lo)
  {
    && Steps(c, ts, n).1 <= Pending(c, ts, lo, j)
    && (Steps(c, ts, n).0.entries == map[] <==> n == Remaining(c, ts, lo, j))
    && (n == Remaining(c, ts, lo, j) ==> Steps(c, ts, n).1 == Pending(c, ts, lo, j))
  }

  lemma {:induction false} OneStepEarlier(c: Chain, ts: real, lo: nat, j: nat, lo': nat, j': nat, n: nat)
    requires Running(c, ts, lo, j) && AllFinite(c, lo) && lo < c.next && n > 0 && (lo', j') == NextPlace(c, ts, lo, j)
    requires Running(Step(c, ts).0, ts, lo', j') && AllFinite(Step(c, ts).0, lo')
    requires OnSchedule(Step(c, ts).0, ts, lo', j', n - 1)
    ensures OnSchedule(c, ts, lo, j, n)
  {
    hide Running, AllFinite, Pending, Remaining, Step, NextPlace;
    StepDoesTheNextThing(c, ts, lo, j);
  }

  lemma {:induction false} NoSteps(c: Chain, ts: real, lo: nat, j: nat)
    requires Running(c, ts, lo, j) && AllFinite(c, lo)
    ensures OnSchedule(c, ts, lo, j, 0)
  {
  }

  /** A chain with positive loop counts does exactly what is due, in order, and is empty after
      exactly the steps that remain, not earlier. */
  lemma {:induction false} RunsOut(c: Chain, ts: real, lo: nat, j: nat, n: nat)
    requires Running(c, ts, lo, j) && AllFinite(c, lo) && n <= Remaining(c, ts, lo, j)
    ensures OnSchedule(c, ts, lo, j, n)
    decreases n
  {
    hide OnSchedule, Pending, Step, NextPlace;
    EmptyExactlyAtEnd(c, ts, lo, j);
    if n == 0 {
      NoSteps(c, ts, lo, j);
    } else {
      var (lo', j') := NextPlace(c, ts, lo, j);
      StepDoesTheNextThing(c, ts, lo, j);
      RunsOut(Step(c, ts).0, ts, lo', j', n - 1);
      OneStepEarlier(c, ts, lo, j, lo', j', n);
    }
  }

  /** A fresh chain drains in exactly the sum, over its entries, of the loops times one more
      than the ticks of a loop; each entry shows its updates in order, calls onLoop once per
      loop, and calls onComplete once, before the next entry starts. */
  lemma {:induction false} Drains(c: Chain, ts: real, lo: nat)
    requires Running(c, ts, lo, 0) && AllFinite(c, lo)
    ensures var n := ChainSteps(c, ts, lo);
            && Steps(c, ts, n).0.entries == map[]
            && Steps(c, ts, n).1 == ChainEvents(c, ts, lo)
            && forall k :: 0 <= k < n ==> Steps(c, ts, k).0.entries != map[]
  {
    PendingFromStart(c, ts, lo);
    var n := ChainSteps(c, ts, lo);
    RunsOut(c, ts, lo, 0, n);
    forall k | 0 <= k < n ensures Steps(c, ts, k).0.entries != map[] {
      RunsOut(c, ts, lo, 0, k);
    }
  }

  /** `c'` is `c` with nothing changed but the first entry, which still loops. */
  ghost predicate OnlyFirstMoved(c: Chain, c': Chain, lo: nat) {
    && c'.next == c.next && lo in c'.loops && c'.loops[lo] < 0
    && c'.entries.Keys == c.entries.Keys && c'.loops.Keys == c.loops.Keys
    && (forall x :: x in c.entries && x != lo ==> c'.entries[x] == c.entries[x])
    && (forall x :: x in c.loops && x != lo ==> c'.loops[x] == c.loops[x])
  }

  ghost predicate OnlyFrom(events: seq<Event>, lo: nat) {
    forall e :: e in events ==> e.id == lo && !e.Completed?
  }

  /** Entry `lo` is running and loops forever. */
  ghost predicate Stuck(c: Chain, ts: real, lo: nat) {
    lo < c.next && lo in c.loops && c.loops[lo] < 0 && exists j: nat :: Running(c, ts, lo, j)
  }

  lemma {:induction false} StuckStep(c: Chain, ts: real, lo: nat)
    requires Stuck(c, ts, lo)
    ensures ts > 0.0 && Sound(c)
    ensures var (c', events) := Step(c, ts);
            Stuck(c', ts, lo) && OnlyFirstMoved(c, c', lo) && OnlyFrom(events, lo) && |events| >= 1
  {
    var j: nat :| Running(c, ts, lo, j);
    FirstIs(c, ts, lo, j);
    StepRuns(c, ts, lo, j);
  }

  lemma {:induction false} NotMoved(c: Chain, ts: real, lo: nat)
    requires Stuck(c, ts, lo)
    ensures OnlyFirstMoved(c, c, lo) && OnlyFrom([], lo)
  {
  }

  lemma {:induction false} MovedTwice(c: Chain, c1: Chain, c2: Chain, lo: nat)
    requires OnlyFirstMoved(c, c1, lo) && OnlyFirstMoved(c1, c2, lo)
    ensures OnlyFirstMoved(c, c2, lo)
  {
  }

  /** An entry with a negative loop count is never completed: its successors never start. */
  lemma {:induction false} Blocks(c: Chain, ts: real, lo: nat, n: nat)
    requires Stuck(c, ts, lo)
    ensures ts > 0.0 && Sound(c)
    ensures var (c', events) := Steps(c, ts, n);
            OnlyFirstMoved(c, c', lo) && OnlyFrom(events, lo) && |events| >= n
    decreases n
  {
    hide Step, OnlyFirstMoved, Stuck;
    StuckStep(c, ts, lo);
    NotMoved(c, ts, lo);
    if n > 0 {
      var c1 := Step(c, ts).0;
      Blocks(c1, ts, lo, n - 1);
      MovedTwice(c, c1, Steps(c1, ts, n - 1).0, lo);
    }
  }

  /** `k` whole loops of one entry. */
  function WholeLoops(id: nat, duration: real, ts: real, k: nat): seq<Event>
    requires ts > 0.0
  {
    if k == 0 then [] else LoopEvents(id, duration, ts, 0) + WholeLoops(id, duration, ts, k - 1)
  }

  /** `c'` is `c` after `k` more loops of its first entry, which loops forever. */
  ghost predicate Looping(c: Chain, c': Chain, ts: real, lo: nat, k: nat) {
    && OnlyFirstMoved(c, c', lo) && Running(c', ts, lo, 0) && lo < c.next
    && lo in c.entries && lo in c.loops && lo in c'.entries
    && c'.loops[lo] == c.loops[lo] - k && c'.entries[lo].duration == c.entries[lo].duration
  }

  /** One step of an entry that loops forever: a tick, or the end of a loop. */
  lemma {:induction false} ForeverStep(c: Chain, ts: real, lo: nat, j: nat)
    requires Running(c, ts, lo, j) && lo < c.next && lo in c.loops && c.loops[lo] < 0
    ensures ts > 0.0 && Sound(c) && lo in c.entries && j <= Ticks(c.entries[lo].duration, ts)
    ensures var d := c.entries[lo].duration;
            var (c', events) := Step(c, ts);
            && OnlyFirstMoved(c, c', lo) && lo in c'.entries && c'.entries[lo].duration == d
            && if j < Ticks(d, ts) then
                 Running(c', ts, lo, j + 1) && c'.loops[lo] == c.loops[lo]
                 && events + LoopEvents(lo, d, ts, j + 1) == LoopEvents(lo, d, ts, j)
               else
                 Running(c', ts, lo, 0) && c'.loops[lo] == c.loops[lo] - 1 && events == LoopEvents(lo, d, ts, j)
  {
    hide Ticks, First;
    FirstIs(c, ts, lo, j);
    StepRuns(c, ts, lo, j);
    TicksExactly(c.entries[lo].duration, ts, j);
  }

  /** The loop under way is finished in the steps it still needs. */
  lemma {:induction false} LoopEnds(c: Chain, ts: real, lo: nat, j: nat, n: nat)
    requires Running(c, ts, lo, j) && lo < c.next && lo in c.loops && c.loops[lo] < 0
    requires lo in c.entries && n + j == Ticks(c.entries[lo].duration, ts) + 1
    ensures ts > 0.0 && Sound(c)
    ensures var (c', events) := Steps(c, ts, n);
            Looping(c, c', ts, lo, 1) && events == LoopEvents(lo, c.entries[lo].duration, ts, j)
    decreases n
  {
    hide Running, Step, Ticks, LoopEvents, OnlyFirstMoved, Sound;
    ForeverStep(c, ts, lo, j);
    var (c1, events) := Step(c, ts);
    OnlyMoved(c, c1, lo);
    if n > 1 {
      LoopEnds(c1, ts, lo, j + 1, n - 1);
      MovedTwice(c, c1, Steps(c1, ts, n - 1).0, lo);
    } else {
      assert events + [] == events;
    }
  }

  lemma {:induction false} OnlyMoved(c: Chain, c': Chain, lo: nat)
    requires OnlyFirstMoved(c, c', lo)
    ensures c'.next == c.next && lo in c'.loops && c'.loops[lo] < 0
  {
  }

  /** An entry that loops forever does whole loops, one after the other, each with its updates
      and its onLoop, in exactly the ticks and one step more. */
  lemma {:induction false} LoopsForever(c: Chain, ts: real, lo: nat, k: nat)
    requires Running(c, ts, lo, 0) && lo < c.next && lo in c.loops && c.loops[lo] < 0
    ensures ts > 0.0 && Sound(c) && lo in c.entries
    ensures var d := c.entries[lo].duration;
            var (c', events) := Steps(c, ts, Times(k, Ticks(d, ts) + 1));
            Looping(c, c', ts, lo, k) && events == WholeLoops(lo, d, ts, k)
    decreases k
  {
    hide Running, Ticks, LoopEvents, OnlyFirstMoved, Sound;
    ForeverStart(c, ts, lo);
    if k > 0 {
      var n := Ticks(c.entries[lo].duration, ts) + 1;
      LoopEnds(c, ts, lo, 0, n);
      var c1 := Steps(c, ts, n).0;
      LoopingOn(c, c1, ts, lo);
      LoopsForever(c1, ts, lo, k - 1);
      StepsAdd(c, ts, n, Times(k - 1, n));
      MovedTwice(c, c1, Steps(c1, ts, Times(k - 1, n)).0, lo);
    }
  }

  lemma {:induction false} ForeverStart(c: Chain, ts: real, lo: nat)
    requires Running(c, ts, lo, 0) && lo < c.next && lo in c.loops && c.loops[lo] < 0
    ensures ts > 0.0 && Sound(c) && lo in c.entries && Looping(c, c, ts, lo, 0)
  {
  }

  lemma {:induction false} LoopingOn(c: Chain, c': Chain, ts: real, lo: nat)
    requires Looping(c, c', ts, lo, 1)
    ensures Running(c', ts, lo, 0) && lo < c'.next && lo in c'.loops && c'.loops[lo] < 0
  {
  }

  lemma {:induction false} StepsAdd(c: Chain, ts: real, n: nat, m: nat)
    requires ts >= 0.0 && Sound(c)
    ensures var (c1, events) := Steps(c, ts, n);
            Sound(c1) && Steps(c, ts, n + m) == (Steps(c1, ts, m).0, events + Steps(c1, ts, m).1)
    decreases n
  {
    hide Step, Sound;
    if n > 0 {
      var (c1, events) := Step(c, ts);
      StepsAdd(c1, ts, n - 1, m);
      var (c2, more) := Steps(c1, ts, n - 1);
      assert events + (more + Steps(c2, ts, m).1) == (events + more) + Steps(c2, ts, m).1;
    } else {
      assert [] + Steps(c, ts, m).1 == Steps(c, ts, m).1;
    }
  }

  // ---------------------------------------------------------------- finite entries, then one that loops forever

  ghost function EntriesBelow(entries: map<nat, Entry>, m: nat): map<nat, Entry> {
    map x | x in entries && x < m :: entries[x]
  }

  /** The chain without the entries from `m` on. */
  ghost function Front(c: Chain, m: nat): Chain {
    Chain(EntriesBelow(c.entries, m), c.loops, m, c.paused)
  }

  /** The entries before `m` have positive loop counts. */
  ghost predicate FiniteTo(c: Chain, ts: real, lo: nat, j: nat, m: nat) {
    && Running(c, ts, lo, j) && lo <= m <= c.next && (lo == m ==> j == 0)
    && forall x :: lo <= x < m ==> c.loops[x] > 0
  }

  lemma {:induction false} FrontRuns(c: Chain, ts: real, lo: nat, j: nat, m: nat)
    requires FiniteTo(c, ts, lo, j, m)
    ensures Running(Front(c, m), ts, lo, j) && AllFinite(Front(c, m), lo)
  {
  }

  lemma {:induction false} BelowKeeps(entries: map<nat, Entry>, m: nat, x: nat, e: Entry)
    requires x < m
    ensures EntriesBelow(entries[x := e], m) == EntriesBelow(entries, m)[x := e]
    ensures EntriesBelow(entries[x := e] - {x}, m) == EntriesBelow(entries, m)[x := e] - {x}
    ensures x in entries ==> x in EntriesBelow(entries, m) && EntriesBelow(entries, m)[x] == entries[x]
  {
  }

  lemma {:induction false} FrontStep(c: Chain, ts: real, m: nat, x: nat)
    requires ts >= 0.0 && Sound(c) && Sound(Front(c, m)) && x < m <= c.next && !c.paused && x in c.entries
    requires First(c.entries, 0, c.next) == x && First(Front(c, m).entries, 0, m) == x
    ensures Step(Front(c, m), ts).0 == Front(Step(c, ts).0, m) && Step(Front(c, m), ts).1 == Step(c, ts).1
  {
    hide First, EntriesBelow, Sound;
    var e := c.entries[x];
    BelowKeeps(c.entries, m, x, e.(elapsed := 0.0));
    BelowKeeps(c.entries, m, x, e.(elapsed := e.elapsed + ts));
  }

  lemma {:induction false} FrontPlace(c: Chain, ts: real, lo: nat, j: nat, m: nat)
    requires FiniteTo(c, ts, lo, j, m) && lo < m && Running(Front(c, m), ts, lo, j)
    ensures Sound(c) && Sound(Front(c, m)) && ts > 0.0 && lo in c.entries && !c.paused
    ensures NextPlace(Front(c, m), ts, lo, j) == NextPlace(c, ts, lo, j)
    ensures First(c.entries, 0, c.next) == lo && First(Front(c, m).entries, 0, m) == lo
  {
    FirstIs(c, ts, lo, j);
    FirstIs(Front(c, m), ts, lo, j);
    hide First, Ticks;
  }

  /** As long as the first entry is before `m`, a step does not see what is behind. */
  lemma {:induction false} FrontSteps(c: Chain, ts: real, lo: nat, j: nat, m: nat)
    requires FiniteTo(c, ts, lo, j, m) && lo < m
    ensures Running(c, ts, lo, j) && Running(Front(c, m), ts, lo, j) && AllFinite(Front(c, m), lo)
    ensures Sound(c) && ts > 0.0
    ensures Step(Front(c, m), ts).0 == Front(Step(c, ts).0, m) && Step(Front(c, m), ts).1 == Step(c, ts).1
    ensures NextPlace(Front(c, m), ts, lo, j) == NextPlace(c, ts, lo, j)
  {
    hide Running, AllFinite, Sound, Step, NextPlace, First, Front;
    FrontRuns(c, ts, lo, j, m);
    FrontPlace(c, ts, lo, j, m);
    FrontStep(c, ts, m, lo);
  }

  lemma {:induction false} FrontNext(c: Chain, ts: real, lo: nat, j: nat, m: nat)
    requires FiniteTo(c, ts, lo, j, m) && lo < m
    ensures Sound(c) && ts > 0.0
    ensures var (lo', j') := NextPlace(c, ts, lo, j);
            var c' := Step(c, ts).0;
            && FiniteTo(c', ts, lo', j', m) && c'.next == c.next
            && forall x :: m <= x < c.next ==> c'.loops[x] == c.loops[x] && x in c.entries && c'.entries[x] == c.entries[x]
  {
    FirstIs(c, ts, lo, j);
    StepRuns(c, ts, lo, j);
    hide First, Ticks;
  }

  /** The entries before `m` drain as if nothing came behind; the entry at `m` starts then. */
  lemma {:induction false} FrontDrains(c: Chain, ts: real, lo: nat, j: nat, m: nat, n: nat)
    requires FiniteTo(c, ts, lo, j, m)
    requires Running(Front(c, m), ts, lo, j) && AllFinite(Front(c, m), lo)
    requires n == Remaining(Front(c, m), ts, lo, j)
    ensures Sound(c)
    ensures var (c', events) := Steps(c, ts, n);
            && Running(c', ts, m, 0) && c'.next == c.next
            && (forall x :: m <= x < c.next ==> c'.loops[x] == c.loops[x] && x in c.entries && c'.entries[x] == c.entries[x])
            && events == Pending(Front(c, m), ts, lo, j)
    decreases n
  {
    hide FiniteTo, Running, AllFinite, Sound, Pending, Remaining, Step, EntriesBelow, NextPlace;
    if lo < m {
      FrontSteps(c, ts, lo, j, m);
      FrontNext(c, ts, lo, j, m);
      StepDoesTheNextThing(Front(c, m), ts, lo, j);
      var (lo', j') := NextPlace(c, ts, lo, j);
      FrontDrains(Step(c, ts).0, ts, lo', j', m, n - 1);
    } else {
      FrontDone(c, ts, lo, j, m);
    }
  }

  lemma {:induction false} FrontDone(c: Chain, ts: real, lo: nat, j: nat, m: nat)
    requires FiniteTo(c, ts, lo, j, m) && lo >= m
    requires Running(Front(c, m), ts, lo, j) && AllFinite(Front(c, m), lo)
    ensures ts > 0.0 && Sound(c) && Running(c, ts, m, 0)
    ensures Pending(Front(c, m), ts, lo, j) == [] && Remaining(Front(c, m), ts, lo, j) == 0
  {
  }

  /** Finite entries in front of one that loops forever do their part in exactly the steps
      they need, in order; then the chain is stuck at that one. */
  lemma {:induction false} FiniteThenForever(c: Chain, ts: real, lo: nat, m: nat)
    requires FiniteTo(c, ts, lo, 0, m) && m < c.next && c.loops[m] < 0
    ensures Running(Front(c, m), ts, lo, 0) && AllFinite(Front(c, m), lo) && Sound(c)
    ensures var (c', events) := Steps(c, ts, ChainSteps(Front(c, m), ts, lo));
            Stuck(c', ts, m) && events == ChainEvents(Front(c, m), ts, lo)
  {
    FrontRuns(c, ts, lo, 0, m);
    PendingFromStart(Front(c, m), ts, lo);
    FrontDrains(c, ts, lo, 0, m, ChainSteps(Front(c, m), ts, lo));
  }

  // ---------------------------------------------------------------- adding and skipping

  /** A missing loop count, or zero, means one loop. */
  function Add(c: Chain, duration: real, loop: int): Chain {
    Chain(c.entries[c.next := Entry(duration, 0.0)], c.loops[c.next := if loop != 0 then loop else 1], c.next + 1, c.paused)
  }

  function Skip(c: Chain): Chain {
    var x := First(c.entries, 0, c.next);
    if x < c.next then c.(entries := c.entries - {x}) else c
  }

  lemma {:induction false} AddRuns(c: Chain, ts: real, lo: nat, j: nat, duration: real, loop: int)
    requires Running(c, ts, lo, j) && AllFinite(c, lo) && loop >= 0
    ensures Running(Add(c, duration, loop), ts, lo, j) && AllFinite(Add(c, duration, loop), lo)
  {
  }

  /** An added entry comes after all others and delays none of them. */
  lemma {:induction false} AddGoesLast(c: Chain, ts: real, lo: nat, j: nat, duration: real, loop: int)
    requires Running(c, ts, lo, j) && AllFinite(c, lo) && loop >= 0
    ensures var c' := Add(c, duration, loop);
            var n := if loop != 0 then loop else 1;
            && Running(c', ts, lo, j) && AllFinite(c', lo)
            && Pending(c', ts, lo, j) == Pending(c, ts, lo, j) + EntryEvents(c.next, duration, ts, n)
            && Remaining(c', ts, lo, j) == Remaining(c, ts, lo, j) + Times(n, Ticks(duration, ts) + 1)
  {
    hide Running, AllFinite, Pending, Remaining, LoopEvents, EntryEvents, ChainEvents, ChainSteps, Times, Ticks;
    var c' := Add(c, duration, loop);
    AddRuns(c, ts, lo, j, duration, loop);
    if lo < c.next {
      AddedAtEnd(c, ts, lo, j, duration, loop);
      PendingParts(c, ts, lo, j);
      PendingParts(c', ts, lo, j);
    } else {
      NothingLeft(c, ts, lo, j);
      AddedFirst(c', ts, lo);
    }
  }

  lemma {:induction false} AddedBehindFront(c: Chain, ts: real, lo: nat, j: nat, duration: real, loop: int)
    requires Running(c, ts, lo, j) && AllFinite(c, lo)
    ensures FiniteTo(Add(c, duration, loop), ts, lo, j, c.next)
  {
    hide Ticks;
  }

  lemma {:induction false} FrontEntries(c: Chain, ts: real, lo: nat, j: nat, duration: real, loop: int)
    requires Running(c, ts, lo, j) && AllFinite(c, lo)
    ensures var front := Front(Add(c, duration, loop), c.next);
            && ts > 0.0 && lo <= c.next == front.next
            && forall x :: lo <= x < c.next ==>
                 && x in c.entries && x in c.loops && c.loops[x] > 0
                 && x in front.entries && x in front.loops
                 && front.loops[x] == c.loops[x] && front.entries[x] == c.entries[x]
  {
    hide Ticks;
  }

  /** Seen from in front of an added entry, the chain is as it was. */
  lemma {:induction false} FrontOfAdded(c: Chain, ts: real, lo: nat, j: nat, duration: real, loop: int)
    requires Running(c, ts, lo, j) && AllFinite(c, lo)
    ensures var front := Front(Add(c, duration, loop), c.next);
            && Running(front, ts, lo, j) && AllFinite(front, lo)
            && Pending(front, ts, lo, j) == Pending(c, ts, lo, j)
            && Remaining(front, ts, lo, j) == Remaining(c, ts, lo, j)
  {
    hide Running, AllFinite, FiniteTo, Front, Add, Pending, Remaining, LoopEvents, EntryEvents, ChainEvents, ChainSteps, Times, Ticks;
    var c' := Add(c, duration, loop);
    var front := Front(c', c.next);
    AddedBehindFront(c, ts, lo, j, duration, loop);
    FrontRuns(c', ts, lo, j, c.next);
    FrontEntries(c, ts, lo, j, duration, loop);
    if lo < c.next {
      RestUnchanged(c, front, ts, lo + 1);
      PendingParts(c, ts, lo, j);
      PendingParts(front, ts, lo, j);
    } else {
      NothingLeft(c, ts, lo, j);
      NothingLeft(front, ts, lo, j);
    }
  }

  lemma {:induction false} StuckAt(c: Chain, ts: real, lo: nat)
    requires Running(c, ts, lo, 0) && lo < c.next && (lo in c.loops ==> c.loops[lo] < 0)
    ensures Stuck(c, ts, lo)
  {
  }

  /** An entry added with a negative loop count lets all others do their part, in exactly the
      steps that remain; then the chain is stuck at it. */
  lemma {:induction false} AddedForever(c: Chain, ts: real, lo: nat, j: nat, duration: real, loop: int)
    requires Running(c, ts, lo, j) && AllFinite(c, lo) && loop < 0
    ensures Sound(Add(c, duration, loop))
    ensures var (end, events) := Steps(Add(c, duration, loop), ts, Remaining(c, ts, lo, j));
            && events == Pending(c, ts, lo, j)
            && Stuck(end, ts, c.next) && end.next == c.next + 1
            && end.loops[c.next] == loop && end.entries[c.next] == Entry(duration, 0.0)
  {
    hide Running, AllFinite, FiniteTo, Pending, Remaining, Front, Sound, Stuck;
    FrontEntries(c, ts, lo, j, duration, loop);
    AddedBehindFront(c, ts, lo, j, duration, loop);
    FrontOfAdded(c, ts, lo, j, duration, loop);
    FrontDrains(Add(c, duration, loop), ts, lo, j, c.next, Remaining(c, ts, lo, j));
    StuckAt(Steps(Add(c, duration, loop), ts, Remaining(c, ts, lo, j)).0, ts, c.next);
  }

  lemma {:induction false} NothingLeft(c: Chain, ts: real, lo: nat, j: nat)
    requires Running(c, ts, lo, j) && AllFinite(c, lo) && lo >= c.next
    ensures lo == c.next && j == 0 && Pending(c, ts, lo, j) == [] && Remaining(c, ts, lo, j) == 0
  {
  }

  lemma {:induction false} PendingParts(c: Chain, ts: real, lo: nat, j: nat)
    requires Running(c, ts, lo, j) && AllFinite(c, lo) && lo < c.next
    ensures var d := c.entries[lo].duration;
            && Pending(c, ts, lo, j)
               == LoopEvents(lo, d, ts, j) + EntryEvents(lo, d, ts, c.loops[lo] - 1) + ChainEvents(c, ts, lo + 1)
            && Remaining(c, ts, lo, j)
               == (Ticks(d, ts) - j + 1) + Times(c.loops[lo] - 1, Ticks(d, ts) + 1) + ChainSteps(c, ts, lo + 1)
  {
  }

  lemma {:induction false} AddedFirst(c: Chain, ts: real, lo: nat)
    requires Running(c, ts, lo, 0) && AllFinite(c, lo) && c.next == lo + 1
    ensures Pending(c, ts, lo, 0) == EntryEvents(lo, c.entries[lo].duration, ts, c.loops[lo])
    ensures Remaining(c, ts, lo, 0) == Times(c.loops[lo], Ticks(c.entries[lo].duration, ts) + 1)
  {
  }

  /** The entries behind the first, before and after an addition. */
  lemma {:induction false} AddedAtEnd(c: Chain, ts: real, lo: nat, j: nat, duration: real, loop: nat)
    requires Running(c, ts, lo, j) && AllFinite(c, lo) && lo < c.next
    requires Running(Add(c, duration, loop), ts, lo, j) && AllFinite(Add(c, duration, loop), lo)
    ensures var c' := Add(c, duration, loop);
            var n := if loop != 0 then loop else 1;
            && ChainEvents(c', ts, lo + 1) == ChainEvents(c, ts, lo + 1) + EntryEvents(c.next, duration, ts, n)
            && ChainSteps(c', ts, lo + 1) == ChainSteps(c, ts, lo + 1) + Times(n, Ticks(duration, ts) + 1)
            && c'.entries[lo] == c.entries[lo] && c'.loops[lo] == c.loops[lo]
  {
    AddedBehind(c, ts, lo + 1, duration, loop);
  }

  lemma {:induction false} AddedBehind(c: Chain, ts: real, lo: nat, duration: real, loop: nat)
    requires ts > 0.0 && lo <= c.next
    requires forall x :: lo <= x < c.next ==> x in c.entries && x in c.loops && c.loops[x] > 0
    ensures var c' := Add(c, duration, loop);
            var n := if loop != 0 then loop else 1;
            && ChainEvents(c', ts, lo) == ChainEvents(c, ts, lo) + EntryEvents(c.next, duration, ts, n)
            && ChainSteps(c', ts, lo) == ChainSteps(c, ts, lo) + Times(n, Ticks(duration, ts) + 1)
    decreases c.next - lo
  {
    if lo < c.next {
      AddedBehind(c, ts, lo + 1, duration, loop);
    } else {
      assert ChainEvents(Add(c, duration, loop), ts, lo + 1) == [];
    }
  }

  /** Skipping drops the entry with the lowest key, also of a paused chain. */
  lemma {:induction false} SkipDropsLowest(c: Chain, x: nat)
    requires Sound(c) && x in c.entries && forall y :: y in c.entries ==> x <= y
    ensures Skip(c) == c.(entries := c.entries - {x})
  {
    var y := First(c.entries, 0, c.next);
    assert x < c.next;
  }

  lemma {:induction false} SkipNothing(c: Chain)
    requires c.entries == map[]
    ensures Skip(c) == c
  {
    assert First(c.entries, 0, c.next) !in c.entries;
  }

  /** Skipping drops the running entry, also one that would loop forever, and starts the next. */
  lemma {:induction false} SkipStartsTheNext(c: Chain, ts: real, lo: nat, j: nat)
    requires Running(c, ts, lo, j) && lo < c.next
    ensures Running(Skip(c), ts, lo + 1, 0)
    ensures forall x :: lo < x < c.next ==> Skip(c).entries[x] == c.entries[x] && Skip(c).loops[x] == c.loops[x]
  {
  }

  // ---------------------------------------------------------------- the animator

  class Animator {
    var animEntries: map<nat, Entry>
    var animLoops: map<nat, int>
    var current: nat
    var paused: bool
    const timestep: real
    /** The callbacks made so far. */
    var log: seq<Event>

    ghost function View(): Chain
      reads this
    {
      Chain(animEntries, animLoops, current, paused)
    }

    ghost predicate Valid()
      reads this
    {
      timestep > 0.0 && Sound(View())
    }

    constructor (timestep: real)
      requires timestep > 0.0
      ensures Valid() && View() == Chain(map[], map[], 0, false) && log == [] && this.timestep == timestep
    {
      animEntries, animLoops, current, paused, log := map[], map[], 0, false, [];
      this.timestep := timestep;
    }

    method AddEntry(duration: real, loop: int)
      requires Valid()
      modifies this
      ensures Valid() && View() == Add(old(View()), duration, loop) && log == old(log)
      ensures current == old(current) + 1 && paused == old(paused)
      ensures animEntries == old(animEntries)[old(current) := Entry(duration, 0.0)]
      ensures animLoops == old(animLoops)[old(current) := if loop == 0 then 1 else loop]
    {
      animEntries := animEntries[current := Entry(duration, 0.0)];
      animLoops := animLoops[current := if loop != 0 then loop else 1];
      current := current + 1;
    }

    method SkipEntry()
      requires Valid()
      modifies this
      ensures Valid() && View() == Skip(old(View())) && log == old(log)
    {
      var x := FirstKey();
      if x < current {
        animEntries := animEntries - {x};
      }
    }

    method FirstKey() returns (x: nat)
      ensures x == First(animEntries, 0, current)
    {
      x := 0;
      while x < current && x !in animEntries
        invariant x <= current && First(animEntries, x, current) == First(animEntries, 0, current)
      {
        x := x + 1;
      }
    }

    /** Move entry `x` one step; true when it has reached its end. */
    method StepEntry(x: nat) returns (finished: bool)
      requires Valid() && x in animEntries
      modifies this`animEntries, this`log
      ensures Valid() && finished == Finished(old(animEntries[x]))
      ensures log == old(log) + [Update(x, Shown(old(animEntries[x])))]
      ensures animEntries == if finished then old(animEntries)
                             else old(animEntries)[x := old(animEntries[x]).(elapsed := old(animEntries[x].elapsed) + timestep)]
    {
      var e := animEntries[x];
      if e.elapsed >= e.duration {
        log := log + [Update(x, 1.0)];
        return true;
      }
      var t := e.elapsed / e.duration;
      log := log + [Update(x, t)];
      animEntries := animEntries[x := e.(elapsed := e.elapsed + timestep)];
      finished := false;
    }

    method StepOnce()
      requires Valid()
      modifies this
      ensures Valid()
      ensures var (c, events) := Step(old(View()), timestep);
              View() == c && log == old(log) + events
      ensures old(paused) ==> View() == old(View()) && log == old(log)
    {
      ghost var was := View();
      if !paused {
        var x := FirstKey();
        if x < current {
          var finished := StepEntry(x);
          if finished {
            animLoops := animLoops[x := animLoops[x] - 1];
            animEntries := animEntries[x := animEntries[x].(elapsed := 0.0)];
            log := log + [Looped(x)];
          }
          if animLoops[x] == 0 {
            log := log + [Completed(x)];
            animEntries := animEntries - {x};
          }
          assert log == old(log) + Step(was, timestep).1;
          assert View() == Step(was, timestep).0;
        }
      }
    }
  }
}
