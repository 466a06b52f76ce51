/** The dispatcher itself: its loops, what they do in every case, and two surprises. */
module EveDispatch {
  import opened Eve

  // ---------------------------------------------------------------- the outcome

  /** Nobody has called stop, except the last one when `t`. */
  ghost predicate Calm(u: seq<Listener>, fired: seq<nat>, t: bool)
    requires Places(u, fired)
  {
    && (forall k :: 0 <= k < |fired| - 1 ==> !u[fired[k]].stops)
    && (t <==> |fired| > 0 && u[fired[|fired| - 1]].stops)
  }

  /** What a dispatch does when no listeners clash.  `fired[..cut]` is the start of the
      intended order and nobody before its last listener calls stop.  If nobody stops, it is
      the whole order.  If the last one stops, that is the end, with one exception: when that
      listener had been held back, the next listener without zIndex fires all the same. */
  ghost predicate Outcome(u: seq<Listener>, fired: seq<nat>, cut: nat) {
    && Places(u, fired) && cut <= |fired|
    && Prefix(u, fired[..cut])
    && (forall k :: 0 <= k < cut - 1 ==> !u[fired[k]].stops)
    && if cut == 0 || !u[fired[cut - 1]].stops then |fired| == cut && Everything(u, fired)
       else
         var x := fired[cut - 1];
         if Late(u, x) && exists v :: NextPlain(u, x, v) then |fired| == cut + 1 && NextPlain(u, x, fired[cut])
         else |fired| == cut
  }

  /** The dispatch has ended, as told by `Outcome`. */
  ghost predicate Ended(u: seq<Listener>, fired: seq<nat>) {
    Outcome(u, fired, |fired|) || (|fired| > 0 && Outcome(u, fired, |fired| - 1))
  }

  // ---------------------------------------------------------------- the first pass

  /** The table after the first `g` listeners. */
  ghost predicate TableTo(u: seq<Listener>, g: nat, c: Table) {
    && g <= |u|
    && (forall x :: x in c ==> x < 0.0 && c[x] < g && u[c[x]].z == Z(x))
    && (forall x, j :: x in c && c[x] < j < g ==> u[j].z != Z(x))
    && (forall i :: 0 <= i < g && Neg(u, i) ==> u[i].z.n in c)
  }

  lemma {:induction false} ValuesStep(u: seq<Listener>, g: nat, a: seq<real>)
    requires g < |u| && ValuesTo(u, g, a)
    ensures ValuesTo(u, g + 1, if u[g].z.Z? then a + [u[g].z.n] else a)
  {
    var b := if u[g].z.Z? then a + [u[g].z.n] else a;
    forall x ensures multiset(b)[x] == |Group(u, g + 1, x)| {
      assert Group(u, g + 1, x) == Group(u, g, x) + if u[g].z == Z(x) then {g} else {};
    }
  }

  /** The collected values and table. */
  ghost predicate Prepared(u: seq<Listener>, a: seq<real>, c: Table) {
    Values(u, a) && TableOk(u, c) && OnlyLast(u, c) && forall x :: x in c ==> x < 0.0
  }

  lemma {:induction false} ValueInUse(u: seq<Listener>, a: seq<real>, x: real) returns (i: nat)
    requires Values(u, a) && x in a
    ensures i < |u| && u[i].z == Z(x)
  {
    assert multiset(a)[x] > 0;
    i :| i in Group(u, |u|, x);
  }

  lemma {:induction false} NegativesListed(u: seq<Listener>, a: seq<real>, c: Table)
    requires Values(u, a) && TableOk(u, c)
    ensures forall k :: 0 <= k < |a| && a[k] < 0.0 ==> a[k] in c
  {
    forall k | 0 <= k < |a| && a[k] < 0.0 ensures a[k] in c {
      var i := ValueInUse(u, a, a[k]);
      assert Neg(u, i);
    }
  }

  lemma {:induction false} TableDone(u: seq<Listener>, c: Table)
    requires TableTo(u, |u|, c)
    ensures TableOk(u, c) && OnlyLast(u, c) && forall x :: x in c ==> x < 0.0
  {
  }

  /** The first pass after `g` listeners. */
  ghost predicate Collected(u: seq<Listener>, g: nat, a: seq<real>, c: Table) {
    TableTo(u, g, c) && ValuesTo(u, g, a) && a == ZIndexes(u, g) && c == NegativeTable(u, g)
  }

  lemma {:induction false} CollectNext(u: seq<Listener>, g: nat, a: seq<real>, c: Table)
    requires g < |u| && Collected(u, g, a, c)
    ensures Collected(u, g + 1, if u[g].z.Z? then a + [u[g].z.n] else a, if Neg(u, g) then c[u[g].z.n := g] else c)
  {
    hide Group;
    ValuesStep(u, g, a);
  }

  lemma {:induction false} CollectDone(u: seq<Listener>, a: seq<real>, c: Table)
    requires Collected(u, |u|, a, c)
    ensures Prepared(u, Sort(a), c)
    ensures forall k :: 0 <= k < |Sort(a)| && Sort(a)[k] < 0.0 ==> Sort(a)[k] in c
    ensures a == ZIndexes(u, |u|) && c == NegativeTable(u, |u|)
  {
    hide Sort, TableTo, TableOk, OnlyLast, Group, ZIndexes, NegativeTable;
    TableDone(u, c);
    NegativesListed(u, Sort(a), c);
  }

  /** Collect the zIndex values; remember the listeners that go first. */
  method Collect(u: seq<Listener>) returns (a: seq<real>, c: Table)
    ensures Prepared(u, a, c)
    ensures forall k :: 0 <= k < |a| && a[k] < 0.0 ==> a[k] in c
    ensures a == Sort(ZIndexes(u, |u|)) && c == NegativeTable(u, |u|)
  {
    a, c := [], map[];
    var g := 0;
    assert Collected(u, 0, a, c);
    hide Collected, Prepared, Sort, ZIndexes, NegativeTable;
    while g < |u|
      invariant g <= |u| && Collected(u, g, a, c)
    {
      CollectNext(u, g, a, c);
      if u[g].z.Z? {
        a := a + [u[g].z.n];
        if u[g].z.n < 0.0 {
          c := c[u[g].z.n := g];
        }
      }
      g := g + 1;
    }
    CollectDone(u, a, c);
    a := Sort(a);
  }

  // ---------------------------------------------------------------- the negative ones

  /** The first `|fired|` values, all negative, have been looked up and fired; only the last
      of them may have stopped. */
  ghost predicate FiredBy(u: seq<Listener>, a: seq<real>, c: Table, fired: seq<nat>, t: bool) {
    && Places(u, fired) && |fired| <= |a|
    && (forall k :: 0 <= k < |fired| ==> a[k] < 0.0 && a[k] in c && c[a[k]] == fired[k])
    && Calm(u, fired, t)
  }

  lemma {:induction false} FiredOneMore(u: seq<Listener>, a: seq<real>, c: Table, fired: seq<nat>)
    requires FiredBy(u, a, c, fired, false)
    requires |fired| < |a| && a[|fired|] < 0.0 && a[|fired|] in c && c[a[|fired|]] < |u|
    ensures FiredBy(u, a, c, fired + [c[a[|fired|]]], u[c[a[|fired|]]].stops)
  {
  }

  /** The negative ones, in ascending order, until one of them stops. */
  method FireNegatives(u: seq<Listener>, a: seq<real>, c: Table) returns (s: nat, fired: seq<nat>, t: bool)
    requires Values(u, a) && TableOk(u, c) && Usable(u, c)
    requires forall k :: 0 <= k < |a| && a[k] < 0.0 ==> a[k] in c
    ensures Loop(s, c, fired, t, false) == Negatives(u, a, Loop(0, c, [], false, false))
    ensures s == |fired| && FiredBy(u, a, c, fired, t)
    ensures !t && s < |a| ==> a[s] >= 0.0
    ensures NoTwice(fired) ==> Matched(u, a, s, fired)
    ensures NoClash(u) ==> Started(u, a, s, fired) && Matched(u, a, s, fired)
  {
    hide FiredBy, Started, Matched, NoClash, NoTwice, Values;
    s, fired, t := 0, [], false;
    ghost var good := NoClash(u);
    NothingFired(u, a, c);
    while s < |a| && a[s] < 0.0 && !t
      invariant s == |fired| && FiredBy(u, a, c, fired, t)
      invariant Negatives(u, a, Loop(s, c, fired, t, false)) == Negatives(u, a, Loop(0, c, [], false, false))
      invariant NoTwice(fired) ==> Matched(u, a, s, fired)
      invariant good ==> Started(u, a, s, fired) && Matched(u, a, s, fired)
    {
      var f := c[a[s]];
      FiredOneMore(u, a, c, fired);
      if good { PushNegative(u, a, s, fired, f); }
      if NoTwice(fired + [f]) {
        NoTwiceBefore(fired, f);
        HitOneMore(u, a, s, fired, f);
      }
      fired := fired + [f];
      t := u[f].stops;
      s := s + 1;
    }
  }

  lemma {:induction false} NothingFired(u: seq<Listener>, a: seq<real>, c: Table)
    requires Values(u, a)
    ensures Started(u, a, 0, []) && Matched(u, a, 0, []) && FiredBy(u, a, c, [], false)
  {
    forall x ensures Hits(u, [], x) == {} {
    }
    forall i | 0 <= i < |u| && u[i].z.Z? ensures |a| > 0 && u[i].z.n >= a[0] {
      if |a| > 0 ==> u[i].z.n < a[0] { AllFired(u, a, 0, [], i); }
    }
  }

  lemma {:induction false} NoTwiceBefore(fired: seq<nat>, f: nat)
    requires NoTwice(fired + [f])
    ensures NoTwice(fired) && f !in fired
  {
    var all := fired + [f];
    forall k, l | 0 <= k < l < |fired| ensures fired[k] != fired[l] {
      assert all[k] != all[l];
    }
    forall k | 0 <= k < |fired| ensures fired[k] != f {
      assert all[k] != all[|fired|];
    }
  }

  // ---------------------------------------------------------------- the main loop, as functions

  /** Where the main loop stands: `t` when a listener has called stop, `done` when the loop is
      over. */
  datatype Loop = Loop(s: nat, c: Table, fired: seq<nat>, t: bool, done: bool)

  predicate Usable(u: seq<Listener>, c: Table) {
    forall x :: x in c ==> c[x] < |u|
  }

  /** The inner loop after a trigger: fire what is next for as long as it is in the table. */
  function DrainFrom(u: seq<Listener>, a: seq<real>, l: Loop): (r: Loop)
    requires Usable(u, l.c)
    ensures r.c == l.c && r.done == l.done
    decreases |a| - l.s
  {
    if l.s >= |a| then l
    else
      var z := a[l.s];
      if z !in l.c then l
      else
        var f := l.c[z];
        if u[f].stops then l.(fired := l.fired + [f], t := true)
        else DrainFrom(u, a, l.(s := l.s + 1, fired := l.fired + [f]))
  }

  /** One turn of the main loop, for listener `g`. */
  function Turn(u: seq<Listener>, a: seq<real>, g: nat, l: Loop): (r: Loop)
    requires g < |u| && Usable(u, l.c)
    ensures Usable(u, r.c)
  {
    var hit := l.(fired := l.fired + [g], t := l.t || u[g].stops);
    if u[g].z.None? then hit.(done := hit.t)
    else if l.s < |a| && u[g].z.n == a[l.s] then
      if hit.t then hit.(done := true) else DrainFrom(u, a, hit.(s := l.s + 1))
    else l.(c := l.c[u[g].z.n := g])
  }

  function MainLoop(u: seq<Listener>, a: seq<real>, g: nat, l: Loop): Loop
    requires g <= |u| && Usable(u, l.c)
    decreases |u| - g
  {
    if g == |u| || l.done then l else MainLoop(u, a, g + 1, Turn(u, a, g, l))
  }

  /** The loop over the negative values: until one of their listeners stops. */
  function Negatives(u: seq<Listener>, a: seq<real>, l: Loop): (r: Loop)
    requires Usable(u, l.c)
    ensures r.c == l.c
    decreases |a| - l.s
  {
    if l.t || l.s >= |a| || a[l.s] >= 0.0 then l
    else
      var z := a[l.s];
      if z !in l.c then l
      else
        var f := l.c[z];
        Negatives(u, a, l.(s := l.s + 1, fired := l.fired + [f], t := u[f].stops))
  }

  /** The zIndex values of the first `g` listeners, in the order they are matched. */
  function ZIndexes(u: seq<Listener>, g: nat): seq<real>
    requires g <= |u|
  {
    if g == 0 then []
    else if u[g - 1].z.Z? then ZIndexes(u, g - 1) + [u[g - 1].z.n]
    else ZIndexes(u, g - 1)
  }

  /** The table of the first pass after `g` listeners. */
  function NegativeTable(u: seq<Listener>, g: nat): (c: Table)
    requires g <= |u|
    ensures Usable(u, c)
  {
    if g == 0 then map[]
    else if Neg(u, g - 1) then NegativeTable(u, g - 1)[u[g - 1].z.n := g - 1]
    else NegativeTable(u, g - 1)
  }

  /** The listeners that fire, in order. */
  function Fires(u: seq<Listener>): seq<nat> {
    var a := Sort(ZIndexes(u, |u|));
    var l := Negatives(u, a, Loop(0, NegativeTable(u, |u|), [], false, false));
    if l.t then l.fired else MainLoop(u, a, 0, l).fired
  }

  // ---------------------------------------------------------------- the main loop keeps the order

  ghost predicate LoopOk(u: seq<Listener>, a: seq<real>, g: nat, l: Loop) {
    && Places(u, l.fired)
    && if l.done then Ended(u, l.fired)
       else Calm(u, l.fired, l.t)
            && if l.t then exists tr :: Stopping(u, a, l.s, g, l.fired, tr) else Going(u, a, l.s, g, l.c, l.fired)
  }

  /** `x` was not held back, or no listener without zIndex comes after it. */
  ghost predicate Waits(u: seq<Listener>, x: nat)
    requires x < |u|
  {
    !(Late(u, x) && exists v :: NextPlain(u, x, v))
  }

  lemma {:induction false} PrefixToAll(u: seq<Listener>, fired: seq<nat>)
    requires Prefix(u, fired) && Calm(u, fired, |fired| > 0 && u[fired[|fired| - 1]].stops)
    requires if |fired| > 0 && u[fired[|fired| - 1]].stops
             then Waits(u, fired[|fired| - 1])
             else Everything(u, fired)
    ensures Outcome(u, fired, |fired|)
  {
  }

  lemma {:induction false} DrainEnds(u: seq<Listener>, a: seq<real>, s: nat, g: nat, c: Table, fired: seq<nat>, l: Loop)
    requires Draining(u, a, s, g, c, fired) && Calm(u, fired, false) && (s < |a| ==> a[s] !in c)
    requires l == Loop(s, c, fired, false, false)
    ensures LoopOk(u, a, g + 1, l)
  {
  }

  lemma {:induction false} DrainStopsLoop(u: seq<Listener>, a: seq<real>, s: nat, g: nat, c: Table, fired: seq<nat>,
                                          z: real, l: Loop)
    requires NoClash(u) && Draining(u, a, s, g, c, fired) && Calm(u, fired, false)
    requires s < |a| && z == a[s] && z in c && u[c[z]].stops
    requires l == Loop(s, c, fired + [c[z]], true, false)
    ensures LoopOk(u, a, g + 1, l)
  {
    hide Draining, NoClash;
    DrainStops(u, a, s, g, c, fired, z);
  }

  lemma {:induction false} DrainOk(u: seq<Listener>, a: seq<real>, s: nat, g: nat, c: Table, fired: seq<nat>)
    requires NoClash(u) && Draining(u, a, s, g, c, fired) && Calm(u, fired, false) && Usable(u, c)
    ensures LoopOk(u, a, g + 1, DrainFrom(u, a, Loop(s, c, fired, false, false)))
    decreases |a| - s
  {
    hide Draining, LoopOk, NoClash;
    var l := DrainFrom(u, a, Loop(s, c, fired, false, false));
    if s >= |a| {
      DrainEnds(u, a, s, g, c, fired, l);
    } else {
      var z := a[s];
      if z !in c {
        DrainEnds(u, a, s, g, c, fired, l);
      } else if u[c[z]].stops {
        DrainStopsLoop(u, a, s, g, c, fired, z, l);
      } else {
        DrainOne(u, a, s, g, c, fired, z);
        DrainOk(u, a, s + 1, g, c, fired + [c[z]]);
      }
    }
  }

  lemma {:induction false} PlainTurn(u: seq<Listener>, a: seq<real>, g: nat, l: Loop)
    requires LoopOk(u, a, g, l) && !l.done && !l.t && Usable(u, l.c) && g < |u| && Plain(u, g)
    ensures LoopOk(u, a, g + 1, Turn(u, a, g, l))
  {
    hide Going, Blocked, Outcome, Late, NextPlain;
    GoingPlain(u, a, l.s, g, l.c, l.fired);
    if u[g].stops {
      var f := l.fired + [g];
      PlainStops(u, a, l.s, g + 1, l.c, f);
    }
  }

  lemma {:induction false} PlainStops(u: seq<Listener>, a: seq<real>, s: nat, g: nat, c: Table, fired: seq<nat>)
    requires Going(u, a, s, g, c, fired) && Calm(u, fired, true) && Plain(u, fired[|fired| - 1])
    ensures Ended(u, fired)
  {
    var w := NextIsAhead(u, a, s, g, c, fired);
    StandingIsPrefix(u, a, s, g, fired, w);
    PrefixToAll(u, fired);
  }

  lemma {:induction false} TriggerTurn(u: seq<Listener>, a: seq<real>, g: nat, l: Loop)
    requires NoClash(u) && LoopOk(u, a, g, l) && !l.done && !l.t && Usable(u, l.c) && g < |u|
    requires l.s < |a| && u[g].z == Z(a[l.s])
    ensures LoopOk(u, a, g + 1, Turn(u, a, g, l))
  {
    hide Going, Draining, Blocked, Prefix, NoClash, Late, Outcome, Ended, Stopping, Base, Standing;
    var f := l.fired + [g];
    GoingTrigger(u, a, l.s, g, l.c, l.fired);
    if u[g].stops {
      TriggerStops(u, a, l.s + 1, g, l.c, f);
    } else {
      DrainOk(u, a, l.s + 1, g, l.c, f);
    }
  }

  lemma {:induction false} TriggerStops(u: seq<Listener>, a: seq<real>, s: nat, g: nat, c: Table, fired: seq<nat>)
    requires Draining(u, a, s, g, c, fired) && Blocked(u, a, s, g + 1, fired, g) && !Late(u, g)
    requires Calm(u, fired, true) && fired[|fired| - 1] == g
    ensures Ended(u, fired)
  {
    StandingIsPrefix(u, a, s, g + 1, fired, g);
    PrefixToAll(u, fired);
  }

  /** The plain listener that fires although somebody has stopped. */
  lemma {:induction false} PlainEnds(u: seq<Listener>, a: seq<real>, s: nat, g: nat, fired: seq<nat>, tr: nat)
    requires Stopping(u, a, s, g, fired, tr) && g < |u| && Plain(u, g) && Calm(u, fired, true)
    ensures Ended(u, fired + [g])
  {
    var x := fired[|fired| - 1];
    var f := fired + [g];
    forall w | 0 <= w < g && Plain(u, w) ensures !Ready(u, x, w) {
      NotYet(u, a, s, g, fired, tr, w);
    }
    assert Ready(u, x, g) && NextPlain(u, x, g);
    assert f[..|f| - 1] == fired;
    assert Outcome(u, f, |f| - 1);
  }

  lemma {:induction false} StoppingTurn(u: seq<Listener>, a: seq<real>, g: nat, l: Loop)
    requires NoClash(u) && LoopOk(u, a, g, l) && !l.done && l.t && Usable(u, l.c) && g < |u|
    ensures LoopOk(u, a, g + 1, Turn(u, a, g, l))
  {
    var tr :| Stopping(u, a, l.s, g, l.fired, tr);
    if Plain(u, g) {
      PlainEnds(u, a, l.s, g, l.fired, tr);
    } else {
      var x := l.fired[|l.fired| - 1];
      assert !Clash(u, x, g);
      assert Stopping(u, a, l.s, g + 1, l.fired, tr);
    }
  }

  lemma {:induction false} TurnOk(u: seq<Listener>, a: seq<real>, g: nat, l: Loop)
    requires NoClash(u) && LoopOk(u, a, g, l) && !l.done && Usable(u, l.c) && g < |u|
    ensures LoopOk(u, a, g + 1, Turn(u, a, g, l))
  {
    hide Going, Stopping, NoClash;
    if l.t {
      StoppingTurn(u, a, g, l);
    } else if Plain(u, g) {
      PlainTurn(u, a, g, l);
    } else if l.s < |a| && u[g].z.n == a[l.s] {
      TriggerTurn(u, a, g, l);
    } else {
      GoingHeld(u, a, l.s, g, l.c, l.fired);
    }
  }

  lemma {:induction false} MainLoopOk(u: seq<Listener>, a: seq<real>, g: nat, l: Loop)
    requires NoClash(u) && LoopOk(u, a, g, l) && Usable(u, l.c) && g <= |u|
    ensures Places(u, MainLoop(u, a, g, l).fired) && Ended(u, MainLoop(u, a, g, l).fired)
    decreases |u| - g
  {
    hide NoClash, Turn;
    if l.done {
    } else if g < |u| {
      TurnOk(u, a, g, l);
      MainLoopOk(u, a, g + 1, Turn(u, a, g, l));
    } else if l.t {
      var tr :| Stopping(u, a, l.s, g, l.fired, tr);
      forall w | 0 <= w < |u| && Plain(u, w) ensures !Ready(u, l.fired[|l.fired| - 1], w) {
        NotYet(u, a, l.s, g, l.fired, tr, w);
      }
      PrefixToAll(u, l.fired);
    } else {
      var w := NextIsAhead(u, a, l.s, g, l.c, l.fired);
      StandingIsPrefix(u, a, l.s, g, l.fired, w);
      PrefixToAll(u, l.fired);
    }
  }

  // ---------------------------------------------------------------- after a stop

  /** At most one listener fires after the first one that stops. */
  ghost predicate SoonOver(u: seq<Listener>, fired: seq<nat>) {
    Places(u, fired) && forall k :: 0 <= k < |fired| - 2 ==> !u[fired[k]].stops
  }

  lemma {:induction false} DrainCalm(u: seq<Listener>, a: seq<real>, l: Loop)
    requires Usable(u, l.c) && Places(u, l.fired) && Calm(u, l.fired, false) && !l.t
    ensures var r := DrainFrom(u, a, l);
            Places(u, r.fired) && Calm(u, r.fired, r.t)
    decreases |a| - l.s
  {
    if l.s < |a| {
      var z := a[l.s];
      if z in l.c && !u[l.c[z]].stops {
        DrainCalm(u, a, l.(s := l.s + 1, fired := l.fired + [l.c[z]]));
      }
    }
  }

  lemma {:induction false} TurnCalm(u: seq<Listener>, a: seq<real>, g: nat, l: Loop)
    requires g < |u| && Usable(u, l.c) && Places(u, l.fired) && Calm(u, l.fired, l.t) && !l.done
    ensures var r := Turn(u, a, g, l);
            SoonOver(u, r.fired) && (!r.done ==> Calm(u, r.fired, r.t))
  {
    var hit := l.(fired := l.fired + [g], t := l.t || u[g].stops);
    if !hit.t { DrainCalm(u, a, hit.(s := l.s + 1)); }
  }

  /** Whatever the zIndex values: the main loop is soon over after a stop. */
  lemma {:induction false} MainLoopSoonOver(u: seq<Listener>, a: seq<real>, g: nat, l: Loop)
    requires g <= |u| && Usable(u, l.c) && Places(u, l.fired) && Calm(u, l.fired, l.t) && !l.done
    ensures SoonOver(u, MainLoop(u, a, g, l).fired)
    decreases |u| - g
  {
    hide Turn;
    if g < |u| {
      TurnCalm(u, a, g, l);
      var r := Turn(u, a, g, l);
      if !r.done { MainLoopSoonOver(u, a, g + 1, r); }
    }
  }

  // ---------------------------------------------------------------- exactly who fires after a stop

  /** The first listener from `m` on that a dispatch fires at once when `z` is the value due:
      one without zIndex, or with just that one. */
  function NextTaker(u: seq<Listener>, m: nat, z: real): (v: nat)
    requires m <= |u|
    ensures m <= v <= |u|
    ensures v < |u| ==> u[v].z.None? || u[v].z == Z(z)
    ensures forall w :: m <= w < v ==> u[w].z.Z? && u[w].z != Z(z)
    decreases |u| - m
  {
    if m == |u| || u[m].z.None? || u[m].z == Z(z) then m else NextTaker(u, m + 1, z)
  }

  function Straggler(u: seq<Listener>, m: nat, z: real): seq<nat>
    requires m <= |u|
  {
    var v := NextTaker(u, m, z);
    if v < |u| then [v] else []
  }

  ghost predicate FirstStop(u: seq<Listener>, fired: seq<nat>, k: nat)
    requires Places(u, fired)
  {
    k < |fired| && u[fired[k]].stops && forall i :: 0 <= i < k ==> !u[fired[i]].stops
  }

  /** Of those fired up to place `k`, the negative ones aside, `g` is the one matched last. */
  ghost predicate Furthest(u: seq<Listener>, fired: seq<nat>, k: nat, g: nat)
    requires Places(u, fired) && k < |fired|
  {
    && g < |u| && !Neg(u, g) && (exists i :: 0 <= i <= k && fired[i] == g)
    && forall i :: 0 <= i <= k ==> Neg(u, fired[i]) || fired[i] <= g
  }

  ghost predicate Leads(u: seq<Listener>, fired: seq<nat>, k: nat, g: nat)
    requires k < |fired| && fired[k] < |u| && u[fired[k]].z.Z? && g < |u|
  {
    fired[k + 1..] == Straggler(u, g + 1, u[fired[k]].z.n)
  }

  /** What the first stop leads to.  If the listener that stops is a negative one, or matched
      after all that have fired, the dispatch is over.  Otherwise it had been held back, until
      `g`: then the next listener matched after `g` that has no zIndex, or the zIndex of the one
      that stopped, still fires, if there is one, and nobody else. */
  ghost predicate StopEnds(u: seq<Listener>, fired: seq<nat>) {
    Places(u, fired) && forall k: nat :: FirstStop(u, fired, k) ==>
      if Neg(u, fired[k]) || Furthest(u, fired, k, fired[k]) then |fired| == k + 1
      else NonNeg(u, fired[k]) && exists g: nat :: Furthest(u, fired, k, g) && Leads(u, fired, k, g)
  }

  /** The listeners waiting in the table have been passed. */
  ghost predicate Passed(u: seq<Listener>, g: nat, c: Table) {
    Usable(u, c) && forall x :: x in c && x >= 0.0 ==> c[x] < g && u[c[x]].z == Z(x)
  }

  ghost predicate Below(u: seq<Listener>, fired: seq<nat>, g: nat) {
    Places(u, fired) && forall i :: 0 <= i < |fired| ==> Neg(u, fired[i]) || fired[i] < g
  }

  ghost predicate Silent(u: seq<Listener>, fired: seq<nat>)
    requires Places(u, fired)
  {
    forall i :: 0 <= i < |fired| ==> !u[fired[i]].stops
  }

  /** The last to fire was held back until `m` and has stopped; nobody has been matched since
      who would notice. */
  ghost predicate Unnoticed(u: seq<Listener>, a: seq<real>, g: nat, l: Loop, m: nat)
    requires Places(u, l.fired)
  {
    var n := |l.fired|;
    && n > 0 && FirstStop(u, l.fired, n - 1) && l.s < |a|
    && NonNeg(u, l.fired[n - 1]) && u[l.fired[n - 1]].z == Z(a[l.s])
    && l.fired[n - 1] < m < g <= |u| && Furthest(u, l.fired, n - 1, m) && NextTaker(u, m + 1, a[l.s]) >= g
  }

  /** The main loop before turn `g`. */
  ghost predicate Before(u: seq<Listener>, a: seq<real>, g: nat, l: Loop) {
    && Passed(u, g, l.c) && Positive(a, l.s) && Below(u, l.fired, g)
    && if l.t then exists m :: Unnoticed(u, a, g, l, m) else Silent(u, l.fired)
  }

  lemma {:induction false} StopsHere(u: seq<Listener>, fired: seq<nat>, g: nat)
    requires Below(u, fired, g) && Silent(u, fired) && g < |u| && !Neg(u, g) && u[g].stops
    ensures StopEnds(u, fired + [g])
  {
    var all := fired + [g];
    assert FirstStop(u, all, |fired|) && Furthest(u, all, |fired|, g);
    assert forall k: nat :: FirstStop(u, all, k) ==> k == |fired|;
  }

  lemma {:induction false} GoesOn(u: seq<Listener>, a: seq<real>, g: nat, l: Loop)
    requires Before(u, a, g, l) && !l.t && g < |u| && !u[g].stops
    ensures Before(u, a, g + 1, l.(fired := l.fired + [g]))
  {
  }

  /** Who takes the turn after an unnoticed stop ends the dispatch. */
  lemma {:induction false} TakesOver(u: seq<Listener>, a: seq<real>, g: nat, l: Loop)
    requires Before(u, a, g, l) && l.t && l.s < |a| && g < |u| && (u[g].z.None? || u[g].z == Z(a[l.s]))
    ensures StopEnds(u, l.fired + [g])
  {
    hide Passed, Unnoticed;
    var m :| Unnoticed(u, a, g, l, m);
    EndsWith(u, a, g, l, m, l.fired + [g]);
  }

  lemma {:induction false} NobodyTakesOver(u: seq<Listener>, a: seq<real>, l: Loop)
    requires Before(u, a, |u|, l) && l.t
    ensures StopEnds(u, l.fired)
  {
    hide Passed, Unnoticed;
    var m :| Unnoticed(u, a, |u|, l, m);
    EndsWith(u, a, |u|, l, m, l.fired);
  }

  lemma {:induction false} EndsWith(u: seq<Listener>, a: seq<real>, g: nat, l: Loop, m: nat, all: seq<nat>)
    requires Places(u, l.fired) && Unnoticed(u, a, g, l, m)
    requires if g < |u| then (u[g].z.None? || u[g].z == Z(a[l.s])) && all == l.fired + [g] else all == l.fired
    ensures StopEnds(u, all)
  {
    var n := |l.fired|;
    var x := l.fired[n - 1];
    assert FirstStop(u, all, n - 1) && forall k: nat :: FirstStop(u, all, k) ==> k == n - 1;
    assert Furthest(u, all, n - 1, m) && !Furthest(u, all, n - 1, x);
    assert Leads(u, all, n - 1, m);
  }

  /** Draining in turn `g`. */
  ghost predicate InTurn(u: seq<Listener>, a: seq<real>, g: nat, l: Loop) {
    && Passed(u, g, l.c) && Positive(a, l.s) && Below(u, l.fired, g + 1) && Silent(u, l.fired)
    && !l.t && g < |u| && !Neg(u, g) && g in l.fired
  }

  lemma {:induction false} DrainEndsTurn(u: seq<Listener>, a: seq<real>, g: nat, l: Loop)
    requires InTurn(u, a, g, l)
    ensures Before(u, a, g + 1, DrainFrom(u, a, l))
    decreases |a| - l.s
  {
    hide Unnoticed;
    if l.s < |a| && a[l.s] in l.c {
      var f := l.c[a[l.s]];
      if u[f].stops {
        DrainIsStopped(u, a, g, l, f);
      } else {
        DrainEndsTurn(u, a, g, l.(s := l.s + 1, fired := l.fired + [f]));
      }
    }
  }

  lemma {:induction false} DrainIsStopped(u: seq<Listener>, a: seq<real>, g: nat, l: Loop, f: nat)
    requires InTurn(u, a, g, l) && l.s < |a| && a[l.s] in l.c && f == l.c[a[l.s]] && u[f].stops
    ensures Before(u, a, g + 1, l.(fired := l.fired + [f], t := true))
  {
    var r := l.(fired := l.fired + [f], t := true);
    var i :| 0 <= i < |l.fired| && l.fired[i] == g;
    assert r.fired[i] == g && Furthest(u, r.fired, |l.fired|, g);
    assert Unnoticed(u, a, g + 1, r, g);
  }

  lemma {:induction false} PutBy(u: seq<Listener>, a: seq<real>, g: nat, l: Loop)
    requires Before(u, a, g, l) && g < |u| && u[g].z.Z? && (l.s < |a| ==> u[g].z.n != a[l.s])
    ensures Before(u, a, g + 1, l.(c := l.c[u[g].z.n := g]))
  {
    var r := l.(c := l.c[u[g].z.n := g]);
    if l.t {
      var m :| Unnoticed(u, a, g, l, m);
      assert Unnoticed(u, a, g + 1, r, m);
    }
  }

  lemma {:induction false} TurnStops(u: seq<Listener>, a: seq<real>, g: nat, l: Loop)
    requires Before(u, a, g, l) && g < |u| && !l.done
    ensures var r := Turn(u, a, g, l);
            if r.done then StopEnds(u, r.fired) else Before(u, a, g + 1, r)
  {
    hide Before, StopEnds, DrainFrom;
    BeforeParts(u, a, g, l);
    var due := l.s < |a| && u[g].z == Z(a[l.s]);
    if !u[g].z.None? && !due {
      PutBy(u, a, g, l);
    } else if l.t {
      TakesOver(u, a, g, l);
    } else if u[g].stops {
      StopsHere(u, l.fired, g);
    } else if due {
      TriggerDrains(u, a, g, l);
    } else {
      GoesOn(u, a, g, l);
    }
  }

  lemma {:induction false} BeforeParts(u: seq<Listener>, a: seq<real>, g: nat, l: Loop)
    requires Before(u, a, g, l)
    ensures Usable(u, l.c) && Below(u, l.fired, g) && (!l.t ==> Silent(u, l.fired)) && (l.t ==> l.s < |a|)
    ensures g < |u| && l.s < |a| && u[g].z == Z(a[l.s]) ==> !Neg(u, g)
  {
  }

  lemma {:induction false} TriggerDrains(u: seq<Listener>, a: seq<real>, g: nat, l: Loop)
    requires Before(u, a, g, l) && !l.t && g < |u| && l.s < |a| && u[g].z == Z(a[l.s]) && !u[g].stops
    ensures Usable(u, l.c)
    ensures Before(u, a, g + 1, DrainFrom(u, a, l.(s := l.s + 1, fired := l.fired + [g])))
  {
    DrainEndsTurn(u, a, g, l.(s := l.s + 1, fired := l.fired + [g]));
  }

  /** From any state the main loop can reach, it ends as `StopEnds` tells. */
  lemma {:induction false} MainLoopStops(u: seq<Listener>, a: seq<real>, g: nat, l: Loop)
    requires Before(u, a, g, l) && g <= |u| && !l.done
    ensures Usable(u, l.c) && StopEnds(u, MainLoop(u, a, g, l).fired)
    decreases |u| - g
  {
    hide Before, StopEnds, Turn;
    BeforeParts(u, a, g, l);
    if g < |u| {
      TurnStops(u, a, g, l);
      var r := Turn(u, a, g, l);
      if !r.done { MainLoopStops(u, a, g + 1, r); }
    } else if l.t {
      NobodyTakesOver(u, a, l);
    } else {
      NobodyStopped(u, l.fired);
    }
  }

  lemma {:induction false} NobodyStopped(u: seq<Listener>, fired: seq<nat>)
    requires Places(u, fired) && Silent(u, fired)
    ensures StopEnds(u, fired)
  {
  }

  // ---------------------------------------------------------------- clashing listeners

  lemma {:induction false} NoTwicePrefix(before: seq<nat>, fired: seq<nat>)
    requires before <= fired && NoTwice(fired)
    ensures NoTwice(before)
  {
    forall k, l | 0 <= k < l < |before| ensures before[k] != before[l] {
      assert fired[k] != fired[l];
    }
  }

  lemma {:induction false} DrainGrows(u: seq<Listener>, a: seq<real>, l: Loop)
    requires Usable(u, l.c)
    ensures l.fired <= DrainFrom(u, a, l).fired
    decreases |a| - l.s
  {
    if l.s < |a| {
      var z := a[l.s];
      if z in l.c && !u[l.c[z]].stops {
        DrainGrows(u, a, l.(s := l.s + 1, fired := l.fired + [l.c[z]]));
      }
    }
  }

  lemma {:induction false} MainLoopGrows(u: seq<Listener>, a: seq<real>, g: nat, l: Loop)
    requires g <= |u| && Usable(u, l.c)
    ensures l.fired <= MainLoop(u, a, g, l).fired
    decreases |u| - g
  {
    if g < |u| && !l.done {
      var hit := l.(fired := l.fired + [g], t := l.t || u[g].stops);
      DrainGrows(u, a, hit.(s := l.s + 1));
      MainLoopGrows(u, a, g + 1, Turn(u, a, g, l));
    }
  }

  /** No listener with zIndex `v` has fired. */
  ghost predicate Untouched(u: seq<Listener>, fired: seq<nat>, v: real) {
    Places(u, fired) && forall i :: i in fired ==> u[i].z != Z(v)
  }

  /** When the first of two equal values is due, the second is next. */
  lemma {:induction false} TwoLeft(u: seq<Listener>, a: seq<real>, s: nat, fired: seq<nat>, i: nat, j: nat)
    requires Values(u, a) && Matched(u, a, s, fired) && s < |a| && Untouched(u, fired, a[s])
    requires i < j < |u| && u[i].z == u[j].z == Z(a[s])
    ensures s + 1 < |a| && a[s + 1] == a[s]
  {
    hide Sorted;
    var v := a[s];
    assert Hits(u, fired, v) == {};
    SubsetSize({i, j}, Group(u, |u|, v));
    SecondIsNext(a, s);
  }

  lemma {:induction false} SecondIsNext(a: seq<real>, s: nat)
    requires Sorted(a) && s < |a| && multiset(a[..s])[a[s]] == 0 && multiset(a)[a[s]] > 1
    ensures s + 1 < |a| && a[s + 1] == a[s]
  {
    assert a == a[..s] + [a[s]] + a[s + 1..];
    assert a[s] in a[s + 1..];
  }

  /** The loop between turns, or while draining, with `v` untouched. */
  ghost predicate Clean(u: seq<Listener>, a: seq<real>, g: nat, v: real, l: Loop) {
    !l.t && !l.done && Base(u, a, l.s, g, l.c, l.fired) && Untouched(u, l.fired, v)
  }

  lemma {:induction false} DrainTwice(u: seq<Listener>, a: seq<real>, l: Loop)
    requires NoStops(u) && Usable(u, l.c) && l.s + 1 < |a| && a[l.s] == a[l.s + 1] && a[l.s] in l.c
    ensures !NoTwice(DrainFrom(u, a, l).fired)
  {
    var x := l.c[a[l.s]];
    var l1 := l.(s := l.s + 1, fired := l.fired + [x]);
    var l2 := l1.(s := l.s + 2, fired := l1.fired + [x]);
    assert DrainFrom(u, a, l1) == DrainFrom(u, a, l2);
    DrainGrows(u, a, l2);
    if NoTwice(DrainFrom(u, a, l).fired) {
      NoTwicePrefix(l2.fired, DrainFrom(u, a, l).fired);
      NoTwiceBefore(l1.fired, x);
    }
  }

  /** Draining never fires a listener with a value held by two, or it fires one twice. */
  lemma {:induction false} CleanDrain(u: seq<Listener>, a: seq<real>, g: nat, v: real, l: Loop, i: nat, j: nat)
    requires NoStops(u) && Usable(u, l.c) && Clean(u, a, g, v, l)
    requires i < j < |u| && u[i].z == u[j].z == Z(v)
    ensures var r := DrainFrom(u, a, l);
            NoTwice(r.fired) ==> Clean(u, a, g, v, r) && (r.s < |a| ==> a[r.s] !in r.c)
    decreases |a| - l.s
  {
    if l.s < |a| && a[l.s] in l.c {
      var x := l.c[a[l.s]];
      var next := l.(s := l.s + 1, fired := l.fired + [x]);
      assert !u[x].stops;
      if NoTwice(DrainFrom(u, a, l).fired) {
        DrainGrows(u, a, next);
        NoTwicePrefix(next.fired, DrainFrom(u, a, l).fired);
        NoTwiceBefore(l.fired, x);
        if a[l.s] == v {
          TwoLeft(u, a, l.s, l.fired, i, j);
          DrainTwice(u, a, l);
        } else {
          BaseFires(u, a, l.s, g, l.c, l.fired, x, g);
          CleanDrain(u, a, g, v, next, i, j);
        }
      }
    }
  }

  lemma {:induction false} CleanTrigger(u: seq<Listener>, a: seq<real>, g: nat, v: real, l: Loop, i: nat, j: nat)
    requires NoStops(u) && Usable(u, l.c) && Clean(u, a, g, v, l) && g < |u| && l.s < |a| && a[l.s] !in l.c
    requires i < j < |u| && Clash(u, i, j) && NonNeg(u, i) && u[i].z == Z(v) && u[g].z == Z(a[l.s])
    ensures Clean(u, a, g + 1, v, l.(s := l.s + 1, fired := l.fired + [g]))
  {
    if a[l.s] == v {
      if g <= i {
        var y :| i < y < |u| && NonNeg(u, y) && u[y].z.n < v;
        AllFired(u, a, l.s, l.fired, y);
      }
      assert false;
    }
    BaseFires(u, a, l.s, g, l.c, l.fired, g, g + 1);
  }

  lemma {:induction false} CleanPlain(u: seq<Listener>, a: seq<real>, g: nat, v: real, l: Loop)
    requires Clean(u, a, g, v, l) && g < |u| && Plain(u, g)
    ensures Clean(u, a, g + 1, v, l.(fired := l.fired + [g]))
  {
    PlainHitsNothing(u, a, l.s, l.fired, g);
  }

  lemma {:induction false} CleanTurn(u: seq<Listener>, a: seq<real>, g: nat, v: real, l: Loop, i: nat, j: nat)
    requires NoStops(u) && Usable(u, l.c) && Clean(u, a, g, v, l) && g < |u| && (l.s < |a| ==> a[l.s] !in l.c)
    requires i < j < |u| && Clash(u, i, j) && NonNeg(u, i) && u[i].z == Z(v)
    ensures var r := Turn(u, a, g, l);
            NoTwice(r.fired) ==> Clean(u, a, g + 1, v, r) && (r.s < |a| ==> a[r.s] !in r.c)
  {
    if Plain(u, g) {
      CleanPlain(u, a, g, v, l);
    } else if l.s < |a| && u[g].z.n == a[l.s] {
      CleanTrigger(u, a, g, v, l, i, j);
      CleanDrain(u, a, g + 1, v, l.(s := l.s + 1, fired := l.fired + [g]), i, j);
    } else {
      assert Clean(u, a, g + 1, v, Turn(u, a, g, l));
    }
  }

  /** When two listeners clash, somebody fires twice or they never fire. */
  lemma {:induction false} CleanLoop(u: seq<Listener>, a: seq<real>, g: nat, v: real, l: Loop, i: nat, j: nat)
    requires NoStops(u) && Usable(u, l.c) && Clean(u, a, g, v, l) && g <= |u| && (l.s < |a| ==> a[l.s] !in l.c)
    requires i < j < |u| && Clash(u, i, j) && NonNeg(u, i) && u[i].z == Z(v)
    ensures var fired := MainLoop(u, a, g, l).fired;
            NoTwice(fired) ==> Untouched(u, fired, v)
    decreases |u| - g
  {
    hide Base, Clash, Turn;
    if g < |u| {
      var r := Turn(u, a, g, l);
      CleanTurn(u, a, g, v, l, i, j);
      if NoTwice(MainLoop(u, a, g, l).fired) {
        MainLoopGrows(u, a, g + 1, r);
        NoTwicePrefix(r.fired, MainLoop(u, a, g, l).fired);
        CleanLoop(u, a, g + 1, v, r, i, j);
      }
    }
  }

  // ---------------------------------------------------------------- zIndex values given twice

  ghost predicate NoNegatives(u: seq<Listener>, before: seq<nat>, fired: seq<nat>) {
    before <= fired && Places(u, fired) && forall k :: |before| <= k < |fired| ==> !Neg(u, fired[k])
  }

  ghost predicate Keyed(u: seq<Listener>, c: Table) {
    forall x :: x in c ==> c[x] < |u| && u[c[x]].z == Z(x)
  }

  ghost predicate Positive(a: seq<real>, s: nat) {
    forall k :: s <= k < |a| ==> a[k] >= 0.0
  }

  lemma {:induction false} DrainAdds(u: seq<Listener>, a: seq<real>, l: Loop, before: seq<nat>)
    requires Usable(u, l.c) && Keyed(u, l.c) && Positive(a, l.s) && NoNegatives(u, before, l.fired)
    ensures var r := DrainFrom(u, a, l);
            NoNegatives(u, before, r.fired) && Positive(a, r.s)
    decreases |a| - l.s
  {
    if l.s < |a| {
      var z := a[l.s];
      if z in l.c {
        var f := l.c[z];
        if !u[f].stops {
          DrainAdds(u, a, l.(s := l.s + 1, fired := l.fired + [f]), before);
        }
      }
    }
  }

  /** Whatever the zIndex values, the main loop fires no negative listener. */
  lemma {:induction false} MainLoopAdds(u: seq<Listener>, a: seq<real>, g: nat, l: Loop, before: seq<nat>)
    requires g <= |u| && Usable(u, l.c) && Keyed(u, l.c) && Positive(a, l.s) && NoNegatives(u, before, l.fired)
    ensures NoNegatives(u, before, MainLoop(u, a, g, l).fired)
    decreases |u| - g
  {
    if g < |u| && !l.done {
      var hit := l.(fired := l.fired + [g], t := l.t || u[g].stops);
      if u[g].z.Z? && l.s < |a| && u[g].z.n == a[l.s] && !hit.t {
        DrainAdds(u, a, hit.(s := l.s + 1), before);
      }
      MainLoopAdds(u, a, g + 1, Turn(u, a, g, l), before);
    }
  }

  lemma {:induction false} NegativesFired(u: seq<Listener>, a: seq<real>, c: Table, first: seq<nat>, fired: seq<nat>,
                                          i: nat)
    requires Values(u, a) && TableOk(u, c) && OnlyLast(u, c) && FiredBy(u, a, c, first, false) && Positive(a, |first|)
    requires NoNegatives(u, first, fired) && i < |u| && Neg(u, i)
    ensures i in fired <==> !Shadowed(u, i)
  {
    var z := u[i].z.n;
    assert multiset(a)[z] > 0 by { assert i in Group(u, |u|, z); }
    if c[z] == i {
      var k :| 0 <= k < |a| && a[k] == z;
      assert fired[k] == i;
    } else {
      forall k | 0 <= k < |fired| ensures fired[k] != i {
        if k < |first| {
          assert fired[k] == first[k];
        }
      }
    }
  }

  // ---------------------------------------------------------------- dispatch

  lemma {:induction false} StoppedEarly(u: seq<Listener>, a: seq<real>, c: Table, first: seq<nat>)
    requires Prepared(u, a, c) && FiredBy(u, a, c, first, true)
    requires NoClash(u) ==> Started(u, a, |first|, first)
    ensures NoClash(u) ==> Ended(u, first)
    ensures !NoStops(u) && SoonOver(u, first) && StopEnds(u, first)
  {
  }

  /** When no negative listener has stopped, the main loop starts as it should. */
  lemma {:induction false} NegativesBefore(u: seq<Listener>, a: seq<real>, c: Table, first: seq<nat>)
    requires Prepared(u, a, c) && FiredBy(u, a, c, first, false)
    requires |first| < |a| ==> a[|first|] >= 0.0
    ensures Before(u, a, 0, Loop(|first|, c, first, false, false))
  {
  }

  /** In order means: each once. */
  lemma {:induction false} EndedOnce(u: seq<Listener>, fired: seq<nat>)
    requires Places(u, fired) && Ended(u, fired) && NoStops(u)
    ensures Everything(u, fired) && NoTwice(fired)
  {
    assert fired[..|fired|] == fired;
    forall k, l | 0 <= k < l < |fired| ensures fired[k] != fired[l] {
      assert Precedes(u, fired[k], fired[l]);
    }
  }

  lemma {:induction false} ClashShows(u: seq<Listener>, a: seq<real>, l: Loop)
    requires NoStops(u) && Usable(u, l.c) && !NoClash(u) && Base(u, a, l.s, 0, l.c, l.fired)
    requires !l.t && !l.done && (forall x :: x in l.c ==> x < 0.0) && (forall i :: i in l.fired ==> Neg(u, i))
    ensures var fired := MainLoop(u, a, 0, l).fired;
            NoTwice(fired) && Everything(u, fired) ==> exists i :: 0 <= i < |u| && Neg(u, i) && Shadowed(u, i)
  {
    var i, j :| 0 <= i < j < |u| && Clash(u, i, j);
    if NonNeg(u, i) {
      CleanLoop(u, a, 0, u[i].z.n, l, i, j);
    } else {
      assert Shadowed(u, i);
    }
  }

  lemma {:induction false} FiredOfNegatives(u: seq<Listener>, a: seq<real>, c: Table, first: seq<nat>)
    requires Prepared(u, a, c) && FiredBy(u, a, c, first, false)
    requires |first| < |a| ==> a[|first|] >= 0.0
    ensures Usable(u, c)
    ensures var fired := MainLoop(u, a, 0, Loop(|first|, c, first, false, false)).fired;
            && first <= fired && Places(u, fired)
            && forall i :: 0 <= i < |u| && Neg(u, i) ==> (i in fired <==> !Shadowed(u, i))
  {
    var l := Loop(|first|, c, first, false, false);
    var fired := MainLoop(u, a, 0, l).fired;
    hide MainLoop;
    MainLoopAdds(u, a, 0, l, first);
    forall i | 0 <= i < |u| && Neg(u, i) ensures i in fired <==> !Shadowed(u, i) {
      NegativesFired(u, a, c, first, fired, i);
    }
  }

  lemma {:induction false} RanInOrder(u: seq<Listener>, a: seq<real>, c: Table, first: seq<nat>)
    requires NoClash(u) && Prepared(u, a, c) && FiredBy(u, a, c, first, false)
    requires |first| < |a| ==> a[|first|] >= 0.0
    requires Started(u, a, |first|, first) && Matched(u, a, |first|, first)
    ensures Usable(u, c)
    ensures var fired := MainLoop(u, a, 0, Loop(|first|, c, first, false, false)).fired;
            Ended(u, fired) && (NoStops(u) ==> Everything(u, fired) && NoTwice(fired))
  {
    hide MainLoop;
    var l := Loop(|first|, c, first, false, false);
    NegativesDone(u, a, |first|, first);
    MainLoopOk(u, a, 0, l);
    if NoStops(u) { EndedOnce(u, MainLoop(u, a, 0, l).fired); }
  }

  lemma {:induction false} RanIntoClash(u: seq<Listener>, a: seq<real>, c: Table, first: seq<nat>)
    requires !NoClash(u) && NoStops(u) && Prepared(u, a, c) && FiredBy(u, a, c, first, false)
    requires |first| < |a| ==> a[|first|] >= 0.0
    requires NoTwice(first) ==> Matched(u, a, |first|, first)
    ensures Usable(u, c)
    ensures var fired := MainLoop(u, a, 0, Loop(|first|, c, first, false, false)).fired;
            NoTwice(fired) && Everything(u, fired) ==> exists i :: 0 <= i < |u| && Neg(u, i) && Shadowed(u, i)
  {
    hide MainLoop;
    var l := Loop(|first|, c, first, false, false);
    var fired := MainLoop(u, a, 0, l).fired;
    if NoTwice(fired) {
      MainLoopGrows(u, a, 0, l);
      NoTwicePrefix(first, fired);
      ClashShows(u, a, l);
    }
  }

  lemma {:induction false} NothingStopped(u: seq<Listener>, a: seq<real>, c: Table, first: seq<nat>)
    requires FiredBy(u, a, c, first, false)
    ensures Places(u, first) && Calm(u, first, false)
  {
  }

  lemma {:induction false} RanThrough(u: seq<Listener>, a: seq<real>, c: Table, first: seq<nat>)
    requires Prepared(u, a, c) && FiredBy(u, a, c, first, false)
    requires |first| < |a| ==> a[|first|] >= 0.0
    requires NoTwice(first) ==> Matched(u, a, |first|, first)
    requires NoClash(u) ==> Started(u, a, |first|, first) && Matched(u, a, |first|, first)
    ensures Usable(u, c)
    ensures var fired := MainLoop(u, a, 0, Loop(|first|, c, first, false, false)).fired;
            && SoonOver(u, fired) && StopEnds(u, fired)
            && (NoClash(u) ==> Ended(u, fired))
            && (NoStops(u) ==> (Everything(u, fired) && NoTwice(fired) <==> NoClash(u)))
            && forall i :: 0 <= i < |u| && Neg(u, i) ==> (i in fired <==> !Shadowed(u, i))
  {
    hide MainLoop, StopEnds, Before, Values, OnlyLast, FiredBy;
    var l := Loop(|first|, c, first, false, false);
    FiredOfNegatives(u, a, c, first);
    NothingStopped(u, a, c, first);
    MainLoopSoonOver(u, a, 0, l);
    NegativesBefore(u, a, c, first);
    MainLoopStops(u, a, 0, l);
    if NoClash(u) {
      RanInOrder(u, a, c, first);
    } else if NoStops(u) {
      RanIntoClash(u, a, c, first);
    }
  }

  /** Step to the next value and fire its listener, for as long as the table has one. */
  method DrainNow(u: seq<Listener>, a: seq<real>, s0: nat, c: Table, fired0: seq<nat>)
    returns (s: nat, fired: seq<nat>, t: bool)
    requires Usable(u, c)
    ensures Loop(s, c, fired, t, false) == DrainFrom(u, a, Loop(s0 + 1, c, fired0, false, false))
  {
    s, fired, t := s0 + 1, fired0, false;
    while s < |a|
      invariant DrainFrom(u, a, Loop(s, c, fired, t, false)) == DrainFrom(u, a, Loop(s0 + 1, c, fired0, false, false))
      invariant !t
      decreases |a| - s
    {
      var z := a[s];
      if z !in c {
        break;
      }
      var f := c[z];
      fired := fired + [f];
      if u[f].stops {
        t := true;
        break;
      }
      s := s + 1;
    }
  }

  /** The main loop: everybody else, until somebody stops. */
  method FireRest(u: seq<Listener>, a: seq<real>, c0: Table, s0: nat, first: seq<nat>) returns (fired: seq<nat>)
    requires Usable(u, c0)
    ensures fired == MainLoop(u, a, 0, Loop(s0, c0, first, false, false)).fired
  {
    var s: nat, c: Table, t: bool := s0, c0, false;
    fired := first;
    ghost var start := Loop(s, c, fired, false, false);
    var g: nat := 0;
    while g < |u|
      invariant g <= |u| && Usable(u, c)
      invariant MainLoop(u, a, g, Loop(s, c, fired, t, false)) == MainLoop(u, a, 0, start)
    {
      if u[g].z.Z? {
        if s < |a| && u[g].z.n == a[s] {
          fired := fired + [g];
          t := t || u[g].stops;
          if t {
            break;
          }
          s, fired, t := DrainNow(u, a, s, c, fired);
        } else {
          c := c[u[g].z.n := g];
        }
      } else {
        fired := fired + [g];
        t := t || u[g].stops;
        if t {
          break;
        }
      }
      g := g + 1;
    }
    assert fired == MainLoop(u, a, 0, start).fired;
  }

  /** One event.  When no listeners clash, they fire in the intended order, up to the first
      stop.  Without stops every listener fires exactly once if and only if no listeners clash;
      of those that share a negative zIndex, only the one matched last ever fires.  In any
      case at most one listener fires after the first that stops, and `StopEnds` tells which. */
  method Dispatch(u: seq<Listener>) returns (fired: seq<nat>)
    ensures fired == Fires(u)
    ensures SoonOver(u, fired) && StopEnds(u, fired)
    ensures NoClash(u) ==> Ended(u, fired)
    ensures NoStops(u) ==> (Everything(u, fired) && NoTwice(fired) <==> NoClash(u))
    ensures NoStops(u) ==> forall i :: 0 <= i < |u| && Neg(u, i) ==> (i in fired <==> !Shadowed(u, i))
  {
    var a: seq<real>, c: Table;
    a, c := Collect(u);
    var s: nat, first: seq<nat>, t: bool;
    s, first, t := FireNegatives(u, a, c);
    fired := first;
    if t {
      StoppedEarly(u, a, c, first);
      return;
    }
    RanThrough(u, a, c, first);
    fired := FireRest(u, a, c, s, first);
  }

  // ---------------------------------------------------------------- two surprises

  const HELD_STOP := [Listener(Z(2.0), true), Listener(Z(1.0), false), Listener(None, false)]

  lemma {:induction false} SortPair(x: real, y: real)
    ensures Sort([x, y]) == if x <= y then [x, y] else [y, x]
  {
    assert [x, y][1..] == [y] && [y][1..] == [];
    assert Sort([y]) == [y];
    assert Sort([x, y]) == Insert(x, [y]);
  }

  lemma {:induction false} HeldStopCollected()
    ensures Sort(ZIndexes(HELD_STOP, 3)) == [1.0, 2.0] && NegativeTable(HELD_STOP, 3) == map[]
  {
    var u := HELD_STOP;
    assert ZIndexes(u, 1) == [2.0] && ZIndexes(u, 2) == [2.0, 1.0];
    assert NegativeTable(u, 1) == map[] && NegativeTable(u, 2) == map[];
    SortPair(2.0, 1.0);
  }

  lemma {:induction false} HeldStopFires()
    ensures MainLoop(HELD_STOP, [1.0, 2.0], 0, Loop(0, map[], [], false, false)).fired == [1, 0, 2]
  {
    var u, a := HELD_STOP, [1.0, 2.0];
    var l0 := Loop(0, map[], [], false, false);
    var l1 := l0.(c := map[2.0 := 0]);
    assert Turn(u, a, 0, l0) == l1;
    var l2 := Loop(1, map[2.0 := 0], [1, 0], true, false);
    var l3 := Loop(1, map[2.0 := 0], [1, 0, 2], true, true);
    assert DrainFrom(u, a, l1.(s := 1, fired := [1])) == l2;
    assert Turn(u, a, 1, l1) == l2 && Turn(u, a, 2, l2) == l3;
    assert MainLoop(u, a, 1, l1) == MainLoop(u, a, 2, l2) == l3;
  }

  /** A stop that is not honoured: listener 0 is held back behind listener 1 and stops, and
      listener 2 still fires. */
  lemma {:induction false} StopIsIgnored()
    ensures HELD_STOP[0].stops && Late(HELD_STOP, 0) && NextPlain(HELD_STOP, 0, 2)
    ensures Fires(HELD_STOP) == [1, 0, 2]
  {
    hide Sort, ZIndexes, NegativeTable, MainLoop;
    assert NonNeg(HELD_STOP, 1) && !Ready(HELD_STOP, 0, 0) && !Ready(HELD_STOP, 0, 1);
    HeldStopCollected();
    HeldStopFires();
  }

  const HELD_TWINS := [Listener(Z(2.0), false), Listener(Z(2.0), false), Listener(Z(1.0), false)]

  lemma {:induction false} SortTriple(x: real, y: real, z: real)
    requires z < x && z < y
    ensures Sort([x, y, z]) == if x <= y then [z, x, y] else [z, y, x]
  {
    var rest := [y, z];
    assert [x, y, z][1..] == rest;
    SortPair(y, z);
    InsertBehind(x, z, y);
  }

  lemma {:induction false} InsertBehind(x: real, z: real, y: real)
    requires z < x && z <= y
    ensures Insert(x, [z, y]) == if x <= y then [z, x, y] else [z, y, x]
  {
    hide Insert, Sorted;
    var behind := [z, y];
    assert behind[1..] == [y];
    InsertPasses(x, behind);
    InsertOne(x, y);
  }

  lemma {:induction false} InsertPasses(x: real, a: seq<real>)
    requires Sorted(a) && a != [] && a[0] < x
    ensures Sorted(a[1..]) && Insert(x, a) == [a[0]] + Insert(x, a[1..])
  {
  }

  lemma {:induction false} InsertOne(x: real, y: real)
    ensures Insert(x, [y]) == if x <= y then [x, y] else [y, x]
  {
    assert [y][1..] == [];
  }

  lemma {:induction false} HeldTwinsCollected()
    ensures Sort(ZIndexes(HELD_TWINS, 3)) == [1.0, 2.0, 2.0] && NegativeTable(HELD_TWINS, 3) == map[]
  {
    hide Sort;
    var u := HELD_TWINS;
    assert ZIndexes(u, 1) == [2.0] && ZIndexes(u, 2) == [2.0, 2.0] && ZIndexes(u, 3) == [2.0, 2.0, 1.0];
    assert NegativeTable(u, 1) == map[] && NegativeTable(u, 2) == map[];
    SortTriple(2.0, 2.0, 1.0);
  }

  lemma {:induction false} TwinsFire()
    ensures MainLoop(HELD_TWINS, [1.0, 2.0, 2.0], 0, Loop(0, map[], [], false, false)).fired == [2, 1, 1]
  {
    var u, a := HELD_TWINS, [1.0, 2.0, 2.0];
    var l0 := Loop(0, map[], [], false, false);
    var l1 := l0.(c := map[2.0 := 0]);
    var l2 := l0.(c := map[2.0 := 1]);
    assert l1.c[2.0 := 1] == l2.c;
    assert Turn(u, a, 0, l0) == l1 && Turn(u, a, 1, l1) == l2;
    var l3 := l2.(s := 1, fired := [] + [2]);
    var l4 := l2.(s := 2, fired := l3.fired + [1]);
    var l5 := l2.(s := 3, fired := l4.fired + [1]);
    assert DrainFrom(u, a, l5) == l5;
    assert DrainFrom(u, a, l4) == l5;
    assert DrainFrom(u, a, l3) == l5;
    assert Turn(u, a, 2, l2) == l5;
    assert MainLoop(u, a, 1, l1) == MainLoop(u, a, 2, l2) == l5;
  }

  /** Two listeners that share a zIndex and are held back: the later one fires twice, the
      earlier one never. */
  lemma {:induction false} FiresTwice()
    ensures Clash(HELD_TWINS, 0, 1) && NoStops(HELD_TWINS)
    ensures Fires(HELD_TWINS) == [2, 1, 1]
  {
    hide Sort, ZIndexes, NegativeTable, MainLoop;
    assert NonNeg(HELD_TWINS, 2);
    HeldTwinsCollected();
    TwinsFire();
  }

  /** Both, as calls of the dispatcher. */
  method Surprises() returns (stopped: seq<nat>, twins: seq<nat>)
    ensures stopped == [1, 0, 2] && twins == [2, 1, 1]
  {
    StopIsIgnored();
    FiresTwice();
    stopped := Dispatch(HELD_STOP);
    twins := Dispatch(HELD_TWINS);
  }
}
