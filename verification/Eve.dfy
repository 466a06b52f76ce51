/** The event dispatcher: in which order the listeners of one event fire, whether all of them
    do, and what a stop does.

    A listener is known by its place in the list of matched listeners; earlier and later mean
    this order, in which they are matched.  Listeners with a negative zIndex fire first, those
    without one fire in the order they are matched, and those with a zIndex of zero or more are
    held back until all smaller ones have been reached. */
module Eve {

  datatype ZIndex = None | Z(n: real)

  /** `stops`: whether the listener calls `eve.stop` when it fires. */
  datatype Listener = Listener(z: ZIndex, stops: bool)

  // ---------------------------------------------------------------- the intended order

  predicate Neg(u: seq<Listener>, i: nat)
    requires i < |u|
  {
    u[i].z.Z? && u[i].z.n < 0.0
  }

  predicate NonNeg(u: seq<Listener>, i: nat)
    requires i < |u|
  {
    u[i].z.Z? && u[i].z.n >= 0.0
  }

  predicate Plain(u: seq<Listener>, i: nat)
    requires i < |u|
  {
    u[i].z.None?
  }

  /** By zIndex; with the same zIndex, in the order they are matched. */
  predicate Sooner(u: seq<Listener>, i: nat, j: nat)
    requires i < |u| && j < |u|
  {
    u[i].z.Z? && u[j].z.Z? && (u[i].z.n < u[j].z.n || (u[i].z.n == u[j].z.n && i < j))
  }

  /** Held back: a listener with a smaller non-negative zIndex is matched later. */
  ghost predicate Late(u: seq<Listener>, x: nat)
    requires x < |u|
  {
    NonNeg(u, x) && exists y :: x < y < |u| && NonNeg(u, y) && u[y].z.n < u[x].z.n
  }

  /** Two listeners share a zIndex that is negative, or that makes the first of them wait. */
  ghost predicate Clash(u: seq<Listener>, i: nat, j: nat)
    requires i < j < |u|
  {
    u[i].z.Z? && u[i].z == u[j].z && (Neg(u, i) || Late(u, i))
  }

  ghost predicate NoClash(u: seq<Listener>) {
    forall i, j :: 0 <= i < j < |u| ==> !Clash(u, i, j)
  }

  ghost predicate NoStops(u: seq<Listener>) {
    forall i :: 0 <= i < |u| ==> !u[i].stops
  }

  /** Listener `x` and all that come sooner are matched before `v`. */
  ghost predicate Ready(u: seq<Listener>, x: nat, v: nat)
    requires x < |u| && NonNeg(u, x)
  {
    forall y :: 0 <= y < |u| && NonNeg(u, y) && (y == x || Sooner(u, y, x)) ==> y < v
  }

  /** The order of firing, as a relation between listeners. */
  ghost predicate Precedes(u: seq<Listener>, i: nat, j: nat)
    requires i < |u| && j < |u|
  {
    if Neg(u, i) then Neg(u, j) ==> Sooner(u, i, j)
    else if Neg(u, j) then false
    else if NonNeg(u, i) then if NonNeg(u, j) then Sooner(u, i, j) else Ready(u, i, j)
    else if NonNeg(u, j) then !Ready(u, j, i)
    else i < j
  }

  ghost predicate Places(u: seq<Listener>, fired: seq<nat>) {
    forall k :: 0 <= k < |fired| ==> fired[k] < |u|
  }

  ghost predicate Ordered(u: seq<Listener>, fired: seq<nat>)
    requires Places(u, fired)
  {
    forall k, l :: 0 <= k < l < |fired| ==> Precedes(u, fired[k], fired[l])
  }

  /** `fired` is the start of the intended order: in order, and nothing left out before it. */
  ghost predicate Prefix(u: seq<Listener>, fired: seq<nat>) {
    && Places(u, fired)
    && Ordered(u, fired)
    && forall i, j :: i in fired && 0 <= j < |u| && Precedes(u, j, i) ==> j in fired
  }

  ghost predicate Everything(u: seq<Listener>, fired: seq<nat>) {
    forall i :: 0 <= i < |u| ==> i in fired
  }

  ghost predicate NoTwice(fired: seq<nat>) {
    forall k, l :: 0 <= k < l < |fired| ==> fired[k] != fired[l]
  }

  /** The first listener without zIndex matched after everything `x` had to wait for. */
  ghost predicate NextPlain(u: seq<Listener>, x: nat, v: nat)
    requires x < |u| && NonNeg(u, x)
  {
    && v < |u| && Plain(u, v) && Ready(u, x, v)
    && forall w :: 0 <= w < v && Plain(u, w) ==> !Ready(u, x, w)
  }

  // ---------------------------------------------------------------- sorting

  predicate Sorted(a: seq<real>) {
    forall i, j :: 0 <= i < j < |a| ==> a[i] <= a[j]
  }

  function Insert(x: real, a: seq<real>): (r: seq<real>)
    requires Sorted(a)
    ensures Sorted(r)
    ensures multiset(r) == multiset(a) + multiset{x}
    ensures |r| > 0 && (r[0] == x || (a != [] && r[0] == a[0]))
  {
    if a == [] || x <= a[0] then [x] + a
    else
      assert a == [a[0]] + a[1..];
      var r := Insert(x, a[1..]);
      HeadFirst(a[0], r);
      [a[0]] + r
  }

  lemma {:induction false} HeadFirst(x: real, r: seq<real>)
    requires Sorted(r) && (r == [] || x <= r[0])
    ensures Sorted([x] + r)
  {
  }

  /** The built-in numeric sort. */
  function Sort(a: seq<real>): (r: seq<real>)
    ensures Sorted(r)
    ensures multiset(r) == multiset(a)
  {
    if a == [] then []
    else
      assert a == [a[0]] + a[1..];
      Insert(a[0], Sort(a[1..]))
  }

  // ---------------------------------------------------------------- values used up, listeners fired

  /** The listeners before place `g` with zIndex `x`. */
  ghost function Group(u: seq<Listener>, g: nat, x: real): set<nat>
    requires g <= |u|
  {
    set i: nat | i < g && u[i].z == Z(x)
  }

  /** The zIndex values of the first `g` listeners, each as often as it is used. */
  ghost predicate ValuesTo(u: seq<Listener>, g: nat, a: seq<real>) {
    g <= |u| && forall x {:trigger multiset(a)[x]} {:trigger Group(u, g, x)} :: multiset(a)[x] == |Group(u, g, x)|
  }

  /** All zIndex values in ascending order. */
  ghost predicate Values(u: seq<Listener>, a: seq<real>) {
    Sorted(a) && ValuesTo(u, |u|, a)
  }

  ghost function Hits(u: seq<Listener>, fired: seq<nat>, x: real): set<nat>
    requires Places(u, fired)
  {
    set i | i in fired && u[i].z == Z(x)
  }

  /** For every one of the first `s` values a listener with that value has fired. */
  ghost predicate Matched(u: seq<Listener>, a: seq<real>, s: nat, fired: seq<nat>) {
    && s <= |a| && Places(u, fired)
    && forall x {:trigger multiset(a[..s])[x]} {:trigger Hits(u, fired, x)} :: multiset(a[..s])[x] == |Hits(u, fired, x)|
  }

  lemma {:induction false} UsedUp(a: seq<real>, s: nat, x: real)
    requires Sorted(a) && s <= |a|
    ensures s == |a| || x < a[s] ==> multiset(a[..s])[x] == multiset(a)[x]
    ensures s < |a| ==> multiset(a[..s])[a[s]] < multiset(a)[a[s]]
  {
    assert a == a[..s] + a[s..];
    assert s < |a| ==> a[s] in a[s..];
  }

  lemma {:induction false} SubsetSize(small: set<nat>, big: set<nat>)
    requires small <= big
    ensures |small| <= |big|
    ensures |small| == |big| ==> small == big
  {
    assert big == small + (big - small);
  }

  /** All listeners whose values are used up have fired. */
  lemma {:induction false} AllFired(u: seq<Listener>, a: seq<real>, s: nat, fired: seq<nat>, i: nat)
    requires Values(u, a) && Matched(u, a, s, fired)
    requires i < |u| && u[i].z.Z? && (s < |a| ==> u[i].z.n < a[s])
    ensures i in fired
  {
    var x := u[i].z.n;
    UsedUp(a, s, x);
    SubsetSize(Hits(u, fired, x), Group(u, |u|, x));
    assert i in Group(u, |u|, x);
  }

  /** The next value belongs to a listener that has not fired. */
  lemma {:induction false} SomeLeft(u: seq<Listener>, a: seq<real>, s: nat, fired: seq<nat>) returns (w: nat)
    requires Values(u, a) && Matched(u, a, s, fired) && s < |a|
    ensures w < |u| && u[w].z == Z(a[s]) && w !in fired
  {
    UsedUp(a, s, a[s]);
    var all, hit := Group(u, |u|, a[s]), Hits(u, fired, a[s]);
    assert hit != all && hit <= all;
    w :| w in all && w !in hit;
  }

  lemma {:induction false} HitOneMore(u: seq<Listener>, a: seq<real>, s: nat, fired: seq<nat>, x: nat)
    requires Matched(u, a, s, fired) && s < |a| && x < |u| && u[x].z == Z(a[s]) && x !in fired
    ensures Matched(u, a, s + 1, fired + [x])
  {
    assert a[..s + 1] == a[..s] + [a[s]];
    forall y ensures multiset(a[..s + 1])[y] == |Hits(u, fired + [x], y)| {
      assert Hits(u, fired + [x], y) == Hits(u, fired, y) + if y == a[s] then {x} else {};
    }
  }

  lemma {:induction false} PlainHitsNothing(u: seq<Listener>, a: seq<real>, s: nat, fired: seq<nat>, x: nat)
    requires Matched(u, a, s, fired) && x < |u| && Plain(u, x)
    ensures Matched(u, a, s, fired + [x])
  {
    forall y ensures Hits(u, fired + [x], y) == Hits(u, fired, y) {
    }
  }

  // ---------------------------------------------------------------- the deferral table

  /** Listeners by zIndex. */
  type Table = map<real, nat>

  ghost predicate TableOk(u: seq<Listener>, c: Table) {
    && (forall x :: x in c ==> c[x] < |u| && u[c[x]].z == Z(x))
    && (forall i :: 0 <= i < |u| && Neg(u, i) ==> u[i].z.n in c)
  }

  /** A later listener has the same zIndex. */
  ghost predicate Shadowed(u: seq<Listener>, i: nat)
    requires i < |u|
  {
    exists j :: i < j < |u| && u[j].z == u[i].z
  }

  /** With one negative zIndex given twice, the table keeps only the later listener. */
  ghost predicate OnlyLast(u: seq<Listener>, c: Table) {
    forall i :: 0 <= i < |u| && Neg(u, i) ==> u[i].z.n in c && (c[u[i].z.n] == i <==> !Shadowed(u, i))
  }

  // ---------------------------------------------------------------- where the dispatcher stands

  ghost predicate Started(u: seq<Listener>, a: seq<real>, s: nat, fired: seq<nat>) {
    && s <= |a| && Places(u, fired) && Ordered(u, fired)
    && forall i :: 0 <= i < |u| ==> (i in fired <==> Neg(u, i) && (s < |a| ==> u[i].z.n < a[s]))
  }

  /** `s` values are used up and `g` listeners have been looked at; what has fired is in order. */
  ghost predicate Standing(u: seq<Listener>, a: seq<real>, s: nat, g: nat, fired: seq<nat>) {
    && s <= |a| && Places(u, fired) && Ordered(u, fired)
    && (forall i :: 0 <= i < |u| && Neg(u, i) ==> i in fired)
    && (forall i :: 0 <= i < |u| && Plain(u, i) ==> (i in fired <==> i < g))
    && (forall i :: 0 <= i < |u| && NonNeg(u, i) && i in fired ==> i < g && (s < |a| ==> u[i].z.n <= a[s]))
    && (forall i :: 0 <= i < |u| && NonNeg(u, i) && (s < |a| ==> u[i].z.n < a[s]) ==> i in fired)
    && (s < |a| ==>
          forall i, j :: i in Group(u, |u|, a[s]) && j in Group(u, |u|, a[s]) && i in fired && j !in fired ==> i < j)
  }

  /** Whatever the zIndex values, as long as no listener has fired twice. */
  ghost predicate Base(u: seq<Listener>, a: seq<real>, s: nat, g: nat, c: Table, fired: seq<nat>) {
    && Values(u, a) && TableOk(u, c) && g <= |u| && Matched(u, a, s, fired)
    && (s < |a| ==> a[s] >= 0.0)
    && (forall i :: 0 <= i < |u| && NonNeg(u, i) && i in fired ==> i < g)
    && (forall x :: x in c && x >= 0.0 ==> c[x] < g)
    && (forall i :: 0 <= i < g && NonNeg(u, i) && i !in fired ==> u[i].z.n in c)
  }

  lemma {:induction false} BaseFires(u: seq<Listener>, a: seq<real>, s: nat, g: nat, c: Table, fired: seq<nat>,
                                     x: nat, h: nat)
    requires Base(u, a, s, g, c, fired) && s < |a| && x < |u| && u[x].z == Z(a[s]) && x !in fired
    requires (x < g && h == g) || (x == g && h == g + 1)
    ensures Base(u, a, s + 1, h, c, fired + [x])
  {
    HitOneMore(u, a, s, fired, x);
  }

  /** Between two turns of the main loop, nobody having stopped. */
  ghost predicate Going(u: seq<Listener>, a: seq<real>, s: nat, g: nat, c: Table, fired: seq<nat>) {
    Base(u, a, s, g, c, fired) && Standing(u, a, s, g, fired) && (s < |a| ==> a[s] !in c)
  }

  /** While the inner loop runs after listener `g`. */
  ghost predicate Draining(u: seq<Listener>, a: seq<real>, s: nat, g: nat, c: Table, fired: seq<nat>) {
    && g < |u| && NonNeg(u, g) && Base(u, a, s, g + 1, c, fired) && Standing(u, a, s, g + 1, fired)
    && (forall x :: x in c && x >= 0.0 ==> c[x] < g)
    && (s < |a| ==> u[g].z.n <= a[s] && (a[s] in c ==> u[g].z.n < a[s]))
  }

  /** Everything still held back waits for a listener that is not matched before `g - 1`. */
  ghost predicate Blocked(u: seq<Listener>, a: seq<real>, s: nat, g: nat, fired: seq<nat>, w: nat) {
    s < |a| ==>
      && w < |u| && g <= w + 1 && NonNeg(u, w) && u[w].z.n <= a[s]
      && (u[w].z.n == a[s] ==> forall j :: 0 <= j < |u| && j < g && u[j].z == Z(a[s]) ==> j in fired)
  }

  // ---------------------------------------------------------------- every firing continues the order

  lemma {:induction false} PushNegative(u: seq<Listener>, a: seq<real>, s: nat, fired: seq<nat>, x: nat)
    requires NoClash(u) && Values(u, a) && Started(u, a, s, fired) && Matched(u, a, s, fired)
    requires s < |a| && a[s] < 0.0 && x < |u| && u[x].z == Z(a[s])
    ensures Started(u, a, s + 1, fired + [x]) && Matched(u, a, s + 1, fired + [x])
  {
    var f := fired + [x];
    HitOneMore(u, a, s, fired, x);
    if s + 1 < |a| && a[s + 1] == a[s] {
      var w := SomeLeft(u, a, s + 1, f);
      assert Clash(u, if x < w then x else w, if x < w then w else x);
    }
    forall i | 0 <= i < |u| && Neg(u, i) && (s + 1 < |a| ==> u[i].z.n < a[s + 1]) ensures i in f {
      AllFired(u, a, s + 1, f, i);
    }
    forall k, l | 0 <= k < l < |f| ensures Precedes(u, f[k], f[l]) {
      assert f[k] in fired;
    }
  }

  lemma {:induction false} NegativesDone(u: seq<Listener>, a: seq<real>, s: nat, fired: seq<nat>)
    requires Values(u, a) && Matched(u, a, s, fired) && Started(u, a, s, fired)
    requires (s < |a| ==> a[s] >= 0.0) && (forall k :: 0 <= k < s ==> a[k] < 0.0)
    ensures Standing(u, a, s, 0, fired)
  {
    forall i | 0 <= i < |u| && NonNeg(u, i) ensures s < |a| && u[i].z.n >= a[s] {
      if s < |a| ==> u[i].z.n < a[s] { AllFired(u, a, s, fired, i); }
    }
  }

  lemma {:induction false} PushPlain(u: seq<Listener>, a: seq<real>, s: nat, g: nat, fired: seq<nat>)
    requires Standing(u, a, s, g, fired) && g < |u| && Plain(u, g)
    ensures Standing(u, a, s, g + 1, fired + [g])
  {
    var f := fired + [g];
    forall k, l | 0 <= k < l < |f| ensures Precedes(u, f[k], f[l]) {
      assert f[k] in fired;
      if l == |fired| && NonNeg(u, f[k]) {
        forall y | 0 <= y < |u| && NonNeg(u, y) && (y == f[k] || Sooner(u, y, f[k])) ensures y < g {
        }
      }
    }
  }

  /** Fire `x`, the first with the next value that has not fired; `w` is the one it waited for
      (itself, if it was not held back). */
  lemma {:induction false} PushValue(u: seq<Listener>, a: seq<real>, s: nat, g: nat, fired: seq<nat>, x: nat, w: nat)
    requires Values(u, a) && Matched(u, a, s, fired) && Standing(u, a, s, g, fired)
    requires s < |a| && a[s] >= 0.0 && x < g && x < |u| && u[x].z == Z(a[s]) && x !in fired
    requires forall j :: 0 <= j < |u| && u[j].z == Z(a[s]) && j !in fired ==> x <= j
    requires w < |u| && NonNeg(u, w) && (w == x || Sooner(u, w, x)) && g <= w + 1
    ensures Standing(u, a, s + 1, g, fired + [x])
  {
    var f := fired + [x];
    HitOneMore(u, a, s, fired, x);
    forall i | 0 <= i < |u| && NonNeg(u, i) && (s + 1 < |a| ==> u[i].z.n < a[s + 1]) ensures i in f {
      AllFired(u, a, s + 1, f, i);
    }
    forall k, l | 0 <= k < l < |f| ensures Precedes(u, f[k], f[l]) {
      assert f[k] in fired;
      if l == |fired| && Plain(u, f[k]) {
        assert !(w < f[k]);
      }
    }
  }

  /** Wherever the dispatcher stands, what has fired is the start of the intended order. */
  lemma {:induction false} StandingIsPrefix(u: seq<Listener>, a: seq<real>, s: nat, g: nat, fired: seq<nat>, w: nat)
    requires Standing(u, a, s, g, fired) && Blocked(u, a, s, g, fired, w)
    ensures Prefix(u, fired)
    ensures s == |a| && g >= |u| ==> Everything(u, fired)
  {
  }

  /** The next value belongs to a listener not looked at yet. */
  lemma {:induction false} NextIsAhead(u: seq<Listener>, a: seq<real>, s: nat, g: nat, c: Table, fired: seq<nat>)
    returns (w: nat)
    requires Going(u, a, s, g, c, fired)
    ensures Blocked(u, a, s, g, fired, w) && (s < |a| ==> g <= w)
  {
    w := 0;
    if s < |a| {
      w := SomeLeft(u, a, s, fired);
    }
  }

  lemma {:induction false} GoingPlain(u: seq<Listener>, a: seq<real>, s: nat, g: nat, c: Table, fired: seq<nat>)
    requires Going(u, a, s, g, c, fired) && g < |u| && Plain(u, g)
    ensures Going(u, a, s, g + 1, c, fired + [g])
  {
    PushPlain(u, a, s, g, fired);
    PlainHitsNothing(u, a, s, fired, g);
  }

  lemma {:induction false} GoingHeld(u: seq<Listener>, a: seq<real>, s: nat, g: nat, c: Table, fired: seq<nat>)
    requires Going(u, a, s, g, c, fired) && g < |u| && u[g].z.Z? && !(s < |a| && u[g].z.n == a[s])
    ensures Going(u, a, s, g + 1, c[u[g].z.n := g], fired)
  {
  }

  /** Listener `g` is the one all others were waiting for. */
  lemma {:induction false} GoingTrigger(u: seq<Listener>, a: seq<real>, s: nat, g: nat, c: Table, fired: seq<nat>)
    requires Going(u, a, s, g, c, fired) && g < |u| && s < |a| && u[g].z == Z(a[s])
    ensures Draining(u, a, s + 1, g, c, fired + [g])
    ensures Blocked(u, a, s + 1, g + 1, fired + [g], g)
    ensures !Late(u, g)
  {
    assert Standing(u, a, s, g + 1, fired);
    PushValue(u, a, s, g + 1, fired, g, g);
    BaseFires(u, a, s, g, c, fired, g, g + 1);
  }

  lemma {:induction false} MustClash(u: seq<Listener>, i: nat, j: nat, g: nat)
    requires i < j < |u| && i < g < |u| && NonNeg(u, i) && NonNeg(u, g) && u[g].z.n < u[i].z.n && u[j].z == u[i].z
    ensures Clash(u, i, j)
  {
  }

  /** A held-back listener shares its value with no other. */
  lemma {:induction false} LateIsAlone(u: seq<Listener>, x: nat, j: nat, g: nat)
    requires NoClash(u) && x < g < |u| && j < |u| && NonNeg(u, x) && NonNeg(u, g) && u[g].z.n < u[x].z.n
    requires u[j].z == u[x].z
    ensures j == x
  {
    if j < x {
      MustClash(u, j, x, g);
      assert false;
    } else if x < j {
      MustClash(u, x, j, g);
      assert false;
    }
  }

  lemma {:induction false} DrainOne(u: seq<Listener>, a: seq<real>, s: nat, g: nat, c: Table, fired: seq<nat>, z: real)
    requires NoClash(u) && Draining(u, a, s, g, c, fired) && s < |a| && z == a[s] && z in c
    ensures Draining(u, a, s + 1, g, c, fired + [c[z]])
    ensures c[z] < g && Late(u, c[z])
  {
    var x := c[z];
    var left := SomeLeft(u, a, s, fired);
    forall j | 0 <= j < |u| && u[j].z == Z(z) ensures j == x {
      LateIsAlone(u, x, j, g);
    }
    PushValue(u, a, s, g + 1, fired, x, g);
    BaseFires(u, a, s, g + 1, c, fired, x, g + 1);
  }

  /** A held-back listener, fired after listener `tr`, has stopped; the loop has not noticed. */
  ghost predicate Stopping(u: seq<Listener>, a: seq<real>, s: nat, g: nat, fired: seq<nat>, tr: nat) {
    && Prefix(u, fired) && |fired| > 0 && s < |a| && tr < g <= |u| && NonNeg(u, tr)
    && var x := fired[|fired| - 1];
       && x < g && u[x].z == Z(a[s]) && Late(u, x) && u[tr].z.n < u[x].z.n
       && (forall y :: 0 <= y < |u| && NonNeg(u, y) && (y == x || Sooner(u, y, x)) ==> y < g)
       && (forall w :: tr < w < g ==> !Plain(u, w))
  }

  lemma {:induction false} DrainStops(u: seq<Listener>, a: seq<real>, s: nat, g: nat, c: Table, fired: seq<nat>,
                                      z: real)
    requires NoClash(u) && Draining(u, a, s, g, c, fired) && s < |a| && z == a[s] && z in c
    ensures Stopping(u, a, s, g + 1, fired + [c[z]], g)
  {
    var x := c[z];
    var f := fired + [x];
    DrainOne(u, a, s, g, c, fired, z);
    StandingIsPrefix(u, a, s + 1, g + 1, f, g);
    forall y | 0 <= y < |u| && NonNeg(u, y) && (y == x || Sooner(u, y, x)) ensures y < g + 1 {
      if y != x && u[y].z == u[x].z { LateIsAlone(u, x, y, g); }
    }
  }

  /** Nothing before listener `g` is the next plain one after `x`. */
  lemma {:induction false} NotYet(u: seq<Listener>, a: seq<real>, s: nat, g: nat, fired: seq<nat>, tr: nat, w: nat)
    requires Stopping(u, a, s, g, fired, tr) && w < g && Plain(u, w)
    ensures !Ready(u, fired[|fired| - 1], w)
  {
  }

  // ---------------------------------------------------------------- the order itself

  /** Of two different listeners exactly one precedes the other. */
  lemma {:induction false} PrecedesIsTotal(u: seq<Listener>, i: nat, j: nat)
    requires i < |u| && j < |u| && i != j
    ensures Precedes(u, i, j) <==> !Precedes(u, j, i)
  {
  }

  /** So there is only one way to fire everything in order, and each listener fires once. */
  lemma {:induction false} OrderIsUnique(u: seq<Listener>, f: seq<nat>, g: seq<nat>)
    requires Places(u, f) && Places(u, g)
    requires Ordered(u, f) && Everything(u, f) && Ordered(u, g) && Everything(u, g)
    ensures f == g
    ensures NoTwice(f)
  {
    var k := 0;
    while k < |f| && k < |g|
      invariant k <= |f| && k <= |g| && f[..k] == g[..k]
    {
      if f[k] != g[k] {
        ComesLater(u, f, g, k);
        ComesLater(u, g, f, k);
        PrecedesIsTotal(u, f[k], g[k]);
      }
      k := k + 1;
    }
    if k < |f| { NothingLeft(u, f, g, k); }
    if k < |g| { NothingLeft(u, g, f, k); }
    forall k, l | 0 <= k < l < |f| ensures f[k] != f[l] {
      assert Precedes(u, f[k], f[l]);
    }
  }

  lemma {:induction false} ComesLater(u: seq<Listener>, f: seq<nat>, g: seq<nat>, k: nat)
    requires Places(u, f) && Places(u, g) && Ordered(u, f) && Ordered(u, g) && Everything(u, g)
    requires k < |f| && k < |g| && f[..k] == g[..k] && f[k] != g[k]
    ensures Precedes(u, g[k], f[k])
  {
    assert f[k] in g;
    var l :| 0 <= l < |g| && g[l] == f[k];
    forall m | 0 <= m < k ensures g[m] != f[k] {
      assert g[m] == g[..k][m] == f[..k][m] == f[m];
      assert Precedes(u, f[m], f[k]);
    }
    assert Precedes(u, g[k], g[l]);
  }

  lemma {:induction false} NothingLeft(u: seq<Listener>, f: seq<nat>, g: seq<nat>, k: nat)
    requires Places(u, f) && Ordered(u, f)
    requires k == |g| && k <= |f| && f[..k] == g
    ensures k < |f| ==> f[k] !in g
  {
  }
}
