/** The control points that `S` and `T` imply (SVG 1.1, sections 8.3.6 and 8.3.7), and how far
    the relative form moves them.

    A smooth command takes the reflection of the control point before it in the current
    point.  A run of `T` reflects again and again, and each reflection adds the error of the
    current point twice. */
module ImpliedControls {
  import opened Paths
  import opened RelativePaths

  predicate IsCubic(m: Mark) {
    m.Cubic? || m.Smooth?
  }

  predicate IsQuadratic(m: Mark) {
    m.Quadratic? || m.SmoothQuadratic?
  }

  function Reflect(control: Point, at: Point): Point {
    Point(2.0 * at.x - control.x, 2.0 * at.y - control.y)
  }

  /** The current point before mark `k`. */
  function PointBefore(t: seq<Mark>, k: nat): Point
    requires k < |t|
  {
    if k == 0 then HOME.at else t[k - 1].to
  }

  /** The first control point of a cubic curve, given or implied. */
  function FirstControl(t: seq<Mark>, k: nat): Point
    requires k < |t| && IsCubic(t[k])
  {
    if t[k].Cubic? then t[k].c1
    else if k > 0 && IsCubic(t[k - 1]) then Reflect(t[k - 1].c2, t[k - 1].to)
    else PointBefore(t, k)
  }

  /** The control point of a quadratic curve, given or implied. */
  function QuadControl(t: seq<Mark>, k: nat): Point
    requires k < |t| && IsQuadratic(t[k])
  {
    if t[k].Quadratic? then t[k].c1
    else if k > 0 && IsQuadratic(t[k - 1]) then Reflect(QuadControl(t, k - 1), t[k - 1].to)
    else PointBefore(t, k)
  }

  /** How often the control point of mark `k` has been reflected since it was last given. */
  function Reflections(t: seq<Mark>, k: nat): nat
    requires k < |t| && IsQuadratic(t[k])
  {
    if t[k].SmoothQuadratic? && k > 0 && IsQuadratic(t[k - 1]) then 1 + Reflections(t, k - 1) else 0
  }

  // ---------------------------------------------------------------- the bound

  ghost predicate NearTo(a: seq<Mark>, b: seq<Mark>, k: nat, eps: real) {
    k < |a| == |b| && eps >= 0.0 && forall j :: 0 <= j <= k ==> NearMark(a[j], b[j], eps)
  }

  lemma {:induction false} CubicNear(a: seq<Mark>, b: seq<Mark>, k: nat, eps: real)
    requires NearTo(a, b, k, eps) && IsCubic(b[k])
    ensures IsCubic(a[k]) && NearPoint(FirstControl(a, k), FirstControl(b, k), 3.0 * eps)
  {
    assert NearMark(a[k], b[k], eps);
    if k > 0 { assert NearMark(a[k - 1], b[k - 1], eps); }
  }

  /** The bound `eps` after `n` reflections. */
  function Spread(eps: real, n: nat): real {
    eps * (1 + 2 * n) as real
  }

  lemma {:induction false} SpreadMore(eps: real, n: nat)
    ensures Spread(eps, 0) == eps && Spread(eps, n + 1) == Spread(eps, n) + 2.0 * eps
  {
    var x := (1 + 2 * n) as real;
    assert (1 + 2 * (n + 1)) as real == x + 2.0 && eps * (x + 2.0) == eps * x + 2.0 * eps;
  }

  lemma {:induction false} ReflectNear(c: Point, d: Point, p: Point, q: Point, eps: real, n: nat)
    requires NearPoint(c, d, Spread(eps, n)) && NearPoint(p, q, eps)
    ensures NearPoint(Reflect(c, p), Reflect(d, q), Spread(eps, n + 1))
  {
    hide Spread;
    SpreadMore(eps, n);
  }

  lemma {:induction false} QuadNear(a: seq<Mark>, b: seq<Mark>, k: nat, eps: real)
    requires NearTo(a, b, k, eps) && IsQuadratic(b[k])
    ensures IsQuadratic(a[k]) && Reflections(a, k) == Reflections(b, k)
    ensures NearPoint(QuadControl(a, k), QuadControl(b, k), Spread(eps, Reflections(b, k)))
  {
    hide Spread, Reflect;
    NearAt(a, b, k, eps);
    SpreadMore(eps, 0);
    if k > 0 {
      NearAt(a, b, k - 1, eps);
      if b[k].SmoothQuadratic? && IsQuadratic(b[k - 1]) {
        QuadNear(a, b, k - 1, eps);
        ReflectNear(QuadControl(a, k - 1), QuadControl(b, k - 1), a[k - 1].to, b[k - 1].to, eps, Reflections(b, k - 1));
      }
    }
  }

  /** Near marks are of the same kind, and so are their points. */
  lemma {:induction false} NearAt(a: seq<Mark>, b: seq<Mark>, j: nat, eps: real)
    requires j < |a| == |b| && NearMark(a[j], b[j], eps)
    ensures IsQuadratic(a[j]) == IsQuadratic(b[j]) && a[j].SmoothQuadratic? == b[j].SmoothQuadratic?
    ensures NearPoint(a[j].to, b[j].to, eps)
    ensures a[j].Quadratic? ==> NearPoint(a[j].c1, b[j].c1, eps)
  {
  }

  lemma {:induction false} ClosesGrow(path: Path, j: nat, k: nat)
    requires j <= k <= |path|
    ensures Closes(path[..j]) <= Closes(path[..k])
    decreases k
  {
    if j < k {
      assert path[..k][..k - 1] == path[..k - 1];
      ClosesGrow(path, j, k - 1);
    }
  }

  lemma {:induction false} Widen(a: Mark, b: Mark, eps: real, wider: real)
    requires NearMark(a, b, eps) && eps <= wider
    ensures NearMark(a, b, wider)
  {
  }

  lemma {:induction false} SlackGrows(y: nat, z: nat)
    requires y <= z
    ensures 0.0 <= Slack(y) <= Slack(z) && Slack(y) == HALF_STEP * (1 + y) as real
  {
  }

  lemma {:induction false} NearUpTo(path: Path, k: nat)
    requires LegalPath(path) && k < |path|
    ensures NearTo(Trace(Relative(path)), Trace(path), k, Slack(Closes(path[..k + 1])))
  {
    hide NearMark, Trace, Relative, Closes, Slack;
    var a, b := Trace(Relative(path)), Trace(path);
    SlackGrows(0, Closes(path[..k + 1]));
    forall j | 0 <= j <= k ensures NearMark(a[j], b[j], Slack(Closes(path[..k + 1]))) {
      RelativeStaysClose(path, j);
      ClosesGrow(path, j + 1, k + 1);
      SlackGrows(Closes(path[..j + 1]), Closes(path[..k + 1]));
      Widen(a[j], b[j], Slack(Closes(path[..j + 1])), Slack(Closes(path[..k + 1])));
    }
  }

  /** An implied control point of a cubic curve is off by at most three times the bound of the
      points that are given; one of a quadratic curve by one more time twice that bound for
      each reflection.  The absolute form of the result is no further off. */
  lemma {:induction false} ImpliedStaysClose(path: Path, k: nat)
    requires LegalPath(path) && k < |path|
    ensures var a, b, eps := Trace(Relative(path)), Trace(path), 0.0005 * (1 + Closes(path[..k + 1])) as real;
            && (IsCubic(b[k]) ==> IsCubic(a[k]) && NearPoint(FirstControl(a, k), FirstControl(b, k), 3.0 * eps))
            && (IsQuadratic(b[k]) ==>
                  && IsQuadratic(a[k])
                  && NearPoint(QuadControl(a, k), QuadControl(b, k), Spread(eps, Reflections(b, k))))
    ensures Trace(Absolute(Relative(path))) == Trace(Relative(path))
  {
    hide NearTo, Trace, Relative, Absolute, Closes, Slack, FirstControl, QuadControl, Reflections, Spread;
    var a, b, eps := Trace(Relative(path)), Trace(path), Slack(Closes(path[..k + 1]));
    SlackGrows(Closes(path[..k + 1]), Closes(path[..k + 1]));
    NearUpTo(path, k);
    if IsCubic(b[k]) { CubicNear(a, b, k, eps); }
    if IsQuadratic(b[k]) { QuadNear(a, b, k, eps); }
    AbsoluteDrawsTheSame(Relative(path));
  }

  // ---------------------------------------------------------------- the bound is attained

  /** Twice half a step, or nothing. */
  function Offset(n: nat): real {
    if n % 2 == 0 then 2.0 * HALF_STEP else 0.0
  }

  /** The control points after `n` reflections differ by this. */
  function Swing(n: nat): real {
    if n % 2 == 0 then -(HALF_STEP * (1 + 2 * n) as real) else HALF_STEP * (1 + 2 * n) as real
  }

  /** All given points lie at half a step; the rewritten path is half a step too far or too
      short in turn, and so is every reflection. */
  ghost predicate Ripple(path: Path, n: nat) {
    && LegalPath(path) && |path| == n + 2 && Closes(path) == 0
    && PenAfter(path).at.x == HALF_STEP
    && PenAfter(Relative(path)).at.x == Offset(n)
    && RelCursorAfter(path).x == Offset(n) && RelCursorAfter(path).y == 0.0
    && var a, b := Trace(Relative(path)), Trace(path);
       && IsQuadratic(a[n + 1]) && IsQuadratic(b[n + 1]) && Reflections(b, n + 1) == n
       && a[n + 1].to.x == Offset(n) && b[n + 1].to.x == HALF_STEP
       && QuadControl(a, n + 1).x - QuadControl(b, n + 1).x == Swing(n)
  }

  lemma {:induction false} RoundHalf(r: real)
    requires r == HALF_STEP || r == -HALF_STEP
    ensures ToFixed3(r) == 2.0 * r
  {
    assert (0.0005 * 1000.0 + 0.5).Floor == 1;
  }

  lemma {:induction false} RoundNothing()
    ensures ToFixed3(0.0) == 0.0
  {
    assert (0.0 * 1000.0 + 0.5).Floor == 0;
  }

  lemma {:induction false} CurveRewritten() returns (q: Command)
    ensures Legal(q) && q.op == 'Q' && q.args == [-HALF_STEP, 0.0, HALF_STEP, 0.0]
    ensures var h := RelCommand(q, ORIGIN);
            h.op == 'q' && h.args == [-2.0 * HALF_STEP, 0.0, 2.0 * HALF_STEP, 0.0]
    ensures RelCursor(q, ORIGIN).x == 2.0 * HALF_STEP && RelCursor(q, ORIGIN).y == 0.0
  {
    hide ToFixed3;
    q := Command('Q', [-HALF_STEP, 0.0, HALF_STEP, 0.0]);
    RoundHalf(HALF_STEP);
    RoundHalf(-HALF_STEP);
    RoundNothing();
  }

  lemma {:induction false} CurveDrawn(c: Command, pen: Pen)
    requires Legal(c) && Upper(c.op) == 'Q'
    ensures Draw(c, pen) == Quadratic(Pair(c, 0, pen), Pair(c, 2, pen))
    ensures Advance(Draw(c, pen), pen).at == Pair(c, 2, pen)
  {
  }

  lemma {:induction false} StartAtHome() returns (init: Path)
    ensures LegalPath(init) && |init| == 1 && init[0].op == 'M' && Closes(init) == 0
    ensures RelCursorAfter(init) == ORIGIN && Relative(init) == init
    ensures PenAfter(init).at == Point(0.0, 0.0)
  {
    var m := Command('M', [0.0, 0.0]);
    init := [] + [m];
    OneMore([], m);
    assert init == [m] && KeptMove(init);
  }

  lemma {:induction false} FirstRipple() returns (path: Path)
    ensures Ripple(path, 0)
  {
    hide RelCommand, RelCursor, Relative, Trace, PenAfter, Closes, RelCursorAfter, Draw, Advance;
    var init := StartAtHome();
    var q := CurveRewritten();
    var h := RelCommand(q, ORIGIN);
    path := init + [q];
    RelativeSnoc(init, q);
    OneMore(init, q);
    OneMore(init, h);
    CurveDrawn(q, PenAfter(init));
    CurveDrawn(h, PenAfter(init));
  }

  lemma {:induction false} TurnDrawn(c: Command, pen: Pen)
    requires Legal(c) && Upper(c.op) == 'T'
    ensures Draw(c, pen) == SmoothQuadratic(Pair(c, 0, pen)) && Advance(Draw(c, pen), pen).at == Pair(c, 0, pen)
  {
  }

  /** The next `T` in the given path, as the rewriter sees it. */
  lemma {:induction false} TurnRewritten(cur: Cursor, n: nat) returns (c: Command)
    requires cur.x == Offset(n) && cur.y == 0.0
    ensures Legal(c) && c.op == 'T' && c.args == [HALF_STEP, 0.0]
    ensures var h := RelCommand(c, cur);
            h.op == 't' && |h.args| == 2 && h.args[0] == Offset(n + 1) - Offset(n) && h.args[1] == 0.0
    ensures RelCursor(c, cur).x == Offset(n + 1) && RelCursor(c, cur).y == 0.0
  {
    c := Command('T', [HALF_STEP, 0.0]);
    RoundHalf(HALF_STEP - cur.x);
    RoundNothing();
  }

  lemma {:induction false} ControlNext(t: seq<Mark>, m: Mark)
    requires t != [] && IsQuadratic(t[|t| - 1]) && m.SmoothQuadratic?
    ensures var u := t + [m];
            && QuadControl(u, |t|) == Reflect(QuadControl(t, |t| - 1), t[|t| - 1].to)
            && Reflections(u, |t|) == 1 + Reflections(t, |t| - 1)
  {
    ControlOfPrefix(t, m, |t| - 1);
  }

  lemma {:induction false} ControlOfPrefix(t: seq<Mark>, m: Mark, k: nat)
    requires k < |t| && IsQuadratic(t[k])
    ensures QuadControl(t + [m], k) == QuadControl(t, k) && Reflections(t + [m], k) == Reflections(t, k)
  {
    if k > 0 && IsQuadratic(t[k - 1]) { ControlOfPrefix(t, m, k - 1); }
  }

  lemma {:induction false} SwingNext(n: nat)
    ensures Swing(n + 1) == 2.0 * (Offset(n) - HALF_STEP) - Swing(n)
  {
    assert HALF_STEP * (1 + 2 * (n + 1)) as real == HALF_STEP * (1 + 2 * n) as real + 2.0 * HALF_STEP;
  }

  lemma {:induction false} NextRipple(path: Path, n: nat) returns (next: Path)
    requires Ripple(path, n)
    ensures Ripple(next, n + 1)
  {
    hide RelCommand, RelCursor, Relative, Trace, PenAfter, Closes, RelCursorAfter, Draw, Advance, QuadControl, Reflections, Swing;
    var cur := RelCursorAfter(path);
    var c := TurnRewritten(cur, n);
    var h := RelCommand(c, cur);
    RelativeSnoc(path, c);
    OneMore(path, c);
    OneMore(Relative(path), h);
    TurnDrawn(c, PenAfter(path));
    TurnDrawn(h, PenAfter(Relative(path)));
    ControlNext(Trace(path), Draw(c, PenAfter(path)));
    ControlNext(Trace(Relative(path)), Draw(h, PenAfter(Relative(path))));
    SwingNext(n);
    next := path + [c];
  }

  lemma {:induction false} Ripples(n: nat) returns (path: Path)
    ensures Ripple(path, n)
  {
    if n == 0 {
      path := FirstRipple();
    } else {
      var less := Ripples(n - 1);
      path := NextRipple(less, n - 1);
    }
  }

  /** The bound is attained: for every `n` there is a path without any close whose last
      control point, reflected `n` times, is off by exactly `1 + 2 * n` roundings. */
  lemma {:induction false} ReflectionsAddUp(n: nat) returns (path: Path)
    ensures LegalPath(path) && |path| == n + 2 && Closes(path) == 0
    ensures var a, b := Trace(Relative(path)), Trace(path);
            && IsQuadratic(a[n + 1]) && IsQuadratic(b[n + 1]) && Reflections(b, n + 1) == n
            && var d := QuadControl(a, n + 1).x - QuadControl(b, n + 1).x;
               (if d < 0.0 then -d else d) == 0.0005 * (1 + 2 * n) as real
  {
    path := Ripples(n);
  }
}
