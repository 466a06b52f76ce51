/** The rewriter that makes all commands relative, rounding every offset to three decimals,
    and how far the result can drift from the path it was given. */
module RelativePaths {
  import opened Paths

  datatype Outcome = Done(path: Path) | Thrown

  /** The largest error of one rounding. */
  const HALF_STEP: real := 0.0005
  const FIXED_LIMIT: real := 1000000000000000000000.0

  // ---------------------------------------------------------------- rounding to three decimals

  /** `+n.toFixed(3)`: the nearest multiple of 0.001, ties away from zero; from 10^21 on the
      number is left as it is. */
  function ToFixed3(n: real): real {
    if n >= FIXED_LIMIT || n <= -FIXED_LIMIT then n
    else if n < 0.0 then -((-n * 1000.0 + 0.5).Floor as real / 1000.0)
    else (n * 1000.0 + 0.5).Floor as real / 1000.0
  }

  predicate Within(a: real, b: real, eps: real) {
    -eps <= a - b <= eps
  }

  /** A number with at most three decimals. */
  predicate ThreeDecimals(r: real) {
    (r * 1000.0).Floor as real == r * 1000.0
  }

  /** `r` is the whole number of thousandths nearest to `n`: of two at the same distance, the
      one further from zero. */
  predicate Nearest(n: real, r: real) {
    && ThreeDecimals(r) && Within(r, n, 0.0005)
    && (r - n == 0.0005 ==> n > 0.0) && (n - r == 0.0005 ==> n < 0.0)
  }

  /** What three-decimal rounding makes of `n`: from 10^21 on, nothing. */
  predicate Rounded(n: real, r: real) {
    if -1000000000000000000000.0 < n < 1000000000000000000000.0 then Nearest(n, r) else r == n
  }

  lemma {:induction false} RoundingError(n: real)
    ensures Within(ToFixed3(n), n, 0.0005)
    ensures -1000000000000000000000.0 < n < 1000000000000000000000.0 ==> ThreeDecimals(ToFixed3(n))
  {
    if n < 0.0 {
      var f := (-n * 1000.0 + 0.5).Floor;
      assert ((-f) as real).Floor == -f;
    }
  }

  lemma {:induction false} ClosestWhole(i: int, j: int, a: real, b: real)
    requires a == i as real && b == j as real && -1.0 < a - b < 1.0
    ensures i == j
  {
  }

  lemma {:induction false} NearestIsUnique(n: real, r: real, s: real)
    requires Nearest(n, r) && Nearest(n, s)
    ensures r == s
  {
    assert r - s < 0.001 && s - r < 0.001;
    ClosestWhole((r * 1000.0).Floor, (s * 1000.0).Floor, r * 1000.0, s * 1000.0);
  }

  lemma {:induction false} RoundsUp(n: real)
    requires 0.0 <= n < 1000000000000000000000.0
    ensures Nearest(n, ToFixed3(n))
  {
    hide ThreeDecimals;
    RoundingError(n);
    var f := (n * 1000.0 + 0.5).Floor;
    assert n * 1000.0 - 0.5 < f as real <= n * 1000.0 + 0.5;
    assert ToFixed3(n) * 1000.0 == f as real;
  }

  lemma {:induction false} RoundsDown(n: real)
    requires -1000000000000000000000.0 < n < 0.0
    ensures Nearest(n, ToFixed3(n))
  {
    hide ThreeDecimals;
    RoundingError(n);
    var f := (-n * 1000.0 + 0.5).Floor;
    assert -n * 1000.0 - 0.5 < f as real <= -n * 1000.0 + 0.5;
    assert ToFixed3(n) * 1000.0 == -(f as real);
  }

  /** The rounding is the one described, and there is no other. */
  lemma {:induction false} RoundsToNearest(n: real, r: real)
    ensures r == ToFixed3(n) <==> Rounded(n, r)
  {
    if -1000000000000000000000.0 < n < 1000000000000000000000.0 {
      hide ToFixed3, ThreeDecimals, Nearest;
      if n >= 0.0 { RoundsUp(n); } else { RoundsDown(n); }
      if Nearest(n, r) { NearestIsUnique(n, r, ToFixed3(n)); }
    }
  }

  // ---------------------------------------------------------------- the rewriter

  function Offsets(args: seq<real>, x: real, y: real): (r: seq<real>)
    ensures |r| == |args|
  {
    seq(|args|, k requires 0 <= k < |args| => ToFixed3(args[k] - if k % 2 == 0 then x else y))
  }

  function RelCommand(c: Command, cur: Cursor): (h: Command)
    requires Legal(c)
    ensures Legal(h) && IsLower(h.op)
  {
    if IsLower(c.op) then c
    else
      match c.op
      case 'A' => Command('a', c.args[..5] + [ToFixed3(c.args[5] - cur.x), ToFixed3(c.args[6] - cur.y)])
      case 'V' => Command('v', [ToFixed3(c.args[0] - cur.y)])
      case u => Command(Lower(u), Offsets(c.args, cur.x, cur.y))
  }

  /** The running point follows the rounded offsets; the subpath start does not. */
  function RelCursor(c: Command, cur: Cursor): Cursor
    requires Legal(c)
  {
    var h := RelCommand(c, cur);
    var n := |h.args|;
    match c.op
    case 'z' => cur.(x := cur.mx, y := cur.my)
    case 'Z' => cur.(x := cur.mx, y := cur.my)
    case 'h' => cur.(x := cur.x + h.args[0])
    case 'H' => cur.(x := cur.x + h.args[0])
    case 'v' => cur.(y := cur.y + h.args[0])
    case 'V' => cur.(y := cur.y + h.args[0])
    case 'M' => Cursor(cur.x + h.args[0], cur.y + h.args[1], c.args[0], c.args[1])
    case 'm' => Cursor(cur.x + h.args[0], cur.y + h.args[1], cur.x + c.args[0], cur.y + c.args[1])
    case _ => cur.(x := cur.x + h.args[n - 2], y := cur.y + h.args[n - 1])
  }

  /** A first absolute move is kept as it is. */
  predicate KeptMove(path: Path) {
    |path| == 1 && path[0].op == 'M'
  }

  function RelCursorAfter(path: Path): Cursor
    requires LegalPath(path)
  {
    if path == [] then ORIGIN
    else if KeptMove(path) then Cursor(path[0].args[0], path[0].args[1], path[0].args[0], path[0].args[1])
    else RelCursor(path[|path| - 1], RelCursorAfter(path[..|path| - 1]))
  }

  function Relative(path: Path): (r: Path)
    requires LegalPath(path)
    ensures |r| == |path| && LegalPath(r)
  {
    if path == [] || KeptMove(path) then path
    else Relative(path[..|path| - 1]) + [RelCommand(path[|path| - 1], RelCursorAfter(path[..|path| - 1]))]
  }

  lemma {:induction false} RelNext(e: Path, p: nat)
    requires LegalPath(e) && p < |e| && !(p == 0 && e[0].op == 'M')
    ensures var cur := RelCursorAfter(e[..p]);
            && Relative(e[..p + 1]) == Relative(e[..p]) + [RelCommand(e[p], cur)]
            && RelCursorAfter(e[..p + 1]) == RelCursor(e[p], cur)
  {
    assert e[..p + 1][..p] == e[..p];
  }

  method OffsetsOf(args: seq<real>, x: real, y: real) returns (r: seq<real>)
    ensures r == Offsets(args, x, y)
  {
    r := [];
    var p := 0;
    while p < |args|
      invariant 0 <= p <= |args| && |r| == p
      invariant forall j :: 0 <= j < p ==> r[j] == ToFixed3(args[j] - if j % 2 == 0 then x else y)
    {
      r := r + [ToFixed3(args[p] - if p % 2 == 0 then x else y)];
      p := p + 1;
    }
  }

  /** The subpath start after `f`: an absolute move sets it to its own arguments, a relative
      one adds them to the running point. */
  function NewStart(f: Command, cur: Cursor): (real, real)
    requires Legal(f)
  {
    if f.op == 'M' then (f.args[0], f.args[1])
    else if f.op == 'm' then (f.args[0] + cur.x, f.args[1] + cur.y)
    else (cur.mx, cur.my)
  }

  /** One turn of the loop: the lower-case command for `f`, and the new subpath start. */
  method ToRelative(f: Command, x: real, y: real, mx0: real, my0: real)
    returns (c: Command, mx: real, my: real)
    requires Legal(f)
    ensures c == RelCommand(f, Cursor(x, y, mx0, my0))
    ensures (mx, my) == NewStart(f, Cursor(x, y, mx0, my0))
  {
    mx, my := mx0, my0;
    if f.op != Lower(f.op) {
      var u := Lower(f.op);
      if u == 'a' {
        c := Command(u, f.args[..5] + [ToFixed3(f.args[5] - x), ToFixed3(f.args[6] - y)]);
      } else if u == 'v' {
        c := Command(u, [ToFixed3(f.args[0] - y)]);
      } else {
        if u == 'm' {
          mx, my := f.args[0], f.args[1];
        }
        var args := OffsetsOf(f.args, x, y);
        c := Command(u, args);
      }
    } else {
      if f.op == 'm' {
        mx, my := f.args[0] + x, f.args[1] + y;
      }
      c := f;
    }
  }

  /** The rest of the turn: the running point moves by the rounded offset. */
  method FollowRelative(c: Command, ghost f: Command, x0: real, y0: real, mx: real, my: real, ghost cur: Cursor)
    returns (x: real, y: real)
    requires Legal(f) && cur.x == x0 && cur.y == y0 && c == RelCommand(f, cur)
    requires (mx, my) == NewStart(f, cur)
    ensures Cursor(x, y, mx, my) == RelCursor(f, cur)
  {
    x, y := x0, y0;
    var v := |c.args|;
    if c.op == 'z' {
      x, y := mx, my;
    } else if c.op == 'h' {
      x := x + c.args[v - 1];
    } else if c.op == 'v' {
      y := y + c.args[v - 1];
    } else {
      x, y := x + c.args[v - 2], y + c.args[v - 1];
    }
  }

  lemma {:induction false} StartsEmpty(e: Path)
    requires LegalPath(e)
    ensures Relative(e[..0]) == [] && RelCursorAfter(e[..0]) == ORIGIN
  {
  }

  lemma {:induction false} RelFirstMove(e: Path)
    requires LegalPath(e) && e != [] && e[0].op == 'M'
    ensures var x, y := e[0].args[0], e[0].args[1];
            Relative(e[..1]) == [Command('M', [x, y])] && RelCursorAfter(e[..1]) == Cursor(x, y, x, y)
  {
    assert [e[0].args[0], e[0].args[1]] == e[0].args;
    assert e[..1] == [e[0]];
  }

  /** `h` is `c` seen from the running point, every offset rounded: all arguments but the five
      that give the shape of an arc. */
  predicate OffsetsRounded(c: Command, cur: Cursor, h: Command)
    requires Legal(c)
  {
    && h.op == Lower(c.op) && |h.args| == |c.args|
    && match c.op
       case 'A' => h.args[..5] == c.args[..5] && Rounded(c.args[5] - cur.x, h.args[5])
                   && Rounded(c.args[6] - cur.y, h.args[6])
       case 'V' => Rounded(c.args[0] - cur.y, h.args[0])
       case _ => forall k :: 0 <= k < |c.args| ==> Rounded(c.args[k] - if k % 2 == 0 then cur.x else cur.y, h.args[k])
  }

  lemma {:induction false} RoundsAll(c: Command, cur: Cursor)
    requires Legal(c) && !IsLower(c.op)
    ensures OffsetsRounded(c, cur, RelCommand(c, cur))
  {
    hide ToFixed3, Rounded;
    forall k | 0 <= k < |c.args|
      ensures Rounded(c.args[k] - cur.x, ToFixed3(c.args[k] - cur.x))
      ensures Rounded(c.args[k] - cur.y, ToFixed3(c.args[k] - cur.y))
    {
      RoundsToNearest(c.args[k] - cur.x, ToFixed3(c.args[k] - cur.x));
      RoundsToNearest(c.args[k] - cur.y, ToFixed3(c.args[k] - cur.y));
    }
  }

  lemma {:induction false} OneWayToRound(c: Command, cur: Cursor, h: Command)
    requires Legal(c) && !IsLower(c.op) && OffsetsRounded(c, cur, h)
    ensures h == RelCommand(c, cur)
  {
    hide ToFixed3, Rounded;
    var r := RelCommand(c, cur);
    forall k | 0 <= k < |c.args| ensures h.args[k] == r.args[k] {
      RoundsToNearest(c.args[k] - cur.x, h.args[k]);
      RoundsToNearest(c.args[k] - cur.y, h.args[k]);
      if c.op == 'A' && k < 5 { assert h.args[k] == h.args[..5][k]; }
    }
    assert h.args == r.args;
  }

  /** What becomes of an absolute command is this, and nothing else. */
  lemma {:induction false} RelCommandRounds(c: Command, cur: Cursor, h: Command)
    requires Legal(c) && !IsLower(c.op)
    ensures h == RelCommand(c, cur) <==> OffsetsRounded(c, cur, h)
  {
    hide RelCommand, OffsetsRounded;
    RoundsAll(c, cur);
    if OffsetsRounded(c, cur, h) { OneWayToRound(c, cur, h); }
  }

  lemma {:induction false} RelativeAt(path: Path, k: nat)
    requires LegalPath(path) && k < |path| && !(k == 0 && path[0].op == 'M')
    ensures Relative(path)[k] == RelCommand(path[k], RelCursorAfter(path[..k]))
  {
    hide RelCommand, RelCursor, RelCursorAfter, Legal;
    var n := |path| - 1;
    if k < n {
      var init := path[..n];
      assert init[..k] == path[..k] && init[k] == path[k];
      RelativeAt(init, k);
      assert Relative(path)[k] == Relative(init)[k];
    }
  }

  /** `out` is `path` with a first absolute move and all relative commands kept, and all other
      absolute commands rounded, seen from where the running point has come to. */
  ghost predicate RoundedThroughout(path: Path, out: Path)
    requires LegalPath(path)
  {
    && |out| == |path|
    && forall k :: 0 <= k < |path| ==>
         if (k == 0 && path[0].op == 'M') || IsLower(path[k].op) then out[k] == path[k]
         else OffsetsRounded(path[k], RelCursorAfter(path[..k]), out[k])
  }

  lemma {:induction false} RelativeRounds(path: Path)
    requires LegalPath(path)
    ensures RoundedThroughout(path, Relative(path))
  {
    hide RelCursorAfter, OffsetsRounded, Relative;
    forall k | 0 <= k < |path|
      ensures if (k == 0 && path[0].op == 'M') || IsLower(path[k].op) then Relative(path)[k] == path[k]
              else OffsetsRounded(path[k], RelCursorAfter(path[..k]), Relative(path)[k])
    {
      var cur, h := RelCursorAfter(path[..k]), Relative(path)[k];
      if k == 0 && path[0].op == 'M' {
        FirstMoveKept(path);
      } else {
        RelativeAt(path, k);
        if !IsLower(path[k].op) { RelCommandRounds(path[k], cur, h); }
      }
    }
  }

  lemma {:induction false} FirstMoveKept(path: Path)
    requires LegalPath(path) && path != [] && path[0].op == 'M'
    ensures Relative(path)[0] == path[0]
  {
    if |path| > 1 { FirstMoveKept(path[..|path| - 1]); }
  }

  /** The rewriter reads the first command before it looks at the length, so it throws on the
      empty path. */
  method PathToRelative(e: Path) returns (r: Outcome)
    requires LegalPath(e)
    ensures r == if e == [] then Thrown else Done(Relative(e))
    ensures r.Done? ==> RoundedThroughout(e, r.path)
  {
    hide Relative, RelCursorAfter, RelCursor, RelCommand, NewStart, RoundedThroughout;
    if e == [] {
      return Thrown;
    }
    StartsEmpty(e);
    var out := [];
    var x, y, mx, my := 0.0, 0.0, 0.0, 0.0;
    var start := 0;
    if e[0].op == 'M' {
      x, y := e[0].args[0], e[0].args[1];
      mx, my := x, y;
      start := 1;
      out := [Command('M', [x, y])];
      RelFirstMove(e);
    }
    var l := start;
    while l < |e|
      invariant start <= l <= |e|
      invariant out == Relative(e[..l])
      invariant Cursor(x, y, mx, my) == RelCursorAfter(e[..l])
    {
      RelNext(e, l);
      ghost var cur := Cursor(x, y, mx, my);
      var c;
      c, mx, my := ToRelative(e[l], x, y, mx, my);
      out := out + [c];
      x, y := FollowRelative(c, e[l], x, y, mx, my, cur);
      l := l + 1;
    }
    assert e[..l] == e;
    RelativeRounds(e);
    r := Done(out);
  }

  // ---------------------------------------------------------------- drift

  function Closes(path: Path): nat {
    if path == [] then 0
    else Closes(path[..|path| - 1]) + if Upper(path[|path| - 1].op) == 'Z' then 1 else 0
  }

  /** How far off a coordinate may be once `z` subpaths have been closed. */
  function Slack(z: nat): real {
    HALF_STEP * (1 + z) as real
  }

  predicate NearPoint(a: Point, b: Point, eps: real) {
    Within(a.x, b.x, eps) && Within(a.y, b.y, eps)
  }

  /** The same kind of mark, every point given in it off by at most `eps` per coordinate. */
  predicate NearMark(a: Mark, b: Mark, eps: real) {
    match (a, b)
    case (Move(p), Move(q)) => NearPoint(p, q, eps)
    case (Line(p), Line(q)) => NearPoint(p, q, eps)
    case (Cubic(c1, c2, p), Cubic(d1, d2, q)) => NearPoint(c1, d1, eps) && NearPoint(c2, d2, eps) && NearPoint(p, q, eps)
    case (Smooth(c2, p), Smooth(d2, q)) => NearPoint(c2, d2, eps) && NearPoint(p, q, eps)
    case (Quadratic(c1, p), Quadratic(d1, q)) => NearPoint(c1, d1, eps) && NearPoint(p, q, eps)
    case (SmoothQuadratic(p), SmoothQuadratic(q)) => NearPoint(p, q, eps)
    case (Arc(s, p), Arc(t, q)) => s == t && NearPoint(p, q, eps)
    case (Close(p), Close(q)) => NearPoint(p, q, eps)
    case _ => false
  }

  /** The rewritten path's pen, the rewriter's cursor and the given path's pen, after `z`
      closed subpaths: the cursor stays within one rounding of the given path, while the
      rewritten path falls behind the cursor by one more rounding per closed subpath. */
  ghost predicate Drift(out: Pen, cur: Cursor, given: Pen, z: nat) {
    var behind := Slack(z) - HALF_STEP;
    && Within(out.at.x, cur.x, behind) && Within(out.at.y, cur.y, behind)
    && Within(cur.x, given.at.x, HALF_STEP) && Within(cur.y, given.at.y, HALF_STEP)
    && Within(out.start.x, cur.mx, Slack(z)) && Within(out.start.y, cur.my, Slack(z))
    && Within(cur.mx, given.start.x, HALF_STEP) && Within(cur.my, given.start.y, HALF_STEP)
    && NearPoint(out.start, given.start, Slack(z))
  }

  /** A pair of coordinates after rewriting: relative to the cursor it is off by one rounding
      at most, and the rewritten path adds what it is already behind. */
  lemma {:induction false} RelPair(c: Command, k: nat, out: Pen, cur: Cursor, given: Pen, z: nat)
    requires Legal(c) && Drift(out, cur, given, z) && k + 1 < |c.args|
    requires if Upper(c.op) == 'A' then k == 5 else k % 2 == 0
    ensures var h := RelCommand(c, cur);
            var q := Point(cur.x + h.args[k], cur.y + h.args[k + 1]);
            && k + 1 < |h.args|
            && NearPoint(Pair(h, k, out), q, Slack(z) - HALF_STEP)
            && NearPoint(q, Pair(c, k, given), HALF_STEP)
            && NearPoint(Pair(h, k, out), Pair(c, k, given), Slack(z))
  {
    RoundingError(c.args[k] - cur.x);
    RoundingError(c.args[k + 1] - cur.y);
  }

  lemma {:induction false} RelClose(c: Command, out: Pen, cur: Cursor, given: Pen, z: nat)
    requires Legal(c) && Drift(out, cur, given, z) && Upper(c.op) == 'Z'
    ensures NearMark(Draw(RelCommand(c, cur), out), Draw(c, given), Slack(z + 1))
    ensures Drift(Advance(Draw(RelCommand(c, cur), out), out), RelCursor(c, cur), Advance(Draw(c, given), given), z + 1)
  {
  }

  lemma {:induction false} RelFlat(c: Command, out: Pen, cur: Cursor, given: Pen, z: nat)
    requires Legal(c) && Drift(out, cur, given, z) && (Upper(c.op) == 'H' || Upper(c.op) == 'V')
    ensures NearMark(Draw(RelCommand(c, cur), out), Draw(c, given), Slack(z))
    ensures Drift(Advance(Draw(RelCommand(c, cur), out), out), RelCursor(c, cur), Advance(Draw(c, given), given), z)
  {
    hide RelCommand, RelCursor, ToFixed3;
    FlatRewritten(c, cur);
    RoundingError(c.args[0] - cur.x);
    RoundingError(c.args[0] - cur.y);
  }

  lemma {:induction false} FlatRewritten(c: Command, cur: Cursor)
    requires Legal(c) && (Upper(c.op) == 'H' || Upper(c.op) == 'V')
    ensures var h := RelCommand(c, cur);
            var flat := Upper(c.op) == 'H';
            && h.op == (if flat then 'h' else 'v') && |h.args| == 1
            && h.args[0] == (if IsLower(c.op) then c.args[0] else ToFixed3(c.args[0] - if flat then cur.x else cur.y))
            && RelCursor(c, cur) == if flat then cur.(x := cur.x + h.args[0]) else cur.(y := cur.y + h.args[0])
  {
  }

  lemma {:induction false} RelMove(c: Command, out: Pen, cur: Cursor, given: Pen, z: nat)
    requires Legal(c) && Drift(out, cur, given, z) && Upper(c.op) == 'M'
    ensures NearMark(Draw(RelCommand(c, cur), out), Draw(c, given), Slack(z))
    ensures Drift(Advance(Draw(RelCommand(c, cur), out), out), RelCursor(c, cur), Advance(Draw(c, given), given), z)
  {
    RelPair(c, 0, out, cur, given, z);
  }

  lemma {:induction false} RelEndDrifts(c: Command, out: Pen, cur: Cursor, given: Pen, z: nat)
    requires Legal(c) && Drift(out, cur, given, z) && Upper(c.op) in "LCSQTA"
    ensures Drift(Advance(Draw(RelCommand(c, cur), out), out), RelCursor(c, cur), Advance(Draw(c, given), given), z)
  {
    var k := |c.args| - 2;
    RelPair(c, k, out, cur, given, z);
    EndsAtLastPair(c, given);
    EndsAtLastPair(RelCommand(c, cur), out);
    CursorAtLastPair(c, cur);
  }

  lemma {:induction false} CursorAtLastPair(c: Command, cur: Cursor)
    requires Legal(c) && Upper(c.op) in "LCSQTA"
    ensures var h := RelCommand(c, cur);
            var n := |h.args|;
            && n >= 2 && Upper(h.op) == Upper(c.op)
            && RelCursor(c, cur) == cur.(x := cur.x + h.args[n - 2], y := cur.y + h.args[n - 1])
  {
  }

  lemma {:induction false} EndsAtLastPair(c: Command, pen: Pen)
    requires Legal(c) && Upper(c.op) in "LCSQTA"
    ensures |c.args| >= 2
    ensures Advance(Draw(c, pen), pen) == Pen(Pair(c, |c.args| - 2, pen), pen.start)
  {
  }

  lemma {:induction false} RelMarkNear(c: Command, out: Pen, cur: Cursor, given: Pen, z: nat)
    requires Legal(c) && Drift(out, cur, given, z) && Upper(c.op) in "LCSQTA"
    ensures NearMark(Draw(RelCommand(c, cur), out), Draw(c, given), Slack(z))
  {
    hide RelCommand, ToFixed3, Pair, Drift;
    RelCommandLowers(c, cur);
    if Upper(c.op) == 'A' { ArcShapeKept(c, cur); }
    match Upper(c.op)
    case 'C' => RelPair(c, 0, out, cur, given, z); RelPair(c, 2, out, cur, given, z); RelPair(c, 4, out, cur, given, z);
    case 'S' => RelPair(c, 0, out, cur, given, z); RelPair(c, 2, out, cur, given, z);
    case 'Q' => RelPair(c, 0, out, cur, given, z); RelPair(c, 2, out, cur, given, z);
    case 'A' => RelPair(c, 5, out, cur, given, z);
    case _ => RelPair(c, 0, out, cur, given, z);
  }

  lemma {:induction false} ArcShapeKept(c: Command, cur: Cursor)
    requires Legal(c) && Upper(c.op) == 'A'
    ensures |RelCommand(c, cur).args| == 7 && RelCommand(c, cur).args[..5] == c.args[..5]
  {
  }

  lemma {:induction false} RelCommandDrifts(c: Command, out: Pen, cur: Cursor, given: Pen, z: nat)
    requires Legal(c) && Drift(out, cur, given, z)
    ensures var z' := z + if Upper(c.op) == 'Z' then 1 else 0;
            var h := RelCommand(c, cur);
            && NearMark(Draw(h, out), Draw(c, given), Slack(z'))
            && Drift(Advance(Draw(h, out), out), RelCursor(c, cur), Advance(Draw(c, given), given), z')
  {
    if Upper(c.op) == 'Z' {
      RelClose(c, out, cur, given, z);
    } else if Upper(c.op) == 'M' {
      RelMove(c, out, cur, given, z);
    } else if Upper(c.op) == 'H' || Upper(c.op) == 'V' {
      RelFlat(c, out, cur, given, z);
    } else {
      RelMarkNear(c, out, cur, given, z);
      RelEndDrifts(c, out, cur, given, z);
    }
  }

  lemma {:induction false} RelativeSnoc(init: Path, c: Command)
    requires LegalPath(init) && Legal(c) && !KeptMove(init + [c])
    ensures Relative(init + [c]) == Relative(init) + [RelCommand(c, RelCursorAfter(init))]
    ensures RelCursorAfter(init + [c]) == RelCursor(c, RelCursorAfter(init))
    ensures Closes(init + [c]) == Closes(init) + if Upper(c.op) == 'Z' then 1 else 0
  {
  }

  lemma {:induction false} DriftSnoc(init: Path, c: Command)
    requires LegalPath(init) && Legal(c) && !KeptMove(init + [c])
    requires Drift(PenAfter(Relative(init)), RelCursorAfter(init), PenAfter(init), Closes(init))
    ensures var path := init + [c];
            && Drift(PenAfter(Relative(path)), RelCursorAfter(path), PenAfter(path), Closes(path))
            && Trace(Relative(path)) == Trace(Relative(init)) + [Trace(Relative(path))[|init|]]
            && Trace(path) == Trace(init) + [Trace(path)[|init|]]
            && NearMark(Trace(Relative(path))[|init|], Trace(path)[|init|], Slack(Closes(path)))
  {
    RelativeSnoc(init, c);
    OneMore(init, c);
    OneMore(Relative(init), RelCommand(c, RelCursorAfter(init)));
    RelCommandDrifts(c, PenAfter(Relative(init)), RelCursorAfter(init), PenAfter(init), Closes(init));
  }

  lemma {:induction false} KeptMoveDrifts(path: Path)
    requires LegalPath(path) && KeptMove(path)
    ensures Drift(PenAfter(path), RelCursorAfter(path), PenAfter(path), Closes(path))
    ensures NearMark(Trace(path)[0], Trace(path)[0], Slack(Closes(path)))
  {
  }

  ghost predicate NearTraces(a: seq<Mark>, b: seq<Mark>, path: Path) {
    |a| == |b| == |path| && forall k :: 0 <= k < |path| ==> NearMark(a[k], b[k], Slack(Closes(path[..k + 1])))
  }

  lemma {:induction false} ShortPathDrifts(path: Path)
    requires LegalPath(path) && (path == [] || KeptMove(path))
    ensures Drift(PenAfter(Relative(path)), RelCursorAfter(path), PenAfter(path), Closes(path))
    ensures NearTraces(Trace(Relative(path)), Trace(path), path)
  {
    if KeptMove(path) {
      assert path[..1] == path;
      KeptMoveDrifts(path);
    }
  }

  lemma {:induction false} RelativeDrifts(path: Path)
    requires LegalPath(path)
    ensures Drift(PenAfter(Relative(path)), RelCursorAfter(path), PenAfter(path), Closes(path))
    ensures NearTraces(Trace(Relative(path)), Trace(path), path)
  {
    hide Drift, NearMark, NearTraces, Slack, Closes, Relative, Trace, PenAfter, RelCursorAfter;
    if path == [] || KeptMove(path) {
      ShortPathDrifts(path);
    } else {
      var n := |path| - 1;
      var init, c := path[..n], path[n];
      assert path == init + [c];
      RelativeDrifts(init);
      DriftSnoc(init, c);
      NearTracesSnoc(Trace(Relative(path)), Trace(path), path);
    }
  }

  lemma {:induction false} NearTracesSnoc(a: seq<Mark>, b: seq<Mark>, path: Path)
    requires |a| == |b| == |path| && path != []
    requires NearTraces(a[..|path| - 1], b[..|path| - 1], path[..|path| - 1])
    requires NearMark(a[|path| - 1], b[|path| - 1], Slack(Closes(path)))
    ensures NearTraces(a, b, path)
  {
    var n := |path| - 1;
    forall k | 0 <= k < |path| ensures NearMark(a[k], b[k], Slack(Closes(path[..k + 1]))) {
      if k < n {
        assert path[..k + 1] == path[..n][..k + 1];
        assert NearMark(a[..n][k], b[..n][k], Slack(Closes(path[..n][..k + 1])));
      } else {
        assert path[..k + 1] == path;
      }
    }
  }

  /** The error bound: the relative form draws the same kinds of marks with the same arc
      shapes, and every end point and every control point that is given is within 0.0005 times
      one more than the number of subpaths closed so far, per coordinate.  For the control
      points that smooth commands imply see `ImpliedControls`. */
  lemma {:induction false} RelativeStaysClose(path: Path, k: nat)
    requires LegalPath(path) && k < |path|
    ensures NearMark(Trace(Relative(path))[k], Trace(path)[k], 0.0005 * (1 + Closes(path[..k + 1])) as real)
  {
    RelativeDrifts(path);
  }

  lemma {:induction false} RelCommandLowers(c: Command, cur: Cursor)
    requires Legal(c)
    ensures var h := RelCommand(c, cur);
            IsLower(h.op) && Upper(h.op) == Upper(c.op) && (IsLower(c.op) ==> h == c)
  {
  }

  /** All commands but a first absolute move are relative, in the same order; those that were
      relative are copied unchanged. */
  lemma {:induction false} RelativeIsLower(path: Path, k: nat)
    requires LegalPath(path) && k < |path|
    ensures var h := Relative(path)[k];
            if k == 0 && path[0].op == 'M' then h == path[0]
            else IsLower(h.op) && Upper(h.op) == Upper(path[k].op) && (IsLower(path[k].op) ==> h == path[k])
  {
    hide RelCommand, RelCursorAfter, Upper, Legal;
    if !KeptMove(path) {
      var n := |path| - 1;
      if k < n {
        RelativeIsLower(path[..n], k);
      } else {
        RelCommandLowers(path[n], RelCursorAfter(path[..n]));
      }
    }
  }

  /** So a path that is already relative is left as it is, and making a path relative twice
      changes nothing. */
  lemma {:induction false} RelativeTwice(path: Path)
    requires LegalPath(path)
    ensures Relative(Relative(path)) == Relative(path)
  {
    var r := Relative(path);
    forall k | 0 <= k < |r| ensures Relative(r)[k] == r[k] {
      RelativeIsLower(path, k);
      RelativeIsLower(r, k);
      if k > 0 { RelativeIsLower(path, 0); }
    }
  }

  /** Going relative and back to absolute moves no mark further than the bound. */
  lemma {:induction false} ThereAndBack(path: Path, k: nat)
    requires LegalPath(path) && k < |path|
    ensures var back := Absolute(Relative(path));
            && |back| == |path| && back[k].op == Upper(path[k].op)
            && NearMark(Trace(back)[k], Trace(path)[k], 0.0005 * (1 + Closes(path[..k + 1])) as real)
  {
    RelativeDrifts(path);
    AbsoluteDrawsTheSame(Relative(path));
    RelativeIsLower(path, k);
  }

  // ---------------------------------------------------------------- when nothing moves

  /** At most three decimals, or out of reach of the rounding. */
  predicate OnGrid(r: real) {
    ThreeDecimals(r) || r >= 1000000000000000000000.0 || r <= -1000000000000000000000.0
  }

  /** The grid is what the rounding leaves as it is. */
  lemma {:induction false} GridIsFixed(r: real)
    ensures OnGrid(r) <==> ToFixed3(r) == r
  {
    hide ToFixed3;
    RoundsToNearest(r, r);
  }

  /** An absolute command every offset of which, from the point `at`, is on the grid. */
  predicate ExactCommand(c: Command, at: Point)
    requires Legal(c)
  {
    IsLower(c.op) ||
    match c.op
    case 'A' => OnGrid(c.args[5] - at.x) && OnGrid(c.args[6] - at.y)
    case 'V' => OnGrid(c.args[0] - at.y)
    case _ => forall k :: 0 <= k < |c.args| ==> OnGrid(c.args[k] - if k % 2 == 0 then at.x else at.y)
  }

  /** Every absolute command but a first move is exact, seen from the current point of the
      given path. */
  ghost predicate ExactPath(path: Path)
    requires LegalPath(path)
  {
    forall k :: 0 <= k < |path| ==> (k == 0 && path[0].op == 'M') || ExactCommand(path[k], PenAfter(path[..k]).at)
  }

  lemma {:induction false} ExactPair(c: Command, k: nat, cur: Cursor, pen: Pen)
    requires Legal(c) && Follows(cur, pen) && k + 1 < |c.args| && !IsLower(c.op)
    requires if c.op == 'A' then k == 5 else k % 2 == 0 && c.op in "MLCSQT"
    ensures var h := RelCommand(c, cur);
            && k + 1 < |h.args|
            && (Pair(h, k, pen) == Pair(c, k, pen)
                <==> OnGrid(c.args[k] - pen.at.x) && OnGrid(c.args[k + 1] - pen.at.y))
  {
    hide OnGrid, ToFixed3;
    GridIsFixed(c.args[k] - pen.at.x);
    GridIsFixed(c.args[k + 1] - pen.at.y);
  }

  /** From the same point, a command and its relative form draw the same exactly when the
      command is exact. */
  lemma {:induction false} ExactDraw(c: Command, cur: Cursor, pen: Pen)
    requires Legal(c) && Follows(cur, pen)
    ensures Draw(RelCommand(c, cur), pen) == Draw(c, pen) <==> ExactCommand(c, pen.at)
  {
    if !IsLower(c.op) {
      match c.op
      case 'Z' =>
      case 'H' => ExactFlat(c, cur, pen);
      case 'V' => ExactFlat(c, cur, pen);
      case 'C' => ExactThree(c, cur, pen);
      case 'S' => ExactTwo(c, cur, pen);
      case 'Q' => ExactTwo(c, cur, pen);
      case _ => ExactOne(c, cur, pen);
    }
  }

  lemma {:induction false} ExactFlat(c: Command, cur: Cursor, pen: Pen)
    requires Legal(c) && Follows(cur, pen) && (c.op == 'H' || c.op == 'V')
    ensures Draw(RelCommand(c, cur), pen) == Draw(c, pen) <==> ExactCommand(c, pen.at)
  {
    hide RelCommand, RelCursor, ToFixed3, OnGrid;
    FlatRewritten(c, cur);
    GridIsFixed(c.args[0] - if Upper(c.op) == 'H' then pen.at.x else pen.at.y);
  }

  lemma {:induction false} ExactOne(c: Command, cur: Cursor, pen: Pen)
    requires Legal(c) && Follows(cur, pen) && c.op in "MLTA"
    ensures Draw(RelCommand(c, cur), pen) == Draw(c, pen) <==> ExactCommand(c, pen.at)
  {
    hide ToFixed3, Pair;
    ExactPair(c, |c.args| - 2, cur, pen);
  }

  lemma {:induction false} ExactTwo(c: Command, cur: Cursor, pen: Pen)
    requires Legal(c) && Follows(cur, pen) && c.op in "SQ"
    ensures Draw(RelCommand(c, cur), pen) == Draw(c, pen) <==> ExactCommand(c, pen.at)
  {
    hide ToFixed3, Pair;
    ExactPair(c, 0, cur, pen);
    ExactPair(c, 2, cur, pen);
  }

  lemma {:induction false} ExactThree(c: Command, cur: Cursor, pen: Pen)
    requires Legal(c) && Follows(cur, pen) && c.op == 'C'
    ensures Draw(RelCommand(c, cur), pen) == Draw(c, pen) <==> ExactCommand(c, pen.at)
  {
    hide ToFixed3, Pair;
    ExactPair(c, 0, cur, pen);
    ExactPair(c, 2, cur, pen);
    ExactPair(c, 4, cur, pen);
  }

  /** An exact command leaves the cursor at the current point. */
  lemma {:induction false} ExactFollows(c: Command, cur: Cursor, pen: Pen)
    requires Legal(c) && Follows(cur, pen) && ExactCommand(c, pen.at)
    ensures Follows(RelCursor(c, cur), Advance(Draw(c, pen), pen))
  {
    if Upper(c.op) == 'Z' {
    } else if Upper(c.op) == 'H' || Upper(c.op) == 'V' {
      ExactFlatFollows(c, cur, pen);
    } else if Upper(c.op) == 'M' {
      if !IsLower(c.op) { ExactPair(c, 0, cur, pen); }
    } else {
      ExactEndFollows(c, cur, pen);
    }
  }

  lemma {:induction false} ExactFlatFollows(c: Command, cur: Cursor, pen: Pen)
    requires Legal(c) && Follows(cur, pen) && ExactCommand(c, pen.at) && (Upper(c.op) == 'H' || Upper(c.op) == 'V')
    ensures Follows(RelCursor(c, cur), Advance(Draw(c, pen), pen))
  {
    hide RelCommand, RelCursor, ToFixed3, OnGrid;
    FlatRewritten(c, cur);
    GridIsFixed(c.args[0] - if Upper(c.op) == 'H' then pen.at.x else pen.at.y);
  }

  lemma {:induction false} LastOffsetsOnGrid(c: Command, at: Point)
    requires Legal(c) && !IsLower(c.op) && c.op in "LCSQTA" && ExactCommand(c, at)
    ensures var n := |c.args|;
            n >= 2 && OnGrid(c.args[n - 2] - at.x) && OnGrid(c.args[n - 1] - at.y)
  {
    hide ToFixed3;
  }

  lemma {:induction false} ExactEndFollows(c: Command, cur: Cursor, pen: Pen)
    requires Legal(c) && Follows(cur, pen) && ExactCommand(c, pen.at) && Upper(c.op) in "LCSQTA"
    ensures Follows(RelCursor(c, cur), Advance(Draw(c, pen), pen))
  {
    hide RelCommand, RelCursor, OnGrid, Draw, Advance;
    EndsAtLastPair(c, pen);
    CursorAtLastPair(c, cur);
    RelCommandLowers(c, cur);
    var h := RelCommand(c, cur);
    assert |h.args| == |c.args|;
    if !IsLower(c.op) {
      LastOffsetsOnGrid(c, pen.at);
      ExactPair(c, |c.args| - 2, cur, pen);
    }
  }

  lemma {:induction false} ExactSnoc(init: Path, c: Command)
    requires LegalPath(init) && Legal(c) && !KeptMove(init + [c])
    ensures ExactPath(init + [c]) <==> ExactPath(init) && ExactCommand(c, PenAfter(init).at)
  {
    var path := init + [c];
    forall k | 0 <= k < |init| ensures path[..k] == init[..k] && path[k] == init[k] {
    }
    assert path[..|init|] == init && path[|init|] == c;
  }

  lemma {:induction false} ExactShort(path: Path)
    requires LegalPath(path) && (path == [] || KeptMove(path))
    ensures Relative(path) == path && ExactPath(path) && Follows(RelCursorAfter(path), PenAfter(path))
  {
    if KeptMove(path) { assert path[..0] == []; }
  }

  /** The induction behind `RelativeDrawsTheSameExactlyWhen`: as long as the path is exact,
      both pens and the cursor are at the same point. */
  lemma {:induction false} ExactSoFar(path: Path)
    requires LegalPath(path)
    ensures Trace(Relative(path)) == Trace(path) <==> ExactPath(path)
    ensures ExactPath(path) ==> PenAfter(Relative(path)) == PenAfter(path) && Follows(RelCursorAfter(path), PenAfter(path))
  {
    hide Follows, Relative, RelCursor, RelCommand, RelCursorAfter, Draw, Advance, ExactPath, ExactCommand, Legal;
    if path == [] || KeptMove(path) {
      ExactShort(path);
    } else {
      var n := |path| - 1;
      var init, c := path[..n], path[n];
      assert path == init + [c];
      ExactSoFar(init);
      ExactSnoc(init, c);
      RelativeSnoc(init, c);
      var cur := RelCursorAfter(init);
      OneMore(init, c);
      OneMore(Relative(init), RelCommand(c, cur));
      SameLast(Trace(Relative(init)), Trace(init), Draw(RelCommand(c, cur), PenAfter(Relative(init))), Draw(c, PenAfter(init)));
      if ExactPath(init) {
        ExactDraw(c, cur, PenAfter(init));
        if ExactCommand(c, PenAfter(init).at) { ExactFollows(c, cur, PenAfter(init)); }
      }
    }
  }

  lemma {:induction false} SameLast(a: seq<Mark>, b: seq<Mark>, x: Mark, y: Mark)
    requires |a| == |b|
    ensures a + [x] == b + [y] <==> a == b && x == y
  {
    assert (a + [x])[..|a|] == a && (b + [y])[..|b|] == b;
    assert (a + [x])[|a|] == x && (b + [y])[|b|] == y;
  }

  /** The relative form draws the same marks if and only if every absolute command of the
      given path, but a first move, has all its offsets on the grid of three decimals. */
  lemma {:induction false} RelativeDrawsTheSameExactlyWhen(path: Path)
    requires LegalPath(path)
    ensures Trace(Relative(path)) == Trace(path) <==> ExactPath(path)
  {
    ExactSoFar(path);
  }

  predicate DecimalPoint(p: Point) {
    ThreeDecimals(p.x) && ThreeDecimals(p.y)
  }

  predicate DecimalArgs(c: Command) {
    forall k :: 0 <= k < |c.args| ==> ThreeDecimals(c.args[k])
  }

  lemma {:induction false} DecimalSum(a: real, b: real)
    requires ThreeDecimals(a) && ThreeDecimals(b)
    ensures ThreeDecimals(a + b) && ThreeDecimals(a - b) && OnGrid(a - b)
  {
    hide ToFixed3, OnGrid;
    var m, n := (a * 1000.0).Floor, (b * 1000.0).Floor;
    WholeIsOnGrid(a + b, m + n);
    WholeIsOnGrid(a - b, m - n);
  }

  lemma {:induction false} WholeIsOnGrid(r: real, n: int)
    requires r * 1000.0 == n as real
    ensures ThreeDecimals(r) && OnGrid(r)
  {
    assert (n as real + 0.5).Floor == n && ((-n) as real + 0.5).Floor == -n;
  }

  lemma {:induction false} DecimalAdvance(c: Command, pen: Pen)
    requires Legal(c) && DecimalArgs(c) && DecimalPoint(pen.at) && DecimalPoint(pen.start)
    ensures var next := Advance(Draw(c, pen), pen);
            DecimalPoint(next.at) && DecimalPoint(next.start)
  {
    hide ThreeDecimals;
    forall k | 0 <= k < |c.args|
      ensures ThreeDecimals(pen.at.x + c.args[k]) && ThreeDecimals(pen.at.y + c.args[k])
    {
      DecimalSum(pen.at.x, c.args[k]);
      DecimalSum(pen.at.y, c.args[k]);
    }
  }

  lemma {:induction false} DecimalPen(path: Path)
    requires LegalPath(path) && forall k :: 0 <= k < |path| ==> DecimalArgs(path[k])
    ensures DecimalPoint(PenAfter(path).at) && DecimalPoint(PenAfter(path).start)
  {
    hide DecimalArgs, Advance, Draw;
    if path != [] {
      DecimalPen(path[..|path| - 1]);
      DecimalAdvance(path[|path| - 1], PenAfter(path[..|path| - 1]));
    }
  }

  lemma {:induction false} DecimalIsExact(c: Command, at: Point)
    requires Legal(c) && DecimalArgs(c) && DecimalPoint(at)
    ensures ExactCommand(c, at)
  {
    hide ThreeDecimals, OnGrid;
    forall k | 0 <= k < |c.args| ensures OnGrid(c.args[k] - at.x) && OnGrid(c.args[k] - at.y) {
      DecimalSum(c.args[k], at.x);
      DecimalSum(c.args[k], at.y);
    }
  }

  /** In particular, a path whose arguments all have at most three decimals loses nothing. */
  lemma {:induction false} ThreeDecimalsDrawTheSame(path: Path)
    requires LegalPath(path) && forall k :: 0 <= k < |path| ==> DecimalArgs(path[k])
    ensures Trace(Relative(path)) == Trace(path)
  {
    hide DecimalArgs, ExactCommand, DecimalPoint;
    forall k | 0 <= k < |path| ensures ExactCommand(path[k], PenAfter(path[..k]).at) {
      DecimalPen(path[..k]);
      DecimalIsExact(path[k], PenAfter(path[..k]).at);
    }
    ExactSoFar(path);
  }

  // ---------------------------------------------------------------- the drift is real

  function Step(n: nat): real {
    n as real * HALF_STEP
  }

  /** After `n` teeth the path is at `Step(n)`, and so is the cursor; the rewritten path is
      twice as far. */
  ghost predicate Teeth(path: Path, n: nat) {
    && LegalPath(path) && path != [] && Closes(path) == n
    && PenAfter(path).at.x == Step(n)
    && PenAfter(Relative(path)).at.x == 2.0 * Step(n)
    && RelCursorAfter(path) == Cursor(Step(n), 0.0, Step(n), 0.0)
  }

  /** The bound cannot be replaced by a constant: for every `n` there is a path with `n` closed
      subpaths (`n` times a move that rounds up by half a step, then a close) whose rewritten
      form ends `n` whole roundings away. */
  lemma {:induction false} DriftGrows(n: nat) returns (path: Path)
    ensures LegalPath(path) && Closes(path) == n
    ensures PenAfter(Relative(path)).at.x - PenAfter(path).at.x == n as real * 0.0005
  {
    path := Sawtooth(n);
  }

  /** And the bound is attained: one more move rounds up, and the end point is off by the
      whole of it. */
  lemma {:induction false} BoundIsAttained(n: nat) returns (path: Path)
    ensures LegalPath(path) && path != [] && Closes(path) == n
    ensures PenAfter(Relative(path)).at.x - PenAfter(path).at.x == 0.0005 * (1 + n) as real
  {
    var less := Sawtooth(n);
    path := HalfTooth(less, n);
  }

  lemma {:induction false} Sawtooth(n: nat) returns (path: Path)
    ensures Teeth(path, n)
  {
    if n == 0 {
      path := NoTeeth();
    } else {
      var less := Sawtooth(n - 1);
      path := OneTooth(less, n - 1);
    }
  }

  lemma {:induction false} NoTeeth() returns (path: Path)
    ensures Teeth(path, 0)
  {
    var m := Command('M', [0.0, 0.0]);
    path := [] + [m];
    OneMore([], m);
    assert KeptMove(path);
  }

  lemma {:induction false} OneTooth(path: Path, n: nat) returns (next: Path)
    requires Teeth(path, n)
    ensures Teeth(next, n + 1)
  {
    var move := HalfTooth(path, n);
    next := AfterClose(move);
  }

  lemma {:induction false} AfterClose(path: Path) returns (next: Path)
    requires LegalPath(path) && path != []
    ensures LegalPath(next) && next != [] && Closes(next) == Closes(path) + 1
    ensures PenAfter(next).at == PenAfter(path).start
    ensures PenAfter(Relative(next)).at == PenAfter(Relative(path)).start
    ensures var cur := RelCursorAfter(path);
            RelCursorAfter(next) == Cursor(cur.mx, cur.my, cur.mx, cur.my)
  {
    var z := Command('Z', []);
    RelativeSnoc(path, z);
    OneMore(path, z);
    OneMore(Relative(path), RelCommand(z, RelCursorAfter(path)));
    next := path + [z];
  }

  lemma {:induction false} HalfTooth(path: Path, n: nat) returns (move: Path)
    requires Teeth(path, n)
    ensures LegalPath(move) && move != [] && Closes(move) == n
    ensures PenAfter(move).start.x == Step(n + 1)
    ensures PenAfter(Relative(move)).start.x == 2.0 * Step(n + 1)
    ensures PenAfter(move).at == PenAfter(move).start && PenAfter(Relative(move)).at == PenAfter(Relative(move)).start
    ensures RelCursorAfter(move).mx == Step(n + 1) && RelCursorAfter(move).my == 0.0
  {
    hide RelCommand, Relative, Trace, RelCursor, Draw, Advance, Legal, PenAfter, Closes;
    var m := MoveTo(Step(n + 1), 0.0);
    StepsApart(n);
    RoundedMove(path, m);
    HalfMove(RelCursorAfter(path), m);
    OneMoreMove(path, m);
    move := path + [m];
  }

  lemma {:induction false} MoveTo(x: real, y: real) returns (m: Command)
    ensures Legal(m) && m.op == 'M' && m.args == [x, y]
  {
    m := Command('M', [x, y]);
  }

  /** The rewritten path makes a whole step where the given one makes half. */
  lemma {:induction false} RoundedMove(path: Path, m: Command)
    requires LegalPath(path) && path != [] && Legal(m) && m.op == 'M'
    requires m.args[0] == RelCursorAfter(path).x + HALF_STEP
    ensures PenAfter(Relative(path + [m])).start.x == PenAfter(Relative(path)).at.x + 2.0 * HALF_STEP
    ensures PenAfter(Relative(path + [m])).at == PenAfter(Relative(path + [m])).start
    ensures Closes(path + [m]) == Closes(path)
    ensures RelCursorAfter(path + [m]) == RelCursor(m, RelCursorAfter(path))
  {
    hide RelCommand, Relative, Trace, RelCursor, Draw, Advance, PenAfter, Closes;
    var h := RelCommand(m, RelCursorAfter(path));
    HalfMove(RelCursorAfter(path), m);
    RelativeSnoc(path, m);
    OneMoreMove(Relative(path), h);
  }

  lemma {:induction false} StepsApart(n: nat)
    ensures Step(n + 1) == Step(n) + HALF_STEP
  {
  }

  lemma {:induction false} HalfMove(cur: Cursor, m: Command)
    requires Legal(m) && m.op == 'M' && m.args[0] == cur.x + HALF_STEP
    ensures var h := RelCommand(m, cur);
            h.op == 'm' && |h.args| == 2 && h.args[0] == 2.0 * HALF_STEP
    ensures RelCursor(m, cur).mx == m.args[0] && RelCursor(m, cur).my == m.args[1]
  {
  }
}
