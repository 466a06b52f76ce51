/** Vector paths, what they draw, and the two rewriters that make all commands absolute or
    all commands relative.

    Coordinates are reals; every command has exactly the arguments of its letter, as the
    path parser delivers them. */
module Paths {

  datatype Command = Command(op: char, args: seq<real>)

  type Path = seq<Command>

  predicate IsLower(op: char) {
    'a' <= op <= 'z'
  }

  function Upper(op: char): char {
    if IsLower(op) then (op as int - 32) as char else op
  }

  function Lower(op: char): char {
    if 'A' <= op <= 'Z' then (op as int + 32) as char else op
  }

  function Arity(op: char): nat {
    match Upper(op)
    case 'Z' => 0
    case 'H' => 1
    case 'V' => 1
    case 'C' => 6
    case 'S' => 4
    case 'Q' => 4
    case 'A' => 7
    case _ => 2
  }

  predicate Legal(c: Command) {
    Upper(c.op) in "MLHVCSQTAZ" && |c.args| == Arity(c.op)
  }

  predicate LegalPath(path: Path) {
    forall k :: 0 <= k < |path| ==> Legal(path[k])
  }

  // ---------------------------------------------------------------- what a path draws (SVG 1.1, section 8.3)

  datatype Point = Point(x: real, y: real)

  datatype Mark =
    | Move(to: Point)
    | Line(to: Point)
    | Cubic(c1: Point, c2: Point, to: Point)
    | Smooth(c2: Point, to: Point)
    | Quadratic(c1: Point, to: Point)
    | SmoothQuadratic(to: Point)
    | Arc(shape: seq<real>, to: Point)
    | Close(to: Point)

  /** The current point and the start of the current subpath. */
  datatype Pen = Pen(at: Point, start: Point)

  const HOME := Pen(Point(0.0, 0.0), Point(0.0, 0.0))

  /** The point that arguments `k` and `k + 1` name: lower-case coordinates are relative to
      the current point. */
  function Pair(c: Command, k: nat, pen: Pen): Point
    requires k + 1 < |c.args|
  {
    if IsLower(c.op) then Point(pen.at.x + c.args[k], pen.at.y + c.args[k + 1])
    else Point(c.args[k], c.args[k + 1])
  }

  /** What one command draws. */
  function Draw(c: Command, pen: Pen): Mark
    requires Legal(c)
  {
    match Upper(c.op)
    case 'Z' => Close(pen.start)
    case 'H' => Line(Point(if IsLower(c.op) then pen.at.x + c.args[0] else c.args[0], pen.at.y))
    case 'V' => Line(Point(pen.at.x, if IsLower(c.op) then pen.at.y + c.args[0] else c.args[0]))
    case 'C' => Cubic(Pair(c, 0, pen), Pair(c, 2, pen), Pair(c, 4, pen))
    case 'S' => Smooth(Pair(c, 0, pen), Pair(c, 2, pen))
    case 'Q' => Quadratic(Pair(c, 0, pen), Pair(c, 2, pen))
    case 'T' => SmoothQuadratic(Pair(c, 0, pen))
    case 'A' => Arc(c.args[..5], Pair(c, 5, pen))
    case 'M' => Move(Pair(c, 0, pen))
    case _ => Line(Pair(c, 0, pen))
  }

  function Advance(mark: Mark, pen: Pen): Pen {
    Pen(mark.to, if mark.Move? then mark.to else pen.start)
  }

  function PenAfter(path: Path): Pen
    requires LegalPath(path)
  {
    if path == [] then HOME
    else
      var pen := PenAfter(path[..|path| - 1]);
      Advance(Draw(path[|path| - 1], pen), pen)
  }

  /** Everything a path draws, mark by mark. */
  function Trace(path: Path): (t: seq<Mark>)
    requires LegalPath(path)
    ensures |t| == |path|
  {
    if path == [] then []
    else Trace(path[..|path| - 1]) + [Draw(path[|path| - 1], PenAfter(path[..|path| - 1]))]
  }

  lemma {:induction false} OneMore(path: Path, c: Command)
    requires LegalPath(path) && Legal(c)
    ensures Trace(path + [c]) == Trace(path) + [Draw(c, PenAfter(path))]
    ensures PenAfter(path + [c]) == Advance(Draw(c, PenAfter(path)), PenAfter(path))
  {
  }

  lemma {:induction false} OneMoreMove(path: Path, m: Command)
    requires LegalPath(path) && Legal(m) && Upper(m.op) == 'M'
    ensures |m.args| == 2 && PenAfter(path + [m]).start == PenAfter(path + [m]).at == Pair(m, 0, PenAfter(path))
  {
  }

  // ---------------------------------------------------------------- the rewriters' running point

  /** The point and subpath start the rewriters keep. */
  datatype Cursor = Cursor(x: real, y: real, mx: real, my: real)

  const ORIGIN := Cursor(0.0, 0.0, 0.0, 0.0)

  function Shifted(args: seq<real>, dx: real, dy: real): (r: seq<real>)
    ensures |r| == |args|
  {
    seq(|args|, k requires 0 <= k < |args| => args[k] + if k % 2 == 0 then dx else dy)
  }

  // ---------------------------------------------------------------- absolute

  function AbsCommand(c: Command, cur: Cursor): (h: Command)
    requires Legal(c)
    ensures Legal(h) && !IsLower(h.op)
  {
    if !IsLower(c.op) then c
    else
      match Upper(c.op)
      case 'A' => Command('A', c.args[..5] + [c.args[5] + cur.x, c.args[6] + cur.y])
      case 'V' => Command('V', [c.args[0] + cur.y])
      case 'H' => Command('H', [c.args[0] + cur.x])
      case u => Command(u, Shifted(c.args, cur.x, cur.y))
  }

  function AbsCursor(h: Command, cur: Cursor): Cursor
    requires Legal(h) && !IsLower(h.op)
  {
    var n := |h.args|;
    match h.op
    case 'Z' => cur.(x := cur.mx, y := cur.my)
    case 'H' => cur.(x := h.args[0])
    case 'V' => cur.(y := h.args[0])
    case 'M' => Cursor(h.args[n - 2], h.args[n - 1], h.args[n - 2], h.args[n - 1])
    case _ => cur.(x := h.args[n - 2], y := h.args[n - 1])
  }

  function AbsCursorAfter(path: Path): Cursor
    requires LegalPath(path)
  {
    if path == [] then ORIGIN
    else
      var cur := AbsCursorAfter(path[..|path| - 1]);
      AbsCursor(AbsCommand(path[|path| - 1], cur), cur)
  }

  function AbsCommands(path: Path): (r: Path)
    requires LegalPath(path)
    ensures |r| == |path| && LegalPath(r)
  {
    if path == [] then []
    else AbsCommands(path[..|path| - 1]) + [AbsCommand(path[|path| - 1], AbsCursorAfter(path[..|path| - 1]))]
  }

  function Absolute(path: Path): (r: Path)
    requires LegalPath(path)
    ensures LegalPath(r)
  {
    if path == [] then [Command('M', [0.0, 0.0])] else AbsCommands(path)
  }

  method Shift(args: seq<real>, dx: real, dy: real) returns (r: seq<real>)
    ensures r == Shifted(args, dx, dy)
  {
    r := [];
    var k := 0;
    while k < |args|
      invariant 0 <= k <= |args| && |r| == k
      invariant forall j :: 0 <= j < k ==> r[j] == args[j] + if j % 2 == 0 then dx else dy
    {
      r := r + [args[k] + if k % 2 == 0 then dx else dy];
      k := k + 1;
    }
  }

  /** One turn of the loop: the upper-case command for `c`. */
  method ToAbsolute(c: Command, x: real, y: real, ghost mx: real, ghost my: real) returns (h: Command)
    requires Legal(c)
    ensures h == AbsCommand(c, Cursor(x, y, mx, my))
  {
    if c.op == Upper(c.op) {
      return c;
    }
    var u := Upper(c.op);
    if u == 'A' {
      h := Command(u, c.args[..5] + [c.args[5] + x, c.args[6] + y]);
    } else if u == 'V' {
      h := Command(u, [c.args[0] + y]);
    } else if u == 'H' {
      h := Command(u, [c.args[0] + x]);
    } else {
      var args := Shift(c.args, x, y);
      h := Command(u, args);
    }
  }

  /** The rest of the turn: where the upper-case command leaves the running point. */
  method FollowAbsolute(h: Command, x0: real, y0: real, mx0: real, my0: real)
    returns (x: real, y: real, mx: real, my: real)
    requires Legal(h) && !IsLower(h.op)
    ensures Cursor(x, y, mx, my) == AbsCursor(h, Cursor(x0, y0, mx0, my0))
  {
    x, y, mx, my := x0, y0, mx0, my0;
    var n := |h.args|;
    if h.op == 'Z' {
      x, y := mx, my;
    } else if h.op == 'H' {
      x := h.args[0];
    } else if h.op == 'V' {
      y := h.args[0];
    } else {
      if h.op == 'M' {
        mx, my := h.args[n - 2], h.args[n - 1];
      }
      x, y := h.args[n - 2], h.args[n - 1];
    }
  }

  lemma {:induction false} AbsNext(e: Path, p: nat)
    requires LegalPath(e) && p < |e|
    ensures var cur := AbsCursorAfter(e[..p]);
            && AbsCommands(e[..p + 1]) == AbsCommands(e[..p]) + [AbsCommand(e[p], cur)]
            && AbsCursorAfter(e[..p + 1]) == AbsCursor(AbsCommand(e[p], cur), cur)
  {
    assert e[..p + 1][..p] == e[..p];
  }

  lemma {:induction false} AbsFirstMove(e: Path)
    requires LegalPath(e) && e != [] && e[0].op == 'M'
    ensures var x, y := e[0].args[0], e[0].args[1];
            AbsCommands(e[..1]) == [Command('M', [x, y])] && AbsCursorAfter(e[..1]) == Cursor(x, y, x, y)
  {
    AbsNext(e, 0);
    assert [e[0].args[0], e[0].args[1]] == e[0].args;
    assert AbsCommands(e[..0]) == [];
  }

  lemma {:induction false} AbsOfNothing(e: Path)
    requires LegalPath(e)
    ensures AbsCommands(e[..0]) == [] && AbsCursorAfter(e[..0]) == ORIGIN
  {
  }

  /** One turn of the loop.  Setting the subpath start from a relative move is without effect,
      because the upper-case move sets it again. */
  method AbsoluteTurn(c: Command, x0: real, y0: real, mx0: real, my0: real)
    returns (h: Command, x: real, y: real, mx: real, my: real)
    requires Legal(c)
    ensures var cur := Cursor(x0, y0, mx0, my0);
            h == AbsCommand(c, cur) && Cursor(x, y, mx, my) == AbsCursor(h, cur)
  {
    mx, my := mx0, my0;
    h := ToAbsolute(c, x0, y0, mx, my);
    if c.op == 'm' {
      mx, my := c.args[0] + x0, c.args[1] + y0;
    }
    x, y, mx, my := FollowAbsolute(h, x0, y0, mx, my);
  }

  method PathToAbsolute(e: Path) returns (r: Path)
    requires LegalPath(e)
    ensures r == Absolute(e)
    ensures e == [] ==> Trace(r) == [Move(Point(0.0, 0.0))]
  {
    if |e| == 0 {
      NothingBecomesOneMove();
      return [Command('M', [0.0, 0.0])];
    }
    hide AbsCommands, AbsCursorAfter, AbsCursor, AbsCommand, Legal;
    AbsOfNothing(e);
    r := [];
    var x, y, mx, my := 0.0, 0.0, 0.0, 0.0;
    var l := 0;
    if e[0].op == 'M' {
      x, y := e[0].args[0], e[0].args[1];
      mx, my := x, y;
      l := 1;
      r := [Command('M', [x, y])];
      AbsFirstMove(e);
    }
    var p := l;
    while p < |e|
      invariant l <= p <= |e|
      invariant r == AbsCommands(e[..p])
      invariant Cursor(x, y, mx, my) == AbsCursorAfter(e[..p])
    {
      AbsNext(e, p);
      var h;
      h, x, y, mx, my := AbsoluteTurn(e[p], x, y, mx, my);
      r := r + [h];
      p := p + 1;
    }
    assert e[..p] == e;
  }

  ghost predicate Follows(cur: Cursor, pen: Pen) {
    cur.x == pen.at.x && cur.y == pen.at.y && cur.mx == pen.start.x && cur.my == pen.start.y
  }

  lemma {:induction false} AbsCommandDraws(c: Command, cur: Cursor, pen: Pen)
    requires Legal(c) && Follows(cur, pen)
    ensures Draw(AbsCommand(c, cur), pen) == Draw(c, pen)
  {
  }

  lemma {:induction false} AbsCursorFollows(h: Command, cur: Cursor, pen: Pen)
    requires Legal(h) && !IsLower(h.op) && Follows(cur, pen)
    ensures Follows(AbsCursor(h, cur), Advance(Draw(h, pen), pen))
  {
  }

  lemma {:induction false} AbsCommandsDraw(path: Path)
    requires LegalPath(path)
    ensures Trace(AbsCommands(path)) == Trace(path) && PenAfter(AbsCommands(path)) == PenAfter(path)
    ensures Follows(AbsCursorAfter(path), PenAfter(path))
  {
    if path != [] {
      var init, c := path[..|path| - 1], path[|path| - 1];
      AbsCommandsDraw(init);
      AbsCommandDraws(c, AbsCursorAfter(init), PenAfter(init));
      AbsCursorFollows(AbsCommand(c, AbsCursorAfter(init)), AbsCursorAfter(init), PenAfter(init));
      assert AbsCommands(path)[..|path| - 1] == AbsCommands(init);
    }
  }

  lemma {:induction false} AbsCommandsUpper(path: Path, k: nat)
    requires LegalPath(path) && k < |path|
    ensures AbsCommands(path)[k].op == Upper(path[k].op)
    ensures !IsLower(path[k].op) ==> AbsCommands(path)[k] == path[k]
  {
    if k < |path| - 1 {
      AbsCommandsUpper(path[..|path| - 1], k);
    }
  }

  /** The absolute form draws the same marks, with the same point and subpath start after
      every command, and has the same commands in upper case. */
  lemma {:induction false} AbsoluteDrawsTheSame(path: Path)
    requires LegalPath(path) && path != []
    ensures Trace(Absolute(path)) == Trace(path)
    ensures forall n :: 0 <= n <= |path| ==> PenAfter(Absolute(path)[..n]) == PenAfter(path[..n])
    ensures forall k :: 0 <= k < |path| ==> Absolute(path)[k].op == Upper(path[k].op)
  {
    AbsCommandsDraw(path);
    forall n | 0 <= n <= |path| ensures PenAfter(Absolute(path)[..n]) == PenAfter(path[..n]) {
      AbsCommandsPrefix(path, n);
      AbsCommandsDraw(path[..n]);
    }
    forall k | 0 <= k < |path| ensures Absolute(path)[k].op == Upper(path[k].op) {
      AbsCommandsUpper(path, k);
    }
  }

  lemma {:induction false} AbsCommandsPrefix(path: Path, n: nat)
    requires LegalPath(path) && n <= |path|
    ensures AbsCommands(path)[..n] == AbsCommands(path[..n])
  {
    if n < |path| {
      AbsCommandsPrefix(path[..|path| - 1], n);
      assert path[..|path| - 1][..n] == path[..n];
      assert AbsCommands(path)[..n] == AbsCommands(path[..|path| - 1])[..n];
    } else {
      assert path[..n] == path && AbsCommands(path)[..n] == AbsCommands(path);
    }
  }

  lemma {:induction false} FirstMove(m: Command)
    requires Legal(m) && m.op == 'm'
    ensures |m.args| == 2 && Draw(m, HOME) == Move(Point(m.args[0], m.args[1]))
    ensures AbsCommand(m, ORIGIN) == Command('M', m.args)
  {
    assert AbsCommand(m, ORIGIN).args == m.args;
  }

  lemma {:induction false} FirstOfAll(path: Path)
    requires LegalPath(path) && path != []
    ensures Trace(path)[0] == Draw(path[0], HOME)
    ensures AbsCommands(path)[0] == AbsCommand(path[0], ORIGIN)
  {
    hide Draw, AbsCommand, Legal, Advance, AbsCursor;
    var init := path[..|path| - 1];
    if init != [] { FirstOfAll(init); }
  }

  lemma {:induction false} MoveDraws(m: Command, pen: Pen)
    requires Legal(m) && m.op == 'M'
    ensures |m.args| == 2 && Draw(m, pen) == Move(Point(m.args[0], m.args[1]))
  {
  }

  lemma {:induction false} OneMoveDraws(m: Command)
    requires Legal(m) && m.op == 'M'
    ensures |m.args| == 2 && Trace([m]) == [Move(Point(m.args[0], m.args[1]))]
  {
    hide Draw, Trace, AbsCommand, AbsCommands, Legal, HOME, ORIGIN;
    FirstOfAll([m]);
    MoveDraws(m, HOME);
    assert Trace([m]) == [Trace([m])[0]];
  }

  /** The absolute form of the empty path draws one thing, a move to the origin. */
  lemma {:induction false} NothingBecomesOneMove()
    ensures Absolute([]) == [Command('M', [0.0, 0.0])]
    ensures Trace(Absolute([])) == [Move(Point(0.0, 0.0))]
  {
    hide Trace;
    OneMoveDraws(Absolute([])[0]);
  }

  /** A relative move at the start counts from the origin, in what is drawn and in the
      rewriting. */
  lemma {:induction false} StartsAtOrigin(path: Path)
    requires LegalPath(path) && path != [] && path[0].op == 'm'
    ensures |path[0].args| == 2 && Trace(path)[0] == Move(Point(path[0].args[0], path[0].args[1]))
    ensures Absolute(path)[0] == Command('M', path[0].args)
  {
    hide Draw, AbsCommand, AbsCommands, Trace, HOME, ORIGIN;
    FirstMove(path[0]);
    FirstOfAll(path);
  }

  /** Making a path absolute twice changes nothing, not even on the empty path. */
  lemma {:induction false} AbsoluteTwice(path: Path)
    requires LegalPath(path)
    ensures Absolute(Absolute(path)) == Absolute(path)
  {
    var a := Absolute(path);
    forall k | 0 <= k < |a| ensures AbsCommands(a)[k] == a[k] {
      if path != [] { AbsCommandsUpper(path, k); }
      AbsCommandsUpper(a, k);
    }
  }
}
