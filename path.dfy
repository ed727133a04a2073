/** SVG path data from Sketch curve points, and the small text utilities
    around path strings (the path processor of the modular analyzer). */
module PathProcessor {
  import opened Wrappers
  import opened Js
  import opened Sketch

  datatype Point = Point(x: real, y: real)

  /** One drawing command of an SVG path, with absolute coordinates. */
  datatype Command =
    | MoveTo(x: real, y: real)
    | LineTo(x: real, y: real)
    | CurveTo(x1: real, y1: real, x2: real, y2: real, x: real, y: real)
    | Close

  datatype Bounds = Bounds(x: real, y: real, width: real, height: real)

  // ---------------------------------------------------- coordinate tokens

  /** A character of the regular expression class [\d.-]. */
  predicate IsTokenChar(c: char)
  {
    IsDigit(c) || c == '.' || c == '-'
  }

  predicate IsToken(t: string)
  {
    t != [] && forall i | 0 <= i < |t| :: IsTokenChar(t[i])
  }

  /** The length of the run of token characters that starts `s`. */
  function TokenRun(s: string): (k: nat)
    ensures k <= |s|
    ensures forall i | 0 <= i < k :: IsTokenChar(s[i])
    ensures k < |s| ==> !IsTokenChar(s[k])
  {
    if s != [] && IsTokenChar(s[0]) then 1 + TokenRun(s[1..]) else 0
  }

  /** The matches of /[\d.-]+/g: the maximal runs of token characters, left to right. */
  function Tokens(s: string): (r: seq<string>)
    ensures forall i | 0 <= i < |r| :: IsToken(r[i])
    decreases |s|
  {
    if s == [] then []
    else if !IsTokenChar(s[0]) then Tokens(s[1..])
    else
      var k := TokenRun(s);
      [s[..k]] + Tokens(s[k..])
  }

  /** Two numbers read from the first two tokens of a text, or the origin. */
  function PairOf(t: string): Point
  {
    var tokens := Tokens(t);
    if |tokens| >= 2 then Point(ParseFloat(tokens[0]), ParseFloat(tokens[1])) else Point(0.0, 0.0)
  }

  /** parseCoordinateString: only text is read; anything else is the origin. */
  function ParseCoordinateString(c: Option<Coord>): (r: Point)
    ensures c.None? || c.value.CoordObject? ==> r == Point(0.0, 0.0)
  {
    match c
    case Some(CoordText(t)) => PairOf(t)
    case _ => Point(0.0, 0.0)
  }

  /** A coordinate field is truthy unless it is missing or the empty string. */
  predicate IsSet(c: Option<Coord>)
  {
    c.Some? && c.value != CoordText("")
  }

  /** parsePointCoordinates before scaling: the relative position of a point,
      from `point` when it is set, else from `x` and `y` when both are present. */
  function RelativePoint(p: CurvePoint): (r: Point)
    ensures !IsSet(p.point) && (p.x.None? || p.y.None?) ==> r == Point(0.0, 0.0)
    ensures IsSet(p.point) && p.point.value.CoordText? ==> r == ParseCoordinateString(p.point)
  {
    if IsSet(p.point) then
      match p.point.value
      case CoordText(t) => PairOf(t)
      case CoordObject(x, y) => Point(NumOr(x, 0.0), NumOr(y, 0.0))
    else if p.x.Some? && p.y.Some? then Point(p.x.value, p.y.value)
    else Point(0.0, 0.0)
  }

  /** parsePointCoordinates: the relative position scaled by the frame. */
  function Absolute(p: CurvePoint, w: real, h: real): Point
  {
    var rel := RelativePoint(p);
    Point(rel.x * w, rel.y * h)
  }

  /** parseCurveControlPoints: the first control point hangs off the previous
      point by its `curveTo` offset, the second off the current point by its
      `curveFrom` offset; a missing offset leaves that control point at the origin. */
  function ControlPoints(cur: CurvePoint, prev: CurvePoint, w: real, h: real): (r: (Point, Point))
    ensures IsSet(prev.curveTo) ==> r.0 == Shifted(Absolute(prev, w, h), ParseCoordinateString(prev.curveTo), w, h)
    ensures !IsSet(prev.curveTo) ==> r.0 == Point(0.0, 0.0)
    ensures IsSet(cur.curveFrom) ==> r.1 == Shifted(Absolute(cur, w, h), ParseCoordinateString(cur.curveFrom), w, h)
    ensures !IsSet(cur.curveFrom) ==> r.1 == Point(0.0, 0.0)
  {
    var cp1 := if IsSet(prev.curveTo) then Shifted(Absolute(prev, w, h), ParseCoordinateString(prev.curveTo), w, h)
               else Point(0.0, 0.0);
    var cp2 := if IsSet(cur.curveFrom) then Shifted(Absolute(cur, w, h), ParseCoordinateString(cur.curveFrom), w, h)
               else Point(0.0, 0.0);
    (cp1, cp2)
  }

  /** An absolute point moved by a relative offset scaled to the frame. */
  function Shifted(a: Point, off: Point, w: real, h: real): Point
  {
    Point(a.x + off.x * w, a.y + off.y * h)
  }

  /** The command for point `i`: a move for the first point; after it a curve
      when the point has a truthy curve flag, else a line. */
  function CommandAt(points: seq<CurvePoint>, i: nat, w: real, h: real): Command
    requires i < |points|
  {
    var end := Absolute(points[i], w, h);
    if i == 0 then MoveTo(end.x, end.y)
    else if IsTrue(points[i].hasCurveFrom) || IsTrue(points[i].hasCurveTo) then
      var cps := ControlPoints(points[i], points[i - 1], w, h);
      CurveTo(cps.0.x, cps.0.y, cps.1.x, cps.1.y, end.x, end.y)
    else LineTo(end.x, end.y)
  }

  /** shouldClosePath: at least three points, and the first and last `point`
      texts (the origin when missing) lie closer than 0.001 apart. The square
      root of the source is stated on the squared distance. */
  predicate ShouldClosePath(points: seq<CurvePoint>)
  {
    |points| >= 3
    && var first := ParseCoordinateString(PointOrOrigin(points[0].point));
       var last := ParseCoordinateString(PointOrOrigin(points[|points| - 1].point));
       var dx := first.x - last.x;
       var dy := first.y - last.y;
       dx * dx + dy * dy < 0.000001
  }

  /** `point.point || '{0,0}'`. */
  function PointOrOrigin(c: Option<Coord>): Option<Coord>
  {
    if IsSet(c) then c else Some(CoordText("{0,0}"))
  }

  /** The commands pointsToPathData writes for a non-empty list of points. */
  function PathCommands(points: seq<CurvePoint>, w: real, h: real): seq<Command>
    requires points != []
  {
    CommandsUpTo(points, |points|, w, h) + (if ShouldClosePath(points) then [Close] else [])
  }

  /** One command per point, in order: a move to the first point, then a
      curve or a line to each later point (a curve exactly when a curve flag
      is set), then a closing command exactly when the path returns to its start. */
  lemma PathShape(points: seq<CurvePoint>, w: real, h: real)
    requires points != []
    ensures var r := PathCommands(points, w, h);
      && |r| == |points| + (if ShouldClosePath(points) then 1 else 0)
      && r[0] == MoveTo(Absolute(points[0], w, h).x, Absolute(points[0], w, h).y)
      && (forall i | 1 <= i < |points| ::
            (r[i].CurveTo? <==> IsTrue(points[i].hasCurveFrom) || IsTrue(points[i].hasCurveTo))
            && (r[i].CurveTo? || r[i].LineTo?)
            && r[i].x == Absolute(points[i], w, h).x && r[i].y == Absolute(points[i], w, h).y)
      && (r[|r| - 1] == Close <==> ShouldClosePath(points))
  {
  }

  /** The commands of the first `n` points. */
  function CommandsUpTo(points: seq<CurvePoint>, n: nat, w: real, h: real): (r: seq<Command>)
    requires n <= |points|
    ensures |r| == n && forall i | 0 <= i < n :: r[i] == CommandAt(points, i, w, h)
  {
    if n == 0 then [] else CommandsUpTo(points, n - 1, w, h) + [CommandAt(points, n - 1, w, h)]
  }

  function CommandText(c: Command, num: Numerics): string
  {
    match c
    case MoveTo(x, y) => "M " + num.fixed2(x) + " " + num.fixed2(y)
    case LineTo(x, y) => " L " + num.fixed2(x) + " " + num.fixed2(y)
    case CurveTo(x1, y1, x2, y2, x, y) =>
      " C " + num.fixed2(x1) + " " + num.fixed2(y1) + " " + num.fixed2(x2) + " " + num.fixed2(y2)
      + " " + num.fixed2(x) + " " + num.fixed2(y)
    case Close => " Z"
  }

  /** The text of a command list, each command written after the previous one. */
  function Serialize(cmds: seq<Command>, num: Numerics): string
  {
    if cmds == [] then "" else Serialize(cmds[..|cmds| - 1], num) + CommandText(cmds[|cmds| - 1], num)
  }

  /** `nodeFrame?.width || 100`. */
  function FrameWidth(frame: Option<Frame>): real
  {
    if frame.Some? then NumOr(frame.value.width, 100.0) else 100.0
  }

  function FrameHeight(frame: Option<Frame>): real
  {
    if frame.Some? then NumOr(frame.value.height, 100.0) else 100.0
  }

  /** The text pointsToPathData returns. */
  function PathDataOf(points: seq<CurvePoint>, frame: Option<Frame>, num: Numerics): string
  {
    if points == [] then "M 0 0" else Serialize(PathCommands(points, FrameWidth(frame), FrameHeight(frame)), num)
  }

  /** pointsToPathData: one command per point, then a closing command when the
      path returns to its start. */
  method PointsToPathData(points: seq<CurvePoint>, frame: Option<Frame>, num: Numerics) returns (pathData: string)
    ensures pathData == PathDataOf(points, frame, num)
  {
    if |points| == 0 {
      return "M 0 0";
    }
    var w := FrameWidth(frame);
    var h := FrameHeight(frame);
    pathData := "";
    ghost var done: seq<Command> := [];
    for i := 0 to |points|
      invariant done == CommandsUpTo(points, i, w, h)
      invariant pathData == Serialize(done, num)
    {
      var text := WriteCommand(points, i, w, h, num);
      AppendCommand(done, CommandAt(points, i, w, h), num);
      pathData := pathData + text;
      done := done + [CommandAt(points, i, w, h)];
    }
    if |points| > 2 && ShouldClosePath(points) {
      AppendCommand(done, Close, num);
      done := done + [Close];
      pathData := pathData + " Z";
    } else {
      assert done + [] == done;
    }
    assert done == PathCommands(points, w, h);
  }

  /** The body of pointsToPathData's loop: the text of the command for point `i`. */
  method WriteCommand(points: seq<CurvePoint>, i: nat, w: real, h: real, num: Numerics) returns (text: string)
    requires i < |points|
    ensures text == CommandText(CommandAt(points, i, w, h), num)
  {
    var point := points[i];
    var end := Absolute(point, w, h);
    if i == 0 {
      text := "M " + num.fixed2(end.x) + " " + num.fixed2(end.y);
    } else if IsTrue(point.hasCurveFrom) || IsTrue(point.hasCurveTo) {
      var cps := ControlPoints(point, points[i - 1], w, h);
      text := " C " + num.fixed2(cps.0.x) + " " + num.fixed2(cps.0.y) + " "
        + num.fixed2(cps.1.x) + " " + num.fixed2(cps.1.y) + " " + num.fixed2(end.x) + " " + num.fixed2(end.y);
    } else {
      text := " L " + num.fixed2(end.x) + " " + num.fixed2(end.y);
    }
  }

  lemma AppendCommand(cmds: seq<Command>, c: Command, num: Numerics)
    ensures Serialize(cmds + [c], num) == Serialize(cmds, num) + CommandText(c, num)
  {
    assert (cmds + [c])[..|cmds|] == cmds;
  }

  /** extractPathFromNode: a stored path text wins, else the points are drawn. */
  function ExtractPathFromNode(n: Option<Node>, num: Numerics): (r: Option<string>)
    ensures n.None? ==> r.None?
    ensures n.Some? && n.value.path.Some? && StrOr(n.value.path.value.pathData, "") != "" ==> r == n.value.path.value.pathData
    ensures n.Some? && !(n.value.path.Some? && StrOr(n.value.path.value.pathData, "") != "") ==>
              r == if n.value.points.Some? then Some(PathDataOf(n.value.points.value, n.value.frame, num)) else None
    ensures r.Some? ==> r.value != ""
  {
    match n
    case None => None
    case Some(node) =>
      if node.path.Some? && StrOr(node.path.value.pathData, "") != "" then node.path.value.pathData
      else if node.points.Some? then Some(PathDataOf(node.points.value, node.frame, num))
      else None
  }

  // ------------------------------------------------ lemmas on coordinates

  lemma {:induction false} TokenRunOfToken(a: string, rest: string)
    requires forall i | 0 <= i < |a| :: IsTokenChar(a[i])
    requires rest == [] || !IsTokenChar(rest[0])
    ensures TokenRun(a + rest) == |a|
  {
    if a != [] {
      assert (a + rest)[1..] == a[1..] + rest;
      TokenRunOfToken(a[1..], rest);
    } else {
      assert a + rest == rest;
    }
  }

  lemma {:induction false} TokensSkip(sep: string, rest: string)
    requires forall i | 0 <= i < |sep| :: !IsTokenChar(sep[i])
    ensures Tokens(sep + rest) == Tokens(rest)
  {
    if sep != [] {
      assert (sep + rest)[1..] == sep[1..] + rest;
      TokensSkip(sep[1..], rest);
    } else {
      assert sep + rest == rest;
    }
  }

  lemma TokensTake(a: string, rest: string)
    requires IsToken(a)
    requires rest == [] || !IsTokenChar(rest[0])
    ensures Tokens(a + rest) == [a] + Tokens(rest)
  {
    TokenRunOfToken(a, rest);
    assert (a + rest)[..|a|] == a && (a + rest)[|a|..] == rest;
  }

  /** The text "{a, b}" that Sketch writes for a point reads back as its two numbers' tokens. */
  lemma PointTextTokens(a: string, b: string)
    requires IsToken(a) && IsToken(b)
    ensures Tokens("{" + a + ", " + b + "}") == [a, b]
  {
    var close := "}";
    assert Tokens(close) == [] by {
      TokensSkip(close, "");
      assert close + "" == close;
    }
    TokensTake(b, close);
    var s1 := b + close;
    TokensSkip(", ", s1);
    var s2 := ", " + s1;
    TokensTake(a, s2);
    var s3 := a + s2;
    TokensSkip("{", s3);
    PointTextShape(a, b);
  }

  lemma PointTextShape(a: string, b: string)
    ensures "{" + a + ", " + b + "}" == "{" + (a + (", " + (b + "}")))
  {
  }

  /** A point written as "{a, b}" sits at (a, b) relative to the frame. */
  lemma PointTextPosition(a: string, b: string, p: CurvePoint)
    requires IsToken(a) && IsToken(b)
    requires p.point == Some(CoordText("{" + a + ", " + b + "}"))
    ensures RelativePoint(p) == Point(ParseFloat(a), ParseFloat(b))
  {
    PointTextTokens(a, b);
  }

  /** A curve point whose `point` is the text "{a, b}", as Sketch writes it. */
  function Corner(a: string, b: string): CurvePoint
  {
    CurvePoint(Some(CoordText("{" + a + ", " + b + "}")), None, None, None, None, None, None)
  }

  /** The corners of the unit square, back at the start: "{0, 0}", "{1, 0}", "{1, 1}", "{0, 1}", "{0, 0}". */
  function Square(zero: string, one: string): seq<CurvePoint>
  {
    [Corner(zero, zero), Corner(one, zero), Corner(one, one), Corner(zero, one), Corner(zero, zero)]
  }

  /** The unit square drawn in a 100 by 50 frame: straight edges back to the
      start and a closing command. */
  lemma UnitSquare(zero: string, one: string)
    requires zero == "0" && one == "1"
    ensures PathCommands(Square(zero, one), 100.0, 50.0)
         == [MoveTo(0.0, 0.0), LineTo(100.0, 0.0), LineTo(100.0, 50.0), LineTo(0.0, 50.0), LineTo(0.0, 0.0), Close]
  {
    SquareCloses(zero, one);
    SquareEdges(zero, one);
  }

  lemma SquareCloses(zero: string, one: string)
    requires zero == "0" && one == "1"
    ensures ShouldClosePath(Square(zero, one))
  {
    CornerAt(zero, zero);
  }

  lemma SquareEdges(zero: string, one: string)
    requires zero == "0" && one == "1"
    ensures CommandsUpTo(Square(zero, one), 5, 100.0, 50.0)
         == [MoveTo(0.0, 0.0), LineTo(100.0, 0.0), LineTo(100.0, 50.0), LineTo(0.0, 50.0), LineTo(0.0, 0.0)]
  {
    var cmds := CommandsUpTo(Square(zero, one), 5, 100.0, 50.0);
    var edges := [MoveTo(0.0, 0.0), LineTo(100.0, 0.0), LineTo(100.0, 50.0), LineTo(0.0, 50.0), LineTo(0.0, 0.0)];
    forall i | 0 <= i < 5 ensures cmds[i] == edges[i] {
      SquareCorner(zero, one, i);
    }
  }

  /** The command drawn at corner `i` of the square. */
  lemma SquareCorner(zero: string, one: string, i: nat)
    requires zero == "0" && one == "1" && i < 5
    ensures CommandAt(Square(zero, one), i, 100.0, 50.0)
         == [MoveTo(0.0, 0.0), LineTo(100.0, 0.0), LineTo(100.0, 50.0), LineTo(0.0, 50.0), LineTo(0.0, 0.0)][i]
  {
    var pts := Square(zero, one);
    if i == 0 {
      CornerCommand(pts, i, zero, zero);
    } else if i == 1 {
      CornerCommand(pts, i, one, zero);
    } else if i == 2 {
      CornerCommand(pts, i, one, one);
    } else if i == 3 {
      CornerCommand(pts, i, zero, one);
    } else {
      CornerCommand(pts, i, zero, zero);
    }
  }

  /** A corner of the square as a command in a 100 by 50 frame. */
  lemma CornerCommand(pts: seq<CurvePoint>, i: nat, a: string, b: string)
    requires i < |pts| && pts[i] == Corner(a, b) && a in {"0", "1"} && b in {"0", "1"}
    ensures var x, y := (if a == "0" then 0.0 else 100.0), (if b == "0" then 0.0 else 50.0);
      CommandAt(pts, i, 100.0, 50.0) == if i == 0 then MoveTo(x, y) else LineTo(x, y)
  {
    CornerAt(a, b);
  }

  lemma CornerAt(a: string, b: string)
    requires a in {"0", "1"} && b in {"0", "1"}
    ensures var p := Point(if a == "0" then 0.0 else 1.0, if b == "0" then 0.0 else 1.0);
            RelativePoint(Corner(a, b)) == p && ParseCoordinateString(PointOrOrigin(Corner(a, b).point)) == p
  {
    assert DigitsValue("0") == 0 && DigitsValue("1") == 1 by {
      assert "0"[..0] == [] && "1"[..0] == [];
    }
    assert ParseFloat(a) == if a == "0" then 0.0 else 1.0;
    assert ParseFloat(b) == if b == "0" then 0.0 else 1.0;
    assert IsToken(a) && IsToken(b);
    PointTextTokens(a, b);
  }


  // ------------------------------------------------ validity and bounds

  /** A letter of the case-insensitive class [MLHVCSQTAZ]. */
  predicate IsCommandLetter(c: char)
  {
    c in "MLHVCSQTAZmlhvcsqtaz"
  }

  /** isValidPathData: non-empty, with a command letter and a coordinate character. */
  predicate IsValidPathData(s: string)
  {
    s != []
    && (exists i | 0 <= i < |s| :: IsCommandLetter(s[i]))
    && (exists i | 0 <= i < |s| :: IsTokenChar(s[i]))
  }

  /** The smallest element of a non-empty list (Math.min over its elements). */
  function SeqMin(xs: seq<real>): (m: real)
    requires xs != []
    ensures m in xs && forall i | 0 <= i < |xs| :: m <= xs[i]
  {
    if |xs| == 1 then xs[0] else Min(xs[0], SeqMin(xs[1..]))
  }

  /** The largest element of a non-empty list (Math.max over its elements). */
  function SeqMax(xs: seq<real>): (m: real)
    requires xs != []
    ensures m in xs && forall i | 0 <= i < |xs| :: xs[i] <= m
  {
    if |xs| == 1 then xs[0] else Max(xs[0], SeqMax(xs[1..]))
  }

  /** The numbers at even positions: read as x coordinates. */
  function Evens(cs: seq<real>): (r: seq<real>)
    ensures |r| == (|cs| + 1) / 2 && forall i | 0 <= i < |r| :: r[i] == cs[2 * i]
  {
    seq((|cs| + 1) / 2, i requires 0 <= i < (|cs| + 1) / 2 => cs[2 * i])
  }

  /** The numbers at odd positions: read as y coordinates. */
  function Odds(cs: seq<real>): (r: seq<real>)
    ensures |r| == |cs| / 2 && forall i | 0 <= i < |r| :: r[i] == cs[2 * i + 1]
  {
    seq(|cs| / 2, i requires 0 <= i < |cs| / 2 => cs[2 * i + 1])
  }

  /** Every number of a path text, in order. */
  function Numbers(s: string): (r: seq<real>)
    ensures |r| == |Tokens(s)|
  {
    var tokens := Tokens(s);
    seq(|tokens|, i requires 0 <= i < |tokens| => ParseFloat(tokens[i]))
  }

  /** getPathBounds: the box of the numbers of the text; none for a text that
      is not path data or holds fewer than two numbers. */
  function GetPathBounds(s: string): (r: Option<Bounds>)
    ensures r.Some? <==> IsValidPathData(s) && |Tokens(s)| >= 2
    ensures r.Some? ==> r.value == BoxOf(Numbers(s))
  {
    if !IsValidPathData(s) || |Tokens(s)| < 2 then None else Some(BoxOf(Numbers(s)))
  }

  /** The box from the smallest to the largest number at an even position (x)
      and at an odd position (y). */
  function BoxOf(cs: seq<real>): Bounds
    requires |cs| >= 2
  {
    var xs := Evens(cs);
    var ys := Odds(cs);
    Bounds(SeqMin(xs), SeqMin(ys), SeqMax(xs) - SeqMin(xs), SeqMax(ys) - SeqMin(ys))
  }

  /** The box holds every coordinate and touches the smallest ones. */
  lemma BoxContainsEveryCoordinate(cs: seq<real>)
    requires |cs| >= 2
    ensures var b := BoxOf(cs);
      && b.width >= 0.0 && b.height >= 0.0
      && (forall i | 0 <= i < |cs| && i % 2 == 0 :: b.x <= cs[i] <= b.x + b.width)
      && (forall i | 0 <= i < |cs| && i % 2 == 1 :: b.y <= cs[i] <= b.y + b.height)
      && b.x in Evens(cs) && b.y in Odds(cs)
  {
    var xs := Evens(cs);
    var ys := Odds(cs);
    forall i | 0 <= i < |cs| && i % 2 == 0
      ensures SeqMin(xs) <= cs[i] <= SeqMax(xs)
    {
      assert cs[i] == xs[i / 2];
    }
    forall i | 0 <= i < |cs| && i % 2 == 1
      ensures SeqMin(ys) <= cs[i] <= SeqMax(ys)
    {
      assert cs[i] == ys[i / 2];
    }
  }

  // ---------------------------------------------------------- optimizing

  /** The characters JavaScript's \s matches (and String#trim removes). */
  predicate IsSpace(c: char)
  {
    c in SpaceChars || '\U{2000}' <= c <= '\U{200A}'
  }

  /** The whitespace characters outside the block U+2000..U+200A. */
  const SpaceChars: set<char> :=
    {' ', '\t', '\n', '\r', '\U{B}', '\U{C}', '\U{A0}', '\U{1680}',
     '\U{2028}', '\U{2029}', '\U{202F}', '\U{205F}', '\U{3000}', '\U{FEFF}'}

  /** The length of the whitespace run that starts `s`. */
  function SpaceRun(s: string): (k: nat)
    ensures k <= |s|
    ensures forall i | 0 <= i < k :: IsSpace(s[i])
    ensures k < |s| ==> !IsSpace(s[k])
  {
    if s != [] && IsSpace(s[0]) then 1 + SpaceRun(s[1..]) else 0
  }

  /** `replace(/\s+/g, ' ')`: every whitespace run becomes one space. */
  function Collapse(s: string): (r: string)
    ensures |r| <= |s|
    ensures r == [] <==> s == []
    ensures r != [] ==> (IsSpace(r[0]) <==> IsSpace(s[0]))
    decreases |s|
  {
    if s == [] then []
    else if IsSpace(s[0]) then " " + Collapse(s[SpaceRun(s)..])
    else [s[0]] + Collapse(s[1..])
  }

  /** Whitespace only as single plain spaces. */
  predicate SingleSpaced(s: string)
  {
    forall i | 0 <= i < |s| && IsSpace(s[i]) :: s[i] == ' ' && (i + 1 < |s| ==> !IsSpace(s[i + 1]))
  }

  /** `trim()`: whitespace removed from both ends. */
  function Trim(s: string): (r: string)
    ensures |r| <= |s|
  {
    TrimEnd(s[SpaceRun(s)..])
  }

  /** The trimmed text is the slice of its input after the leading whitespace
      and before the trailing whitespace, and it neither starts nor ends with
      whitespace. */
  lemma TrimMeaning(s: string)
    ensures var r := Trim(s);
      && SpaceRun(s) + |r| <= |s| && r == s[SpaceRun(s)..SpaceRun(s) + |r|]
      && (forall i | 0 <= i < SpaceRun(s) :: IsSpace(s[i]))
      && (forall i | SpaceRun(s) + |r| <= i < |s| :: IsSpace(s[i]))
      && (r != [] ==> !IsSpace(r[0]) && !IsSpace(r[|r| - 1]))
  {
    TrimSlice(s);
    TrimTail(s);
    TrimHead(s);
  }

  lemma TrimSlice(s: string)
    ensures SpaceRun(s) + |Trim(s)| <= |s| && Trim(s) == s[SpaceRun(s)..SpaceRun(s) + |Trim(s)|]
  {
    var k := SpaceRun(s);
    var t := s[k..];
    assert Trim(s) == t[..|Trim(s)|];
  }

  lemma TrimTail(s: string)
    ensures forall i | SpaceRun(s) + |Trim(s)| <= i < |s| :: IsSpace(s[i])
  {
    var k := SpaceRun(s);
    var t := s[k..];
    var n := |Trim(s)|;
    TrimEndSuffix(t);
    forall i | k + n <= i < |s|
      ensures IsSpace(s[i])
    {
      assert s[i] == t[i - k];
    }
  }

  lemma TrimHead(s: string)
    ensures Trim(s) != [] ==> !IsSpace(Trim(s)[0])
  {
    var k := SpaceRun(s);
    var t := s[k..];
    if Trim(s) != [] {
      assert Trim(s)[0] == t[0] == s[k];
    }
  }

  /** Only whitespace is cut from the end. */
  lemma {:induction false} TrimEndSuffix(s: string)
    ensures forall i | |TrimEnd(s)| <= i < |s| :: IsSpace(s[i])
  {
    if s != [] && IsSpace(s[|s| - 1]) {
      TrimEndSuffix(s[..|s| - 1]);
    }
  }

  function TrimEnd(s: string): (r: string)
    ensures r <= s
    ensures r == [] || !IsSpace(r[|r| - 1])
  {
    if s != [] && IsSpace(s[|s| - 1]) then
      var init := s[..|s| - 1];
      var r := TrimEnd(init);
      assert init[..|r|] == s[..|r|];
      r
    else s
  }

  predicate IsMoveOrLine(c: char)
  {
    c == 'M' || c == 'L'
  }

  /** `replace(/([ML])\s+([ML])/g, '$1 $2')`: the whitespace between two
      move or line letters becomes one space. */
  function MoveLineGaps(s: string): (r: string)
    ensures |r| <= |s|
    decreases |s|
  {
    if s == [] then []
    else
      var k := SpaceRun(s[1..]);
      if IsMoveOrLine(s[0]) && k >= 1 && 1 + k < |s| && IsMoveOrLine(s[1 + k])
      then [s[0], ' ', s[1 + k]] + MoveLineGaps(s[2 + k..])
      else [s[0]] + MoveLineGaps(s[1..])
  }

  /** `replace(/([\d]+)\.00/g, '$1')`: ".00" after a run of digits is dropped. */
  function DropZeroDecimals(s: string): (r: string)
    ensures |r| <= |s|
    decreases |s|
  {
    if s == [] then []
    else
      var k := DigitRun(s);
      if k > 0 && k + 3 <= |s| && s[k..k + 3] == ".00" then s[..k] + DropZeroDecimals(s[k + 3..])
      else [s[0]] + DropZeroDecimals(s[1..])
  }

  /** optimizePathData. */
  function OptimizePathData(s: string): (r: string)
    ensures |r| <= |s|
  {
    if s == "" then "" else DropZeroDecimals(MoveLineGaps(Trim(Collapse(s))))
  }

  /** What optimizePathData produces: the empty text stays empty; otherwise
      the collapsed, trimmed text with ".00" dropped after whole numbers (the
      move/line rewrite has nothing left to do). The result is single-spaced
      and neither starts nor ends with whitespace. */
  lemma OptimizePathDataMeaning(s: string)
    ensures s == "" ==> OptimizePathData(s) == ""
    ensures s != "" ==> OptimizePathData(s) == DropZeroDecimals(Trim(Collapse(s)))
    ensures SingleSpaced(OptimizePathData(s))
    ensures var r := OptimizePathData(s);
      r != [] ==> !IsSpace(r[0]) && !IsSpace(r[|r| - 1])
  {
    if s != "" {
      var c := Collapse(s);
      var t := Trim(c);
      MoveLineRewriteIsNoOp(s);
      assert OptimizePathData(s) == DropZeroDecimals(t);
      TrimMeaning(c);
      TrimmedSingleSpaced(s);
      DropSingleSpaced(t);
      DropEnds(t);
      if t != [] {
        DropLast(t);
      }
    }
  }

  lemma TrimmedSingleSpaced(s: string)
    ensures SingleSpaced(Trim(Collapse(s)))
  {
    var c := Collapse(s);
    CollapseSingleSpaced(s);
    TrimMeaning(c);
    SliceSingleSpaced(c, SpaceRun(c), SpaceRun(c) + |Trim(c)|);
  }

  lemma DigitNotSpace(c: char)
    requires IsDigit(c)
    ensures !IsSpace(c)
  {
  }

  /** Text without whitespace is single-spaced. */
  lemma DigitsSingleSpaced(d: string)
    requires forall i | 0 <= i < |d| :: IsDigit(d[i])
    ensures SingleSpaced(d)
  {
    forall i | 0 <= i < |d|
      ensures !IsSpace(d[i])
    {
      DigitNotSpace(d[i]);
    }
  }

  /** Two single-spaced texts joined without two whitespace characters meeting. */
  lemma SingleSpacedConcat(a: string, b: string)
    requires SingleSpaced(a) && SingleSpaced(b)
    requires a != [] && b != [] ==> !IsSpace(a[|a| - 1]) || !IsSpace(b[0])
    ensures SingleSpaced(a + b)
  {
    var ab := a + b;
    forall i | 0 <= i < |ab| && IsSpace(ab[i])
      ensures ab[i] == ' ' && (i + 1 < |ab| ==> !IsSpace(ab[i + 1]))
    {
      if i < |a| {
        assert ab[i] == a[i];
        if i + 1 < |a| {
          assert ab[i + 1] == a[i + 1];
        } else if i + 1 < |ab| {
          assert ab[i + 1] == b[0];
        }
      } else {
        assert ab[i] == b[i - |a|];
        if i + 1 < |ab| {
          assert ab[i + 1] == b[i + 1 - |a|];
        }
      }
    }
  }

  /** Dropping decimals keeps the first character and empties only the empty text. */
  lemma DropEnds(t: string)
    ensures DropZeroDecimals(t) == [] <==> t == []
    ensures t != [] ==> DropZeroDecimals(t)[0] == t[0]
  {
  }

  /** Dropping decimals keeps a last character that is not whitespace. */
  lemma {:induction false} DropLast(t: string)
    requires t != [] && !IsSpace(t[|t| - 1])
    ensures DropZeroDecimals(t) != [] && !IsSpace(DropZeroDecimals(t)[|DropZeroDecimals(t)| - 1])
    decreases |t|
  {
    var r := DropZeroDecimals(t);
    var k := DigitRun(t);
    if k > 0 && k + 3 <= |t| && t[k..k + 3] == ".00" {
      var rest := t[k + 3..];
      assert r == t[..k] + DropZeroDecimals(rest);
      if rest == [] {
        DropEnds(rest);
        assert r[|r| - 1] == t[k - 1];
        DigitNotSpace(t[k - 1]);
      } else {
        assert rest[|rest| - 1] == t[|t| - 1];
        DropLast(rest);
      }
    } else {
      var rest := t[1..];
      assert r == [t[0]] + DropZeroDecimals(rest);
      if rest == [] {
        DropEnds(rest);
      } else {
        assert rest[|rest| - 1] == t[|t| - 1];
        DropLast(rest);
      }
    }
  }

  /** Dropping decimals keeps single-spaced text single-spaced. */
  lemma {:induction false} DropSingleSpaced(t: string)
    requires SingleSpaced(t)
    ensures SingleSpaced(DropZeroDecimals(t))
    decreases |t|
  {
    if t != [] {
      var k := DigitRun(t);
      if k > 0 && k + 3 <= |t| && t[k..k + 3] == ".00" {
        var rest := t[k + 3..];
        SliceSingleSpaced(t, k + 3, |t|);
        DropSingleSpaced(rest);
        DigitsSingleSpaced(t[..k]);
        DigitNotSpace(t[k - 1]);
        SingleSpacedConcat(t[..k], DropZeroDecimals(rest));
      } else {
        var rest := t[1..];
        SliceSingleSpaced(t, 1, |t|);
        DropSingleSpaced(rest);
        DropEnds(rest);
        if rest != [] {
          assert rest[0] == t[1];
        }
        SingleSpacedConcat([t[0]], DropZeroDecimals(rest));
      }
    }
  }

  /** After the whitespace runs are collapsed, whitespace is single plain spaces. */
  lemma {:induction false} CollapseSingleSpaced(s: string)
    ensures SingleSpaced(Collapse(s))
    decreases |s|
  {
    if s != [] {
      if IsSpace(s[0]) {
        var t := s[SpaceRun(s)..];
        CollapseSingleSpaced(t);
        var r := Collapse(s);
        assert r == " " + Collapse(t);
        forall i | 0 <= i < |r| && IsSpace(r[i])
          ensures r[i] == ' ' && (i + 1 < |r| ==> !IsSpace(r[i + 1]))
        {
          if i > 0 {
            assert r[i] == Collapse(t)[i - 1];
          }
        }
      } else {
        CollapseSingleSpaced(s[1..]);
        var r := Collapse(s);
        forall i | 0 <= i < |r| && IsSpace(r[i])
          ensures r[i] == ' ' && (i + 1 < |r| ==> !IsSpace(r[i + 1]))
        {
          assert i > 0;
          assert r[i] == Collapse(s[1..])[i - 1];
        }
      }
    }
  }

  /** Collapsing changes nothing in text that is already single-spaced. */
  lemma {:induction false} CollapseKeepsSingleSpaced(s: string)
    requires SingleSpaced(s)
    ensures Collapse(s) == s
    decreases |s|
  {
    if s != [] {
      SliceSingleSpaced(s, 1, |s|);
      assert s[1..|s|] == s[1..];
      CollapseKeepsSingleSpaced(s[1..]);
      if IsSpace(s[0]) {
        SingleSpacedRun(s);
      }
    }
  }

  lemma SingleSpacedRun(s: string)
    requires SingleSpaced(s) && s != [] && IsSpace(s[0])
    ensures s[0] == ' ' && SpaceRun(s) == 1
  {
    assert 1 < |s| ==> !IsSpace(s[1]);
    assert 1 < |s| ==> s[1..][0] == s[1];
  }

  lemma SliceSingleSpaced(s: string, a: nat, b: nat)
    requires SingleSpaced(s) && a <= b <= |s|
    ensures SingleSpaced(s[a..b])
  {
    var t := s[a..b];
    forall i | 0 <= i < |t| && IsSpace(t[i])
      ensures t[i] == ' ' && (i + 1 < |t| ==> !IsSpace(t[i + 1]))
    {
      assert t[i] == s[a + i];
      if i + 1 < |t| {
        assert t[i + 1] == s[a + i + 1];
      }
    }
  }

  /** In single-spaced text, the gap rewrite between move and line letters
      rewrites every gap to the one space it already is. */
  lemma {:induction false} MoveLineGapsKeepsSingleSpaced(s: string)
    requires SingleSpaced(s)
    ensures MoveLineGaps(s) == s
    decreases |s|
  {
    if s != [] {
      var k := SpaceRun(s[1..]);
      if IsMoveOrLine(s[0]) && k >= 1 && 1 + k < |s| && IsMoveOrLine(s[1 + k]) {
        assert s[1..][0] == s[1];
        SingleGap(s);
        SliceSingleSpaced(s, 3, |s|);
        MoveLineGapsKeepsSingleSpaced(s[3..]);
        GapKept(s);
      } else {
        SliceSingleSpaced(s, 1, |s|);
        MoveLineGapsKeepsSingleSpaced(s[1..]);
        PlainKept(s);
      }
    }
  }

  /** A one-space gap between move and line letters is rewritten to itself. */
  lemma GapKept(s: string)
    requires |s| >= 3 && s[1] == ' ' && SpaceRun(s[1..]) == 1
    requires IsMoveOrLine(s[0]) && IsMoveOrLine(s[2])
    requires MoveLineGaps(s[3..]) == s[3..]
    ensures MoveLineGaps(s) == s
  {
    assert s == [s[0], ' ', s[2]] + s[3..];
  }

  /** A character that starts no gap rewrite is kept. */
  lemma PlainKept(s: string)
    requires s != []
    requires var k := SpaceRun(s[1..]);
      !(IsMoveOrLine(s[0]) && k >= 1 && 1 + k < |s| && IsMoveOrLine(s[1 + k]))
    requires MoveLineGaps(s[1..]) == s[1..]
    ensures MoveLineGaps(s) == s
  {
    assert s == [s[0]] + s[1..];
  }

  /** In single-spaced text, a gap after the first character is one space. */
  lemma SingleGap(s: string)
    requires SingleSpaced(s) && 2 <= |s| && IsSpace(s[1])
    ensures s[1] == ' ' && SpaceRun(s[1..]) == 1
  {
    assert s[1..][0] == s[1];
    if |s| > 2 {
      assert !IsSpace(s[2]);
      assert s[1..][1..] == s[2..] && s[2..][0] == s[2];
    } else {
      assert s[1..][1..] == [];
    }
  }

  /** The trimmed text is a slice of its input. */
  lemma {:induction false} TrimEndIsPrefix(s: string)
    ensures TrimEnd(s) == s[..|TrimEnd(s)|]
  {
  }

  /** The second rewrite of optimizePathData never changes anything: after the
      first one, every gap between two letters is already a single space. */
  lemma MoveLineRewriteIsNoOp(s: string)
    ensures MoveLineGaps(Trim(Collapse(s))) == Trim(Collapse(s))
  {
    var c := Collapse(s);
    CollapseSingleSpaced(s);
    var t := c[SpaceRun(c)..];
    SliceSingleSpaced(c, SpaceRun(c), |c|);
    TrimEndIsPrefix(t);
    SliceSingleSpaced(t, 0, |TrimEnd(t)|);
    MoveLineGapsKeepsSingleSpaced(Trim(c));
  }

  /** A whole number written with two zero decimals loses them. */
  lemma DropZeroDecimalsOfNumber(d: string, rest: string)
    requires d != [] && forall i | 0 <= i < |d| :: IsDigit(d[i])
    ensures DropZeroDecimals(d + ".00" + rest) == d + DropZeroDecimals(rest)
  {
    var s := d + ".00" + rest;
    DigitRunOf(d, ".00" + rest);
    assert s == d + (".00" + rest);
    assert s[|d|..|d| + 3] == ".00" && s[..|d|] == d && s[|d| + 3..] == rest;
  }

  lemma {:induction false} DigitRunOf(d: string, rest: string)
    requires forall i | 0 <= i < |d| :: IsDigit(d[i])
    requires rest == [] || !IsDigit(rest[0])
    ensures DigitRun(d + rest) == |d|
  {
    if d != [] {
      assert (d + rest)[1..] == d[1..] + rest;
      DigitRunOf(d[1..], rest);
    } else {
      assert d + rest == rest;
    }
  }
}
