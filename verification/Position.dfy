/** Closeness and distance on the sky as the queries of msssprocess.py write them out. */
module Positions {
  import opened Options
  import opened Averages
  import opened Associations

  /** Sine and cosine of angles in degrees, and the expansion in ra of a distance away from the poles, which the
      database function alpha computes from them. */
  datatype Trig = Trig(sin: real -> real, cos: real -> real, spread: (real, real) -> real)

  function Alpha(g: Trig, theta: real, decl: real): real {
    if (if decl < 0.0 then -decl else decl) + theta > 89.9 then 180.0 else g.spread(theta, decl)
  }

  function X(g: Trig, ra: real, decl: real): real { g.cos(decl) * g.cos(ra) }

  function Y(g: Trig, ra: real, decl: real): real { g.cos(decl) * g.sin(ra) }

  function Z(g: Trig, decl: real): real { g.sin(decl) }

  /** The inner product of the positions of a row and a source, without the part along the axis. */
  function Across(g: Trig, r: Row, s: Source): real {
    X(g, r.wmRa, r.wmDecl) * X(g, s.ra, s.decl) + Y(g, r.wmRa, r.wmDecl) * Y(g, s.ra, s.decl)
  }

  predicate InWindows(g: Trig, dataset: int, bmaj: real, r: Row, s: Source) {
    && r.dataset == dataset && InZones(r, s, bmaj) && InWindow(r, s, bmaj)
    && s.ra - Alpha(g, bmaj, s.decl) <= r.wmRa <= s.ra + Alpha(g, bmaj, s.decl)
  }

  /** The expression of all queries but one. */
  predicate Close(g: Trig, dataset: int, bmaj: real, r: Row, s: Source) {
    InWindows(g, dataset, bmaj, r, s) && Across(g, r, s) + Z(g, r.wmDecl) * Z(g, s.decl) > g.cos(bmaj)
  }

  /** The expression of _insert_new_assocs_by_bmaj, which has the row for the source in one place. */
  predicate CloseAssoc(g: Trig, dataset: int, bmaj: real, r: Row, s: Source) {
    InWindows(g, dataset, bmaj, r, s) && Across(g, r, s) + Z(g, r.wmDecl) * Z(g, r.wmDecl) > g.cos(bmaj)
  }

  /** The two expressions differ with the sine of the row's declination times how much farther north it is. */
  lemma AssocAgainstClose(g: Trig, dataset: int, bmaj: real, r: Row, s: Source)
    ensures Z(g, r.wmDecl) * (Z(g, r.wmDecl) - Z(g, s.decl)) >= 0.0 && Close(g, dataset, bmaj, r, s) ==>
      CloseAssoc(g, dataset, bmaj, r, s)
    ensures Z(g, r.wmDecl) * (Z(g, r.wmDecl) - Z(g, s.decl)) <= 0.0 && CloseAssoc(g, dataset, bmaj, r, s) ==>
      Close(g, dataset, bmaj, r, s)
  {
  }

  function Square(x: real): real { x * x }

  /** The square of the chord: the queries compare the angle, which grows with it. */
  function Chord(g: Trig, r: Row, s: Source): real {
    Square(X(g, r.wmRa, r.wmDecl) - X(g, s.ra, s.decl)) + Square(Y(g, r.wmRa, r.wmDecl) - Y(g, s.ra, s.decl)) +
    Square(Z(g, r.wmDecl) - Z(g, s.decl))
  }

  /** The sine and cosine of an angle, as far as the queries use them. */
  predicate OnCircle(g: Trig, angle: real) { Square(g.sin(angle)) + Square(g.cos(angle)) == 1.0 }

  /** Positions are of length one. */
  lemma OnSphere(g: Trig, ra: real, decl: real)
    requires OnCircle(g, ra) && OnCircle(g, decl)
    ensures Square(X(g, ra, decl)) + Square(Y(g, ra, decl)) + Square(Z(g, decl)) == 1.0
  {
    var c, a, b := g.cos(decl), g.cos(ra), g.sin(ra);
    assert Square(c * a) + Square(c * b) == Square(c) * (Square(a) + Square(b));
  }

  lemma Expand(a: real, b: real)
    ensures Square(a - b) == Square(a) + Square(b) - 2.0 * (a * b)
  {
  }

  /** Within the windows, closeness and distance are the same measure: what is close is what is nearer than bmaj,
      so that no source farther than a close one is left out before it. */
  lemma CloseIsNear(g: Trig, dataset: int, bmaj: real, r: Row, s: Source)
    requires OnCircle(g, r.wmRa) && OnCircle(g, r.wmDecl) && OnCircle(g, s.ra) && OnCircle(g, s.decl)
    ensures Close(g, dataset, bmaj, r, s) <==>
      InWindows(g, dataset, bmaj, r, s) && Chord(g, r, s) < 2.0 - 2.0 * g.cos(bmaj)
  {
    var x1, y1, z1 := X(g, r.wmRa, r.wmDecl), Y(g, r.wmRa, r.wmDecl), Z(g, r.wmDecl);
    var x2, y2, z2 := X(g, s.ra, s.decl), Y(g, s.ra, s.decl), Z(g, s.decl);
    OnSphere(g, r.wmRa, r.wmDecl);
    OnSphere(g, s.ra, s.decl);
    Expand(x1, x2);
    Expand(y1, y2);
    Expand(z1, z2);
    hide Square, X, Y, Z;
    assert Chord(g, r, s) == 2.0 - 2.0 * (x1 * x2 + y1 * y2 + z1 * z2);
  }

  /** Near a pole, north or south, the window in right ascension leaves out nothing within half a turn. */
  lemma PolesKeepAll(g: Trig, dataset: int, bmaj: real, r: Row, s: Source)
    requires (s.decl + bmaj > 89.9 || bmaj - s.decl > 89.9) && -180.0 <= r.wmRa - s.ra <= 180.0
    ensures InWindows(g, dataset, bmaj, r, s) <==> r.dataset == dataset && InZones(r, s, bmaj) && InWindow(r, s, bmaj)
  {
  }

  /** The source that a query joins by its id. */
  function SourceWithId(sources: seq<Source>, x: Id): Option<Source> {
    if sources == [] then None
    else if sources[|sources| - 1].id == x then Some(sources[|sources| - 1])
    else SourceWithId(sources[..|sources| - 1], x)
  }

  function Distance(g: Trig, sources: seq<Source>, r: Row, x: Id): real {
    match SourceWithId(sources, x)
    case None => 0.0
    case Some(s) => Chord(g, r, s)
  }

  /** An image with the queries' own expressions. */
  function ImageOf(g: Trig, dataset: int, bmaj: real, sources: seq<Source>): Image {
    Image(dataset, sources,
          Sky((r, s) => Close(g, dataset, bmaj, r, s), (r, x) => Distance(g, sources, r, x)),
          (r, s) => CloseAssoc(g, dataset, bmaj, r, s))
  }

  // ---------------------------------------------------------------- values of sine and cosine

  /** The values used: those at multiples of 90 degrees, symmetry, and bounds that hold with room to spare. */
  predicate Values(g: Trig) {
    && g.sin(0.0) == 0.0 && g.cos(0.0) == 1.0 && g.sin(90.0) == 1.0 && g.cos(90.0) == 0.0
    && g.sin(180.0) == 0.0 && g.cos(180.0) == -1.0
    && g.sin(-1.0) == -g.sin(1.0) && g.cos(-1.0) == g.cos(1.0)
    && g.sin(-0.5) == -g.sin(0.5) && g.cos(-0.5) == g.cos(0.5)
    && Square(g.sin(1.0)) + Square(g.cos(1.0)) == 1.0 && Square(g.sin(0.5)) + Square(g.cos(0.5)) == 1.0
    && 0.0 < g.cos(1.1) < g.cos(1.0) < g.cos(0.5) < 1.0 && g.sin(0.5) > 0.0
    && g.sin(1.0) != g.sin(0.5)
    && g.cos(89.0) > 0.0 && g.cos(89.5) > 0.0
    && g.sin(89.0) * g.sin(89.5) < g.cos(1.1) < g.sin(89.0) && g.cos(1.1) < Square(g.sin(89.5))
    && g.spread(1.1, 0.0) >= 0.0 && g.spread(1.1, 1.0) >= 0.0 && g.spread(1.1, -1.0) >= 0.0
    && g.spread(1.1, 0.5) >= 0.0
  }

  /** They do not contradict each other. */
  lemma ValuesAgree() returns (g: Trig)
    ensures Values(g)
  {
    var sin := (a: real) =>
      if a == 90.0 then 1.0 else if a == 1.0 then 0.6 else if a == -1.0 then -0.6
      else if a == 0.5 then 0.28 else if a == -0.5 then -0.28
      else if a == 89.0 then 0.8 else if a == 89.5 then 0.96 else 0.0;
    var cos := (a: real) =>
      if a == 90.0 then 0.0 else if a == 180.0 then -1.0 else if a == 1.0 || a == -1.0 then 0.8
      else if a == 0.5 || a == -0.5 then 0.96 else if a == 1.1 then 0.78
      else if a == 89.0 then 0.6 else if a == 89.5 then 0.28 else 1.0;
    g := Trig(sin, cos, (theta: real, decl: real) => 1.0);
  }
}
