/**
 * The brush tool: a stack-based flood fill over 4-neighbours.
 *
 * Selecting the tool takes a snapshot of the canvas, samples the target
 * colour at (0, 0) of that snapshot and allocates one `visited` grid; every
 * later click reuses all three. The colour test reads the snapshot, while
 * the writes go to the live canvas.
 */
module FloodFill {
  import opened Wrappers
  import opened Numeric
  import opened Raster

  /** The four neighbours, in the order the fill pushes them. */
  function Neighbours(p: Point): (r: seq<Point>)
    ensures |r| == 4
    ensures forall q :: q in r <==> Adjacent(p, q)
  {
    [Point(p.x + 1, p.y), Point(p.x - 1, p.y), Point(p.x, p.y + 1), Point(p.x, p.y - 1)]
  }

  /** 4-connectivity: one step left, right, up or down. */
  predicate Adjacent(p: Point, q: Point) {
    || (p.y == q.y && (q.x == p.x + 1 || q.x == p.x - 1))
    || (p.x == q.x && (q.y == p.y + 1 || q.y == p.y - 1))
  }

  /** The colour test: the sampled target colour, or one of the two blank-canvas colours. */
  predicate IsFillColor(target: RGB, c: RGB) {
    c == target || c == WHITESMOKE || c == WHITE
  }

  /** What one activation of the brush tool keeps between clicks. */
  datatype BrushTool = BrushTool(snapshot: Image, target: RGB, visited: set<Point>)

  predicate ValidTool(t: BrushTool) {
    && t.snapshot.Valid()
    && (forall p :: p in t.visited ==> t.snapshot.InBounds(p.x, p.y))
  }

  /**
   * Selecting the tool. Sampling (0, 0) fails on an empty canvas, and the
   * exception is swallowed before any handler is installed.
   */
  function Activate(snapshot: Image): (r: Option<BrushTool>)
    requires snapshot.Valid()
    ensures r.Some? <==> snapshot.width > 0 && snapshot.height > 0
    ensures r.Some? ==> && ValidTool(r.value)
                        && r.value.snapshot == snapshot
                        && r.value.visited == {}
                        && r.value.target == snapshot.At(0, 0)
  {
    if snapshot.width > 0 && snapshot.height > 0 then
      Some(BrushTool(snapshot, snapshot.At(0, 0), {}))
    else
      None
  }

  /** In the snapshot, and of a colour the fill accepts. */
  predicate Fillable(t: BrushTool, p: Point) {
    && t.snapshot.Valid()
    && t.snapshot.InBounds(p.x, p.y)
    && IsFillColor(t.target, t.snapshot.At(p.x, p.y))
  }

  /** Fillable and not yet visited in this activation. */
  predicate Free(t: BrushTool, p: Point) {
    Fillable(t, p) && p !in t.visited
  }

  /** A 4-connected walk through free pixels. */
  ghost predicate IsRegionPath(t: BrushTool, path: seq<Point>) {
    && |path| > 0
    && (forall i :: 0 <= i < |path| ==> Free(t, path[i]))
    && (forall i :: 0 <= i < |path| - 1 ==> Adjacent(path[i], path[i + 1]))
  }

  /** `p` belongs to the free 4-connected region that contains `seed`. */
  ghost predicate InRegion(t: BrushTool, seed: Point, p: Point) {
    exists path :: IsRegionPath(t, path) && path[0] == seed && path[|path| - 1] == p
  }

  /** The pixel a press event lands on: both coordinates go through `(int)`. */
  function SeedOf(ex: real, ey: real): Point {
    Point(JavaIntCast(ex), JavaIntCast(ey))
  }

  ghost function Cells(w: nat, h: nat): set<Point> {
    set x, y | 0 <= x < w && 0 <= y < h :: Point(x, y)
  }

  /** Visiting an unvisited cell shrinks the set of unvisited cells: the fill terminates. */
  lemma FillShrinksUnvisited(w: nat, h: nat, visited: set<Point>, p: Point)
    requires 0 <= p.x < w && 0 <= p.y < h && p !in visited
    ensures |Cells(w, h) - (visited + {p})| < |Cells(w, h) - visited|
  {
    assert p == Point(p.x, p.y);
    assert p in Cells(w, h) - visited;
    assert Cells(w, h) - (visited + {p}) == (Cells(w, h) - visited) - {p};
  }

  /** The live canvas shows `color` exactly at the written pixels. */
  ghost predicate Painted(canvas: Image, img: Image, writes: seq<Point>, color: RGB) {
    && canvas.Valid() && img.Valid() && SameSize(img, canvas)
    && forall x, y :: canvas.InBounds(x, y) ==>
         img.At(x, y) == if Point(x, y) in writes then color else canvas.At(x, y)
  }

  /** The writes are distinct and are exactly the pixels visited since `v0`. */
  ghost predicate WritesAreFresh(writes: seq<Point>, visited: set<Point>, v0: set<Point>) {
    && (forall p :: p in writes <==> p in visited - v0)
    && (forall i, j :: 0 <= i < j < |writes| ==> writes[i] != writes[j])
  }

  /** Every stacked point is the seed or a neighbour of a pixel filled in this click. */
  ghost predicate StackOrigins(seed: Point, stack: seq<Point>, origin: seq<Point>, filled: set<Point>) {
    && |origin| == |stack|
    && forall i :: 0 <= i < |stack| ==>
         stack[i] == seed || (origin[i] in filled && Adjacent(origin[i], stack[i]))
  }

  /** Every pixel filled in this click has a recorded region path from the seed. */
  ghost predicate PathsWitness(t: BrushTool, seed: Point, paths: map<Point, seq<Point>>, filled: set<Point>) {
    forall p :: p in filled ==>
      && p in paths
      && IsRegionPath(t, paths[p])
      && paths[p][0] == seed
      && paths[p][|paths[p]| - 1] == p
  }

  /** Still on the stack, already visited, or never fillable. */
  ghost predicate Settled(t: BrushTool, stack: seq<Point>, visited: set<Point>, q: Point) {
    q in stack || q in visited || !Fillable(t, q)
  }

  /** No fillable neighbour of a filled pixel, nor the seed, has been lost. */
  ghost predicate Frontier(t: BrushTool, seed: Point, stack: seq<Point>, visited: set<Point>) {
    && Settled(t, stack, visited, seed)
    && forall p :: p in visited - t.visited ==>
         forall q :: q in Neighbours(p) ==> Settled(t, stack, visited, q)
  }

  /** What holds between iterations of the fill loop of one click. */
  ghost predicate FillInvariant(tool: BrushTool, canvas: Image, color: RGB, seed: Point,
                                visited: set<Point>, img: Image, writes: seq<Point>, stack: seq<Point>,
                                origin: seq<Point>, paths: map<Point, seq<Point>>)
  {
    && SameSize(canvas, tool.snapshot)
    && tool.visited <= visited
    && (forall p :: p in visited ==> tool.snapshot.InBounds(p.x, p.y))
    && (forall p :: p in visited - tool.visited ==> Fillable(tool, p))
    && WritesAreFresh(writes, visited, tool.visited)
    && Painted(canvas, img, writes, color)
    && StackOrigins(seed, stack, origin, visited - tool.visited)
    && PathsWitness(tool, seed, paths, visited - tool.visited)
    && Frontier(tool, seed, stack, visited)
  }

  /**
   * One press with the brush tool active. `writes` lists the
   * `PixelWriter.setColor` calls in the order they happen.
   */
  method Click(tool: BrushTool, canvas: Image, ex: real, ey: real, color: RGB)
    returns (canvas': Image, tool': BrushTool, writes: seq<Point>)
    requires ValidTool(tool) && canvas.Valid() && SameSize(canvas, tool.snapshot)
    requires ValidColor(color)
    ensures tool'.snapshot == tool.snapshot && tool'.target == tool.target
    ensures ValidTool(tool') && tool.visited <= tool'.visited
    // Every write marks a pixel as visited, and no pixel is written twice.
    ensures WritesAreFresh(writes, tool'.visited, tool.visited)
    // The written pixels are exactly the free 4-connected region of the seed.
    ensures forall p :: p in writes <==> InRegion(tool, SeedOf(ex, ey), p)
    // Written pixels take the picker colour; all others keep their value.
    ensures Painted(canvas, canvas', writes, color)
    ensures !canvas.InBounds(SeedOf(ex, ey).x, SeedOf(ex, ey).y) ==>
              writes == [] && canvas' == canvas && tool' == tool
  {
    var seed := SeedOf(ex, ey);
    var w, h := canvas.width, canvas.height;
    if !(0 <= seed.x < w && 0 <= seed.y < h) {
      forall p
        ensures !InRegion(tool, seed, p)
      {
        NoRegionOffCanvas(tool, seed, p);
      }
      return canvas, tool, [];
    }
    var snapshot, target := tool.snapshot, tool.target;
    var visited := tool.visited;
    var img := canvas;
    var stack := [seed];
    writes := [];
    ghost var origin: seq<Point> := [seed];
    ghost var paths: map<Point, seq<Point>> := map[];
    InitialFillInvariant(tool, canvas, color, seed);
    while |stack| > 0
      invariant FillInvariant(tool, canvas, color, seed, visited, img, writes, stack, origin, paths)
      invariant forall p :: p in visited ==> snapshot.InBounds(p.x, p.y)
      decreases |Cells(w, h) - visited|, |stack|
    {
      var p := stack[|stack| - 1];
      ghost var o := origin[|origin| - 1];
      ghost var stack0, origin0 := stack, origin;
      stack := stack[..|stack| - 1];
      origin := origin[..|origin| - 1];
      if p.x < 0 || p.x >= w || p.y < 0 || p.y >= h || p in visited {
        DiscardKeepsInvariant(tool, canvas, color, seed, visited, img, writes, stack0, origin0, paths);
        continue;
      }
      var current := snapshot.At(p.x, p.y);
      if IsFillColor(target, current) {
        ghost var path := if p == seed then [seed] else paths[o] + [p];
        FillKeepsInvariant(tool, canvas, color, seed, visited, img, writes, stack0, origin0, paths);
        FillShrinksUnvisited(w, h, visited, p);
        img := img.Put(p.x, p.y, color);
        visited := visited + {p};
        writes := writes + [p];
        paths := paths[p := path];
        stack := stack + Neighbours(p);
        origin := origin + [p, p, p, p];
      } else {
        DiscardKeepsInvariant(tool, canvas, color, seed, visited, img, writes, stack0, origin0, paths);
      }
    }
    FinalFillInvariant(tool, canvas, color, seed, visited, img, writes, origin, paths);
    tool' := tool.(visited := visited);
    canvas' := img;
  }

  /**
   * Two presses in one activation. The second press never rewrites a pixel
   * the first one filled, because the shared `visited` grid still marks it;
   * afterwards `visited` holds exactly the earlier marks and both presses' writes.
   */
  method ClickTwice(tool: BrushTool, canvas: Image, ex1: real, ey1: real, ex2: real, ey2: real,
                    color1: RGB, color2: RGB)
    returns (canvas': Image, tool': BrushTool, writes1: seq<Point>, writes2: seq<Point>)
    requires ValidTool(tool) && canvas.Valid() && SameSize(canvas, tool.snapshot)
    requires ValidColor(color1) && ValidColor(color2)
    ensures forall p :: p in writes1 ==> p !in writes2
    ensures tool'.visited == tool.visited + (set p | p in writes1) + (set p | p in writes2)
  {
    var canvas1, tool1;
    canvas1, tool1, writes1 := Click(tool, canvas, ex1, ey1, color1);
    canvas', tool', writes2 := Click(tool1, canvas1, ex2, ey2, color2);
    VisitedIsWrites(writes1, tool1.visited, tool.visited);
    VisitedIsWrites(writes2, tool'.visited, tool1.visited);
  }

  /** With fresh writes, the visited set is the earlier marks plus the written pixels. */
  lemma VisitedIsWrites(writes: seq<Point>, visited: set<Point>, v0: set<Point>)
    requires WritesAreFresh(writes, visited, v0) && v0 <= visited
    ensures visited == v0 + (set p | p in writes)
  {
  }

  lemma InitialFillInvariant(tool: BrushTool, canvas: Image, color: RGB, seed: Point)
    requires ValidTool(tool) && canvas.Valid() && SameSize(canvas, tool.snapshot)
    ensures FillInvariant(tool, canvas, color, seed, tool.visited, canvas, [], [seed], [seed], map[])
  {
  }

  lemma FinalFillInvariant(tool: BrushTool, canvas: Image, color: RGB, seed: Point, visited: set<Point>,
                           img: Image, writes: seq<Point>, origin: seq<Point>, paths: map<Point, seq<Point>>)
    requires FillInvariant(tool, canvas, color, seed, visited, img, writes, [], origin, paths)
    ensures forall p :: p in writes <==> InRegion(tool, seed, p)
  {
    FrontierClosesRegion(tool, seed, paths, visited);
  }

  /** Popping a point that is off the canvas, visited or of another colour keeps the invariant. */
  lemma DiscardKeepsInvariant(tool: BrushTool, canvas: Image, color: RGB, seed: Point,
                              visited: set<Point>, img: Image, writes: seq<Point>, stack: seq<Point>,
                              origin: seq<Point>, paths: map<Point, seq<Point>>)
    requires FillInvariant(tool, canvas, color, seed, visited, img, writes, stack, origin, paths)
    requires |stack| > 0
    requires var p := stack[|stack| - 1]; p in visited || !Fillable(tool, p)
    ensures FillInvariant(tool, canvas, color, seed, visited, img, writes,
                          stack[..|stack| - 1], origin[..|origin| - 1], paths)
  {
    var p := stack[|stack| - 1];
    assert stack == stack[..|stack| - 1] + [p];
    PopKeepsOrigins(seed, stack, origin, visited - tool.visited);
    PopSettled(tool, seed, stack[..|stack| - 1], visited, p);
  }

  /** Popping a free point, painting it and pushing its neighbours keeps the invariant. */
  lemma FillKeepsInvariant(tool: BrushTool, canvas: Image, color: RGB, seed: Point,
                           visited: set<Point>, img: Image, writes: seq<Point>, stack: seq<Point>,
                           origin: seq<Point>, paths: map<Point, seq<Point>>)
    requires FillInvariant(tool, canvas, color, seed, visited, img, writes, stack, origin, paths)
    requires ValidColor(color) && |stack| > 0
    requires var p := stack[|stack| - 1]; p !in visited && Fillable(tool, p)
    ensures var p, o := stack[|stack| - 1], origin[|origin| - 1];
      && (p == seed || o in paths)
      && FillInvariant(tool, canvas, color, seed, visited + {p}, img.Put(p.x, p.y, color), writes + [p],
                       stack[..|stack| - 1] + Neighbours(p), origin[..|origin| - 1] + [p, p, p, p],
                       paths[p := if p == seed then [seed] else paths[o] + [p]])
  {
    var p, o := stack[|stack| - 1], origin[|origin| - 1];
    var stack', origin' := stack[..|stack| - 1], origin[..|origin| - 1];
    var filled := visited - tool.visited;
    assert stack == stack' + [p];
    assert (visited + {p}) - tool.visited == filled + {p};
    PopKeepsOrigins(seed, stack, origin, filled);
    ExtendRegionPath(tool, seed, paths, filled, o, p);
    var path := if p == seed then [seed] else paths[o] + [p];
    RecordPath(tool, seed, paths, filled, p, path);
    FillKeepsFresh(writes, visited, tool.visited, p);
    FillKeepsOrigins(seed, stack', origin', filled, p);
    FillKeepsFrontier(tool, seed, stack', visited, p);
    PaintKeepsAgreement(canvas, img, writes, color, p);
  }

  /** Discarding a popped point that is settled without the stack keeps the frontier. */
  lemma PopSettled(t: BrushTool, seed: Point, stack: seq<Point>, visited: set<Point>, p: Point)
    requires Frontier(t, seed, stack + [p], visited)
    requires p in visited || !Fillable(t, p)
    ensures Frontier(t, seed, stack, visited)
  {
    forall q | Settled(t, stack + [p], visited, q)
      ensures Settled(t, stack, visited, q)
    {
      if q != p {
        assert q in stack + [p] ==> q in stack;
      }
    }
  }

  /** Filling `p` and pushing its neighbours keeps the frontier. */
  lemma FillKeepsFrontier(t: BrushTool, seed: Point, stack: seq<Point>, visited: set<Point>, p: Point)
    requires Frontier(t, seed, stack + [p], visited)
    ensures Frontier(t, seed, stack + Neighbours(p), visited + {p})
  {
    var stack' := stack + Neighbours(p);
    forall q | Settled(t, stack + [p], visited, q)
      ensures Settled(t, stack', visited + {p}, q)
    {
      if q != p && q in stack + [p] {
        assert q in stack;
      }
    }
    forall q | q in Neighbours(p)
      ensures Settled(t, stack', visited + {p}, q)
    {
      assert q in stack';
    }
  }

  /** Popping keeps the origins of the rest, and the popped point has one too. */
  lemma PopKeepsOrigins(seed: Point, stack: seq<Point>, origin: seq<Point>, filled: set<Point>)
    requires StackOrigins(seed, stack, origin, filled) && |stack| > 0
    ensures StackOrigins(seed, stack[..|stack| - 1], origin[..|origin| - 1], filled)
    ensures var p, o := stack[|stack| - 1], origin[|origin| - 1];
      p == seed || (o in filled && Adjacent(o, p))
  {
  }

  /** Filling `p` keeps every stacked point traceable to the seed or a filled pixel. */
  lemma FillKeepsOrigins(seed: Point, stack: seq<Point>, origin: seq<Point>, filled: set<Point>, p: Point)
    requires StackOrigins(seed, stack, origin, filled)
    ensures StackOrigins(seed, stack + Neighbours(p), origin + [p, p, p, p], filled + {p})
  {
    var stack', origin' := stack + Neighbours(p), origin + [p, p, p, p];
    forall i | 0 <= i < |stack'|
      ensures stack'[i] == seed || (origin'[i] in filled + {p} && Adjacent(origin'[i], stack'[i]))
    {
      if i >= |stack| {
        assert stack'[i] in Neighbours(p);
      }
    }
  }

  /** Painting `p` keeps the canvas equal to the original outside the writes. */
  lemma PaintKeepsAgreement(canvas: Image, img: Image, writes: seq<Point>, color: RGB, p: Point)
    requires Painted(canvas, img, writes, color) && ValidColor(color)
    requires img.InBounds(p.x, p.y)
    ensures Painted(canvas, img.Put(p.x, p.y, color), writes + [p], color)
  {
    var img' := img.Put(p.x, p.y, color);
    forall x, y | canvas.InBounds(x, y)
      ensures img'.At(x, y) == if Point(x, y) in writes + [p] then color else canvas.At(x, y)
    {
      if x != p.x || y != p.y {
        assert Point(x, y) != p;
        assert Point(x, y) in writes + [p] <==> Point(x, y) in writes;
      }
    }
  }

  /** A free pixel popped as the seed, or next to a filled pixel, extends a region path. */
  lemma ExtendRegionPath(t: BrushTool, seed: Point, paths: map<Point, seq<Point>>, filled: set<Point>,
                         o: Point, p: Point)
    requires PathsWitness(t, seed, paths, filled)
    requires Free(t, p)
    requires p == seed || (o in filled && Adjacent(o, p))
    ensures var path := if p == seed then [seed] else paths[o] + [p];
      IsRegionPath(t, path) && path[0] == seed && path[|path| - 1] == p
  {
    if p != seed {
      var prev := paths[o];
      var path := prev + [p];
      forall i | 0 <= i < |path|
        ensures Free(t, path[i])
      {
        if i < |prev| {
          assert path[i] == prev[i];
        }
      }
      forall i | 0 <= i < |path| - 1
        ensures Adjacent(path[i], path[i + 1])
      {
        if i < |prev| - 1 {
          assert path[i] == prev[i] && path[i + 1] == prev[i + 1];
        } else {
          assert path[i] == o;
        }
      }
    }
  }

  lemma RecordPath(t: BrushTool, seed: Point, paths: map<Point, seq<Point>>, filled: set<Point>,
                   p: Point, path: seq<Point>)
    requires PathsWitness(t, seed, paths, filled)
    requires IsRegionPath(t, path) && path[0] == seed && path[|path| - 1] == p
    ensures PathsWitness(t, seed, paths[p := path], filled + {p})
  {
  }

  /** Appending a pixel that was not visited keeps the write log fresh. */
  lemma FillKeepsFresh(writes: seq<Point>, visited: set<Point>, v0: set<Point>, p: Point)
    requires WritesAreFresh(writes, visited, v0) && v0 <= visited && p !in visited
    ensures WritesAreFresh(writes + [p], visited + {p}, v0)
  {
    var writes' := writes + [p];
    forall i, j | 0 <= i < j < |writes'|
      ensures writes'[i] != writes'[j]
    {
      if j == |writes| {
        assert writes'[i] in writes;
      } else {
        assert writes'[i] == writes[i] && writes'[j] == writes[j];
      }
    }
  }

  /** A region path must start at a free seed, so a seed off the canvas has no region. */
  lemma NoRegionOffCanvas(t: BrushTool, seed: Point, p: Point)
    requires !t.snapshot.InBounds(seed.x, seed.y)
    ensures !InRegion(t, seed, p)
  {
  }

  /** Once the stack is empty, the filled pixels are exactly the region of the seed. */
  lemma FrontierClosesRegion(t: BrushTool, seed: Point, paths: map<Point, seq<Point>>, visited: set<Point>)
    requires t.visited <= visited
    requires PathsWitness(t, seed, paths, visited - t.visited)
    requires Frontier(t, seed, [], visited)
    ensures forall p :: p in visited - t.visited <==> InRegion(t, seed, p)
  {
    var filled := visited - t.visited;
    forall p | p in filled
      ensures InRegion(t, seed, p)
    {
      assert IsRegionPath(t, paths[p]);
    }
    forall p | InRegion(t, seed, p)
      ensures p in filled
    {
      var path :| IsRegionPath(t, path) && path[0] == seed && path[|path| - 1] == p;
      assert Free(t, path[0]);
      forall a | a in filled
        ensures forall q :: q in Neighbours(a) ==> q in filled || !Free(t, q)
      {
        assert forall q :: q in Neighbours(a) ==> Settled(t, [], visited, q);
      }
      RegionPathStaysInClosedSet(t, filled, path, |path| - 1);
    }
  }

  /**
   * A set that holds the start of a region path and every free neighbour of
   * its members holds the whole path.
   */
  lemma {:induction false} RegionPathStaysInClosedSet(t: BrushTool, filled: set<Point>, path: seq<Point>, k: nat)
    requires IsRegionPath(t, path) && k < |path|
    requires path[0] in filled
    requires forall p :: p in filled ==> forall q :: q in Neighbours(p) ==> q in filled || !Free(t, q)
    ensures path[k] in filled
  {
    if k > 0 {
      RegionPathStaysInClosedSet(t, filled, path, k - 1);
      assert Adjacent(path[k - 1], path[k]);
      assert path[k] in Neighbours(path[k - 1]);
    }
  }

  /** Manhattan distance between two pixels. */
  function Steps(a: Point, b: Point): nat {
    (if a.x <= b.x then b.x - a.x else a.x - b.x) + (if a.y <= b.y then b.y - a.y else a.y - b.y)
  }

  /** A 4-connected walk from `a` to `b`: along the row first, then along the column. */
  ghost function Walk(a: Point, b: Point): seq<Point>
    decreases Steps(a, b)
  {
    if a == b then [a]
    else if a.x < b.x then [a] + Walk(Point(a.x + 1, a.y), b)
    else if a.x > b.x then [a] + Walk(Point(a.x - 1, a.y), b)
    else if a.y < b.y then [a] + Walk(Point(a.x, a.y + 1), b)
    else [a] + Walk(Point(a.x, a.y - 1), b)
  }

  /** The walk is 4-connected, runs from `a` to `b`, and stays in their bounding box. */
  lemma {:induction false} WalkConnects(a: Point, b: Point)
    ensures var path := Walk(a, b);
      && |path| > 0 && path[0] == a && path[|path| - 1] == b
      && (forall i :: 0 <= i < |path| - 1 ==> Adjacent(path[i], path[i + 1]))
      && (forall i :: 0 <= i < |path| ==>
            && (a.x <= path[i].x <= b.x || b.x <= path[i].x <= a.x)
            && (a.y <= path[i].y <= b.y || b.y <= path[i].y <= a.y))
    decreases Steps(a, b)
  {
    if a != b {
      var next := if a.x < b.x then Point(a.x + 1, a.y)
                  else if a.x > b.x then Point(a.x - 1, a.y)
                  else if a.y < b.y then Point(a.x, a.y + 1)
                  else Point(a.x, a.y - 1);
      WalkConnects(next, b);
      var rest := Walk(next, b);
      assert Walk(a, b) == [a] + rest;
      assert Adjacent(a, rest[0]);
    }
  }

  /**
   * On a canvas whose every pixel passes the colour test (an all-white
   * canvas, say) and with nothing visited yet, the region of any seed on the
   * canvas is the whole canvas.
   */
  lemma WholeCanvasWhenEveryPixelMatches(t: BrushTool, seed: Point, p: Point)
    requires ValidTool(t) && t.visited == {}
    requires forall x, y :: t.snapshot.InBounds(x, y) ==> IsFillColor(t.target, t.snapshot.At(x, y))
    requires t.snapshot.InBounds(seed.x, seed.y) && t.snapshot.InBounds(p.x, p.y)
    ensures InRegion(t, seed, p)
  {
    WalkIsRegionPath(t, seed, p);
    var path := Walk(seed, p);
    PathWitnessesRegion(t, seed, p, path);
  }

  lemma WalkIsRegionPath(t: BrushTool, seed: Point, p: Point)
    requires ValidTool(t) && t.visited == {}
    requires forall x, y :: t.snapshot.InBounds(x, y) ==> IsFillColor(t.target, t.snapshot.At(x, y))
    requires t.snapshot.InBounds(seed.x, seed.y) && t.snapshot.InBounds(p.x, p.y)
    ensures var path := Walk(seed, p); IsRegionPath(t, path) && path[0] == seed && path[|path| - 1] == p
  {
    WalkConnects(seed, p);
    var path := Walk(seed, p);
    forall i | 0 <= i < |path|
      ensures Free(t, path[i])
    {
      var q := path[i];
      assert t.snapshot.InBounds(q.x, q.y);
    }
  }

  lemma PathWitnessesRegion(t: BrushTool, seed: Point, p: Point, path: seq<Point>)
    requires IsRegionPath(t, path) && path[0] == seed && path[|path| - 1] == p
    ensures InRegion(t, seed, p)
  {
  }
}
