/** The prism geometry cache (tritris3d.js:366-445). Shapes are symbolic:
    a vertex is a corner of the cell square (top-left, top-right,
    bottom-left, bottom-right) on the front or the back face of the
    extrusion. Float coordinates, normals and buffers are left out. */
module Geometry {
  import opened Board

  datatype Corner = TL | TR | BL | BR
  datatype Face = Front | Back
  datatype Vertex = Vertex(corner: Corner, face: Face)
  datatype Triangle = Triangle(a: Vertex, b: Vertex, c: Vertex)

  /** A flat quadrant triangle: three corners of the cell square. */
  datatype Def = Def(a: Corner, b: Corner, c: Corner)

  /** `_buildLocalTriangleDefs`, looked up by `subRow_subCol`. */
  function LocalDef(subRow: int, subCol: int): Option<Def>
  {
    if subRow == 0 && subCol == 0 then Some(Def(TL, TR, BL))
    else if subRow == 0 && subCol == 1 then Some(Def(TR, BR, TL))
    else if subRow == 1 && subCol == 0 then Some(Def(BL, TL, BR))
    else if subRow == 1 && subCol == 1 then Some(Def(BR, BL, TR))
    else None
  }

  /** The extruded prism of a flat triangle A, B, C: the front face, the
      back face with reversed winding, then two triangles for each of the
      sides AB, BC and CA. */
  function Prism(d: Def): seq<Triangle>
  {
    var a1, b1, c1 := Vertex(d.a, Front), Vertex(d.b, Front), Vertex(d.c, Front);
    var a2, b2, c2 := Vertex(d.a, Back), Vertex(d.b, Back), Vertex(d.c, Back);
    [ Triangle(a1, b1, c1),
      Triangle(c2, b2, a2),
      Triangle(a1, a2, b1), Triangle(b1, a2, b2),
      Triangle(b1, b2, c1), Triangle(c1, b2, c2),
      Triangle(c1, c2, a1), Triangle(a1, c2, a2) ]
  }

  /** The memo table, keyed by `prism_subRow_subCol`. */
  type Cache = map<(int, int), seq<Triangle>>

  /** Every cached entry is the prism of its own key's quadrant. */
  predicate Coherent(cache: Cache)
  {
    forall k :: k in cache ==> LocalDef(k.0, k.1).Some? && cache[k] == Prism(LocalDef(k.0, k.1).value)
  }

  /** The geometry handed back (none for an unknown quadrant) and the cache afterwards. */
  datatype Lookup = Lookup(geom: Option<seq<Triangle>>, cache: Cache)

  /** `_getTriangleGeometry`: a cached entry is returned as is; otherwise
      the quadrant's prism is built and remembered, and an unknown quadrant
      gives no geometry and leaves the cache alone. */
  function GetTriangleGeometry(cache: Cache, subRow: int, subCol: int): (r: Lookup)
    ensures (subRow, subCol) in cache ==> r == Lookup(Some(cache[(subRow, subCol)]), cache)
    ensures Coherent(cache) ==> (r.geom.None? <==> !IsQuadrant(subRow, subCol))
    ensures Coherent(cache) && IsQuadrant(subRow, subCol) ==>
      r.geom == Some(Prism(LocalDef(subRow, subCol).value))
    ensures Coherent(cache) ==> Coherent(r.cache)
    ensures r.cache.Keys == cache.Keys + (if IsQuadrant(subRow, subCol) then {(subRow, subCol)} else {})
    ensures forall k :: k in cache ==> k in r.cache && r.cache[k] == cache[k]
  {
    if (subRow, subCol) in cache then Lookup(Some(cache[(subRow, subCol)]), cache)
    else match LocalDef(subRow, subCol)
      case None => Lookup(None, cache)
      case Some(d) =>
        var g := Prism(d);
        Lookup(Some(g), cache[(subRow, subCol) := g])
  }

  /** Memoisation: asking again for a quadrant just looked up returns the
      same geometry and leaves the cache as it was. */
  lemma LookupTwice(cache: Cache, subRow: int, subCol: int)
    requires Coherent(cache)
    ensures var r1 := GetTriangleGeometry(cache, subRow, subCol);
      GetTriangleGeometry(r1.cache, subRow, subCol) == r1
  {
  }

  /** The cache can hold at most the four quadrant shapes. */
  lemma CacheHoldsAtMostFour(cache: Cache)
    requires Coherent(cache)
    ensures cache.Keys <= {(0, 0), (0, 1), (1, 0), (1, 1)}
    ensures |cache| <= 4
  {
    assert cache.Keys <= {(0, 0), (0, 1), (1, 0), (1, 1)} by {
      forall k | k in cache ensures k in {(0, 0), (0, 1), (1, 0), (1, 1)} {
        assert LocalDef(k.0, k.1).Some?;
      }
    }
    SubsetCard(cache.Keys, {(0, 0), (0, 1), (1, 0), (1, 1)});
  }

  lemma SubsetCard<T>(a: set<T>, b: set<T>)
    requires a <= b
    ensures |a| <= |b|
  {
    assert b == a + (b - a);
  }

  // ---------------------------------------------------------------------------
  // Shape of one prism

  function Corners(t: Triangle): set<Vertex>
  {
    {t.a, t.b, t.c}
  }

  /** Each prism is 8 triangles (24 vertex slots): the front triangle as
      defined, the back one in reverse order, and for every side of the
      flat triangle two triangles spanning exactly that side's four
      vertices. All six vertices of the prism are used. */
  lemma PrismShape(d: Def)
    requires d.a != d.b && d.b != d.c && d.a != d.c
    ensures var p := Prism(d);
      && |p| == 8
      && p[0] == Triangle(Vertex(d.a, Front), Vertex(d.b, Front), Vertex(d.c, Front))
      && p[1] == Triangle(Vertex(d.c, Back), Vertex(d.b, Back), Vertex(d.a, Back))
      && Corners(p[2]) + Corners(p[3]) == {Vertex(d.a, Front), Vertex(d.a, Back), Vertex(d.b, Front), Vertex(d.b, Back)}
      && Corners(p[4]) + Corners(p[5]) == {Vertex(d.b, Front), Vertex(d.b, Back), Vertex(d.c, Front), Vertex(d.c, Back)}
      && Corners(p[6]) + Corners(p[7]) == {Vertex(d.c, Front), Vertex(d.c, Back), Vertex(d.a, Front), Vertex(d.a, Back)}
      && (forall i :: 0 <= i < 8 ==> |Corners(p[i])| == 3)
  {
  }

  /** Twice the corner's x and y on a unit square centred at the origin, y up. */
  function CornerX(c: Corner): int
  {
    if c == TL || c == BL then -1 else 1
  }

  function CornerY(c: Corner): int
  {
    if c == TL || c == TR then 1 else -1
  }

  /** Twice the signed area of a flat triangle; its sign is the winding. */
  function Area2(d: Def): int
  {
    (CornerX(d.b) - CornerX(d.a)) * (CornerY(d.c) - CornerY(d.a))
      - (CornerY(d.b) - CornerY(d.a)) * (CornerX(d.c) - CornerX(d.a))
  }

  /** The corner of the square a quadrant sits in. */
  function QuadrantCorner(subRow: int, subCol: int): Corner
  {
    if subRow == 0 then (if subCol == 0 then TL else TR)
    else (if subCol == 0 then BL else BR)
  }

  /** Exactly the four quadrants have a shape; each is a right triangle of
      three distinct corners with its right angle at its own quadrant's
      corner, it leaves out the opposite corner, and all four share one
      winding (clockwise with y up), so the lighting is consistent. */
  lemma QuadrantShapes(subRow: int, subCol: int)
    ensures LocalDef(subRow, subCol).Some? <==> IsQuadrant(subRow, subCol)
    ensures IsQuadrant(subRow, subCol) ==>
      var d := LocalDef(subRow, subCol).value;
      && d.a != d.b && d.b != d.c && d.a != d.c
      && d.a == QuadrantCorner(subRow, subCol)
      && QuadrantCorner(1 - subRow, 1 - subCol) !in {d.a, d.b, d.c}
      && Area2(d) == -4
  {
  }
}
