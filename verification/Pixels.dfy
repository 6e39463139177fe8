// What the areas of suppression count: for boxes with whole coordinates, corners
// included, the area is the number of pixels, the intersection the number of
// pixels in both, the union the number of pixels in either.

module Pixels {
  import opened Nms

  datatype Corners = Corners(x1: int, y1: int, x2: int, y2: int)

  function BoxOf(c: Corners, score: real): Box {
    Box(c.x1 as real, c.y1 as real, c.x2 as real, c.y2 as real, score)
  }

  function Range(lo: int, hi: int): (r: set<int>)
    ensures forall x :: x in r <==> lo <= x <= hi
    decreases hi - lo
  {
    if hi < lo then {} else Range(lo, hi - 1) + {hi}
  }

  function PixelsOf(c: Corners): set<(int, int)> {
    set x, y | c.x1 <= x <= c.x2 && c.y1 <= y <= c.y2 :: (x, y)
  }

  ghost function Product(xs: set<int>, ys: set<int>): set<(int, int)> {
    set x, y | x in xs && y in ys :: (x, y)
  }

  function Length(lo: int, hi: int): nat {
    if hi < lo then 0 else hi - lo + 1
  }

  lemma {:induction false} RangeSize(lo: int, hi: int)
    ensures |Range(lo, hi)| == Length(lo, hi)
    decreases hi - lo
  {
    if lo <= hi { RangeSize(lo, hi - 1); }
  }

  lemma Member<T>(s: set<T>) returns (x: T)
    requires s != {}
    ensures x in s
  {
    x :| x in s;
  }

  lemma {:induction false} ColumnSize(x: int, ys: set<int>)
    ensures |Product({x}, ys)| == |ys|
  {
    if ys != {} {
      var y := Member(ys);
      ColumnSize(x, ys - {y});
      assert Product({x}, ys) == Product({x}, ys - {y}) + {(x, y)};
    } else {
      assert Product({x}, ys) == {};
    }
  }

  lemma {:induction false} ProductSize(xs: set<int>, ys: set<int>)
    ensures |Product(xs, ys)| == |xs| * |ys|
  {
    if xs != {} {
      var x := Member(xs);
      ProductSize(xs - {x}, ys);
      ColumnSize(x, ys);
      assert Product(xs, ys) == Product(xs - {x}, ys) + Product({x}, ys);
      assert Product(xs - {x}, ys) !! Product({x}, ys);
      OneMoreRow(|xs - {x}|, |ys|);
    } else {
      assert Product(xs, ys) == {};
    }
  }

  lemma OneMoreRow(n: nat, k: nat)
    ensures n * k + k == (n + 1) * k
  {
  }

  lemma PixelCount(c: Corners)
    ensures |PixelsOf(c)| == Length(c.x1, c.x2) * Length(c.y1, c.y2)
  {
    assert PixelsOf(c) == Product(Range(c.x1, c.x2), Range(c.y1, c.y2));
    ProductSize(Range(c.x1, c.x2), Range(c.y1, c.y2));
    RangeSize(c.x1, c.x2);
    RangeSize(c.y1, c.y2);
  }

  function Larger(i: int, j: int): int {
    if i < j then j else i
  }

  function Smaller(i: int, j: int): int {
    if i < j then i else j
  }

  /** The box that two boxes share. */
  function Meet(a: Corners, b: Corners): Corners {
    Corners(Larger(a.x1, b.x1), Larger(a.y1, b.y1), Smaller(a.x2, b.x2), Smaller(a.y2, b.y2))
  }

  lemma SharedLength(lo: int, hi: int, lo': int, hi': int)
    ensures Shared(lo as real, hi as real, lo' as real, hi' as real) == Length(Larger(lo, lo'), Smaller(hi, hi')) as real
  {
  }

  lemma WholeProduct(i: int, j: int)
    ensures i as real * j as real == (i * j) as real
  {
  }

  /** The intersection is the number of pixels in both boxes. */
  lemma InterIsPixels(a: Corners, b: Corners, s: real, t: real)
    ensures Inter(BoxOf(a, s), BoxOf(b, t)) == |PixelsOf(a) * PixelsOf(b)| as real
  {
    MeetPixels(a, b);
    PixelCount(Meet(a, b));
    InterIsProduct(a, b, s, t);
  }

  lemma MeetPixels(a: Corners, b: Corners)
    ensures PixelsOf(a) * PixelsOf(b) == PixelsOf(Meet(a, b))
  {
    forall x, y ensures (x, y) in PixelsOf(a) * PixelsOf(b) <==> (x, y) in PixelsOf(Meet(a, b)) {}
  }

  lemma InterIsProduct(a: Corners, b: Corners, s: real, t: real)
    ensures var m := Meet(a, b);
      Inter(BoxOf(a, s), BoxOf(b, t)) == (Length(m.x1, m.x2) * Length(m.y1, m.y2)) as real
  {
    var m := Meet(a, b);
    SharedLength(a.x1, a.x2, b.x1, b.x2);
    SharedLength(a.y1, a.y2, b.y1, b.y2);
    WholeProduct(Length(m.x1, m.x2), Length(m.y1, m.y2));
  }

  /** The area of a box with ordered corners is the number of its pixels. */
  lemma AreaIsPixels(a: Corners, s: real)
    requires a.x1 <= a.x2 && a.y1 <= a.y2
    ensures Area(BoxOf(a, s)) == |PixelsOf(a)| as real
  {
    PixelCount(a);
    SideLength(a.x1, a.x2);
    SideLength(a.y1, a.y2);
    WholeProduct(Length(a.x1, a.x2), Length(a.y1, a.y2));
  }

  lemma SideLength(lo: int, hi: int)
    requires lo <= hi
    ensures Side(lo as real, hi as real) == Length(lo, hi) as real
  {
  }

  /** The union is the number of pixels in either box. */
  lemma UnionIsPixels(a: Corners, b: Corners, s: real, t: real)
    requires a.x1 <= a.x2 && a.y1 <= a.y2 && b.x1 <= b.x2 && b.y1 <= b.y2
    ensures Union(BoxOf(a, s), BoxOf(b, t)) == |PixelsOf(a) + PixelsOf(b)| as real
  {
    InterIsPixels(a, b, s, t);
    AreaIsPixels(a, s);
    AreaIsPixels(b, t);
  }
}
