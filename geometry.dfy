/** Affine transforms and the numeric library functions of the editor's
    PDF canvas. Coordinates are real numbers; the library functions whose
    internals belong to the JavaScript runtime (`Math.hypot`, `Math.round`,
    `parseInt(s, 16)`, `parseFloat`) are supplied as parameters. */
module Geometry {

  /** A PDF 2x3 affine matrix [a, b, c, d, e, f], mapping (x, y) to
      (a*x + c*y + e, b*x + d*y + f). */
  datatype Matrix = Matrix(a: real, b: real, c: real, d: real, e: real, f: real)

  datatype Point = Point(x: real, y: real)

  /** The runtime's numeric functions. `None` stands for NaN. */
  datatype JsMath = JsMath(
    hypot: (real, real) -> real,
    round: real -> int,
    parseHex: string -> Option<int>,
    parseFloat: string -> Option<real>)

  datatype Option<T> = None | Some(value: T)

  function Min(x: real, y: real): (r: real)
    ensures r <= x && r <= y && (r == x || r == y)
  {
    if x <= y then x else y
  }

  function Max(x: real, y: real): (r: real)
    ensures r >= x && r >= y && (r == x || r == y)
  {
    if x >= y then x else y
  }

  function Abs(x: real): (r: real)
    ensures r >= 0.0 && (r == x || r == -x)
  {
    if x < 0.0 then -x else x
  }

  /** The product of a length and a factor. Written as a function so that
      proofs about layout meet the product only where they ask for it. */
  function Scale(x: real, k: real): (r: real)
    ensures x > 0.0 && k > 0.0 ==> r > 0.0
  {
    x * k
  }

  /** Scaling by a non-negative factor keeps order. */
  lemma ScaleMonotone(x: real, y: real, k: real)
    requires x <= y && k >= 0.0
    ensures Scale(x, k) <= Scale(y, k)
  {
    assert Scale(y, k) - Scale(x, k) == (y - x) * k;
  }

  /** Scaling distributes over sums. */
  lemma ScaleAdd(x: real, y: real, k: real)
    ensures Scale(x + y, k) == Scale(x, k) + Scale(y, k)
  {
  }

  /** Where the matrix sends a point. */
  function Apply(m: Matrix, p: Point): Point
  {
    Point(m.a * p.x + m.c * p.y + m.e, m.b * p.x + m.d * p.y + m.f)
  }

  /** The `multiply` helper of the text layer: the product m1 * m2 in PDF's
      row-vector convention. */
  function Multiply(m1: Matrix, m2: Matrix): Matrix
  {
    Matrix(
      Scale(m1.a, m2.a) + Scale(m1.c, m2.b),
      Scale(m1.b, m2.a) + Scale(m1.d, m2.b),
      Scale(m1.a, m2.c) + Scale(m1.c, m2.d),
      Scale(m1.b, m2.c) + Scale(m1.d, m2.d),
      Scale(m1.a, m2.e) + Scale(m1.c, m2.f) + m1.e,
      Scale(m1.b, m2.e) + Scale(m1.d, m2.f) + m1.f)
  }

  /** One coordinate of the product, expanded: the coefficient identities
      behind `MultiplyComposes`. */
  lemma ExpandRow(p: real, q: real, r: real, a: real, b: real, c: real, d: real, e: real, f: real,
                  x: real, y: real)
    ensures (p * a + q * b) * x + (p * c + q * d) * y + (p * e + q * f + r)
         == p * (a * x + c * y + e) + q * (b * x + d * y + f) + r
  {
    assert (p * a + q * b) * x == p * (a * x) + q * (b * x);
    assert (p * c + q * d) * y == p * (c * y) + q * (d * y);
    assert p * (a * x + c * y + e) == p * (a * x) + p * (c * y) + p * e;
    assert q * (b * x + d * y + f) == q * (b * x) + q * (d * y) + q * f;
  }

  /** The product transform is the composition: first m2, then m1. */
  lemma MultiplyComposes(m1: Matrix, m2: Matrix, p: Point)
    ensures Apply(Multiply(m1, m2), p) == Apply(m1, Apply(m2, p))
  {
    var m := Multiply(m1, m2);
    var q := Apply(m2, p);
    assert q.x == m2.a * p.x + m2.c * p.y + m2.e && q.y == m2.b * p.x + m2.d * p.y + m2.f;
    ExpandRow(m1.a, m1.c, m1.e, m2.a, m2.b, m2.c, m2.d, m2.e, m2.f, p.x, p.y);
    assert Apply(m, p).x == Apply(m1, q).x;
    ExpandRow(m1.b, m1.d, m1.f, m2.a, m2.b, m2.c, m2.d, m2.e, m2.f, p.x, p.y);
    assert Apply(m, p).y == Apply(m1, q).y;
  }

  const Identity := Matrix(1.0, 0.0, 0.0, 1.0, 0.0, 0.0)

  /** Two transforms that act the same on every point are the same matrix. */
  lemma ApplyDetermines(m1: Matrix, m2: Matrix)
    requires forall p :: Apply(m1, p) == Apply(m2, p)
    ensures m1 == m2
  {
    var o := Apply(m1, Point(0.0, 0.0));
    assert o == Apply(m2, Point(0.0, 0.0));
    assert Apply(m1, Point(1.0, 0.0)) == Apply(m2, Point(1.0, 0.0));
    assert Apply(m1, Point(0.0, 1.0)) == Apply(m2, Point(0.0, 1.0));
  }

  /** The translation part of viewport * item is the viewport applied to the
      item's origin: the run's anchor in raster space. */
  lemma MultiplyTranslation(viewport: Matrix, item: Matrix)
    ensures Point(Multiply(viewport, item).e, Multiply(viewport, item).f)
         == Apply(viewport, Point(item.e, item.f))
  {
    var m := Multiply(viewport, item);
    assert m.e == viewport.a * item.e + viewport.c * item.f + viewport.e;
    assert m.f == viewport.b * item.e + viewport.d * item.f + viewport.f;
  }

  /** Composition is associative, so nesting transforms does not matter. */
  lemma MultiplyAssociative(m1: Matrix, m2: Matrix, m3: Matrix)
    ensures Multiply(Multiply(m1, m2), m3) == Multiply(m1, Multiply(m2, m3))
  {
    forall p ensures Apply(Multiply(Multiply(m1, m2), m3), p) == Apply(Multiply(m1, Multiply(m2, m3)), p) {
      MultiplyComposes(Multiply(m1, m2), m3, p);
      MultiplyComposes(m1, m2, Apply(m3, p));
      MultiplyComposes(m1, Multiply(m2, m3), p);
      MultiplyComposes(m2, m3, p);
    }
    ApplyDetermines(Multiply(Multiply(m1, m2), m3), Multiply(m1, Multiply(m2, m3)));
  }

  /** The identity matrix is neutral on both sides. */
  lemma MultiplyIdentity(m: Matrix)
    ensures Multiply(Identity, m) == m && Multiply(m, Identity) == m
  {
  }
}
