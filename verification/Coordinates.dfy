/** Image space and touch space: what an agent reads off the element list and where its tap lands.
    Exact reals stand for float64. */
module Coordinates {
  import opened Divisors

  const MAX_EDGE: int := 1280

  datatype Element = Element(x: int, y: int, w: int, h: int)

  /** Conversion of a float to an int: toward zero. */
  function Trunc(r: real): int { if r >= 0.0 then r.Floor else -((-r).Floor) }

  /** Integer division by two: toward zero. */
  function Half(n: int): int { if n >= 0 then n / 2 else -((-n) / 2) }

  function Center(e: Element): (int, int) { (e.x + Half(e.w), e.y + Half(e.h)) }

  function Max(a: int, b: int): int { if a >= b then a else b }

  // Products are named so that the proofs can treat them as opaque terms.
  function Mul(a: real, b: real): real { a * b }

  lemma MulMono(a: real, b: real, c: real)
    requires a < b && c > 0.0
    ensures Mul(a, c) < Mul(b, c)
  {
    assert (b - a) * c > 0.0;
  }

  lemma MulSub(a: real, b: real, c: real)
    ensures Mul(a - b, c) == Mul(a, c) - Mul(b, c)
  {}

  /** Image-space units per native unit. */
  function ScaleFor(w: int, h: int): (s: real)
    ensures 0.0 < s <= 1.0
  {
    var edge := Max(w, h);
    if edge > MAX_EDGE then Ratio(edge) else 1.0
  }

  function Ratio(edge: int): (s: real)
    requires edge > MAX_EDGE
    ensures 0.0 < s < 1.0 && Mul(edge as real, s) == 1280.0
  {
    1280.0 / edge as real
  }

  /** A native length or coordinate as it is printed for the agent. */
  function ToImage(v: int, scale: real): int { Trunc(Mul(v as real, scale) + 0.5) }

  /** Where a tap at image coordinate p goes: exactly, and as the Android input command takes it. */
  function ToNative(p: int, scale: real): (t: real)
    requires scale > 0.0
    ensures Mul(t, scale) == p as real
  {
    p as real / scale
  }

  function AndroidTap(p: int, scale: real): int
    requires scale > 0.0
  {
    Trunc(ToNative(p, scale))
  }

  lemma RotationKeepsScale(w: int, h: int)
    ensures ScaleFor(w, h) == ScaleFor(h, w)
  {}

  lemma NotNegative(t: real, s: real)
    requires s > 0.0 && Mul(t, s) >= 0.0
    ensures t >= 0.0
  {
    hide Mul;
    if t < 0.0 {
      MulMono(t, 0.0, s);
      assert Mul(0.0, s) == 0.0 by { MulSub(0.0, 0.0, s); }
    }
  }

  /** Rounding to the image grid and back moves a coordinate by at most half an image pixel. */
  lemma RoundTripError(c: int, s: real)
    requires c >= 0 && s > 0.0
    ensures ToImage(c, s) >= 0 && ToNative(ToImage(c, s), s) >= 0.0
    ensures -0.5 < Mul(ToNative(ToImage(c, s), s) - c as real, s) <= 0.5
  {
    var v := Mul(c as real, s);
    assert v >= 0.0;
    var p := ToImage(c, s);
    assert v - 0.5 < p as real <= v + 0.5;
    var t := ToNative(p, s);
    MulSub(t, c as real, s);
    NotNegative(t, s);
  }

  lemma TruncInside(t: real, lo: int, hi: int)
    requires lo as real <= t < hi as real && t >= 0.0
    ensures lo <= Trunc(t) < hi
  {}

  // ----- printed pixel and tap as integers -----

  lemma TimesEdge(v: int, edge: int)
    requires edge > MAX_EDGE
    ensures Mul(Mul(v as real, Ratio(edge)), edge as real) == (MAX_EDGE * v) as real
  {
    assert Mul(edge as real, Ratio(edge)) == 1280.0;
  }

  lemma TimesPositive(a: real, b: real, e: real)
    requires e > 0.0
    ensures a <= b <==> a * e <= b * e
  {
    if a < b {
      assert (b - a) * e > 0.0;
    } else if b < a {
      assert (a - b) * e > 0.0;
    }
  }

  /** The printed pixel of c, freed of reals: c * 1280 / edge rounded to the nearest, halves up. */
  lemma PixelIs(c: int, edge: int)
    requires c >= 0 && edge > MAX_EDGE
    ensures var p := ToImage(c, Ratio(edge));
      p >= 0 && 2 * (p * edge) <= 2560 * c + edge < 2 * (p * edge) + 2 * edge
  {
    hide Mul, Ratio, ToImage;
    var s, e := Ratio(edge), edge as real;
    var v, p := Mul(c as real, s), ToImage(c, s);
    Rounded(c, s);
    TimesEdge(c, edge);
    RealProduct(p, edge);
    TimesEdgeRounded(v, p, p * edge, c, edge);
  }

  lemma Rounded(c: int, s: real)
    requires c >= 0 && s > 0.0
    ensures ToImage(c, s) >= 0 && ToImage(c, s) as real <= Mul(c as real, s) + 0.5 < ToImage(c, s) as real + 1.0
  {
    ProductNotNegative(c as real, s);
    hide Mul;
  }

  lemma TimesEdgeRounded(v: real, p: int, pe: int, c: int, edge: int)
    requires edge > 0 && Mul(v, edge as real) == (MAX_EDGE * c) as real && Mul(p as real, edge as real) == pe as real
    requires p as real <= v + 0.5 < p as real + 1.0
    ensures 2 * pe <= 2560 * c + edge < 2 * pe + 2 * edge
  {
    hide Mul;
    var e := edge as real;
    MulPlus(v, 0.5, e);
    MulPlus(p as real, 1.0, e);
    MulMonotone(p as real, v + 0.5, e);
    MulMonotone(p as real + 1.0, v + 0.5, e);
    FreeOfReals(pe, MAX_EDGE * c, edge);
  }

  lemma MulPlus(a: real, b: real, e: real)
    ensures Mul(a + b, e) == Mul(a, e) + b * e && 1.0 * e == e && 0.5 * e == e / 2.0
  {}

  lemma MulMonotone(a: real, b: real, e: real)
    requires e > 0.0
    ensures a <= b <==> Mul(a, e) <= Mul(b, e)
  {
    TimesPositive(a, b, e);
  }

  lemma RealProduct(p: int, edge: int)
    ensures Mul(p as real, edge as real) == (p * edge) as real
  {}

  lemma FreeOfReals(a: int, b: int, edge: int)
    ensures a as real <= b as real + edge as real / 2.0 <==> 2 * a <= 2 * b + edge
    ensures b as real + edge as real / 2.0 < (a + edge) as real <==> 2 * b + edge < 2 * a + 2 * edge
  {}

  /** On which side of a native position a tap at pixel p is. */
  lemma TapSide(x: int, p: int, edge: int)
    requires edge > MAX_EDGE
    ensures x as real <= ToNative(p, Ratio(edge)) <==> MAX_EDGE * x <= p * edge
  {
    var s, e := Ratio(edge), edge as real;
    var t := ToNative(p, s);
    hide Mul, Ratio, ToNative, ToImage;
    TimesEdge(x, edge);
    assert Mul(t, s) == p as real;
    MulMonotone(x as real, t, s);
    MulMonotone(Mul(x as real, s), p as real, e);
    RealProduct(p, edge);
  }

  // ----- which elements are hit -----

  /** More than half an image pixel is left from the centre to the far side, and what it takes to
      exceed half an image pixel by the grid of the rounding errors is left to the near side. */
  predicate WideEnough(extent: int, edge: int)
    requires edge > 0
  {
    2560 * (extent - extent / 2) > edge && 2560 * (extent / 2) + 2 * Gcd(1280, edge) >= edge
  }

  /** Rounding errors are multiples of the divisor that 1280 and the edge share. */
  lemma ErrorIsMultiple(c: int, p: int, edge: int)
    requires edge > 0
    ensures Divides(Gcd(1280, edge), p * edge - 1280 * c)
  {
    var g := Gcd(1280, edge);
    var _, _ := Bezout(1280, edge);
    var k :| 1280 == k * g;
    var l :| edge == l * g;
    Collect(l, k, p, -c, g);
    assert l * g * p + k * g * (-c) == p * edge - 1280 * c by {
      assert l * g * p == edge * p;
      assert k * g * (-c) == 1280 * (-c);
    }
  }

  lemma ErrorInside(c: int, p: int, extent: int, edge: int)
    requires edge > 0 && WideEnough(extent, edge)
    requires 2 * (p * edge) <= 2560 * c + edge < 2 * (p * edge) + 2 * edge
    ensures -1280 * Half(extent) <= p * edge - 1280 * c < 1280 * (extent - Half(extent))
  {
    hide Gcd;
    var g, err, near := Gcd(1280, edge), p * edge - 1280 * c, -1280 * Half(extent);
    ErrorIsMultiple(c, p, edge);
    ErrorIsMultiple(Half(extent), 0, edge);
    assert 0 * edge - 1280 * Half(extent) == near;
    if err < near {
      MultiplesApart(g, err, near);
      assert false;
    }
  }

  /** Every multiple of the common divisor up to half an edge either way is the rounding error of a
      coordinate, and of one beyond any given bound. */
  lemma ErrorOccurs(k: int, edge: int, least: nat) returns (c: int)
    requires edge > MAX_EDGE && -edge < 2 * (k * Gcd(1280, edge)) <= edge
    ensures c >= least && ToImage(c, Ratio(edge)) * edge - 1280 * c == k * Gcd(1280, edge)
  {
    hide ToImage, Ratio, Gcd;
    var u, v := Bezout(1280, edge);
    var ku := k * u;
    var j := least + if ku >= 0 then ku else -ku;
    c := edge * j - ku;
    assert edge * j >= j by { TimesMonotone(1, edge, j); }
    var q := k * v + 1280 * j;
    Shifted(k, u, v, j, edge, Gcd(1280, edge));
    var p := ToImage(c, Ratio(edge));
    PixelIs(c, edge);
    SameQuotient(p, q, edge, 2560 * c);
  }

  lemma Shifted(k: int, u: int, v: int, j: int, edge: int, g: int)
    requires 1280 * u + edge * v == g
    ensures (k * v + 1280 * j) * edge - 1280 * (edge * j - k * u) == k * g
  {
    assert (k * v + 1280 * j) * edge == k * (edge * v) + 1280 * (edge * j);
    assert 1280 * (edge * j - k * u) == 1280 * (edge * j) - k * (1280 * u);
    assert k * g == k * (1280 * u) + k * (edge * v);
  }

  /** Two numbers that both round n the same way are equal. */
  lemma SameQuotient(p: int, q: int, edge: int, n: int)
    requires edge > 0
    requires 2 * (p * edge) <= n + edge < 2 * (p * edge) + 2 * edge
    requires 2 * (q * edge) <= n + edge < 2 * (q * edge) + 2 * edge
    ensures p == q
  {
    assert (p + 1) * edge == p * edge + edge && (q + 1) * edge == q * edge + edge;
    if p < q {
      TimesMonotone(p + 1, q, edge);
    } else if q < p {
      TimesMonotone(q + 1, p, edge);
    }
  }

  /** Along one axis: the centre that is printed, tapped again, lands inside the element. */
  lemma TapLands(x: int, extent: int, w: int, h: int)
    requires extent > 0 && x + Half(extent) >= 0
    requires Max(w, h) > MAX_EDGE ==> WideEnough(extent, Max(w, h))
    ensures var s := ScaleFor(w, h);
      && x as real <= ToNative(ToImage(x + Half(extent), s), s) < (x + extent) as real
      && x <= AndroidTap(ToImage(x + Half(extent), s), s) < x + extent
  {
    hide Mul, ToNative, ToImage, Trunc, Ratio, WideEnough;
    var c, s := x + Half(extent), ScaleFor(w, h);
    RoundTripError(c, s);
    if Max(w, h) > MAX_EDGE {
      var edge, p := Max(w, h), ToImage(c, s);
      PixelIs(c, edge);
      ErrorInside(c, p, extent, edge);
      TapSide(x, p, edge);
      TapSide(x + extent, p, edge);
    } else {
      UnscaledRoundTrip(c);
    }
    TruncInside(ToNative(ToImage(c, s), s), x, x + extent);
  }

  lemma UnscaledRoundTrip(c: int)
    requires c >= 0
    ensures ToNative(ToImage(c, 1.0), 1.0) == c as real
  {
    UnscaledIsExactOnScreen(c);
    hide Mul, ToNative, ToImage;
    UnscaledProduct(ToNative(c, 1.0));
  }

  /** On an element at least partly right of and below the origin, both axes land. */
  lemma CentreTapHitsElement(e: Element, w: int, h: int)
    requires e.w > 0 && e.h > 0 && e.x >= 0 && e.y >= 0
    requires Max(w, h) > MAX_EDGE ==> WideEnough(e.w, Max(w, h)) && WideEnough(e.h, Max(w, h))
    ensures var s := ScaleFor(w, h);
      var (cx, cy) := Center(e);
      && e.x <= AndroidTap(ToImage(cx, s), s) < e.x + e.w
      && e.y <= AndroidTap(ToImage(cy, s), s) < e.y + e.h
  {
    TapLands(e.x, e.w, w, h);
    TapLands(e.y, e.h, w, h);
  }

  /** The tap at the printed centre hits the element along one axis. */
  predicate Hit(x: int, extent: int, scale: real)
    requires scale > 0.0
  {
    x <= AndroidTap(ToImage(x + Half(extent), scale), scale) < x + extent
  }

  /** A tap off the far or the near side by at least a pixel's fraction misses. */
  lemma HitMeans(x: int, extent: int, edge: int)
    requires edge > MAX_EDGE && x >= 0 && extent > 0 && Hit(x, extent, Ratio(edge))
    ensures var c := x + Half(extent);
      -1280 * Half(extent) <= ToImage(c, Ratio(edge)) * edge - 1280 * c < 1280 * (extent - Half(extent))
  {
    var c, s := x + Half(extent), Ratio(edge);
    var p := ToImage(c, s);
    RoundTripError(c, s);
    hide Mul, ToNative, ToImage, Ratio;
    TapSide(x, p, edge);
    TapSide(x + extent, p, edge);
    TruncOutside(ToNative(p, s), x, x + extent);
  }

  lemma TruncOutside(t: real, lo: int, hi: int)
    requires t >= 0.0 && lo <= Trunc(t) < hi
    ensures lo as real <= t < hi as real
  {}

  /** Every element of the extent on the screen is hit. */
  ghost predicate AlwaysHit(extent: int, w: int, h: int) {
    forall x: int :: x >= 0 ==> Hit(x, extent, ScaleFor(w, h))
  }

  /** The bound is exact: all elements of an extent are hit if and only if the screen is not scaled
      or the extent is wide enough for its long edge. */
  lemma AlwaysHitIff(extent: int, w: int, h: int)
    requires extent > 0
    ensures AlwaysHit(extent, w, h) <==> (w > 1280 || h > 1280 ==> WideEnough(extent, if w >= h then w else h))
  {
    if Max(w, h) > MAX_EDGE ==> WideEnough(extent, Max(w, h)) {
      forall x: int | x >= 0
        ensures Hit(x, extent, ScaleFor(w, h))
      {
        WideIsHit(x, extent, w, h);
      }
    } else {
      var x := NarrowIsMissed(extent, Max(w, h));
      assert ScaleFor(w, h) == Ratio(Max(w, h));
      hide Hit;
    }
  }

  lemma WideIsHit(x: int, extent: int, w: int, h: int)
    requires x >= 0 && extent > 0 && (Max(w, h) > MAX_EDGE ==> WideEnough(extent, Max(w, h)))
    ensures Hit(x, extent, ScaleFor(w, h))
  {
    hide ToNative, ToImage, AndroidTap, WideEnough;
    TapLands(x, extent, w, h);
  }

  lemma NarrowIsMissed(extent: int, edge: int) returns (x: int)
    requires edge > MAX_EDGE && extent > 0 && !WideEnough(extent, edge)
    ensures x >= 0 && !Hit(x, extent, Ratio(edge))
  {
    hide Hit, ToImage, Ratio, Gcd;
    var g, half := Gcd(1280, edge), Half(extent);
    var _, _ := Bezout(1280, edge);
    var unit :| 1280 == unit * g;
    var k;
    if 2560 * (extent - half) <= edge {
      k := unit * (extent - half);
      assert k * g == 1280 * (extent - half) by { Reorder(unit, extent - half, g); }
    } else {
      k := -(unit * half) - 1;
      assert k * g == -1280 * half - g by { Reorder(unit, half, g); }
    }
    var c := ErrorOccurs(k, edge, half);
    x := c - half;
    if Hit(x, extent, Ratio(edge)) {
      HitMeans(x, extent, edge);
      assert false;
    }
  }

  lemma Reorder(unit: int, n: int, g: int)
    requires 1280 == unit * g
    ensures unit * n * g == 1280 * n && (-(unit * n) - 1) * g == -1280 * n - g
  {
    assert unit * n * g == unit * g * n;
  }

  /** Unscaled, a coordinate is printed as it is exactly when it is not negative. */
  lemma UnscaledIsExactOnScreen(v: int)
    ensures ToImage(v, 1.0) == v <==> v >= 0
  {
    if v < 0 {
      assert v as real * 1.0 + 0.5 == -((-v) as real - 0.5);
      assert ((-v) as real - 0.5).Floor == -v - 1;
    }
  }

  /** The screenshot's long edge stays within the cap, and every pixel of it is on the screen. */
  lemma ImageFitsAndCovers(n: int, w: int, h: int, p: int)
    requires 0 < n && (n <= w || n <= h)
    ensures ToImage(n, ScaleFor(w, h)) <= MAX_EDGE
    ensures 0 <= p < ToImage(n, ScaleFor(w, h)) ==> 0 <= AndroidTap(p, ScaleFor(w, h)) < n
  {
    hide Mul, Ratio;
    var s, edge := ScaleFor(w, h), Max(w, h);
    var size := Mul(n as real, s);
    assert 0.0 <= size <= 1280.0 by {
      if edge > MAX_EDGE {
        if n < edge {
          MulMono(n as real, edge as real, s);
        }
      } else {
        UnscaledProduct(n as real);
      }
      ProductNotNegative(n as real, s);
    }
    assert size - 0.5 < ToImage(n, s) as real <= size + 0.5;
    if 0 <= p < ToImage(n, s) {
      var t := ToNative(p, s);
      assert Mul(t, s) < size;
      NotNegative(t, s);
      if t >= n as real {
        if t > n as real {
          MulMono(n as real, t, s);
        }
        assert false;
      }
      TruncInside(t, 0, n);
    }
  }

  lemma UnscaledProduct(a: real)
    ensures Mul(a, 1.0) == a
  {}

  lemma ProductNotNegative(a: real, s: real)
    requires a >= 0.0 && s > 0.0
    ensures Mul(a, s) >= 0.0
  {}
}
