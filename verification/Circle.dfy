/** The filled-circle rasteriser of the CAPTCHA image.

  `Canvas.DrawCircle` is the incremental midpoint loop; its contract says, pixel by pixel,
  exactly which offsets are painted.  The lemmas then relate that set to the mathematical disk. */
module Circle {

  newtype ColorIndex = x: int | 0 <= x < 256

  function Abs(x: int): nat {
    if x < 0 then -x else x
  }

  /** The half-column test of the midpoint rule: column `column` reaches up to row `row`. */
  predicate Reaches(column: int, row: int, radius: int) {
    column * column + row * row - row < radius * radius
  }

  /** Offsets (a, b), both non-negative, of a filled circle; stated on the larger and the smaller of the two. */
  predicate InOctants(a: nat, b: nat, radius: int) {
    (a == 0 && b == 0) || (if a <= b then Reaches(a, b, radius) else Reaches(b, a, radius))
  }

  /** The offsets painted by a circle of the given radius. A negative radius paints just two points. */
  predicate Painted(dx: int, dy: int, radius: int) {
    if radius < 0 then dx == 0 && Abs(dy) == -radius
    else InOctants(Abs(dx), Abs(dy), radius)
  }

  // ----- arithmetic of the loop state -----

  lemma Square(x: int, y: int)
    requires 0 <= x <= y
    ensures x * x <= y * y
    ensures x < y ==> x * x + 2 * x + 1 <= y * y
    ensures x * x - x <= y * y - y
    ensures x < y ==> x * x + x <= y * y - y
  {
    var d := y - x;
    assert y * y == x * x + 2 * (x * d) + d * d;
    if 0 < d {
      assert x <= x * d && d <= d * d;
    }
  }

  /** What the loop knows between iterations about its two offsets. */
  ghost predicate OnArc(offsetX: int, offsetY: int, radius: int) {
    && 0 <= offsetX && 0 <= offsetY
    && offsetX <= offsetY + 1
    && !Reaches(offsetX, offsetY + 1, radius)
    && (Reaches(offsetX, offsetY, radius)
      || (offsetX == offsetY + 1 && offsetX * offsetX + offsetY * offsetY - offsetY == radius * radius)
      || (offsetX == 0 && offsetY == 0 && radius == 0))
  }

  /** The part of the circle painted once the loop has reached (offsetX, offsetY). */
  ghost predicate SoFar(offsetX: int, offsetY: int, radius: int, a: nat, b: nat) {
    InOctants(a, b, radius) && (b <= offsetX || (a <= offsetX && b >= offsetY))
  }

  function NextY(offsetX: int, offsetY: int, radius: int): int {
    if Outside(offsetX, offsetY, radius) >= 0 then offsetY - 1 else offsetY
  }

  /** What the error term stands for: how far the next midpoint lies outside the circle, without its quarter. */
  function Outside(offsetX: int, offsetY: int, radius: int): int {
    (offsetX + 1) * (offsetX + 1) + offsetY * offsetY - offsetY - radius * radius
  }

  /** The loop's five variables: the deltas follow the offsets and the error term keeps its meaning, so its sign decides
      the row. */
  ghost predicate Stepping(offsetX: int, offsetY: int, deltaX: int, deltaY: int, errorTerm: int, radius: int) {
    deltaX == 2 * offsetX + 1 && deltaY == -2 * offsetY && errorTerm == Outside(offsetX, offsetY, radius)
  }

  /** One turn of the additions keeps that, in either branch. */
  lemma ErrorStep(offsetX: int, offsetY: int, deltaX: int, deltaY: int, errorTerm: int, radius: int)
    requires Stepping(offsetX, offsetY, deltaX, deltaY, errorTerm, radius)
    ensures if errorTerm >= 0
      then Stepping(offsetX + 1, offsetY - 1, deltaX + 2, deltaY + 2, errorTerm + (deltaY + 2) + (deltaX + 2), radius)
      else Stepping(offsetX + 1, offsetY, deltaX + 2, deltaY, errorTerm + (deltaX + 2), radius)
    ensures NextY(offsetX, offsetY, radius) == if errorTerm >= 0 then offsetY - 1 else offsetY
  {
    assert (offsetX + 2) * (offsetX + 2) == (offsetX + 1) * (offsetX + 1) + 2 * offsetX + 3;
    assert (offsetY - 1) * (offsetY - 1) == offsetY * offsetY - 2 * offsetY + 1;
  }

  lemma ArcStep(offsetX: int, offsetY: int, radius: int)
    requires OnArc(offsetX, offsetY, radius) && offsetX < offsetY && 0 <= radius
    ensures OnArc(offsetX + 1, NextY(offsetX, offsetY, radius), radius)
    ensures Reaches(offsetX, offsetY, radius)
  {
  }

  /** Everything one iteration draws belongs to the circle. */
  lemma DrawnBelongs(x: int, y: int, radius: int, a: nat, b: nat)
    requires OnArc(x, y, radius) && 0 < x && 0 <= radius
    requires (b == y && a <= x) || (b == x && a <= y)
    ensures InOctants(a, b, radius)
  {
    Square(a, if b == y then x else y);
    if y < x {
      assert x == y + 1;
      assert x * x == y * y + 2 * y + 1;
      Square(a, x);
    } else {
      Square(x, y);
      Square(a, y);
      if a <= x { Square(a, x); } else { Square(x, a); }
    }
  }

  /** The four rows of one iteration are exactly what `SoFar` gains. */
  lemma {:induction false} RowsStep(x: int, y: int, x': int, y': int, radius: int, a: nat, b: nat)
    requires 0 <= radius && 0 <= x < y && x' == x + 1 && (y' == y || y' == y - 1)
    requires OnArc(x, y, radius) && OnArc(x', y', radius)
    ensures SoFar(x', y', radius, a, b)
       <==> SoFar(x, y, radius, a, b) || (b == y' && a <= x') || (b == x' && a <= y')
  {
    if (b == y' && a <= x') || (b == x' && a <= y') {
      DrawnBelongs(x', y', radius, a, b);
    } else if InOctants(a, b, radius) {
      if b == x' && y' < a {
        Square(y' + 1, a);
        assert false;
      } else if a == x' && x' < b && y' < b {
        Square(y' + 1, b);
        assert false;
      }
    }
  }

  /** When the offsets have met, the whole circle is painted. */
  lemma {:induction false} ArcComplete(x: int, y: int, radius: int, a: nat, b: nat)
    requires 0 <= radius && OnArc(x, y, radius) && x >= y
    ensures SoFar(x, y, radius, a, b) <==> InOctants(a, b, radius)
  {
    if InOctants(a, b, radius) && x < a && x < b {
      Square(x + 1, a);
      Square(x + 1, b);
      Square(y + 1, x + 1);
      assert false;
    }
  }

  lemma ArcStart(radius: int, a: nat, b: nat)
    requires 0 <= radius
    ensures OnArc(0, radius, radius)
    ensures SoFar(0, radius, radius, a, b) <==> (a == 0 && b == radius) || (b == 0 && a <= radius)
  {
    if radius < a {
      Square(radius, a);
    } else {
      Square(a, radius);
    }
    if radius < b {
      Square(radius, b);
    }
  }

  // ----- the painted set against the mathematical disk -----

  /** Between two disks: everything within the radius is painted, nothing beyond r^2 + r is. */
  lemma {:induction false} BetweenDisks(dx: int, dy: int, radius: nat)
    ensures dx * dx + dy * dy <= radius * radius ==> Painted(dx, dy, radius)
    ensures Painted(dx, dy, radius) ==> dx * dx + dy * dy <= radius * radius + radius
    ensures Painted(dx, dy, radius) ==> Abs(dx) <= radius && Abs(dy) <= radius
  {
    var a, b := Abs(dx), Abs(dy);
    assert dx * dx == a * a && dy * dy == b * b;
    if radius < a {
      Square(radius, a);
      assert a * a <= a * a + b * b && b * b >= b;
    }
    if radius < b {
      Square(radius, b);
      assert b * b <= a * a + b * b && a * a >= a;
    }
    assert b * b >= b && a * a >= a;
  }

  /** The painted set is symmetric in both axes and in the diagonal. */
  lemma Symmetric(dx: int, dy: int, radius: nat)
    ensures Painted(dx, dy, radius) == Painted(-dx, dy, radius) == Painted(dx, -dy, radius) == Painted(dy, dx, radius)
  {
  }

  /** The outer bound is reached: the midpoint rule does paint offsets outside the exact disk. */
  lemma OuterBoundIsNotTheDisk()
    ensures Painted(1, 2, 2) && 1 * 1 + 2 * 2 > 2 * 2
  {
  }

  // ----- placement -----

  const CIRCLE_COUNT := 20

  /** `draw` stands for the random number; it is reduced to the range the source asks for. */
  function RandomInt(minimum: int, maximum: int, draw: nat): (r: int)
    ensures if maximum <= minimum then r == minimum else minimum <= r < maximum
  {
    if maximum <= minimum then minimum else minimum + draw % (maximum - minimum)
  }

  /** A placed circle lies wholly inside the picture, whatever was drawn,
      if and only if the picture is wider and taller than the diameter. */
  lemma {:induction false} PlacementInside(width: nat, height: nat, radius: nat, drawX: nat, drawY: nat)
    ensures (2 * radius < width && 2 * radius < height)
       <==> forall dx, dy :: Painted(dx, dy, radius) ==>
              && 0 <= RandomInt(radius, width - radius, drawX) + dx < width
              && 0 <= RandomInt(radius, height - radius, drawY) + dy < height
  {
    var x, y := RandomInt(radius, width - radius, drawX), RandomInt(radius, height - radius, drawY);
    if 2 * radius < width && 2 * radius < height {
      forall dx, dy | Painted(dx, dy, radius)
        ensures 0 <= x + dx < width && 0 <= y + dy < height
      {
        BetweenDisks(dx, dy, radius);
      }
    } else {
      BetweenDisks(radius, 0, radius);
      BetweenDisks(0, radius, radius);
      assert Painted(radius, 0, radius) && Painted(0, radius, radius);
    }
  }

  datatype Draw = Draw(radius: nat, x: nat, y: nat, color: nat)

  function RadiusOf(d: Draw, dotSize: nat): nat {
    RandomInt(1, dotSize + 1, d.radius)
  }

  function ColorOf(d: Draw): ColorIndex {
    RandomInt(1, CIRCLE_COUNT, d.color) as ColorIndex
  }

  predicate Covers(d: Draw, dotSize: nat, width: nat, height: nat, px: int, py: int) {
    var radius := RadiusOf(d, dotSize);
    Painted(px - RandomInt(radius, width - radius, d.x), py - RandomInt(radius, height - radius, d.y), radius)
  }

  /** Where a circle is placed: its radius is 1 to the dot size, and if the picture has room for it, its centre is at
      least one radius away from every side. */
  lemma CoversIs(d: Draw, dotSize: nat, width: nat, height: nat, px: int, py: int)
    requires dotSize >= 1
    ensures var radius := 1 + d.radius % dotSize;
      && 1 <= radius <= dotSize
      && (2 * radius < width && 2 * radius < height ==>
            var x, y := radius + d.x % (width - 2 * radius), radius + d.y % (height - 2 * radius);
            && radius <= x < width - radius && radius <= y < height - radius
            && (Covers(d, dotSize, width, height, px, py) <==> Painted(px - x, py - y, radius)))
  {
  }

  /** The colour a pixel ends with: the last circle covering it wins. */
  function Noise(draws: seq<Draw>, dotSize: nat, width: nat, height: nat, px: int, py: int,
      base: ColorIndex): ColorIndex {
    if draws == [] then base
    else if Covers(draws[|draws| - 1], dotSize, width, height, px, py) then ColorOf(draws[|draws| - 1])
    else Noise(draws[..|draws| - 1], dotSize, width, height, px, py, base)
  }

  /** Noise never erases to the background and never touches a pixel no circle covers. */
  lemma {:induction false} NoiseColors(draws: seq<Draw>, dotSize: nat, width: nat, height: nat, px: int, py: int,
      base: ColorIndex)
    ensures var c := Noise(draws, dotSize, width, height, px, py, base);
      if exists k :: 0 <= k < |draws| && Covers(draws[k], dotSize, width, height, px, py)
      then 1 <= c < CIRCLE_COUNT as ColorIndex else c == base
  {
    if draws != [] {
      var front := draws[..|draws| - 1];
      NoiseColors(front, dotSize, width, height, px, py, base);
      assert forall k :: 0 <= k < |front| ==> front[k] == draws[k];
    }
  }

  /** The last circle that covers a pixel gives it its colour, one of the nineteen after the background. */
  lemma {:induction false} LastCircleWins(draws: seq<Draw>, k: nat, dotSize: nat, width: nat, height: nat,
      px: int, py: int, base: ColorIndex)
    requires k < |draws| && Covers(draws[k], dotSize, width, height, px, py)
    requires forall j :: k < j < |draws| ==> !Covers(draws[j], dotSize, width, height, px, py)
    ensures Noise(draws, dotSize, width, height, px, py, base) as int == 1 + draws[k].color % 19
  {
    if k < |draws| - 1 {
      assert !Covers(draws[|draws| - 1], dotSize, width, height, px, py);
      LastCircleWins(draws[..|draws| - 1], k, dotSize, width, height, px, py, base);
    }
  }

  // ----- the canvas -----

  class Canvas {
    const pixels: array2<ColorIndex>

    constructor (width: nat, height: nat)
      ensures pixels.Length0 == width && pixels.Length1 == height && fresh(pixels)
      ensures forall x, y :: 0 <= x < width && 0 <= y < height ==> pixels[x, y] == 0
    {
      pixels := new ColorIndex[width, height]((x, y) => 0);
    }

    predicate Inside(x: int, y: int) {
      0 <= x < pixels.Length0 && 0 <= y < pixels.Length1
    }

    /** Points outside the picture are ignored, as `image.Paletted` does. */
    method SetColorIndex(x: int, y: int, color: ColorIndex)
      modifies pixels
      ensures forall px, py :: Inside(px, py) ==>
        pixels[px, py] == if px == x && py == y then color else old(pixels[px, py])
    {
      if Inside(x, y) {
        pixels[x, y] := color;
      }
    }

    method DrawHorizontal(fromX: int, toX: int, posY: int, color: ColorIndex)
      modifies pixels
      ensures forall px, py :: Inside(px, py) ==>
        pixels[px, py] == if py == posY && fromX <= px <= toX then color else old(pixels[px, py])
    {
      var posX := fromX;
      while posX <= toX
        invariant fromX <= posX && (posX <= toX + 1 || toX < fromX == posX)
        invariant forall px, py :: Inside(px, py) ==>
          pixels[px, py] == if py == posY && fromX <= px < posX then color else old(pixels[px, py])
        decreases toX - posX
      {
        SetColorIndex(posX, posY, color);
        posX := posX + 1;
      }
    }

    /** The four rows one iteration of the midpoint loop draws. */
    method DrawRows(posX: int, posY: int, offsetX: int, offsetY: int, color: ColorIndex)
      modifies pixels
      requires 0 <= offsetX && 0 <= offsetY
      ensures forall px, py :: Inside(px, py) ==>
        var a, b := Abs(px - posX), Abs(py - posY);
        var drawn := (b == offsetY && a <= offsetX) || (b == offsetX && a <= offsetY);
        pixels[px, py] == if drawn then color else old(pixels[px, py])
    {
      DrawHorizontal(posX - offsetX, posX + offsetX, posY + offsetY, color);
      DrawHorizontal(posX - offsetX, posX + offsetX, posY - offsetY, color);
      DrawHorizontal(posX - offsetY, posX + offsetY, posY + offsetX, color);
      DrawHorizontal(posX - offsetY, posX + offsetY, posY - offsetX, color);
    }

    /** The midpoint loop paints exactly the offsets `Painted`, clipped to the picture, and nothing else. */
    method DrawCircle(posX: int, posY: int, radius: int, color: ColorIndex)
      modifies pixels
      ensures forall px, py :: Inside(px, py) ==>
        pixels[px, py] == if Painted(px - posX, py - posY, radius) then color else old(pixels[px, py])
    {
      var errorTerm := 1 - radius;
      var deltaX := 1;
      var deltaY := -2 * radius;
      var offsetX := 0;
      var offsetY := radius;
      SetColorIndex(posX, posY + radius, color);
      SetColorIndex(posX, posY - radius, color);
      DrawHorizontal(posX - radius, posX + radius, posY, color);
      if 0 <= radius {
        forall a: nat, b: nat
          ensures SoFar(0, radius, radius, a, b) <==> (a == 0 && b == radius) || (b == 0 && a <= radius)
        {
          ArcStart(radius, a, b);
        }
        ArcStart(radius, 0, 0);
      }
      while offsetX < offsetY
        invariant Stepping(offsetX, offsetY, deltaX, deltaY, errorTerm, radius)
        invariant radius < 0 ==> offsetX == 0 && offsetY == radius
        invariant 0 <= radius ==> OnArc(offsetX, offsetY, radius)
        invariant 0 <= radius ==> forall px, py :: Inside(px, py) ==>
          pixels[px, py] == if SoFar(offsetX, offsetY, radius, Abs(px - posX), Abs(py - posY)) then color
                            else old(pixels[px, py])
        invariant radius < 0 ==> forall px, py :: Inside(px, py) ==>
          pixels[px, py] == if Painted(px - posX, py - posY, radius) then color else old(pixels[px, py])
        decreases offsetY - offsetX
      {
        ghost var x, y := offsetX, offsetY;
        ArcStep(x, y, radius);
        ErrorStep(x, y, deltaX, deltaY, errorTerm, radius);
        if errorTerm >= 0 {
          offsetY := offsetY - 1;
          deltaY := deltaY + 2;
          errorTerm := errorTerm + deltaY;
        }
        offsetX := offsetX + 1;
        deltaX := deltaX + 2;
        errorTerm := errorTerm + deltaX;
        DrawRows(posX, posY, offsetX, offsetY, color);
        forall a: nat, b: nat
          ensures SoFar(offsetX, offsetY, radius, a, b)
             <==> SoFar(x, y, radius, a, b) || (b == offsetY && a <= offsetX) || (b == offsetX && a <= offsetY)
        {
          RowsStep(x, y, offsetX, offsetY, radius, a, b);
        }
      }
      if 0 <= radius {
        forall a: nat, b: nat
          ensures SoFar(offsetX, offsetY, radius, a, b) <==> InOctants(a, b, radius)
        {
          ArcComplete(offsetX, offsetY, radius, a, b);
        }
      }
    }

    /** The circles `renderPNG` scatters over the picture, one per draw. */
    method DrawNoise(draws: seq<Draw>, dotSize: nat)
      modifies pixels
      ensures forall px, py :: Inside(px, py) ==>
        pixels[px, py] == Noise(draws, dotSize, pixels.Length0, pixels.Length1, px, py, old(pixels[px, py]))
    {
      for n := 0 to |draws|
        invariant forall px, py :: Inside(px, py) ==>
          pixels[px, py] == Noise(draws[..n], dotSize, pixels.Length0, pixels.Length1, px, py, old(pixels[px, py]))
      {
        var d := draws[n];
        var radius := RadiusOf(d, dotSize);
        DrawCircle(RandomInt(radius, pixels.Length0 - radius, d.x), RandomInt(radius, pixels.Length1 - radius, d.y),
          radius, ColorOf(d));
        assert draws[..n + 1][..n] == draws[..n] && draws[..n + 1][n] == d;
      }
      assert draws[..|draws|] == draws;
    }
  }
}
