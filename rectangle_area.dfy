/**
 * The rectangle_area program: a rectangle of `u32` sides, the square
 * constructor, the area, and `can_hold` with non-strict comparisons.
 */
module RectangleArea {
  import opened RustInt

  datatype Rectangle = Rectangle(width: U32, height: U32) {

    /** `Rectangle::square`: both sides `size`. */
    static function Square(size: U32): (r: Rectangle)
      ensures r.width == size && r.height == size
    {
      Rectangle(size, size)
    }

    /** The area fits a `u32`; otherwise the multiplication overflows. */
    predicate AreaFits() {
      width * height <= U32_MAX
    }

    /** `Rectangle::area`. */
    function Area(): U32
      requires AreaFits()
    {
      width * height
    }

    /** At least as wide and at least as tall. */
    predicate CanHold(other: Rectangle) {
      width >= other.width && height >= other.height
    }
  }

  /** `can_hold` is a partial order: reflexive, antisymmetric and transitive. */
  lemma CanHoldIsPartialOrder(a: Rectangle, b: Rectangle, c: Rectangle)
    ensures a.CanHold(a)
    ensures a.CanHold(b) && b.CanHold(a) ==> a == b
    ensures a.CanHold(b) && b.CanHold(c) ==> a.CanHold(c)
  {
  }

  /** A rectangle that holds another has at least its area. */
  lemma AreaGrowsWithHolding(a: Rectangle, b: Rectangle)
    requires a.AreaFits() && b.AreaFits()
    requires a.CanHold(b)
    ensures a.Area() >= b.Area()
  {
    assert b.width * b.height <= a.width * b.height by {
      MultiplyMonotone(b.width, a.width, b.height);
    }
    assert a.width * b.height <= a.width * a.height by {
      MultiplyMonotone(b.height, a.height, a.width);
    }
  }

  lemma MultiplyMonotone(x: nat, y: nat, z: nat)
    requires x <= y
    ensures x * z <= y * z
  {
  }

  /** A square of side `s` has area `s * s` and holds exactly the squares no larger. */
  lemma SquareFacts(s: U32, t: U32)
    requires s * s <= U32_MAX
    ensures Rectangle.Square(s).AreaFits() && Rectangle.Square(s).Area() == s * s
    ensures Rectangle.Square(s).CanHold(Rectangle.Square(t)) <==> s >= t
  {
  }

  /** What `main` prints: `rect1` is 60 by 50 with area 3000, holds `rect2` and not `rect3`. */
  lemma MainFacts()
    ensures var scale := 2;
      var rect1 := Rectangle(30 * scale, 50);
      rect1.AreaFits() && rect1.Area() == 3000
      && rect1.CanHold(Rectangle(10, 40))
      && !rect1.CanHold(Rectangle(80, 45))
      && Rectangle.Square(3) == Rectangle(3, 3)
  {
  }
}
