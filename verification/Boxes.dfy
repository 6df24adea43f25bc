// Axis-aligned boxes over the reals.
module Boxes {
  datatype Vec2 = Vec2(x: real, y: real)

  datatype AABB = AABB(lower: Vec2, upper: Vec2)

  function Min(a: real, b: real): real { if a < b then a else b }

  function Max(a: real, b: real): real { if a > b then a else b }

  function Abs(a: real): real { if a > 0.0 then a else -a }

  function Combine(a: AABB, b: AABB): AABB {
    AABB(Vec2(Min(a.lower.x, b.lower.x), Min(a.lower.y, b.lower.y)),
         Vec2(Max(a.upper.x, b.upper.x), Max(a.upper.y, b.upper.y)))
  }

  predicate Contains(a: AABB, b: AABB) {
    a.lower.x <= b.lower.x && a.lower.y <= b.lower.y && b.upper.x <= a.upper.x && b.upper.y <= a.upper.y
  }

  predicate Overlap(a: AABB, b: AABB) {
    !(b.lower.x - a.upper.x > 0.0 || b.lower.y - a.upper.y > 0.0)
    && !(a.lower.x - b.upper.x > 0.0 || a.lower.y - b.upper.y > 0.0)
  }

  function Center(a: AABB): Vec2 {
    Vec2(0.5 * (a.lower.x + a.upper.x), 0.5 * (a.lower.y + a.upper.y))
  }

  function Distance(a: Vec2, b: Vec2): real { Abs(a.x - b.x) + Abs(a.y - b.y) }

  function Extended(a: AABB, r: real): AABB {
    AABB(Vec2(a.lower.x - r, a.lower.y - r), Vec2(a.upper.x + r, a.upper.y + r))
  }

  // Stretched in the direction of a displacement.
  function Stretched(a: AABB, d: Vec2): AABB {
    AABB(Vec2(if d.x < 0.0 then a.lower.x + d.x else a.lower.x, if d.y < 0.0 then a.lower.y + d.y else a.lower.y),
         Vec2(if d.x < 0.0 then a.upper.x else a.upper.x + d.x, if d.y < 0.0 then a.upper.y else a.upper.y + d.y))
  }

  // The combination is the least box that contains both.
  lemma CombineLeast(a: AABB, b: AABB, c: AABB)
    ensures Contains(Combine(a, b), a) && Contains(Combine(a, b), b)
    ensures Contains(c, a) && Contains(c, b) ==> Contains(c, Combine(a, b))
  {
  }

  lemma OverlapGrows(a: AABB, b: AABB, c: AABB)
    requires Contains(a, b) && Overlap(b, c)
    ensures Overlap(a, c)
  {
  }

  lemma OverlapSwaps(a: AABB, b: AABB)
    ensures Overlap(a, b) == Overlap(b, a)
  {
  }

  lemma ExtendedHolds(a: AABB, r: real)
    requires r >= 0.0
    ensures Contains(Extended(a, r), a)
  {
  }

  // Stretching covers the way of the box along the displacement.
  lemma StretchedHolds(a: AABB, d: Vec2)
    ensures Contains(Stretched(a, d), a) && Contains(Stretched(a, d), Moved(a, d))
  {
  }

  function Moved(a: AABB, d: Vec2): AABB {
    AABB(Vec2(a.lower.x + d.x, a.lower.y + d.y), Vec2(a.upper.x + d.x, a.upper.y + d.y))
  }
}
