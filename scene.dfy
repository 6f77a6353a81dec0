/** The scene and the nearest-hit query shared by both renderers. Both copies
    of `ClosestIntersection` have the same text, so one model stands for both.
    The 3x3 solve `inverse(A) * b` is not computed: each world carries a
    function `solve` giving the barycentric triple `(t, u, v)` of a triangle for
    a ray. */
module Scene {
  import opened Vectors

  /** `std::numeric_limits<float>::max()`, the "nothing hit yet" distance. */
  const MaxFloat: real := 340282346638528859811704183484516925440.0

  datatype Option<T> = None | Some(value: T)

  datatype Triangle = Triangle(v0: Vec3, v1: Vec3, v2: Vec3, normal: Vec3, emittance: Vec3, color: Vec3)

  /** The solution `x = (t, u, v)` of `(-dir) t + e1 u + e2 v = start - v0`. */
  datatype Bary = Bary(t: real, u: real, v: real)

  /** The `Intersection` record: hit point, distance along the ray, triangle index. */
  datatype Intersection = Intersection(position: Vec3, distance: real, triangleIndex: int)

  /** The triangles, the 3x3 solve and the length function `glm::length`. */
  datatype World = World(
    triangles: seq<Triangle>,
    solve: (Triangle, Vec3, Vec3) -> Bary,
    norm: Vec3 -> real)

  /** The acceptance test: in front of the ray and inside the triangle. */
  predicate Accepted(x: Bary)
  {
    x.t > 0.0 && x.u >= 0.0 && x.v >= 0.0 && x.u <= 1.0 && x.v <= 1.0 && x.u + x.v <= 1.0
  }

  /** The solved triple of triangle `i` for the ray from `start` along unit `nd`. */
  function Solved(world: World, start: Vec3, nd: Vec3, i: nat): Bary
    requires i < |world.triangles|
  {
    world.solve(world.triangles[i], start, nd)
  }

  /** `glm::length(x.x * dir)`, the distance recorded for triangle `i`. */
  function HitDistance(world: World, start: Vec3, nd: Vec3, i: nat): real
    requires i < |world.triangles|
  {
    world.norm(Scale(Solved(world, start, nd, i).t, nd))
  }

  /** Triangle `i` passes the test and is nearer than the sentinel. */
  predicate Recordable(world: World, start: Vec3, nd: Vec3, i: nat)
    requires i < |world.triangles|
  {
    Accepted(Solved(world, start, nd, i)) && HitDistance(world, start, nd, i) < MaxFloat
  }

  /** The record kept by the scan after looking at the first `n` triangles
      (`None` while the distance is still the sentinel). A triangle replaces the
      record only when it is strictly nearer. */
  function Scan(world: World, start: Vec3, nd: Vec3, n: nat): (r: Option<Intersection>)
    requires n <= |world.triangles|
    ensures r.Some? ==> 0 <= r.value.triangleIndex < n && r.value.distance < MaxFloat
  {
    if n == 0 then None
    else
      var prev := Scan(world, start, nd, n - 1);
      var x := Solved(world, start, nd, n - 1);
      var distance := HitDistance(world, start, nd, n - 1);
      var bound := if prev.Some? then prev.value.distance else MaxFloat;
      if Accepted(x) && distance < bound then
        Some(Intersection(Add(start, Scale(x.t, nd)), distance, n - 1))
      else
        prev
  }

  /** `ClosestIntersection` as a value: `None` when it returns false, otherwise
      the record it leaves in its out-parameter. The direction is normalised
      first; normalising the zero vector yields NaN, and every comparison with
      NaN is false, so nothing is hit. */
  function Closest(world: World, start: Vec3, dir: Vec3): (r: Option<Intersection>)
    ensures r.Some? ==> 0 <= r.value.triangleIndex < |world.triangles| && r.value.distance < MaxFloat
  {
    match Normalize(dir, world.norm)
    case NaN => None
    case Num(nd) => Scan(world, start, nd, |world.triangles|)
  }

  /** The scan: the sentinel goes into the out-parameter, every triangle is
      tested in order, and the answer is whether the sentinel was replaced. */
  method ClosestIntersection(start: Vec3, dir: Vec3, world: World, init: Intersection)
    returns (found: bool, closest: Intersection)
    ensures found == Closest(world, start, dir).Some?
    ensures found ==> closest == Closest(world, start, dir).value
    ensures !found ==> closest == init.(distance := MaxFloat)
  {
    closest := init.(distance := MaxFloat);
    var unit := Normalize(dir, world.norm);
    if unit.NaN? {
      return false, closest;
    }
    var nd := unit.v;
    var i := 0;
    while i < |world.triangles|
      invariant 0 <= i <= |world.triangles|
      invariant closest == match Scan(world, start, nd, i)
        case None => init.(distance := MaxFloat)
        case Some(h) => h
    {
      var x := world.solve(world.triangles[i], start, nd);
      if Accepted(x) {
        var end := Add(start, Scale(x.t, nd));
        var distance := world.norm(Scale(x.t, nd));
        if distance < closest.distance {
          closest := Intersection(end, distance, i);
        }
      }
      i := i + 1;
    }
    found := closest.distance != MaxFloat;
  }

  /** The record after `n` triangles is the first nearest recordable one. */
  lemma {:induction false} ScanNearest(world: World, start: Vec3, nd: Vec3, n: nat)
    requires n <= |world.triangles|
    ensures Scan(world, start, nd, n).None? <==>
      forall j :: 0 <= j < n ==> !Recordable(world, start, nd, j)
    ensures Scan(world, start, nd, n).Some? ==>
      var h := Scan(world, start, nd, n).value;
      var k := h.triangleIndex;
      && Recordable(world, start, nd, k)
      && h.distance == HitDistance(world, start, nd, k)
      && h.position == Add(start, Scale(Solved(world, start, nd, k).t, nd))
      && (forall j :: 0 <= j < n && Accepted(Solved(world, start, nd, j)) ==>
            h.distance <= HitDistance(world, start, nd, j))
      && (forall j :: 0 <= j < k && Accepted(Solved(world, start, nd, j)) ==>
            h.distance < HitDistance(world, start, nd, j))
  {
    if n > 0 {
      ScanNearest(world, start, nd, n - 1);
      var prev := Scan(world, start, nd, n - 1);
      var d := HitDistance(world, start, nd, n - 1);
      var bound := if prev.Some? then prev.value.distance else MaxFloat;
      if Accepted(Solved(world, start, nd, n - 1)) && d < bound {
        assert Recordable(world, start, nd, n - 1);
        forall j | 0 <= j < n - 1 && Accepted(Solved(world, start, nd, j))
          ensures d < HitDistance(world, start, nd, j)
        {
          if prev.None? {
            assert !Recordable(world, start, nd, j);
          }
        }
      } else if prev.Some? {
        assert Scan(world, start, nd, n) == prev;
      } else {
        assert !Recordable(world, start, nd, n - 1);
      }
    }
  }

  /** With a unit direction, the distance recorded for an accepted triangle is its `t`. */
  lemma HitDistanceIsT(world: World, start: Vec3, nd: Vec3, j: nat)
    requires IsNorm(world.norm) && Dot(nd, nd) == 1.0
    requires j < |world.triangles| && Accepted(Solved(world, start, nd, j))
    ensures HitDistance(world, start, nd, j) == Solved(world, start, nd, j).t
  {
    NormScaleUnit(world.norm, Solved(world, start, nd, j).t, nd);
  }

  /** The query answers false exactly when the direction is zero or no triangle
      passes the acceptance test at a distance below the sentinel. */
  lemma ClosestMiss(world: World, start: Vec3, dir: Vec3)
    requires IsNorm(world.norm)
    ensures Normalize(dir, world.norm).NaN? <==> dir == Zero
    ensures Closest(world, start, dir).None? <==>
      var unit := Normalize(dir, world.norm);
      || unit.NaN?
      || forall j :: 0 <= j < |world.triangles| ==>
           !(Accepted(Solved(world, start, unit.v, j)) && Solved(world, start, unit.v, j).t < MaxFloat)
  {
    NormalizeDefined(world.norm, dir);
    if dir != Zero {
      NormalizeUnit(world.norm, dir);
      var nd := Normalize(dir, world.norm).v;
      ScanNearest(world, start, nd, |world.triangles|);
      forall j | 0 <= j < |world.triangles|
        ensures Recordable(world, start, nd, j) <==>
          Accepted(Solved(world, start, nd, j)) && Solved(world, start, nd, j).t < MaxFloat
      {
        if Accepted(Solved(world, start, nd, j)) {
          HitDistanceIsT(world, start, nd, j);
        }
      }
    }
  }

  /** On success the record names an accepted triangle in range, its distance is
      its `t` (the direction is a unit vector), its position is `start + t d`
      for the normalised `d`, no accepted triangle is nearer, and every earlier
      triangle is strictly farther (the first of equally near ones wins). */
  lemma ClosestNearest(world: World, start: Vec3, dir: Vec3)
    requires IsNorm(world.norm)
    requires Closest(world, start, dir).Some?
    ensures dir != Zero
    ensures var nd := Normalize(dir, world.norm).v;
      var h := Closest(world, start, dir).value;
      var k := h.triangleIndex;
      && 0 <= k < |world.triangles|
      && Accepted(Solved(world, start, nd, k))
      && h.distance == Solved(world, start, nd, k).t
      && h.position == Add(start, Scale(h.distance, nd))
      && (forall j :: 0 <= j < |world.triangles| && Accepted(Solved(world, start, nd, j)) ==>
            h.distance <= Solved(world, start, nd, j).t)
      && (forall j :: 0 <= j < k && Accepted(Solved(world, start, nd, j)) ==>
            h.distance < Solved(world, start, nd, j).t)
  {
    NormalizeDefined(world.norm, dir);
    NormalizeUnit(world.norm, dir);
    var nd := Normalize(dir, world.norm).v;
    ScanNearest(world, start, nd, |world.triangles|);
    forall j | 0 <= j < |world.triangles| && Accepted(Solved(world, start, nd, j))
      ensures HitDistance(world, start, nd, j) == Solved(world, start, nd, j).t
    {
      HitDistanceIsT(world, start, nd, j);
    }
  }
}
