/** The car of car.py as an immutable record with one pure function per step of
    `update`: latch, move, distance and time counters, centre, collision, radars. */
module Vehicle {
  import opened Config
  import opened Numeric
  import opened Track

  /** One radar reading: the pixel where the ray stopped and its truncated distance
      from the car's centre. */
  datatype Radar = Radar(x: int, y: int, dist: nat)

  /** The state of one car. `x, y` is the top-left position and `cx, cy` the centre;
      the heading `angle` is in degrees and is never normalised. */
  datatype Car = Car(
    x: real, y: real,
    angle: int,
    speed: int,
    speedSet: bool,
    cx: real, cy: real,
    radars: seq<Radar>,
    alive: bool,
    distance: int,
    time: nat)

  /** The centre is the position shifted by half the footprint. */
  predicate Centred(c: Car) {
    c.cx == c.x + HalfX && c.cy == c.y + HalfY
  }

  /** What holds of every car a generation can produce: the latch is set exactly when the
      car has been updated, the speed is then at least the floor, and every update has
      added at least the floor to the distance. */
  predicate WellFormed(c: Car) {
    && (c.speedSet <==> c.time > 0)
    && (c.speedSet ==> c.speed >= MinSpeed)
    && c.distance >= MinSpeed * c.time
  }

  /** `Car.__init__`: a fresh, live, not yet latched car with no readings. */
  function NewCar(sx: real, sy: real): (c: Car)
    ensures c.x == sx && c.y == sy && Centred(c)
    ensures c.angle == 0 && c.speed == 0
    ensures c.alive && !c.speedSet && c.time == 0 && c.distance == 0 && c.radars == []
    ensures WellFormed(c)
  {
    Car(sx, sy, 0, 0, false, sx + HalfX, sy + HalfY, [], true, 0, 0)
  }

  /** The first step of `update`: the first call forces the starting speed and sets the
      latch; later calls leave both alone. */
  function Latch(c: Car): (r: Car)
    ensures r.speedSet
    ensures c.speedSet ==> r == c
    ensures !c.speedSet ==> r == c.(speed := LatchSpeed, speedSet := true)
  {
    if c.speedSet then c else c.(speed := LatchSpeed, speedSet := true)
  }

  /** The displacement of one move at the given heading and speed. */
  function Displacement(w: World, angle: int, speed: int): (real, real) {
    (w.cos(angle) * (speed as real), w.sin(angle) * (speed as real))
  }

  /** `_move`: each coordinate moves by the displacement along the heading, then is clamped. */
  function Move(w: World, c: Car): (r: Car)
    ensures NearestInRange(c.x + Displacement(w, c.angle, c.speed).0, MinX as real, MaxX as real, r.x)
    ensures NearestInRange(c.y + Displacement(w, c.angle, c.speed).1, MinY as real, MaxY as real, r.y)
    ensures r == c.(x := r.x, y := r.y)
  {
    var x := Clamp(c.x + Displacement(w, c.angle, c.speed).0, MinX as real, MaxX as real);
    var y := Clamp(c.y + Displacement(w, c.angle, c.speed).1, MinY as real, MaxY as real);
    c.(x := x, y := y)
  }

  /** `_update_distance`. */
  function CountStep(c: Car): (r: Car)
    ensures r.distance - c.distance == c.speed && r.time == c.time + 1
    ensures r == c.(distance := r.distance, time := r.time)
  {
    c.(distance := c.distance + c.speed, time := c.time + 1)
  }

  /** `_update_center`. */
  function Recentre(c: Car): (r: Car)
    ensures Centred(r)
    ensures r == c.(cx := r.cx, cy := r.cy)
  {
    c.(cx := c.x + HalfX, cy := c.y + HalfY)
  }

  /** `_get_corners`: four points around the centre, the first `HalfX` along the heading
      and each next one a quarter turn further, so opposite points are symmetric about
      the centre. */
  function Corners(w: World, cx: real, cy: real, angle: int): (ps: seq<(real, real)>)
    ensures |ps| == 4
    ensures ps[0].0 == cx + w.cos(angle) * HalfX && ps[0].1 == cy + w.sin(angle) * HalfX
    ensures forall i :: 0 <= i < 3 ==>
              ps[i + 1].0 - cx == -(ps[i].1 - cy) && ps[i + 1].1 - cy == ps[i].0 - cx
    ensures ps[0].0 + ps[2].0 == 2.0 * cx && ps[0].1 + ps[2].1 == 2.0 * cy
    ensures ps[1].0 + ps[3].0 == 2.0 * cx && ps[1].1 + ps[3].1 == 2.0 * cy
  {
    var co := w.cos(angle);
    var si := w.sin(angle);
    [ (cx + co * HalfX, cy + si * HalfX),
      (cx - si * HalfX, cy + co * HalfX),
      (cx - co * HalfX, cy - si * HalfX),
      (cx + si * HalfX, cy - co * HalfX) ]
  }

  /** The pixel under point `p` is a border pixel: whichever pixel both coordinates
      truncate to decides. */
  predicate OnBorder(w: World, p: (real, real)): (b: bool)
    ensures forall px, py :: TruncatesTo(p.0, px) && TruncatesTo(p.1, py) ==> (b <==> w.isBorder(px, py))
  {
    TruncUnique(p.0);
    TruncUnique(p.1);
    w.isBorder(Trunc(p.0), Trunc(p.1))
  }

  /** The corner loop of `check_collision`: scan the points in order and stop at the first
      one on the border. */
  function AnyOnBorder(w: World, ps: seq<(real, real)>): (hit: bool)
    ensures hit <==> exists i :: 0 <= i < |ps| && OnBorder(w, ps[i])
  {
    if ps == [] then false
    else if OnBorder(w, ps[0]) then true
    else
      var rest := AnyOnBorder(w, ps[1..]);
      assert forall i :: 1 <= i < |ps| ==> ps[i] == ps[1..][i - 1];
      rest
  }

  /** `check_collision`: the car is alive exactly when none of its four corners lies on a
      border pixel. The flag is first reset to true, so a clear car comes out alive
      whatever it was before. */
  function CheckCollision(w: World, c: Car): (r: Car)
    ensures r.alive <==> forall i :: 0 <= i < 4 ==> !OnBorder(w, Corners(w, c.cx, c.cy, c.angle)[i])
    ensures r == c.(alive := r.alive)
  {
    c.(alive := !AnyOnBorder(w, Corners(w, c.cx, c.cy, c.angle)))
  }

  /** A radar ray: its origin (the car's centre) and absolute direction `angle + offset`. */
  datatype Ray = Ray(ox: real, oy: real, heading: int)

  function RayOf(c: Car, offset: int): Ray {
    Ray(c.cx, c.cy, c.angle + offset)
  }

  /** The pixel `length` steps along the ray: the point at that distance from the origin
      in the ray's direction, both coordinates truncated toward zero. */
  function RayPixel(w: World, ray: Ray, length: nat): (p: (int, int))
    ensures TruncatesTo(ray.ox + w.cos(ray.heading) * (length as real), p.0)
    ensures TruncatesTo(ray.oy + w.sin(ray.heading) * (length as real), p.1)
  {
    (Trunc(ray.ox + w.cos(ray.heading) * (length as real)),
     Trunc(ray.oy + w.sin(ray.heading) * (length as real)))
  }

  predicate RayHit(w: World, ray: Ray, length: nat) {
    w.isBorder(RayPixel(w, ray, length).0, RayPixel(w, ray, length).1)
  }

  /** `n` is where the march of `check_radar` stops: no earlier step was a border pixel,
      and step `n` is one or the range is exhausted. */
  predicate StopsAt(w: World, ray: Ray, n: nat) {
    && n <= RadarRange
    && (forall j :: 0 <= j < n ==> !RayHit(w, ray, j))
    && (n == RadarRange || RayHit(w, ray, n))
  }

  /** The `while` loop of `check_radar`, continued from step `length`. */
  function March(w: World, ray: Ray, length: nat): (n: nat)
    requires length <= RadarRange
    ensures length <= n <= RadarRange
    ensures forall j :: length <= j < n ==> !RayHit(w, ray, j)
    ensures n == RadarRange || RayHit(w, ray, n)
    decreases RadarRange - length
  {
    if RayHit(w, ray, length) || length >= RadarRange then length
    else March(w, ray, length + 1)
  }

  /** The step at which the radar stops, marching from the centre. */
  function RadarLength(w: World, ray: Ray): (n: nat)
    ensures StopsAt(w, ray, n)
  {
    March(w, ray, 0)
  }

  /** There is only one place the march can stop. */
  lemma StopsAtUnique(w: World, ray: Ray, n: nat)
    requires StopsAt(w, ray, n)
    ensures n == RadarLength(w, ray)
  {
  }

  /** Squared Euclidean distance from the ray's origin to pixel (px, py). */
  function SquaredDistance(ray: Ray, px: int, py: int): (d: real)
    ensures 0.0 <= d
  {
    var dx := px as real - ray.ox;
    var dy := py as real - ray.oy;
    dx * dx + dy * dy
  }

  /** `check_radar`: the reading records the pixel where the march stopped and the floor of
      its distance from the centre. */
  function CheckRadar(w: World, ray: Ray): (r: Radar)
    ensures (r.x, r.y) == RayPixel(w, ray, RadarLength(w, ray))
    ensures (r.dist * r.dist) as real <= SquaredDistance(ray, r.x, r.y)
    ensures SquaredDistance(ray, r.x, r.y) < ((r.dist + 1) * (r.dist + 1)) as real
  {
    var (px, py) := RayPixel(w, ray, RadarLength(w, ray));
    Radar(px, py, FloorSqrt(SquaredDistance(ray, px, py)))
  }

  /** `_update_radars`: a fresh list of one reading per offset, in offset order. */
  function UpdateRadars(w: World, c: Car): (rs: seq<Radar>)
    ensures |rs| == |RayOffsets|
    ensures forall i :: 0 <= i < |RayOffsets| ==> rs[i] == CheckRadar(w, RayOf(c, RayOffsets[i]))
  {
    seq(|RayOffsets|, i requires 0 <= i < |RayOffsets| => CheckRadar(w, RayOf(c, RayOffsets[i])))
  }

  /** The previous readings play no part in the new ones. */
  lemma UpdateRadarsDiscardsPrevious(w: World, c: Car, previous: seq<Radar>)
    ensures UpdateRadars(w, c.(radars := previous)) == UpdateRadars(w, c)
  {
  }

  /** The kinematic half of `update`: latch, move, count, recentre. */
  function Advance(w: World, c: Car): (r: Car)
    ensures r.speedSet
    ensures r.speed == if c.speedSet then c.speed else LatchSpeed
    ensures NearestInRange(c.x + Displacement(w, c.angle, r.speed).0, MinX as real, MaxX as real, r.x)
    ensures NearestInRange(c.y + Displacement(w, c.angle, r.speed).1, MinY as real, MaxY as real, r.y)
    ensures r.distance == c.distance + r.speed && r.time == c.time + 1
    ensures Centred(r)
    ensures r == c.(x := r.x, y := r.y, speed := r.speed, speedSet := true, cx := r.cx, cy := r.cy,
                    distance := r.distance, time := r.time)
    ensures WellFormed(c) ==> WellFormed(r)
  {
    Recentre(CountStep(Move(w, Latch(c))))
  }

  /** The sensing half of `update`: collision test, then fresh radar readings. */
  function Sense(w: World, c: Car): (r: Car)
    ensures r.alive <==> forall i :: 0 <= i < 4 ==> !OnBorder(w, Corners(w, r.cx, r.cy, r.angle)[i])
    ensures r.radars == UpdateRadars(w, r)
    ensures r == c.(alive := r.alive, radars := r.radars)
  {
    var checked := CheckCollision(w, c);
    checked.(radars := UpdateRadars(w, checked))
  }

  /** `update`: one simulation step of a car. */
  function Update(w: World, c: Car): (r: Car)
    ensures r.speedSet
    ensures r.speed == if c.speedSet then c.speed else LatchSpeed
    ensures r.angle == c.angle
    ensures NearestInRange(c.x + Displacement(w, c.angle, r.speed).0, MinX as real, MaxX as real, r.x)
    ensures NearestInRange(c.y + Displacement(w, c.angle, r.speed).1, MinY as real, MaxY as real, r.y)
    ensures r.distance == c.distance + r.speed && r.time == c.time + 1
    ensures Centred(r)
    ensures r.alive <==> forall i :: 0 <= i < 4 ==> !OnBorder(w, Corners(w, r.cx, r.cy, r.angle)[i])
    ensures r.radars == UpdateRadars(w, r)
    ensures WellFormed(c) ==> WellFormed(r)
  {
    Sense(w, Advance(w, c))
  }

  /** The integer part of a reading divided by 30, capped at 10 (`get_data`). */
  function Bucket(d: nat): (b: nat)
    ensures b <= MaxBucket
    ensures RadarRange <= d ==> b == MaxBucket
    ensures b < MaxBucket ==> b * BucketWidth <= d < (b + 1) * BucketWidth
    ensures b == MaxBucket ==> MaxBucket * BucketWidth <= d
  {
    if d / BucketWidth < MaxBucket then d / BucketWidth else MaxBucket
  }

  /** A farther wall never gives a smaller bucket. */
  lemma BucketMonotone(d1: nat, d2: nat)
    requires d1 <= d2
    ensures Bucket(d1) <= Bucket(d2)
  {
  }

  /** `get_data`: one bucket per reading, in reading order. */
  function GetData(c: Car): (data: seq<nat>)
    ensures |data| == |c.radars|
    ensures forall i :: 0 <= i < |data| ==> data[i] <= MaxBucket
    ensures forall i :: 0 <= i < |data| ==> data[i] == Bucket(c.radars[i].dist)
  {
    seq(|c.radars|, i requires 0 <= i < |c.radars| => Bucket(c.radars[i].dist))
  }

  /** `get_reward`: the distance measured in half car-widths. */
  function Reward(c: Car): (r: real)
    ensures r * HalfX == c.distance as real
    ensures 0 <= c.distance ==> 0.0 <= r
    ensures 0 < c.distance ==> 0.0 < r
  {
    c.distance as real / HalfX
  }
}
