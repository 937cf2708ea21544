/** How a controller's output becomes a change to the car (simulation.py, inside the
    per-car loop of `run_simulation`). */
module Decision {
  import opened Config
  import opened Vehicle

  /** Controller output: a non-empty list of scores (`max` of an empty list raises). */
  type Scores = s: seq<real> | |s| > 0 witness [0.0]

  /** The network of one genome, as an opaque map from sensor buckets to scores. */
  type Controller = seq<nat> -> Scores

  /** Python's `max` over a non-empty list. */
  function Max(s: seq<real>): (m: real)
    requires |s| > 0
    ensures m in s
    ensures forall j :: 0 <= j < |s| ==> s[j] <= m
  {
    if |s| == 1 then s[0]
    else
      var rest := Max(s[1..]);
      assert forall j :: 1 <= j < |s| ==> s[j] == s[1..][j - 1];
      if s[0] >= rest then s[0] else rest
  }

  /** Python's `list.index`: the position of the first occurrence of `v`. */
  function IndexOf(s: seq<real>, v: real): (k: nat)
    requires v in s
    ensures k < |s| && s[k] == v
    ensures forall j :: 0 <= j < k ==> s[j] != v
  {
    if s[0] == v then 0
    else
      assert v in s[1..];
      var k := IndexOf(s[1..], v);
      assert forall j :: 1 <= j <= k ==> s[j] == s[1..][j - 1];
      1 + k
  }

  /** `k` is the first position of a maximal score. */
  predicate FirstMax(s: seq<real>, k: nat) {
    && k < |s|
    && (forall j :: 0 <= j < |s| ==> s[j] <= s[k])
    && (forall j :: 0 <= j < k ==> s[j] < s[k])
  }

  /** `output.index(max(output))`: the first position of a maximal score. */
  function Choice(s: Scores): (k: nat)
    ensures FirstMax(s, k)
  {
    IndexOf(s, Max(s))
  }

  /** `Choice` is the one and only first maximal position. */
  lemma ChoiceUnique(s: Scores)
    ensures forall k :: FirstMax(s, k) <==> k == Choice(s)
  {
  }

  datatype Action = TurnLeft | TurnRight | Decelerate | Accelerate

  /** The `if`/`elif` chain on the choice: every index past 2 accelerates. */
  function ActionOf(choice: nat): (a: Action)
    ensures a == TurnLeft <==> choice == 0
    ensures a == TurnRight <==> choice == 1
    ensures a == Decelerate <==> choice == 2
    ensures a == Accelerate <==> choice >= 3
  {
    if choice == 0 then TurnLeft
    else if choice == 1 then TurnRight
    else if choice == 2 then Decelerate
    else Accelerate
  }

  /** The effect of an action: turns change only the heading, the others only the speed,
      and deceleration is skipped when it would go below the floor. */
  function Apply(c: Car, a: Action): (r: Car)
    ensures r == c.(angle := r.angle, speed := r.speed)
    ensures a.TurnLeft? ==> r.angle == c.angle + TurnStep && r.speed == c.speed
    ensures a.TurnRight? ==> r.angle == c.angle - TurnStep && r.speed == c.speed
    ensures a.Decelerate? ==> r.angle == c.angle
    ensures a.Decelerate? && c.speed - SpeedStep >= MinSpeed ==> r.speed == c.speed - SpeedStep
    ensures a.Decelerate? && c.speed - SpeedStep < MinSpeed ==> r.speed == c.speed
    ensures a.Accelerate? ==> r.angle == c.angle && r.speed == c.speed + SpeedStep
    ensures c.speed >= MinSpeed ==> r.speed >= MinSpeed
    ensures WellFormed(c) ==> WellFormed(r)
  {
    match a
    case TurnLeft => c.(angle := c.angle + TurnStep)
    case TurnRight => c.(angle := c.angle - TurnStep)
    case Decelerate =>
      if c.speed - SpeedStep >= MinSpeed then c.(speed := c.speed - SpeedStep) else c
    case Accelerate => c.(speed := c.speed + SpeedStep)
  }

  /** The action a controller picks for a car, from the car's current readings. */
  function Decide(net: Controller, c: Car): (a: Action)
    ensures a == TurnLeft <==> FirstMax(net(GetData(c)), 0)
    ensures a == TurnRight <==> FirstMax(net(GetData(c)), 1)
    ensures a == Decelerate <==> FirstMax(net(GetData(c)), 2)
    ensures a == Accelerate <==> exists k :: 3 <= k && FirstMax(net(GetData(c)), k)
  {
    var s := net(GetData(c));
    ChoiceUnique(s);
    ActionOf(Choice(s))
  }
}
