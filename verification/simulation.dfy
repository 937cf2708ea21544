/** `run_simulation`: one generation, stepping every live car in lockstep until none is
    left alive or the tick budget runs out. */
module Simulation {
  import opened Config
  import opened Track
  import opened Vehicle
  import opened Decision

  /** The least fitness a car can hold after `t` updates: every update adds the whole
      distance so far, and each update adds at least the speed floor to the distance, so
      fitness is at least `MinSpeed * (1 + 2 + ... + t) / HalfX`. */
  function FitnessFloor(t: nat): real {
    (MinSpeed as real) * (t as real) * ((t + 1) as real) / (2.0 * HalfX)
  }

  /** Crediting the reward of a well-formed car that has just made its `t + 1`-th update
      keeps fitness above the floor for one more update. */
  lemma AccrualStep(t: nat, fitness: real, u: Car)
    ensures FitnessFloor(t) <= fitness && WellFormed(u) && u.time == t + 1 ==>
              FitnessFloor(t + 1) <= fitness + Reward(u)
  {
    if WellFormed(u) && u.time == t + 1 {
      assert ((MinSpeed * (t + 1)) as real) <= Reward(u) * HalfX;
    }
  }

  /** One car's share of a tick: a dead car is skipped; a live one is updated, credited
      with its whole current reward, and then acts on its fresh readings. */
  function StepAgent(w: World, net: Controller, c: Car, fitness: real): (r: (Car, real))
    ensures !c.alive ==> r == (c, fitness)
    ensures c.alive ==> r.0 == Update(w, c).(angle := r.0.angle, speed := r.0.speed)
    ensures c.alive ==> r.0 == Apply(Update(w, c), Decide(net, Update(w, c)))
    ensures c.alive ==> r.1 == fitness + Reward(r.0)
    ensures WellFormed(c) ==> WellFormed(r.0) && fitness <= r.1
    ensures WellFormed(c) && FitnessFloor(c.time) <= fitness ==> FitnessFloor(r.0.time) <= r.1
  {
    if !c.alive then (c, fitness)
    else
      var u := Update(w, c);
      AccrualStep(c.time, fitness, u);
      (Apply(u, Decide(net, u)), fitness + Reward(u))
  }

  /** `still_alive`: the number of live cars, counted in order. */
  function CountAlive(cars: seq<Car>): (n: nat)
    ensures n <= |cars|
    ensures n == |cars| <==> forall i :: 0 <= i < |cars| ==> cars[i].alive
  {
    if cars == [] then 0
    else
      var init := cars[..|cars| - 1];
      assert forall i :: 0 <= i < |init| ==> init[i] == cars[i];
      CountAlive(init) + (if cars[|cars| - 1].alive then 1 else 0)
  }

  /** No car is counted exactly when every car is dead. */
  lemma {:induction false} CountAliveZero(cars: seq<Car>)
    ensures CountAlive(cars) == 0 <==> forall i :: 0 <= i < |cars| ==> !cars[i].alive
  {
    if cars != [] {
      var init := cars[..|cars| - 1];
      CountAliveZero(init);
      assert forall i :: 0 <= i < |init| ==> init[i] == cars[i];
    }
  }

  /** The body of the `while True` loop up to the `still_alive == 0` test: step every car
      in order and count those that were alive when the tick began. */
  method Tick(w: World, nets: seq<Controller>, cars: seq<Car>, fitness: seq<real>)
    returns (cars': seq<Car>, fitness': seq<real>, stillAlive: nat)
    requires |nets| == |cars| == |fitness|
    ensures |cars'| == |cars| && |fitness'| == |fitness|
    ensures stillAlive == CountAlive(cars)
    ensures forall i :: 0 <= i < |cars| ==>
              (cars'[i], fitness'[i]) == StepAgent(w, nets[i], cars[i], fitness[i])
    ensures forall i :: 0 <= i < |cars| && !cars[i].alive ==>
              cars'[i] == cars[i] && fitness'[i] == fitness[i]
    ensures forall i :: 0 <= i < |cars| && cars[i].alive ==> cars'[i].time == cars[i].time + 1
    ensures forall i :: 0 <= i < |cars| && WellFormed(cars[i]) ==> fitness[i] <= fitness'[i]
  {
    cars', fitness', stillAlive := cars, fitness, 0;
    var i := 0;
    while i < |cars|
      invariant 0 <= i <= |cars|
      invariant |cars'| == |cars| && |fitness'| == |fitness|
      invariant stillAlive == CountAlive(cars[..i])
      invariant forall j :: 0 <= j < i ==>
                  (cars'[j], fitness'[j]) == StepAgent(w, nets[j], cars[j], fitness[j])
      invariant forall j :: i <= j < |cars| ==> cars'[j] == cars[j] && fitness'[j] == fitness[j]
    {
      assert cars[..i + 1][..i] == cars[..i];
      if cars[i].alive {
        stillAlive := stillAlive + 1;
        var stepped := StepAgent(w, nets[i], cars[i], fitness[i]);
        cars' := cars'[i := stepped.0];
        fitness' := fitness'[i := stepped.1];
      }
      i := i + 1;
    }
    assert cars[..|cars|] == cars;
  }

  /** What `run_simulation` leaves behind for each car. */
  predicate Settled(c: Car, fitness: real, ticks: nat) {
    && WellFormed(c)
    && c.time <= ticks
    && (c.alive ==> c.time == ticks)
    && Reward(c) <= fitness
    && FitnessFloor(c.time) <= fitness
    && (c.time == 0 ==> c == NewCar(StartX as real, StartY as real) && fitness == 0.0)
  }

  /** One car and its genome's fitness after `k` ticks of a generation, whether or not
      the loop would have stopped earlier. Cars never interact, so this depends only on
      the track and the car's own controller. */
  function Drive(w: World, net: Controller, k: nat): (r: (Car, real))
    ensures Settled(r.0, r.1, k)
  {
    if k == 0 then (NewCar(StartX as real, StartY as real), 0.0)
    else
      var prev := Drive(w, net, k - 1);
      StepAgent(w, net, prev.0, prev.1)
  }

  /** A car that is dead after `j` ticks stays exactly as it is, fitness included, for
      the rest of the generation. */
  lemma {:induction false} DeadStaysDead(w: World, net: Controller, j: nat, k: nat)
    requires j <= k && !Drive(w, net, j).0.alive
    ensures Drive(w, net, k) == Drive(w, net, j)
    decreases k - j
  {
    if j < k {
      DeadStaysDead(w, net, j, k - 1);
    }
  }

  /** Tick `k` of a generation begins with at least one live car. */
  predicate SomeAlive(w: World, nets: seq<Controller>, k: nat) {
    exists i :: 0 <= i < |nets| && Drive(w, nets[i], k).0.alive
  }

  /** `cars` and `fitness` are the population `Drive` reaches after `t` ticks. */
  predicate Reached(w: World, nets: seq<Controller>, t: nat, cars: seq<Car>, fitness: seq<real>) {
    && |cars| == |nets| && |fitness| == |nets|
    && forall i :: 0 <= i < |nets| ==> (cars[i], fitness[i]) == Drive(w, nets[i], t)
  }

  /** Every tick before `t` began with a live car. */
  predicate LiveBefore(w: World, nets: seq<Controller>, t: nat) {
    forall k :: 0 <= k < t ==> SomeAlive(w, nets, k)
  }

  /** Stepping every car of the population `Drive` reaches after `t` ticks gives the one it
      reaches after `t + 1`. */
  lemma DriveTick(w: World, nets: seq<Controller>, t: nat, cars: seq<Car>, fitness: seq<real>,
                  cars': seq<Car>, fitness': seq<real>)
    requires Reached(w, nets, t, cars, fitness)
    requires |cars'| == |fitness'| == |nets|
    requires forall i :: 0 <= i < |nets| ==>
               (cars'[i], fitness'[i]) == StepAgent(w, nets[i], cars[i], fitness[i])
    ensures Reached(w, nets, t + 1, cars', fitness')
  {
  }

  /** Whether tick `t` begins with a live car can be read off the population itself. */
  lemma SomeAliveNow(w: World, nets: seq<Controller>, t: nat, cars: seq<Car>, fitness: seq<real>)
    requires Reached(w, nets, t, cars, fitness)
    ensures SomeAlive(w, nets, t) <==> CountAlive(cars) > 0
  {
    CountAliveZero(cars);
    if SomeAlive(w, nets, t) {
      var i :| 0 <= i < |nets| && Drive(w, nets[i], t).0.alive;
      assert cars[i].alive;
    }
  }

  /** One pass of the loop of `run_simulation`: after a tick over the population reached
      after `t` ticks, the new population is the one reached after `t + 1`. When no car
      was alive, the tick changed nothing and the loop stops at `t`; otherwise tick `t`
      joins the ticks that began with a live car. */
  lemma TickStep(w: World, nets: seq<Controller>, t: nat, cars: seq<Car>, fitness: seq<real>,
                 cars': seq<Car>, fitness': seq<real>, stillAlive: nat)
    requires Reached(w, nets, t, cars, fitness) && LiveBefore(w, nets, t)
    requires |cars'| == |fitness'| == |nets|
    requires stillAlive == CountAlive(cars)
    requires forall i :: 0 <= i < |nets| ==>
               (cars'[i], fitness'[i]) == StepAgent(w, nets[i], cars[i], fitness[i])
    ensures Reached(w, nets, t + 1, cars', fitness')
    ensures stillAlive == 0 <==> !SomeAlive(w, nets, t)
    ensures stillAlive == 0 ==> Reached(w, nets, t, cars', fitness')
    ensures stillAlive > 0 ==> LiveBefore(w, nets, t + 1)
  {
    DriveTick(w, nets, t, cars, fitness, cars', fitness');
    SomeAliveNow(w, nets, t, cars, fitness);
    if stillAlive == 0 {
      CountAliveZero(cars);
      assert forall i :: 0 <= i < |nets| ==> cars'[i] == cars[i] && fitness'[i] == fitness[i];
    } else {
      assert SomeAlive(w, nets, t);
      assert forall k :: 0 <= k < t + 1 ==> SomeAlive(w, nets, k);
    }
  }

  /** What the population `Drive` reaches after `t` ticks promises at the end of a run. */
  lemma DriveSettled(w: World, nets: seq<Controller>, t: nat, cars: seq<Car>, fitness: seq<real>)
    requires Reached(w, nets, t, cars, fitness)
    ensures forall i :: 0 <= i < |nets| ==> (cars[i], fitness[i]) == Drive(w, nets[i], t)
    ensures forall i :: 0 <= i < |cars| ==> Settled(cars[i], fitness[i], t)
    ensures forall i :: 0 <= i < |cars| ==> 0.0 <= fitness[i]
    ensures forall i :: 0 <= i < |cars| ==> cars[i].speedSet ==> cars[i].speed >= MinSpeed
  {
  }

  /** `run_simulation`: returns each genome's fitness, the final cars and the number of
      ticks in which at least one car was stepped. Each car ends where `Drive` puts it
      after `ticks` ticks, and `ticks` is the first tick that begins with no live car,
      or the budget if that comes first. */
  method RunSimulation(w: World, nets: seq<Controller>) returns (fitness: seq<real>, cars: seq<Car>, ticks: nat)
    ensures |fitness| == |nets| && |cars| == |nets|
    ensures forall i :: 0 <= i < |nets| ==> (cars[i], fitness[i]) == Drive(w, nets[i], ticks)
    ensures forall k :: 0 <= k < ticks ==> SomeAlive(w, nets, k)
    ensures ticks <= TickBudget
    ensures ticks < TickBudget ==> !SomeAlive(w, nets, ticks)
    ensures forall i :: 0 <= i < |cars| ==> Settled(cars[i], fitness[i], ticks)
    ensures forall i :: 0 <= i < |cars| ==> 0.0 <= fitness[i]
    ensures forall i :: 0 <= i < |cars| ==> cars[i].speedSet ==> cars[i].speed >= MinSpeed
  {
    fitness := seq(|nets|, _ => 0.0);
    cars := seq(|nets|, _ => NewCar(StartX as real, StartY as real));
    ticks := 0;
    while true
      invariant Reached(w, nets, ticks, cars, fitness)
      invariant LiveBefore(w, nets, ticks)
      invariant ticks < TickBudget
      decreases TickBudget - ticks
    {
      var before, paid := cars, fitness;
      var stillAlive;
      cars, fitness, stillAlive := Tick(w, nets, cars, fitness);
      TickStep(w, nets, ticks, before, paid, cars, fitness, stillAlive);
      if stillAlive == 0 {
        DriveSettled(w, nets, ticks, cars, fitness);
        return;
      }
      ticks := ticks + 1;
      if ticks == TickBudget {
        DriveSettled(w, nets, ticks, cars, fitness);
        return;
      }
    }
  }
}
