# track_sim core in Dafny

A model of the agent simulation of track_sim: cars driven by evolved controllers move
over a raster track, sense the border with five radar rays, die when a corner touches the
border, and earn fitness from the distance they cover. The model has two parts.

- `Vehicle` (car.dfy) is the `Car` class of car.py as an immutable record plus one pure
  function per step of `update`: the one-time speed latch, the clamped move, the
  distance and time counters, the centre, the four-corner collision test and the
  five-ray radar march. It also covers `get_data` (distance buckets) and `get_reward`.
- `Decision` (decision.dfy) and `Simulation` (simulation.dfy) are `run_simulation` of
  simulation.py. They cover the first-occurrence argmax over the controller's scores,
  the turn/decelerate/accelerate rules, the per-car step with fitness credit, one tick
  over all cars, and the generation loop with its 1200-tick budget.

`Config` (config.dfy) holds the constants of config.py and the literals written inline
in car.py and simulation.py. `Numeric` (numeric.dfy) holds Python's `int()` on floats
(truncation toward zero), the `max(min(...))` clamp and `int(math.sqrt(...))`.
`Track` (track.dfy) holds the environment as parameters:
- the border test on integer pixels, `isBorder`;
- `cos(d)` and `sin(d)`, which stand for the cosine and sine of `radians(360 - d)`.

Every property is proved for all tracks and for all values these functions may take.
A controller is any function from a bucket list to a non-empty list of scores.

Points where the code's behaviour is worth noting:
- A car decides on the readings taken after its own move in the same tick
  (simulation.py:46-51). The action therefore affects only the next tick's move.
- Any choice index from 3 upward accelerates (simulation.py:60-61). It is not a no-op.
- The heading is never normalised modulo 360 (simulation.py:54-56).
- A score list of any non-empty length is accepted. Its length is not checked against
  the four actions.

## Model

| member | source | states |
|---|---|---|
| Numeric.Trunc | car.py:55 | `int()` truncates toward zero. The result is within one below a non-negative input and within one above a negative input (`TruncatesTo`). |
| Numeric.TruncUnique | car.py:55 | An integer satisfies `TruncatesTo(r, _)` iff it is `Trunc(r)`, so the truncation is fully determined by that description. |
| Numeric.Clamp | car.py:121 | `max(min(v, hi), lo)` is never below `lo`. When `lo <= hi` it is the point of `[lo, hi]` nearest to `v`: `v` itself inside the range, otherwise the bound it overshot. |
| Numeric.FloorSqrt | car.py:101-103 | `int(sqrt(v))` is the natural `r` with `r*r <= v < (r+1)*(r+1)`. |
| Numeric.FloorSqrtUnique | car.py:101-103 | Any natural with that square bracket equals `FloorSqrt(v)`, so the reading is determined by the squared distance alone. |
| Vehicle.NewCar | car.py:8-24 | A new car sits at its start position with the centre offset by half the footprint. It faces heading 0 at speed 0. It is alive and unlatched, with zero distance, zero time and no readings, and satisfies the generation invariant `WellFormed`. |
| Vehicle.Latch | car.py:108-110 | After the latch step the latch is set. An unlatched car gets speed 20. A latched car is returned unchanged, so later updates never reset the speed. |
| Vehicle.Move | car.py:118-123 | x is the point of `[20, WIDTH-120]` nearest to `x + cos*speed`, and y is the point of `[20, HEIGHT-120]` nearest to `y + sin*speed`. This holds for every heading, speed and start. Nothing else changes. |
| Vehicle.CountStep | car.py:125-128 | Distance grows by exactly the current speed and time by exactly 1. Nothing else changes. |
| Vehicle.Recentre | car.py:130-132 | The centre is the position plus half the footprint on each axis. Nothing else changes. |
| Vehicle.Corners | car.py:59-71 | There are four points. The first lies `HalfX` along the heading, `(cx + cos*25, cy + sin*25)`. Each next point is the previous one turned a quarter turn about the centre, and opposite points are symmetric about the centre. |
| Vehicle.OnBorder | car.py:55 | A point is on the border iff the pixel its two coordinates truncate to, toward zero, is a border pixel. Every pixel that fits that description gives the same answer. |
| Vehicle.AnyOnBorder | car.py:54-57 | The corner scan, which stops at the first hit, reports a hit iff some point's truncated pixel is a border pixel. |
| Vehicle.CheckCollision | car.py:51-57 | Afterwards `alive` holds iff none of the four truncated corners is a border pixel. A clear car comes out alive even if it was dead before. Only `alive` changes. |
| Vehicle.RayPixel | car.py:92-99 | The pixel at step `length` is the point `length` along the ray's direction from the centre, with both coordinates truncated toward zero. Step 0 (car.py:81-88) is the centre's own pixel. |
| Vehicle.March | car.py:90-99 | The march from step `k` stops at some step `n` in `[k, 300]`. No step in `[k, n)` is a border pixel, and step `n` is one unless `n` is 300. |
| Vehicle.RadarLength | car.py:80-99 | The march from the centre stops at the first border step, or at 300 if there is none. Every earlier step is clear. |
| Vehicle.StopsAtUnique | car.py:90-99 | The stopping step is unique: any step with the first-hit property is the one the march returns. |
| Vehicle.SquaredDistance | car.py:101-103 | The squared distance from the centre to a pixel is non-negative, so its square root is defined. |
| Vehicle.CheckRadar | car.py:73-104 | A reading holds the pixel at the step where the march stopped. Its `dist` is the floor of that pixel's Euclidean distance from the centre. |
| Vehicle.UpdateRadars | car.py:134-138 | There are exactly five readings. Reading `i` is the radar at offset `[-90, -45, 0, 45, 90][i]` from the heading. |
| Vehicle.UpdateRadarsDiscardsPrevious | car.py:134-138 | The new readings do not depend on the previous ones. |
| Vehicle.Advance | car.py:108-114 | After latch, move, count and recentre: the car is latched and its speed is 20 on the first update and unchanged later. Its position is the clamped move at that speed, distance grows by that speed and time by 1, and the centre follows the position. `WellFormed` is preserved. |
| Vehicle.Sense | car.py:115-116 | `alive` reflects the four corners of the moved car. The readings are the five fresh radar readings from its new centre and heading. Nothing else changes. |
| Vehicle.Update | car.py:106-116 | One `update` does all of the above in order: latch, clamped move with the latched speed, counters, centre, collision on the new corners and five new readings. The heading is untouched. Speed stays at or above 12 once latched, and distance stays at least 12 times time. |
| Vehicle.Bucket | car.py:143 | The bucket is in `[0, 10]` and is 10 for every distance of at least 300. Below 10 it is the integer part of `d / 30`. |
| Vehicle.BucketMonotone | car.py:143 | The bucket is monotone non-decreasing in the distance. |
| Vehicle.GetData | car.py:140-143 | There is one bucket per reading, in reading order, each in `[0, 10]`. |
| Vehicle.Reward | car.py:149-151 | Reward times 25 (half the car width) equals the distance. It is non-negative for a non-negative distance and positive for a positive one. |
| Decision.Max | simulation.py:51 | `max` returns an element of the list that no element exceeds. |
| Decision.IndexOf | simulation.py:51 | `index` returns the first position holding the value. |
| Decision.Choice | simulation.py:51 | The choice is the first maximal position (`FirstMax`): no score exceeds it, and every earlier score is strictly smaller. |
| Decision.ChoiceUnique | simulation.py:51 | A position is first-maximal iff it is the choice. |
| Decision.ActionOf | simulation.py:53-61 | 0 means turn left, 1 turn right, 2 decelerate, and every index from 3 up accelerates. |
| Decision.Apply | simulation.py:53-61 | Turns change the heading by +10 or -10 and leave the speed alone. Decelerate lowers the speed by 2 only when the result is at least 12, and is otherwise a no-op. Accelerate adds 2. Nothing else changes, speed at or above 12 is preserved, and so is `WellFormed`. |
| Decision.Decide | simulation.py:50-61 | The car turns left iff score 0 is the first maximum of the controller's output on the car's buckets. It turns right iff score 1 is, decelerates iff score 2 is, and accelerates iff the first maximum lies at 3 or beyond. |
| Simulation.AccrualStep | simulation.py:46-47 | If fitness is at the floor for `t` updates, then crediting the reward of a well-formed car after its `t + 1`-th update lifts it to the floor for `t + 1`. |
| Simulation.StepAgent | simulation.py:43-61 | A dead car and its fitness are left exactly as they are. A live car is updated and then acts on its post-update readings. The action changes only heading and speed. Fitness gains the full current reward, including on the tick the car dies. For well-formed cars fitness never decreases, and it stays at least `12 * t(t+1)/2 / 25` after `t` updates. |
| Simulation.CountAlive | simulation.py:42-45 | The live count never exceeds the number of cars, and equals it iff every car is alive. |
| Simulation.CountAliveZero | simulation.py:42-45 | The live count is 0 iff every car is dead. |
| Simulation.Tick | simulation.py:42-61 | Car `i` and its fitness become exactly `StepAgent` of car `i` with controller `i`. `stillAlive` is the number of cars alive when the tick began. A car dead at the start of the tick keeps its state and fitness. A live one gains exactly one time step. No well-formed car's fitness decreases. |
| Simulation.Drive | simulation.py:24-61 | The state of one car and its fitness after `k` ticks is `k` steps of `StepAgent` from the start car with fitness 0. It is settled: well-formed, time at most `k` and equal to `k` while alive, fitness at least the current reward and at least `12 * t(t+1)/2 / 25` after `t` updates, and still the start car with fitness 0 if never updated. |
| Simulation.DeadStaysDead | simulation.py:43-47 | A car dead after `j` ticks stays exactly as it is, fitness included, after every later tick of the generation: it is never resurrected, moved or paid again. |
| Simulation.DriveTick | simulation.py:42-61 | Stepping every car of the population `Drive` reaches after `t` ticks gives the population it reaches after `t + 1` ticks. |
| Simulation.SomeAliveNow | simulation.py:42-45 | For the population after `t` ticks, some car is alive iff the live count is positive. |
| Simulation.TickStep | simulation.py:42-66 | One pass of the loop turns the population after `t` ticks into the one after `t + 1`. The live count is 0 iff no car was alive when tick `t` began, and then the tick changed nothing. Otherwise tick `t` joins the ticks that began with a live car. |
| Simulation.DriveSettled | simulation.py:24-68 | Every car `Drive` reaches is settled, has non-negative fitness and keeps the speed floor once latched. |
| Simulation.RunSimulation | simulation.py:24-68 | Each car and its fitness are what `Drive` gives for that car's controller after `ticks` ticks, so the result is determined by the track and the controllers. Every tick before `ticks` began with a live car. The run stops at the first tick that begins with every car dead, or after 1200 ticks if that comes first. Each car is settled, with non-negative fitness and speed at or above 12 once latched. |

## Left out

- Rendering and the window are left out because they are presentation only. This covers `draw`, `_draw_radars`, `_draw_screen`, the display set-up, the font and `clock.tick`.
- Sprite and map image loading, the QUIT event with `sys.exit`, and the global `current_generation` are left out. They are I/O, process control and on-screen text. The map is the `isBorder` parameter.
- A pixel outside the canvas is not modelled. In the code `get_at` would raise there. `isBorder` is total over all integer pairs.
- Network construction and activation, `load_config` and main.py are left out because they are foreign library code. A controller is an opaque function in the model.
- Trigonometry is not computed: `cos` and `sin` are parameters of any value. Floating-point rounding is not modelled: positions, centres and rewards are exact reals.
- Vehicle.Corners: the distance of each point from the centre is not stated. It equals 25 only if `cos(d)^2 + sin(d)^2 = 1`, and nothing is assumed about `cos` and `sin`.
- Vehicle.CheckRadar: the distance is the exact floor square root of the exact squared distance. Rounding of `math.pow` and `math.sqrt` near perfect squares is not modelled.
- Vehicle.Bucket: `int(d / 30)` in floating point is taken to equal the integer quotient `d / 30`.
- The empty score list is excluded by the `Scores` type: a network always has at least one output, and `max([])` at simulation.py:51 would raise `ValueError`.
- Genome fitness is returned as a sequence aligned with the controllers. It is not written into external genome objects.
