/** The zombie spawn timer carried by the player entity. Each frame a running
    countdown loses the frame's elapsed time; a countdown found at or below
    zero instead draws a new interval and a row, spawns one zombie at the
    right end of that row with the interval as its speed, and restarts at the
    interval. */
module Spawner {
  import opened Board
  import opened Controls
  import opened Zombies

  /** The half-open range [MinInterval, MaxInterval) the new interval is drawn from. */
  const MinInterval: real := 0.2
  const MaxInterval: real := 3.0

  /** The two random draws of one expiry: a row index and an interval. */
  datatype Roll = Roll(row: int, interval: real)

  /** The ranges the random source draws from. */
  predicate ValidRoll(r: Roll)
  {
    IsRow(r.row) && MinInterval <= r.interval < MaxInterval
  }

  /** The shape every spawned zombie has when the draws are in range. */
  predicate FreshZombie(z: Zombie)
  {
    && z.x == Right as real
    && z.y % Pitch == 0 && IsRow(z.y / Pitch)
    && MinInterval <= z.speed < MaxInterval
  }

  datatype Option<T> = None | Some(value: T)

  /** The outcome of one countdown in one frame. */
  datatype TimerStep = TimerStep(timer: real, spawned: Option<Zombie>)

  /** One countdown, one frame. */
  function Tick(timer: real, dt: real, roll: Roll): (r: TimerStep)
    ensures r.spawned.Some? <==> timer <= 0.0
    ensures timer > 0.0 ==> r.timer == timer - dt
    ensures timer <= 0.0 ==> r.timer == roll.interval
    ensures r.spawned.Some? ==> r.spawned.value == Zombie(Right as real, roll.row * Pitch, r.timer)
    ensures ValidRoll(roll) && r.spawned.Some? ==> FreshZombie(r.spawned.value) && r.timer > 0.0
  {
    if timer > 0.0 then TimerStep(timer - dt, None)
    else TimerStep(roll.interval, Some(Zombie(Right as real, roll.row * Pitch, roll.interval)))
  }

  /** How many countdowns are expired at frame entry. */
  function Expired(ps: seq<Player>): (n: nat)
    ensures n <= |ps|
    ensures n == 0 <==> forall i | 0 <= i < |ps| :: ps[i].timer > 0.0
  {
    if |ps| == 0 then 0
    else Expired(ps[..|ps| - 1]) + (if ps[|ps| - 1].timer <= 0.0 then 1 else 0)
  }

  /** The countdowns after a frame, and the zombies spawned in it in spawner order. */
  datatype Spawns = Spawns(players: seq<Player>, spawned: seq<Zombie>)

  /** The spawn system over every entity carrying a countdown, one draw per entity. */
  function TickAll(ps: seq<Player>, dt: real, rolls: seq<Roll>): (r: Spawns)
    requires |rolls| == |ps|
    ensures |r.players| == |ps|
    ensures |r.spawned| == Expired(ps)
  {
    if |ps| == 0 then Spawns([], [])
    else
      var n := |ps| - 1;
      var init := TickAll(ps[..n], dt, rolls[..n]);
      var t := Tick(ps[n].timer, dt, rolls[n]);
      Spawns(init.players + [ps[n].(timer := t.timer)],
             init.spawned + (if t.spawned.Some? then [t.spawned.value] else []))
  }

  /** Each countdown is ticked on its own: entity i keeps its position and
      gets the countdown that Tick gives it with draw i. */
  lemma {:induction false} TickAllTimers(ps: seq<Player>, dt: real, rolls: seq<Roll>)
    requires |rolls| == |ps|
    ensures forall i | 0 <= i < |ps| ::
      TickAll(ps, dt, rolls).players[i] == ps[i].(timer := Tick(ps[i].timer, dt, rolls[i]).timer)
  {
    if |ps| > 0 {
      var n := |ps| - 1;
      TickAllTimers(ps[..n], dt, rolls[..n]);
    }
  }

  /** With draws in range, every zombie spawned in a frame starts at the
      right end of a row with a speed in [0.2, 3.0). */
  lemma {:induction false} TickAllSpawnsFresh(ps: seq<Player>, dt: real, rolls: seq<Roll>)
    requires |rolls| == |ps|
    requires forall i | 0 <= i < |ps| :: ValidRoll(rolls[i])
    ensures forall z | z in TickAll(ps, dt, rolls).spawned :: FreshZombie(z)
  {
    if |ps| > 0 {
      var n := |ps| - 1;
      TickAllSpawnsFresh(ps[..n], dt, rolls[..n]);
    }
  }

  /** Ticking one more countdown extends the result of the shorter prefix:
      a running countdown only loses dt, an expired one restarts at the drawn
      interval and adds one zombie. */
  lemma TickAllPrefix(ps: seq<Player>, dt: real, rolls: seq<Roll>, i: int)
    requires |rolls| == |ps| && 0 <= i < |ps|
    ensures var init := TickAll(ps[..i], dt, rolls[..i]);
      && (ps[i].timer > 0.0 ==>
            TickAll(ps[..i + 1], dt, rolls[..i + 1])
              == Spawns(init.players + [ps[i].(timer := ps[i].timer - dt)], init.spawned))
      && (ps[i].timer <= 0.0 ==>
            TickAll(ps[..i + 1], dt, rolls[..i + 1])
              == Spawns(init.players + [ps[i].(timer := rolls[i].interval)],
                        init.spawned + [Zombie(Right as real, rolls[i].row * Pitch, rolls[i].interval)]))
  {
    assert ps[..i + 1][..i] == ps[..i];
    assert rolls[..i + 1][..i] == rolls[..i];
  }

  /** With the game's single spawner: a zombie appears exactly when the
      countdown started the frame at or below zero, and its speed is the
      interval the countdown restarts at. */
  lemma SingleSpawner(p: Player, dt: real, roll: Roll)
    ensures var r := TickAll([p], dt, [roll]);
      && (p.timer > 0.0 ==> r.spawned == [] && r.players == [p.(timer := p.timer - dt)])
      && (p.timer <= 0.0 ==>
            r.players == [p.(timer := roll.interval)]
            && r.spawned == [Zombie(Right as real, roll.row * Pitch, r.players[0].timer)])
  {
  }

  /** An expiry restarts the countdown above zero, so the frame after a spawn never spawns. */
  lemma NoSpawnTwiceInARow(timer: real, dt: real, roll: Roll, dt': real, roll': Roll)
    requires ValidRoll(roll) && timer <= 0.0
    ensures Tick(Tick(timer, dt, roll).timer, dt', roll').spawned.None?
  {
  }

  /** A countdown run for n frames of equal length dt, with the same draws at every expiry. */
  datatype Run = Run(timer: real, spawns: nat)

  function Countdown(timer: real, dt: real, n: nat, roll: Roll): Run
  {
    if n == 0 then Run(timer, 0)
    else
      var before := Countdown(timer, dt, n - 1, roll);
      var t := Tick(before.timer, dt, roll);
      Run(t.timer, before.spawns + (if t.spawned.Some? then 1 else 0))
  }

  /** While the countdown is still above zero at the start of every frame,
      it loses exactly dt per frame and nothing spawns. */
  lemma {:induction false} CountdownRunning(timer: real, dt: real, n: nat, roll: Roll)
    requires dt >= 0.0
    requires n > 0 ==> timer - (n - 1) as real * dt > 0.0
    ensures Countdown(timer, dt, n, roll) == Run(timer - n as real * dt, 0)
  {
    if n > 0 {
      var m := n - 1;
      assert m as real * dt == (m - 1) as real * dt + dt;
      CountdownRunning(timer, dt, m, roll);
      assert n as real * dt == (n - 1) as real * dt + dt;
    }
  }

  /** The first frame that starts with the countdown at or below zero spawns
      exactly one zombie and restarts the countdown at the drawn interval. */
  lemma CountdownExpires(timer: real, dt: real, n: nat, roll: Roll)
    requires dt >= 0.0
    requires n > 0 ==> timer - (n - 1) as real * dt > 0.0
    requires timer - n as real * dt <= 0.0
    ensures Countdown(timer, dt, n + 1, roll) == Run(roll.interval, 1)
  {
    CountdownRunning(timer, dt, n, roll);
  }

  /** A countdown of 5 with frames of 1 reaches 0 after five frames without
      spawning, and spawns on the sixth. */
  lemma FiveSecondScenario(roll: Roll)
    ensures Countdown(5.0, 1.0, 5, roll) == Run(0.0, 0)
    ensures Countdown(5.0, 1.0, 6, roll) == Run(roll.interval, 1)
  {
    CountdownRunning(5.0, 1.0, 5, roll);
    CountdownExpires(5.0, 1.0, 5, roll);
  }
}
