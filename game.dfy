/** The game world after startup and its three per-frame systems: the player
    controller, the zombie update and the spawn timer. The entity store is
    split by kind; despawns and spawns queued during a system's pass take
    effect at the end of that pass. */
module Game {
  import opened Board
  import opened Controls
  import opened Zombies
  import opened Spawner

  /** A player entity as every system leaves it: on a tile corner inside the
      field, with a countdown never above its starting value. */
  predicate PlayerOk(p: Player)
  {
    OnGrid(p.x, p.y) && InBounds(p.x, p.y) && p.timer <= InitialTimer
  }

  /** A zombie as every system leaves it: on a row, between the left edge
      (exclusive) and its spawn column, with a speed drawn from the interval range. */
  predicate ZombieOk(z: Zombie)
  {
    FreshZombie(z.(x := Right as real)) && LeftEdge < z.x <= Right as real
  }

  /** The pass of the zombie update: each zombie moves left by its own speed
      in place, and the index of every one that is then at or past the left
      edge is queued for despawn. */
  method ZombiePass(zombies: seq<Zombie>) returns (moved: seq<Zombie>, doomed: set<int>)
    ensures moved == Advance(zombies)
    ensures forall j :: j in doomed <==> 0 <= j < |moved| && moved[j].x <= LeftEdge
  {
    moved, doomed := zombies, {};
    var i := 0;
    while i < |moved|
      invariant 0 <= i <= |moved| == |zombies|
      invariant forall j | 0 <= j < i :: moved[j] == Step(zombies[j])
      invariant forall j | i <= j < |moved| :: moved[j] == zombies[j]
      invariant forall j :: j in doomed <==> 0 <= j < i && moved[j].x <= LeftEdge
    {
      moved := moved[i := Step(moved[i])];
      if moved[i].x <= LeftEdge {
        doomed := doomed + {i};
      }
      i := i + 1;
    }
  }

  /** The zombie update keeps every zombie on its row, inside the field and
      at its spawned speed. */
  lemma UpdateKeepsZombiesOk(zs: seq<Zombie>)
    requires forall z | z in zs :: ZombieOk(z)
    ensures forall z | z in Update(zs) :: ZombieOk(z)
  {
    forall z | z in Update(zs) ensures ZombieOk(z) {
      UpdateOnlyMoves(zs);
      var j :| 0 <= j < |zs| && z == Step(zs[j]);
      assert zs[j] in zs;
    }
  }

  /** The pass of the spawn system over the countdown-carrying entities:
      each is ticked in place, a running one losing dt, an expired one
      restarting at its drawn interval and queueing one zombie at the right
      end of the drawn row with that interval as its speed. */
  method SpawnPass(players: seq<Player>, dt: real, rolls: seq<Roll>) returns (ps: seq<Player>, spawned: seq<Zombie>)
    requires |rolls| == |players|
    ensures ps == TickAll(players, dt, rolls).players
    ensures spawned == TickAll(players, dt, rolls).spawned
  {
    ps, spawned := players, [];
    var i := 0;
    while i < |ps|
      invariant 0 <= i <= |players| == |ps|
      invariant forall j | 0 <= j < i :: ps[j] == players[j].(timer := Tick(players[j].timer, dt, rolls[j]).timer)
      invariant forall j | i <= j < |ps| :: ps[j] == players[j]
      invariant spawned == TickAll(players[..i], dt, rolls[..i]).spawned
    {
      TickAllPrefix(players, dt, rolls, i);
      var p := ps[i];
      if p.timer > 0.0 {
        ps := ps[i := p.(timer := p.timer - dt)];
      } else {
        var row := rolls[i].row;
        var interval := rolls[i].interval;
        ps := ps[i := p.(timer := interval)];
        spawned := spawned + [Zombie(Right as real, row * Pitch, interval)];
      }
      i := i + 1;
    }
    assert players == players[..i] && rolls == rolls[..i];
    TickAllTimers(players, dt, rolls);
  }

  /** The spawn system keeps every countdown at or below its starting value. */
  lemma TickAllKeepsPlayersOk(ps: seq<Player>, dt: real, rolls: seq<Roll>)
    requires |rolls| == |ps| && dt >= 0.0
    requires forall p | p in ps :: PlayerOk(p)
    requires forall i | 0 <= i < |rolls| :: ValidRoll(rolls[i])
    ensures forall p | p in TickAll(ps, dt, rolls).players :: PlayerOk(p)
  {
    var r := TickAll(ps, dt, rolls).players;
    TickAllTimers(ps, dt, rolls);
    forall p | p in r ensures PlayerOk(p) {
      var j :| 0 <= j < |r| && r[j] == p;
      assert ps[j] in ps;
    }
  }

  class World {
    var tiles: seq<TileEntity>
    var markers: seq<Marker>
    var players: seq<Player>
    var zombies: seq<Zombie>

    ghost predicate Valid()
      reads this
    {
      && LaidOut(tiles)
      && Marked(markers)
      && (forall p | p in players :: PlayerOk(p))
      && (forall z | z in zombies :: ZombieOk(z))
    }

    /** Startup: the checkerboard, one marker per row, and the single player
        at the bottom-left cell with a countdown of 3 seconds; no zombies. */
    constructor Setup()
      ensures Valid()
      ensures players == [Start] && zombies == []
    {
      var laid := LayTiles();
      var marked := PlaceMarkers();
      tiles, markers := laid, marked;
      players := [Start];
      zombies := [];
    }

    /** The player controller: the W, A, S, D presses applied one after the
        other to the single player's position, then both axes clamped. Zero
        or several players make it do nothing. */
    method MovePlayer(keys: Keys)
      requires Valid()
      modifies this
      ensures Valid()
      ensures players == PlayerSystem(old(players), keys)
      ensures tiles == old(tiles) && markers == old(markers) && zombies == old(zombies)
    {
      if |players| == 1 {
        var p := players[0];
        var x, y := p.x, p.y;
        if keys.w {
          y := y + Pitch;
        }
        if keys.a {
          x := x - Pitch;
        }
        if keys.s {
          y := y - Pitch;
        }
        if keys.d {
          x := x + Pitch;
        }
        x := Clamp(x, Left, Right);
        y := Clamp(y, Bottom, Top);
        assert x == Moved(p, keys).x && y == Moved(p, keys).y;
        players := [p.(x := x, y := y)];
        assert p in old(players);
      }
    }

    /** The zombie update: the movement pass, then the queued despawns
        flushed. Nothing but the zombies changes. */
    method UpdateZombies()
      requires Valid()
      modifies this
      ensures Valid()
      ensures zombies == Update(old(zombies))
      ensures tiles == old(tiles) && markers == old(markers) && players == old(players)
    {
      var moved, doomed := ZombiePass(zombies);
      DespawnDoomed(moved, doomed);
      UpdateKeepsZombiesOk(zombies);
      zombies := Despawn(moved, doomed);
    }

    /** The spawn system: the pass over the countdowns, then the queued
        zombies appended to the store. */
    method AddZombies(dt: real, rolls: seq<Roll>)
      requires Valid()
      requires dt >= 0.0
      requires |rolls| == |players|
      requires forall i | 0 <= i < |rolls| :: ValidRoll(rolls[i])
      modifies this
      ensures Valid()
      ensures players == TickAll(old(players), dt, rolls).players
      ensures zombies == old(zombies) + TickAll(old(players), dt, rolls).spawned
      ensures tiles == old(tiles) && markers == old(markers)
    {
      var ps, spawned := SpawnPass(players, dt, rolls);
      TickAllKeepsPlayersOk(players, dt, rolls);
      TickAllSpawnsFresh(players, dt, rolls);
      players, zombies := ps, zombies + spawned;
    }
  }
}
