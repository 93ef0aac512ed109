/** Zombie advance and despawn: every frame each zombie moves left by its own
    speed, and one that reaches the left edge of the field is despawned. The
    despawns are queued during the pass and applied after it, as deferred
    engine commands are. */
module Zombies {
  import opened Board

  /** A zombie entity: world position and the speed (world units per frame)
      it was spawned with. */
  datatype Zombie = Zombie(x: real, y: int, speed: real)

  /** The left edge of the field in world units. */
  const LeftEdge: real := Left as real

  /** A zombie is kept while it is strictly right of the left edge. */
  predicate Alive(z: Zombie)
  {
    z.x > LeftEdge
  }

  /** One zombie's frame of movement. */
  function Step(z: Zombie): Zombie
  {
    z.(x := z.x - z.speed)
  }

  /** The movement pass over all zombies. */
  function Advance(zs: seq<Zombie>): (r: seq<Zombie>)
    ensures |r| == |zs|
    ensures forall i | 0 <= i < |zs| ::
      r[i].x == zs[i].x - zs[i].speed && r[i].y == zs[i].y && r[i].speed == zs[i].speed
    ensures forall i | 0 <= i < |zs| :: zs[i].speed > 0.0 ==> r[i].x < zs[i].x
  {
    seq(|zs|, i requires 0 <= i < |zs| => Step(zs[i]))
  }

  /** The zombies that are kept: those right of the left edge, with their multiplicities. */
  function Survivors(zs: seq<Zombie>): (r: seq<Zombie>)
    ensures forall z :: multiset(r)[z] == if Alive(z) then multiset(zs)[z] else 0
    ensures forall z | z in r :: Alive(z)
    ensures (forall z | z in zs :: Alive(z)) ==> r == zs
    ensures |r| <= |zs|
  {
    if |zs| == 0 then []
    else
      var init, last := zs[..|zs| - 1], zs[|zs| - 1];
      assert zs == init + [last];
      Survivors(init) + (if Alive(last) then [last] else [])
  }

  /** Flushing the queued despawns: drop the entities at the doomed indices. */
  function Despawn(s: seq<Zombie>, doomed: set<int>): (r: seq<Zombie>)
    ensures |r| <= |s|
    ensures forall j | 0 <= j < |s| && j !in doomed :: s[j] in r
    ensures forall z | z in r :: exists j | 0 <= j < |s| && j !in doomed :: z == s[j]
  {
    if |s| == 0 then []
    else Despawn(s[..|s| - 1], doomed) + (if |s| - 1 in doomed then [] else [s[|s| - 1]])
  }

  /** Queuing exactly the zombies at or past the left edge and then flushing
      keeps exactly the survivors. */
  lemma {:induction false} DespawnDoomed(s: seq<Zombie>, doomed: set<int>)
    requires forall j | 0 <= j < |s| :: j in doomed <==> !Alive(s[j])
    ensures Despawn(s, doomed) == Survivors(s)
  {
    if |s| > 0 {
      DespawnDoomed(s[..|s| - 1], doomed);
    }
  }

  /** The whole update system on the zombie store. */
  function Update(zs: seq<Zombie>): (r: seq<Zombie>)
    ensures forall z | z in r :: Alive(z)
    ensures forall i | 0 <= i < |zs| :: Step(zs[i]) in r <==> Alive(Step(zs[i]))
    ensures |r| <= |zs|
  {
    Survivors(Advance(zs))
  }

  /** A zombie is gone after the update exactly when its new x is at or past
      the left edge. */
  lemma UpdateRemovesExactlyCrossed(zs: seq<Zombie>, i: int)
    requires 0 <= i < |zs|
    ensures Step(zs[i]) in Update(zs) <==> zs[i].x - zs[i].speed > LeftEdge
  {
    var a := Advance(zs);
    assert a[i] == Step(zs[i]);
    assert multiset(a)[Step(zs[i])] > 0;
  }

  /** The update creates no zombie: every one kept is an old one moved by its speed. */
  lemma UpdateOnlyMoves(zs: seq<Zombie>)
    ensures forall z | z in Update(zs) :: exists j | 0 <= j < |zs| :: z == Step(zs[j])
  {
  }

  /** A zombie one unit right of the edge with speed 3 is despawned the next frame. */
  lemma CrossingScenario()
    ensures Update([Zombie(LeftEdge + 1.0, 0, 3.0)]) == []
  {
  }
}
