/** The player controller: each frame, every just-pressed movement key moves
    the single player one tile pitch, and both coordinates are then clamped
    to the field's world-space bounds. */
module Controls {
  import opened Board

  /** The player entity: its world position and the spawn countdown that the
      same entity carries. */
  datatype Player = Player(x: int, y: int, timer: real)

  /** Which of W, A, S, D were pressed since the previous frame (edge-triggered). */
  datatype Keys = Keys(w: bool, a: bool, s: bool, d: bool)

  const NoKeys: Keys := Keys(false, false, false, false)

  predicate InBounds(x: int, y: int)
  {
    Left <= x <= Right && Bottom <= y <= Top
  }

  /** A world position that is the corner of a tile: both coordinates whole multiples of the pitch. */
  predicate OnGrid(x: int, y: int)
  {
    x % Pitch == 0 && y % Pitch == 0
  }

  /** Clamping as the float `clamp` does it: the lower bound for values below
      it, the upper bound for values above it, the value itself otherwise.
      `f32::clamp` panics when min > max. */
  function Clamp(v: int, lo: int, hi: int): (r: int)
    requires lo <= hi
    ensures lo <= r <= hi
    ensures lo <= v <= hi ==> r == v
    ensures v < lo ==> r == lo
    ensures hi < v ==> r == hi
  {
    if v < lo then lo else if v > hi then hi else v
  }

  /** Net step along one axis from a key that adds a pitch and one that subtracts it. */
  function Axis(plus: bool, minus: bool): (n: int)
    ensures -1 <= n <= 1
    ensures n == 1 <==> plus && !minus
    ensures n == -1 <==> minus && !plus
  {
    (if plus then 1 else 0) - (if minus then 1 else 0)
  }

  /** What the controller does to the one player in a frame. */
  function Moved(p: Player, k: Keys): (r: Player)
    ensures InBounds(r.x, r.y)
    ensures r.timer == p.timer
    ensures Left <= p.x + Axis(k.d, k.a) * Pitch <= Right ==> r.x == p.x + Axis(k.d, k.a) * Pitch
    ensures Bottom <= p.y + Axis(k.w, k.s) * Pitch <= Top ==> r.y == p.y + Axis(k.w, k.s) * Pitch
    ensures p.x + Axis(k.d, k.a) * Pitch < Left ==> r.x == Left
    ensures p.x + Axis(k.d, k.a) * Pitch > Right ==> r.x == Right
    ensures p.y + Axis(k.w, k.s) * Pitch < Bottom ==> r.y == Bottom
    ensures p.y + Axis(k.w, k.s) * Pitch > Top ==> r.y == Top
    ensures OnGrid(p.x, p.y) ==> OnGrid(r.x, r.y)
    ensures InBounds(p.x, p.y) && k == NoKeys ==> r == p
  {
    p.(x := Clamp(p.x + Axis(k.d, k.a) * Pitch, Left, Right),
       y := Clamp(p.y + Axis(k.w, k.s) * Pitch, Bottom, Top))
  }

  /** The controller system over all entities tagged as a player: it acts only
      when there is exactly one. */
  function PlayerSystem(ps: seq<Player>, k: Keys): (r: seq<Player>)
    ensures |r| == |ps|
    ensures |ps| != 1 ==> r == ps
    ensures |ps| == 1 ==> r[0] == Moved(ps[0], k)
  {
    if |ps| == 1 then [Moved(ps[0], k)] else ps
  }

  /** Pressing both keys of an axis in the same frame cancels out. */
  lemma OppositeKeysCancel(p: Player, k: Keys)
    ensures Moved(p, k.(a := true, d := true)) == Moved(p, k.(a := false, d := false))
    ensures Moved(p, k.(w := true, s := true)) == Moved(p, k.(w := false, s := false))
  {
  }

  /** A frame without key presses leaves an in-bounds player where it is, and
      moving once by no keys is the same as clamping twice. */
  lemma MovedIdempotentWithoutKeys(p: Player)
    ensures Moved(Moved(p, NoKeys), NoKeys) == Moved(p, NoKeys)
  {
  }

  /** The player's position after a frame-by-frame sequence of key presses. */
  function Walk(p: Player, ks: seq<Keys>): Player
    decreases |ks|
  {
    if ks == [] then p else Walk(Moved(p, ks[0]), ks[1..])
  }

  /** The spawn countdown the player entity starts with, in seconds. */
  const InitialTimer: real := 3.0

  /** The player at startup: the bottom-left cell, with a full countdown. */
  const Start: Player := Player(Left, Bottom, InitialTimer)

  /** From the start position, whatever keys are pressed, the player stays on
      a tile corner (ix * 50, iy * 50) with ix in -7..6 and iy in -5..3. */
  lemma {:induction false} WalkStaysOnGrid(p: Player, ks: seq<Keys>)
    requires OnGrid(p.x, p.y) && InBounds(p.x, p.y)
    ensures var q := Walk(p, ks);
      && OnGrid(q.x, q.y) && InBounds(q.x, q.y)
      && IsColumn(q.x / Pitch) && q.x == (q.x / Pitch) * Pitch
      && IsRow(q.y / Pitch) && q.y == (q.y / Pitch) * Pitch
      && q.timer == p.timer
    decreases |ks|
  {
    if ks != [] {
      WalkStaysOnGrid(Moved(p, ks[0]), ks[1..]);
    }
  }

  lemma StartOnGrid(ks: seq<Keys>)
    ensures OnGrid(Start.x, Start.y) && InBounds(Start.x, Start.y)
    ensures var q := Walk(Start, ks); OnGrid(q.x, q.y) && InBounds(q.x, q.y)
  {
    WalkStaysOnGrid(Start, ks);
  }
}
