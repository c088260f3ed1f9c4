/** The Tunnelman's tick (Actor.cpp:241-414): digging the footprint, then
    acting on the key pressed, if any. The key is a parameter; getKey and
    the sounds are not part of this model. */
module Player {
  import opened Geometry
  import opened Actors
  import opened StudentWorld

  /** The keys Tunnelman::doSomething reacts to; `Other` is any other key and
      `NoKey` a tick without a key press. 'Z' and 'z' are both `Sonar`. */
  datatype Key = NoKey | Escape | Space | Arrow(d: Dir) | Sonar | Tab | Other

  // ---------------------------------------------------------------- digging

  /** Cell (x + k, y + l) of the footprint anchored at (x, y) holds earth. */
  predicate EarthInFootprint(w: World, x: int, y: int, k: int, l: int)
    requires w.Valid()
    reads w`earth, w.earth, w`actors
  {
    w.IsEarthAt(x + k, y + l)
  }

  /** Some cell of the 4x4 footprint anchored at (x, y) holds earth. */
  predicate FootprintHasEarth(w: World, x: int, y: int)
    requires w.Valid()
    reads w`earth, w.earth, w`actors
  {
    exists k, l | 0 <= k < Footprint && 0 <= l < Footprint :: EarthInFootprint(w, x, y, k, l)
  }

  /** rmvEarthTunnel (Actor.cpp:316-330): every on-grid cell of the player's
      footprint loses its earth and nothing else changes; the result, which
      the source uses for the digging sound, says whether there was any. */
  method Dig(w: World) returns (dug: bool)
    requires w.Valid()
    modifies w.earth
    ensures forall i, j | 0 <= i < TerrainWidth && 0 <= j < TerrainHeight ::
              w.earth[i, j] == (old(w.earth[i, j]) && !Covers(w.player.x, w.player.y, i, j))
    ensures dug == old(FootprintHasEarth(w, w.player.x, w.player.y))
  {
    var px, py := w.player.x, w.player.y;
    dug := false;
    var x := px;
    while x < px + Footprint
      invariant px <= x <= px + Footprint
      invariant forall i, j | 0 <= i < TerrainWidth && 0 <= j < TerrainHeight ::
                  w.earth[i, j] == (old(w.earth[i, j]) && !(Covers(px, py, i, j) && i < x))
      invariant dug == exists k, l | 0 <= k < x - px && 0 <= l < Footprint :: old(EarthInFootprint(w, px, py, k, l))
    {
      var y, col := py, x - px;
      while y < py + Footprint
        invariant py <= y <= py + Footprint
        invariant forall i, j | 0 <= i < TerrainWidth && 0 <= j < TerrainHeight ::
                    w.earth[i, j] == (old(w.earth[i, j]) && !(Covers(px, py, i, j) && (i < x || (i == x && j < y))))
        invariant dug == ((exists k, l | 0 <= k < x - px && 0 <= l < Footprint :: old(EarthInFootprint(w, px, py, k, l)))
                          || exists l | 0 <= l < y - py :: old(EarthInFootprint(w, px, py, col, l)))
      {
        if x >= 0 && x < TerrainWidth && y >= 0 && y < TerrainHeight {
          var removed := w.RemoveEarth(x, y);
          assert removed == old(EarthInFootprint(w, px, py, x - px, y - py));
          if removed {
            dug := true;
          }
        } else {
          assert !old(EarthInFootprint(w, px, py, x - px, y - py));
        }
        y := y + 1;
      }
      x := x + 1;
    }
  }

  // ---------------------------------------------------------------- actions

  /** The cell four squares ahead of the player, where a squirt starts. */
  function SquirtTarget(t: Tunnelman): (c: (int, int))
    ensures Dist2(t.x, t.y, c.0, c.1) == 16
    ensures !Covers(t.x, t.y, c.0, c.1)
  {
    (t.x + 4 * DeltaX(t.dir), t.y + 4 * DeltaY(t.dir))
  }

  /** A squirt can start at (x, y): inside [0,60]x[0,60], no earth there and
      no boulder of the actor list s within 3. */
  predicate SquirtFits(w: World, s: seq<Actor>, x: int, y: int)
    requires w.Valid()
    reads w`earth, w.earth
  {
    InAnchorRange(x, y) && !w.IsEarthAt(x, y) && !BoulderWithin(s, x, y, 3)
  }

  /** fireSquirt (Actor.cpp:332-359): with water left, one unit is used
      whether or not the squirt fits; the squirt is added only when it fits. */
  method FireSquirt(w: World) returns (fired: bool)
    requires w.Valid()
    modifies w`player, w`actors
    ensures var t := old(w.player);
            t.water <= 0 ==> !fired && w.player == t && w.actors == old(w.actors)
    ensures var t := old(w.player);
            var c := SquirtTarget(t);
            t.water > 0 ==>
              && w.player == t.(water := t.water - 1)
              && (fired <==> old(SquirtFits(w, w.actors, c.0, c.1)))
              && w.actors == old(w.actors) + (if fired then [NewSquirt(c.0, c.1, t.dir)] else [])
  {
    if w.player.water <= 0 {
      return false;
    }
    var sx, sy := 0, 0;
    if w.player.dir == Left {
      sx := -4;
    } else if w.player.dir == Right {
      sx := 4;
    } else if w.player.dir == Up {
      sy := 4;
    } else if w.player.dir == Down {
      sy := -4;
    }
    var squirtX, squirtY := w.player.x + sx, w.player.y + sy;
    var hasEarth := w.IsEarthAt(squirtX, squirtY);
    var nearBoulder := w.IsBoulderNearby(squirtX, squirtY, 3);
    if squirtX < 0 || squirtX > MaxAnchor || squirtY < 0 || squirtY > MaxAnchor || hasEarth || nearBoulder {
      w.player := w.player.(water := w.player.water - 1);
      return false;
    }
    w.AddActor(NewSquirt(squirtX, squirtY, w.player.dir));
    w.player := w.player.(water := w.player.water - 1);
    return true;
  }

  /** An arrow key: a player not facing d turns to d; one already facing d
      steps one cell that way unless the step leaves [0,60]x[0,60] or lands
      on a boulder's anchor cell. */
  function Steered(t: Tunnelman, d: Dir, boulderThere: bool): (r: Tunnelman)
    ensures r.dir == d && r.(x := t.x, y := t.y, dir := t.dir) == t
    ensures InAnchorRange(t.x, t.y) ==> InAnchorRange(r.x, r.y)
    ensures (r.x, r.y) != (t.x, t.y) <==> t.dir == d && !boulderThere && InAnchorRange(t.x + DeltaX(d), t.y + DeltaY(d))
    ensures (r.x, r.y) != (t.x, t.y) ==> Dist2(t.x, t.y, r.x, r.y) == 1
  {
    if t.dir != d then t.(dir := d)
    else if InAnchorRange(t.x + DeltaX(d), t.y + DeltaY(d)) && !boulderThere then t.(x := t.x + DeltaX(d), y := t.y + DeltaY(d))
    else t
  }

  /** pMove (Actor.cpp:305-314). */
  method MoveTo(w: World, x: int, y: int) returns (moved: bool)
    modifies w`player
    ensures moved <==> InAnchorRange(x, y) && !old(w.IsBoulderAt(x, y))
    ensures w.player == if moved then old(w.player).(x := x, y := y) else old(w.player)
  {
    if x < 0 || x > MaxAnchor || y < 0 || y > MaxAnchor {
      return false;
    }
    if w.IsBoulderAt(x, y) {
      return false;
    }
    w.player := w.player.(x := x, y := y);
    return true;
  }

  /** useSonar (Actor.cpp:361-369): with a charge left, everything within 12
      of the player becomes visible and one charge is used. */
  method UseSonar(w: World) returns (used: bool)
    modifies w`player, w`actors
    ensures var t := old(w.player);
            && (used <==> t.sonar > 0)
            && w.actors == (if used then Reveal(old(w.actors), t.x, t.y, 12) else old(w.actors))
            && w.player == (if used then t.(sonar := t.sonar - 1) else t)
  {
    if w.player.sonar > 0 {
      w.RevealHiddenObjects(w.player.x, w.player.y, 12);
      w.player := w.player.(sonar := w.player.sonar - 1);
      return true;
    }
    return false;
  }

  /** dropGold (Actor.cpp:371-373): a visible nugget that protesters pick up
      and that expires, at the player's cell. */
  method DropGold(w: World)
    modifies w`actors
    ensures w.actors == old(w.actors) + [NewGold(w.player.x, w.player.y, true, true, false)]
  {
    w.AddActor(NewGold(w.player.x, w.player.y, true, true, false));
  }

  // ------------------------------------------------------------------ tick

  /** What a live player's action on `key` does to it and to the actor list
      s, judged on the earth of w before the dig (the squirt's cell lies
      outside the footprint, so digging does not change it): Escape kills
      it, Space uses a unit of water and adds a squirt where one fits, an
      arrow steers, Z uses a sonar charge to reveal everything within 12,
      Tab drops a nugget, and any other key does nothing. */
  ghost function Turn(w: World, t: Tunnelman, s: seq<Actor>, key: Key): (r: (Tunnelman, seq<Actor>))
    requires w.Valid()
    reads w`earth, w.earth
    ensures r.0.hitPoints == t.hitPoints && (r.0.alive <==> t.alive && key != Escape)
    ensures |r.1| == |s| || (|r.1| == |s| + 1 && r.1[..|s|] == s)
    ensures r.0.water + r.0.sonar + r.0.gold >= t.water + t.sonar + t.gold - 1
  {
    var c := SquirtTarget(t);
    match key
    case Escape => (t.(alive := false), s)
    case Space =>
      if t.water <= 0 then (t, s)
      else (t.(water := t.water - 1), s + (if SquirtFits(w, s, c.0, c.1) then [NewSquirt(c.0, c.1, t.dir)] else []))
    case Arrow(d) => (Steered(t, d, BoulderAt(s, t.x + DeltaX(d), t.y + DeltaY(d))), s)
    case Sonar => if t.sonar > 0 then (t.(sonar := t.sonar - 1), Reveal(s, t.x, t.y, 12)) else (t, s)
    case Tab => if t.gold > 0 then (t.(gold := t.gold - 1), s + [NewGold(t.x, t.y, true, true, false)]) else (t, s)
    case NoKey => (t, s)
    case Other => (t, s)
  }

  /** Tunnelman::doSomething (Actor.cpp:241-304). A dead player does nothing;
      a live one digs its footprint, then acts on the key. */
  method TunnelmanDoSomething(w: World, key: Key)
    requires w.Valid()
    modifies w`player, w`actors, w.earth
    ensures !old(w.player.alive) ==> w.player == old(w.player) && w.actors == old(w.actors) && unchanged(w.earth)
    ensures old(w.player.alive) ==>
              forall i, j | 0 <= i < TerrainWidth && 0 <= j < TerrainHeight ::
                w.earth[i, j] == (old(w.earth[i, j]) && !Covers(old(w.player.x), old(w.player.y), i, j))
    ensures old(w.player.alive) ==> (w.player, w.actors) == old(Turn(w, w.player, w.actors, key))
  {
    if !w.player.alive {
      return;
    }
    var _ := Dig(w);
    match key {
      case Escape =>
        w.player := w.player.(alive := false);
      case Space =>
        var _ := FireSquirt(w);
      case Arrow(d) =>
        if w.player.dir != d {
          w.player := w.player.(dir := d);
        } else {
          var _ := MoveTo(w, w.player.x + DeltaX(d), w.player.y + DeltaY(d));
        }
      case Sonar =>
        if w.player.sonar > 0 {
          var _ := UseSonar(w);
        }
      case Tab =>
        if w.player.gold > 0 {
          DropGold(w);
          w.player := w.player.(gold := w.player.gold - 1);
        }
      case _ =>
    }
  }
}
