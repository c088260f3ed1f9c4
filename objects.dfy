/** The per-tick behaviour of the world's objects (Actor.cpp): the boulder's
    state machine and impact, the oil barrel, the gold nugget, the sonar kit,
    the water pool and the squirt. Each doSomething is a method over the
    world that replaces the actor's own entry of the actor list, and, where
    the source does, touches the score, the barrel count, the player or other
    actors. Sounds are no-ops and are left out. */
module Objects {
  import opened Geometry
  import opened Actors
  import opened StudentWorld

  // ------------------------------------------------------------- lifetimes

  /** One tick of a goodie's lifetime counter: decremented, and the goodie
      dies when it reaches 0 or below. Returns the new counter and whether
      the goodie is still alive. */
  function Countdown(lifetime: int): (r: (int, bool))
    ensures r.0 == lifetime - 1 && (r.1 <==> r.0 > 0)
  {
    (lifetime - 1, lifetime - 1 > 0)
  }

  /** Whether a goodie with this counter that nobody picks up is alive after
      n ticks. */
  function AliveAfter(n: nat, lifetime: int): bool
    decreases n
  {
    n == 0 || (Countdown(lifetime).1 && AliveAfter(n - 1, Countdown(lifetime).0))
  }

  /** A goodie that nobody picks up lives exactly as many ticks as its
      counter says: it is alive after n >= 1 ticks exactly when n < lifetime. */
  lemma {:induction false} LifetimeIsExact(n: nat, lifetime: int)
    requires n >= 1
    ensures AliveAfter(n, lifetime) <==> n < lifetime
    decreases n
  {
    if n > 1 {
      LifetimeIsExact(n - 1, lifetime - 1);
    }
  }

  // ---------------------------------------------------------------- barrel

  /** Barrel::doSomething (Actor.cpp:34-54) on barrel a at squared distance d2
      from the player: the barrel afterwards, and whether it was collected
      (+1000 and one barrel fewer). */
  function BarrelTick(a: Actor, d2: int): (r: (Actor, bool))
    ensures !a.alive ==> r == (a, false)
    ensures r.1 <==> a.alive && a.visible && d2 <= 9
    ensures r.1 ==> !r.0.alive
    ensures !r.1 ==> r.0.alive == a.alive
    ensures a.alive && !a.visible ==> (r.0.visible <==> d2 <= 16)
    ensures r.0.x == a.x && r.0.y == a.y && r.0.kind == a.kind
  {
    if !a.alive then (a, false)
    else if !a.visible then (if d2 <= 16 then a.(visible := true) else a, false)
    else if d2 <= 9 then (a.(alive := false), true)
    else (a, false)
  }

  /** A barrel over several ticks, with the player's squared distance on each:
      the barrel at the end and how many times it was collected. */
  function BarrelRun(a: Actor, ds: seq<int>): (Actor, nat)
    decreases |ds|
  {
    if ds == [] then (a, 0)
    else
      var (b, got) := BarrelTick(a, ds[0]);
      var (c, n) := BarrelRun(b, ds[1..]);
      (c, n + (if got then 1 else 0))
  }

  /** A barrel is collected at most once, so the barrel count drops at most
      once per barrel: a collected barrel is dead and a dead one does nothing. */
  lemma {:induction false} BarrelCollectedAtMostOnce(a: Actor, ds: seq<int>)
    ensures BarrelRun(a, ds).1 <= 1
    ensures !a.alive ==> BarrelRun(a, ds) == (a, 0)
    ensures BarrelRun(a, ds).1 == 1 ==> a.alive && !BarrelRun(a, ds).0.alive
    decreases |ds|
  {
    if ds != [] {
      var (b, got) := BarrelTick(a, ds[0]);
      BarrelCollectedAtMostOnce(b, ds[1..]);
    }
  }

  /** A hidden barrel is never collected on the tick that reveals it: from
      hidden, collecting takes at least two ticks. */
  lemma HiddenBarrelNeedsTwoTicks(a: Actor, d: int, e: int)
    requires a.alive && !a.visible
    ensures BarrelRun(a, [d]).1 == 0
    ensures BarrelRun(a, [d, e]).1 == 1 ==> d <= 16 && e <= 9
  {
    var b := BarrelTick(a, d).0;
    assert [d][1..] == [] && [d, e][1..] == [e] && [e][1..] == [];
    assert BarrelRun(a, [d]) == (b, BarrelRun(b, []).1);
    assert BarrelRun(a, [d, e]).1 == BarrelRun(b, [e]).1;
  }

  method BarrelDoSomething(w: World, i: nat)
    requires i < |w.actors| && w.actors[i].kind.Barrel?
    modifies w`actors, w`score, w`barrelsLeft
    ensures var a := old(w.actors[i]);
            var r := BarrelTick(a, old(w.Dist2ToPlayer(a.x, a.y)));
            && w.actors == old(w.actors)[i := r.0]
            && w.score == old(w.score) + (if r.1 then 1000 else 0)
            && w.barrelsLeft == old(w.barrelsLeft) - (if r.1 then 1 else 0)
  {
    var a := w.actors[i];
    if !a.alive {
      return;
    }
    if !a.visible {
      if w.Dist2ToPlayer(a.x, a.y) <= 16 {
        w.actors := w.actors[i := a.(visible := true)];
        return;
      }
    } else {
      if w.Dist2ToPlayer(a.x, a.y) <= 9 {
        w.actors := w.actors[i := a.(alive := false)];
        w.score := w.score + 1000;
        w.DecrementBarrels();
      }
    }
  }

  // --------------------------------------------------------------- boulder

  /** Some cell of the row below the footprint, (x..x+3, y-1), holds earth. */
  predicate EarthBelow(w: World, x: int, y: int)
    requires w.Valid()
    reads w`earth, w.earth
  {
    exists k | 0 <= k < Footprint :: EarthUnder(w, x, y, k)
  }

  /** Cell (x + k, y - 1), the k-th cell under the footprint, holds earth. */
  predicate EarthUnder(w: World, x: int, y: int, k: int)
    requires w.Valid()
    reads w`earth, w.earth
  {
    w.IsEarthAt(x + k, y - 1)
  }

  /** The stable boulder's scan of the row below, stopping at the first earth. */
  method ScanBelow(w: World, x: int, y: int) returns (found: bool)
    requires w.Valid()
    ensures found == EarthBelow(w, x, y)
  {
    found := false;
    var k := 0;
    while k < Footprint
      invariant 0 <= k <= Footprint
      invariant !found <==> forall j | 0 <= j < k :: !EarthUnder(w, x, y, j)
    {
      if EarthUnder(w, x, y, k) {
        found := true;
        break;
      }
      k := k + 1;
    }
  }

  /** A falling boulder's impact as the source writes it: the scan runs over
      getActors(), which never holds the Tunnelman (it lives in a field of
      its own), so only protesters within 3 of (x, y) are annoyed by 100. */
  function ImpactAsWritten(s: seq<Actor>, player: Tunnelman, x: int, y: int, level: nat): (r: (seq<Actor>, Tunnelman, int))
    ensures r.1 == player
    ensures r.0 == AnnoyAll(s, x, y, 3, 100, level).0 && r.2 == AnnoyAll(s, x, y, 3, 100, level).1
  {
    var (s', pts, _) := AnnoyAll(s, x, y, 3, 100, level);
    (s', player, pts)
  }

  /** The impact the test in the source is written for: the player within 3
      of (x, y) is annoyed by 100 as well as the protesters. */
  function Impact(s: seq<Actor>, player: Tunnelman, x: int, y: int, level: nat): (r: (seq<Actor>, Tunnelman, int))
    ensures r.0 == ImpactAsWritten(s, player, x, y, level).0 && r.2 == ImpactAsWritten(s, player, x, y, level).2
    ensures WithinRadius(player.x, player.y, x, y, 3) ==> r.1.hitPoints == player.hitPoints - 100
    ensures !WithinRadius(player.x, player.y, x, y, 3) ==> r.1 == player
    ensures r.1.x == player.x && r.1.y == player.y
  {
    var (s', _, pts) := ImpactAsWritten(s, player, x, y, level);
    (s', if WithinRadius(player.x, player.y, x, y, 3) then AnnoyTunnelman(player, 100) else player, pts)
  }

  /** The discrepancy: a live player with at most 100 hit points directly in
      the path of a falling boulder survives the impact as written, and dies
      from the intended impact. */
  lemma BoulderSparesPlayerAsWritten(s: seq<Actor>, player: Tunnelman, x: int, y: int, level: nat)
    requires player.alive && player.hitPoints <= 100
    requires player.x == x && player.y == y
    ensures ImpactAsWritten(s, player, x, y, level).1.alive
    ensures !Impact(s, player, x, y, level).1.alive
  {
  }

  /** Boulder::doSomething (Actor.cpp:61-100). A stable or waiting boulder
      advances its state machine; a falling boulder dies if the row below is
      off the grid or blocked, and otherwise annoys by 100 everyone within 3
      of the cell below and moves down one row. */
  method BoulderDoSomething(w: World, i: nat)
    requires w.Valid() && i < |w.actors| && w.actors[i].IsBoulder()
    modifies w`actors, w`score, w`player
    ensures var a := old(w.actors[i]);
            !a.alive ==> w.actors == old(w.actors) && w.score == old(w.score) && w.player == old(w.player)
    ensures var a := old(w.actors[i]);
            a.alive && a.kind.state != Falling ==>
              && w.actors == old(w.actors)[i := a.(kind := Boulder(
                   BoulderSettle(a.kind.state, a.kind.ticks, old(EarthBelow(w, a.x, a.y))).0,
                   BoulderSettle(a.kind.state, a.kind.ticks, old(EarthBelow(w, a.x, a.y))).1))]
              && w.score == old(w.score) && w.player == old(w.player)
    ensures var a := old(w.actors[i]);
            a.alive && a.kind.state == Falling && old(a.y - 1 < 0 || w.IsBlocked(a.x, a.y - 1)) ==>
              w.actors == old(w.actors)[i := a.(alive := false)] && w.score == old(w.score) && w.player == old(w.player)
    ensures var a := old(w.actors[i]);
            var r := Impact(old(w.actors), old(w.player), a.x, a.y - 1, w.level);
            a.alive && a.kind.state == Falling && !old(a.y - 1 < 0 || w.IsBlocked(a.x, a.y - 1)) ==>
              w.actors == r.0[i := a.(y := a.y - 1)] && w.player == r.1 && w.score == old(w.score) + r.2
    ensures old(w.actors[i].kind.state) == Falling ==> w.actors[i].kind.state == Falling
  {
    var a := w.actors[i];
    if !a.alive {
      return;
    }
    match a.kind.state {
      case Stable =>
        var below := ScanBelow(w, a.x, a.y);
        if !below {
          w.actors := w.actors[i := a.(kind := Boulder(Waiting, BoulderWaitTicks))];
        }
      case Waiting =>
        var ticks := a.kind.ticks - 1;
        if ticks <= 0 {
          w.actors := w.actors[i := a.(kind := Boulder(Falling, ticks))];
        } else {
          w.actors := w.actors[i := a.(kind := Boulder(Waiting, ticks))];
        }
      case Falling =>
        var newY := a.y - 1;
        if newY < 0 || w.IsBlocked(a.x, newY) {
          w.actors := w.actors[i := a.(alive := false)];
          return;
        }
        var _ := w.AnnoyProtestersAt(a.x, newY, 3, 100);
        if WithinRadius(w.player.x, w.player.y, a.x, newY, 3) {
          w.player := AnnoyTunnelman(w.player, 100);
        }
        w.actors := w.actors[i := a.(y := newY)];
    }
  }

  // ------------------------------------------------------------------ gold

  /** A live protester within `radius` of (x, y). */
  predicate NearProtester(a: Actor, x: int, y: int, radius: nat) {
    a.IsProtester() && a.alive && WithinRadius(a.x, a.y, x, y, radius)
  }

  /** The first live protester within `radius` of (x, y) in list order, or -1
      when there is none. */
  function FirstNear(s: seq<Actor>, x: int, y: int, radius: nat): (k: int)
    ensures -1 <= k < |s|
    ensures k >= 0 ==> NearProtester(s[k], x, y, radius)
    ensures forall j | 0 <= j < |s| && (k < 0 || j < k) :: !NearProtester(s[j], x, y, radius)
    decreases |s|
  {
    if s == [] then -1
    else if NearProtester(s[0], x, y, radius) then 0
    else
      var k := FirstNear(s[1..], x, y, radius);
      assert forall j | 1 <= j < |s| :: s[j] == s[1..][j - 1];
      if k < 0 then -1 else k + 1
  }

  /** The nugget's scan of the actor list for a protester to bribe. */
  method FindBribee(w: World, x: int, y: int) returns (k: int)
    ensures k == FirstNear(w.actors, x, y, 3)
  {
    k := 0;
    while k < |w.actors|
      invariant 0 <= k <= |w.actors|
      invariant forall j | 0 <= j < k :: !NearProtester(w.actors[j], x, y, 3)
    {
      if NearProtester(w.actors[k], x, y, 3) {
        FirstNearIs(w.actors, x, y, 3, k);
        return;
      }
      k := k + 1;
    }
    k := -1;
    FirstNearIs(w.actors, x, y, 3, -1);
  }

  /** FirstNear is the one index the scan can stop at. */
  lemma FirstNearIs(s: seq<Actor>, x: int, y: int, radius: nat, k: int)
    requires -1 <= k < |s|
    requires k >= 0 ==> NearProtester(s[k], x, y, radius)
    requires forall j | 0 <= j < |s| && (k < 0 || j < k) :: !NearProtester(s[j], x, y, radius)
    ensures FirstNear(s, x, y, radius) == k
  {
  }

  /** A protester's state after taking a bribe. */
  function Bribed(a: Actor, level: nat): (r: (Actor, int))
    requires a.IsProtester()
    ensures r.0.IsProtester() && r.0.x == a.x && r.0.y == a.y && r.0.alive == a.alive
    ensures (r.0.kind.variant, r.0.kind.p, r.1) == Bribe(a.kind.variant, a.kind.p, level)
  {
    var (v, p, pts) := Bribe(a.kind.variant, a.kind.p, level);
    (a.(kind := Protester(v, p)), pts)
  }

  /** GoldNugget::doSomething (Actor.cpp:118-156). A hidden nugget within 4 of
      the player is revealed and does nothing else that tick. A nugget the
      player dropped bribes the first live protester within 3 and dies, or
      otherwise counts down its 100-tick life; a nugget placed by init is
      picked up by the player within 3 (+10 and one more nugget). */
  method GoldDoSomething(w: World, i: nat)
    requires i < |w.actors| && w.actors[i].kind.Gold?
    modifies w`actors, w`score, w`player
    ensures var a := old(w.actors[i]);
            !a.alive || (!a.visible && old(w.Dist2ToPlayer(a.x, a.y)) <= 16) ==>
              && w.actors == old(w.actors)[i := a.(visible := a.visible || a.alive)]
              && w.score == old(w.score) && w.player == old(w.player)
    ensures var a := old(w.actors[i]);
            var k := FirstNear(old(w.actors), a.x, a.y, 3);
            a.alive && (a.visible || old(w.Dist2ToPlayer(a.x, a.y)) > 16) && a.kind.pickupByProtester && k >= 0 ==>
              && 0 <= k < |w.actors| && k != i
              && w.actors == old(w.actors)[k := Bribed(old(w.actors[k]), w.level).0][i := a.(alive := false)]
              && w.score == old(w.score) + Bribed(old(w.actors[k]), w.level).1 && w.player == old(w.player)
    ensures var a := old(w.actors[i]);
            var k := FirstNear(old(w.actors), a.x, a.y, 3);
            var c := Countdown(a.kind.lifetime);
            a.alive && (a.visible || old(w.Dist2ToPlayer(a.x, a.y)) > 16) && a.kind.pickupByProtester && k < 0 ==>
              && w.actors == old(w.actors)[i := if a.kind.permanent then a
                                                 else a.(alive := c.1, kind := a.kind.(lifetime := c.0))]
              && w.score == old(w.score) && w.player == old(w.player)
    ensures var a := old(w.actors[i]);
            var got := old(w.Dist2ToPlayer(a.x, a.y)) <= 9;
            a.alive && (a.visible || old(w.Dist2ToPlayer(a.x, a.y)) > 16) && !a.kind.pickupByProtester ==>
              && w.actors == old(w.actors)[i := a.(alive := !got)]
              && w.score == old(w.score) + (if got then 10 else 0)
              && w.player == old(w.player).(gold := old(w.player.gold) + (if got then 1 else 0))
  {
    var a := w.actors[i];
    if !a.alive {
      return;
    }
    if !a.visible && w.Dist2ToPlayer(a.x, a.y) <= 16 {
      w.actors := w.actors[i := a.(visible := true)];
      return;
    }
    if a.kind.pickupByProtester {
      var k := FindBribee(w, a.x, a.y);
      if k >= 0 {
        var (b, pts) := Bribed(w.actors[k], w.level);
        w.actors := w.actors[k := b];
        w.score := w.score + pts;
        w.actors := w.actors[i := a.(alive := false)];
        return;
      }
      if !a.kind.permanent {
        var (lifetime, alive) := Countdown(a.kind.lifetime);
        w.actors := w.actors[i := a.(alive := alive, kind := a.kind.(lifetime := lifetime))];
      }
    } else {
      if w.Dist2ToPlayer(a.x, a.y) <= 9 {
        w.actors := w.actors[i := a.(alive := false)];
        w.score := w.score + 10;
        w.player := w.player.(gold := w.player.gold + 1);
        return;
      }
    }
  }

  // ------------------------------------------------ sonar kit and water pool

  /** SonarKit::doSomething (Actor.cpp:164-179): the player within 3 picks it
      up (one more sonar charge, +75); otherwise its life counts down. */
  method SonarKitDoSomething(w: World, i: nat)
    requires i < |w.actors| && w.actors[i].kind.SonarKit?
    modifies w`actors, w`score, w`player
    ensures var a := old(w.actors[i]);
            var got := a.alive && old(w.Dist2ToPlayer(a.x, a.y)) <= 9;
            var c := Countdown(a.kind.lifetime);
            && w.actors == old(w.actors)[i := if !a.alive then a
                                              else if got then a.(alive := false)
                                              else a.(alive := c.1, kind := SonarKit(c.0))]
            && w.score == old(w.score) + (if got then 75 else 0)
            && w.player == old(w.player).(sonar := old(w.player.sonar) + (if got then 1 else 0))
  {
    var a := w.actors[i];
    if !a.alive {
      return;
    }
    if w.Dist2ToPlayer(a.x, a.y) <= 9 {
      w.actors := w.actors[i := a.(alive := false)];
      w.player := w.player.(sonar := w.player.sonar + 1);
      w.score := w.score + 75;
      return;
    }
    var (lifetime, alive) := Countdown(a.kind.lifetime);
    w.actors := w.actors[i := a.(alive := alive, kind := SonarKit(lifetime))];
  }

  /** WaterPool::doSomething (Actor.cpp:422-437): the player within 3 picks it
      up (five more water units, +100); otherwise its life counts down. */
  method WaterPoolDoSomething(w: World, i: nat)
    requires i < |w.actors| && w.actors[i].kind.WaterPool?
    modifies w`actors, w`score, w`player
    ensures var a := old(w.actors[i]);
            var got := a.alive && old(w.Dist2ToPlayer(a.x, a.y)) <= 9;
            var c := Countdown(a.kind.lifetime);
            && w.actors == old(w.actors)[i := if !a.alive then a
                                              else if got then a.(alive := false)
                                              else a.(alive := c.1, kind := WaterPool(c.0))]
            && w.score == old(w.score) + (if got then 100 else 0)
            && w.player == old(w.player).(water := old(w.player.water) + (if got then 5 else 0))
  {
    var a := w.actors[i];
    if !a.alive {
      return;
    }
    if w.Dist2ToPlayer(a.x, a.y) <= 9 {
      w.actors := w.actors[i := a.(alive := false)];
      w.player := w.player.(water := w.player.water + 5);
      w.score := w.score + 100;
      return;
    }
    var (lifetime, alive) := Countdown(a.kind.lifetime);
    w.actors := w.actors[i := a.(alive := alive, kind := WaterPool(lifetime))];
  }

  // ---------------------------------------------------------------- squirt

  /** The squirt's next cell is off the 64x60 grid, earth, or the anchor
      cell of a boulder of the actor list s. */
  predicate SquirtStopped(w: World, s: seq<Actor>, x: int, y: int)
    requires w.Valid()
    reads w`earth, w.earth
  {
    !InTerrain(x, y) || w.IsEarthAt(x, y) || BoulderAt(s, x, y)
  }

  /** The squirt's move when no protester was in range: it dies when its
      travel is used up or the next cell stops it, and otherwise moves one
      cell on and has one less to travel. */
  function SquirtAdvance(a: Actor, stopped: bool): (b: Actor)
    requires a.kind.Squirt?
    ensures b.kind.Squirt? && b.dir == a.dir
    ensures b.alive <==> a.alive && a.kind.travel > 0 && !stopped
    ensures b.alive ==> b.x == a.x + DeltaX(a.dir) && b.y == a.y + DeltaY(a.dir) && b.kind.travel == a.kind.travel - 1
    ensures !b.alive ==> b == a.(alive := false)
  {
    if !a.alive || a.kind.travel <= 0 || stopped then a.(alive := false)
    else a.(x := a.x + DeltaX(a.dir), y := a.y + DeltaY(a.dir), kind := Squirt(a.kind.travel - 1))
  }

  /** A squirt advancing over several ticks, with whether the next cell stops
      it on each: the squirt at the end and the number of cells it moved. */
  function SquirtRun(a: Actor, stops: seq<bool>): (Actor, nat)
    requires a.kind.Squirt?
    decreases |stops|
  {
    if stops == [] || !a.alive then (a, 0)
    else
      var b := SquirtAdvance(a, stops[0]);
      var (c, n) := SquirtRun(b, stops[1..]);
      (c, n + (if b.alive then 1 else 0))
  }

  /** A squirt travels at most its travel distance (4 for a new one), however
      many ticks it lives. */
  lemma {:induction false} SquirtTravelBounded(a: Actor, stops: seq<bool>)
    requires a.kind.Squirt?
    ensures SquirtRun(a, stops).1 <= Max(0, a.kind.travel)
    decreases |stops|
  {
    if stops != [] && a.alive {
      var b := SquirtAdvance(a, stops[0]);
      SquirtTravelBounded(b, stops[1..]);
    }
  }

  /** Squirt::doSomething (Actor.cpp:186-233). A squirt with a protester
      within 3 annoys every such protester by 2 and dies; otherwise it
      advances. The source repeats the annoyProtestersAt call: a first call
      that found no protester changed nothing, so the repeat never fires. */
  method SquirtDoSomething(w: World, i: nat)
    requires w.Valid() && i < |w.actors| && w.actors[i].kind.Squirt?
    modifies w`actors, w`score
    ensures var a := old(w.actors[i]);
            var r := AnnoyAll(old(w.actors), a.x, a.y, 3, 2, w.level);
            && (!a.alive ==> w.actors == old(w.actors) && w.score == old(w.score))
            && (a.alive && r.2 ==> w.actors == r.0[i := a.(alive := false)] && w.score == old(w.score) + r.1)
            && (a.alive && !r.2 ==>
                  && w.actors == old(w.actors)[i := SquirtAdvance(a, old(SquirtStopped(w, w.actors, a.x + DeltaX(a.dir), a.y + DeltaY(a.dir))))]
                  && w.score == old(w.score))
  {
    var a := w.actors[i];
    if !a.alive {
      return;
    }
    var hit := w.AnnoyProtestersAt(a.x, a.y, 3, 2);
    if hit {
      w.actors := w.actors[i := a.(alive := false)];
      return;
    }
    MissChangesNothing(old(w.actors), a.x, a.y, 3, 2, w.level);
    hit := w.AnnoyProtestersAt(a.x, a.y, 3, 2);
    assert !hit;
    if a.kind.travel <= 0 {
      w.actors := w.actors[i := a.(alive := false)];
      return;
    }
    var nextX, nextY := a.x + DeltaX(a.dir), a.y + DeltaY(a.dir);
    if nextX < 0 || nextX >= TerrainWidth || nextY < 0 || nextY >= TerrainHeight
       || w.IsEarthAt(nextX, nextY) || w.IsBoulderAt(nextX, nextY) {
      w.actors := w.actors[i := a.(alive := false)];
      return;
    }
    w.actors := w.actors[i := a.(x := nextX, y := nextY, kind := Squirt(a.kind.travel - 1))];
  }
}
