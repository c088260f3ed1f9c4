/** StudentWorld::move (StudentWorld.cpp:168-265): one tick of the level.
    The counters advance, a protester may arrive, the player acts, then every
    live actor acts in list order, a goodie may appear, the dead are swept
    away, and the tick ends with a status. Any exit on the player's death
    costs a life. The key read by the player and the rand() results are
    parameters of the world (the key is an argument, rand() the `rng`
    stream); the status text and the sounds are not part of this model. */
module Tick {
  import opened Geometry
  import opened Actors
  import opened StudentWorld
  import Objects
  import Player
  import Protesters

  // ------------------------------------------------------------- status

  /** The checks move() makes after the player's turn, after each live
      actor's turn and at the very end: death first, then the level. */
  function Verdict(alive: bool, barrelsLeft: int): (s: Status)
    ensures s == PlayerDied <==> !alive
    ensures s == FinishedLevel <==> alive && barrelsLeft == 0
    ensures s == ContinueGame <==> alive && barrelsLeft != 0
  {
    if !alive then PlayerDied
    else if barrelsLeft == 0 then FinishedLevel
    else ContinueGame
  }

  // ---------------------------------------------------- protester arrival

  /** The protester that arrives this tick, if any: one arrives when at least
      T ticks have passed since the last one and fewer than P protesters are
      alive; it is hardcore when the draw `r1` mod 100 falls under the
      hardcore percentage, and `r2` is the draw its constructor consumes. */
  function Arrival(since: int, live: nat, level: nat, r1: nat, r2: nat): (r: seq<Actor>)
    ensures |r| <= 1
    ensures |r| == 1 <==> since >= SpawnInterval(level) && live < ProtesterCap(level)
    ensures |r| == 1 ==> r[0].IsProtester() && r[0].alive && (r[0].x, r[0].y) == (ExitX, ExitY)
    ensures |r| == 1 ==> (r[0].kind.variant.Hardcore? <==> r1 % 100 < HardcorePercent(level))
  {
    if since >= SpawnInterval(level) && live < ProtesterCap(level) then
      [NewProtester(r1 % 100 < HardcorePercent(level), level, r2)]
    else []
  }

  /** Adding one actor counts it among the live protesters exactly when it is one. */
  lemma LiveProtestersSnoc(s: seq<Actor>, a: Actor)
    ensures LiveProtesters(s + [a]) == LiveProtesters(s) + (if a.IsProtester() && a.alive then 1 else 0)
  {
    assert (s + [a])[..|s|] == s;
  }

  /** An arrival never takes the live protesters above the cap P, and it
      never lowers the count. */
  lemma ArrivalRespectsCap(s: seq<Actor>, since: int, level: nat, r1: nat, r2: nat)
    ensures var n := LiveProtesters(s + Arrival(since, LiveProtesters(s), level, r1, r2));
            n <= Max(LiveProtesters(s), ProtesterCap(level)) && n >= LiveProtesters(s)
  {
    var r := Arrival(since, LiveProtesters(s), level, r1, r2);
    if |r| == 1 {
      assert r == [r[0]];
      LiveProtestersSnoc(s, r[0]);
    } else {
      assert s + r == s;
    }
  }

  /** The spawning step of move(): two draws when a protester arrives, none
      otherwise; the arrival restarts the counter. */
  method SpawnProtester(w: World)
    modifies w`actors, w`drawn, w`ticksSinceLastProtester
    ensures var live := LiveProtesters(old(w.actors));
            var due := old(w.ticksSinceLastProtester) >= SpawnInterval(w.level) && live < ProtesterCap(w.level);
            && w.actors == old(w.actors) + Arrival(old(w.ticksSinceLastProtester), live, w.level,
                                                   w.Draws(old(w.drawn)).0, w.Draws(old(w.drawn)).1)
            && w.drawn == old(w.drawn) + (if due then 2 else 0)
            && w.ticksSinceLastProtester == (if due then 0 else old(w.ticksSinceLastProtester))
  {
    var live := LiveProtesters(w.actors);
    if w.ticksSinceLastProtester >= SpawnInterval(w.level) && live < ProtesterCap(w.level) {
      var r1 := w.Rand();
      var r2 := w.Rand();
      w.AddActor(NewProtester(r1 % 100 < HardcorePercent(w.level), w.level, r2));
      w.ticksSinceLastProtester := 0;
    }
  }

  // ------------------------------------------------------- the water pool

  /** No earth under the part of the 4x4 footprint at (x, y) that lies on the grid. */
  predicate AreaClear(w: World, x: int, y: int)
    requires w.Valid()
    reads w`earth, w.earth
  {
    forall i, j | 0 <= i < TerrainWidth && 0 <= j < TerrainHeight && Covers(x, y, i, j) :: !w.earth[i, j]
  }

  /** The cell the k-th try of the search draws, the stream starting at d. */
  function TryCell(rng: nat -> nat, d: nat, k: nat): (c: (int, int))
    ensures InAnchorRange(c.0, c.1)
  {
    (rng(d + 2 * k) % 61, rng(d + 2 * k + 1) % 61)
  }

  /** How the water-pool search ends: a clear cell found by try `at`
      (which has used 2 * (at + 1) results of the stream), or nothing after
      all the tries. */
  datatype Search = Found(x: int, y: int, at: nat) | NotFound

  /** The search from try k on, out of `tries`: the first try whose
      footprint is clear of earth wins. */
  function PoolSearch(w: World, d: nat, k: nat, tries: nat): (r: Search)
    requires w.Valid()
    reads w`earth, w.earth
    ensures r.Found? ==> k <= r.at < tries && (r.x, r.y) == TryCell(w.rng, d, r.at)
    ensures r.Found? ==> InAnchorRange(r.x, r.y) && AreaClear(w, r.x, r.y)
    decreases tries - k
  {
    if k >= tries then NotFound
    else
      var c := TryCell(w.rng, d, k);
      if AreaClear(w, c.0, c.1) then Found(c.0, c.1, k)
      else PoolSearch(w, d, k + 1, tries)
  }

  /** The search takes the first clear try: every try before the winning one
      had earth under its footprint, and when nothing is found no try was clear. */
  lemma {:induction false} PoolSearchFirst(w: World, d: nat, k: nat, tries: nat)
    requires w.Valid()
    ensures var r := PoolSearch(w, d, k, tries);
            forall j | k <= j < (if r.Found? then r.at else tries) ::
              !AreaClear(w, TryCell(w.rng, d, j).0, TryCell(w.rng, d, j).1)
    decreases tries - k
  {
    if k < tries && !AreaClear(w, TryCell(w.rng, d, k).0, TryCell(w.rng, d, k).1) {
      PoolSearchFirst(w, d, k + 1, tries);
    }
  }

  /** The area test of one try, scanning the footprint column by column. */
  method CheckArea(w: World, x: int, y: int) returns (clear: bool)
    requires w.Valid() && x >= 0 && y >= 0
    ensures clear == AreaClear(w, x, y)
  {
    clear := true;
    var i := x;
    while i < x + Footprint && i < TerrainWidth && clear
      invariant x <= i <= x + Footprint
      invariant clear <==> forall i', j | x <= i' < i && i' < TerrainWidth && 0 <= j < TerrainHeight && Covers(x, y, i', j) :: !w.earth[i', j]
    {
      var j := y;
      while j < y + Footprint && j < TerrainHeight && clear
        invariant y <= j <= y + Footprint
        invariant clear <==>
                    (forall i', j' | x <= i' < i && i' < TerrainWidth && 0 <= j' < TerrainHeight && Covers(x, y, i', j') :: !w.earth[i', j']) &&
                    (forall j' | y <= j' < j && j' < TerrainHeight :: !w.earth[i, j'])
      {
        if w.IsEarthAt(i, j) {
          clear := false;
        }
        j := j + 1;
      }
      i := i + 1;
    }
  }

  /** One try of the search: two draws and the area test. */
  method PoolTry(w: World, ghost d: nat, ghost k: nat) returns (clear: bool, x: int, y: int)
    requires w.Valid() && w.drawn == d + 2 * k
    modifies w`drawn
    ensures (x, y) == TryCell(w.rng, d, k) && clear == AreaClear(w, x, y)
    ensures w.drawn == d + 2 * (k + 1)
  {
    var rx := w.Rand();
    var ry := w.Rand();
    x, y := rx % 61, ry % 61;
    clear := CheckArea(w, x, y);
  }

  /** The 100-try search for a water pool's cell. */
  method FindPoolCell(w: World) returns (found: bool, x: int, y: int)
    requires w.Valid()
    modifies w`drawn
    ensures var r := PoolSearch(w, old(w.drawn), 0, 100);
            && found == r.Found?
            && (found ==> (x, y) == (r.x, r.y) && w.drawn == old(w.drawn) + 2 * (r.at + 1))
            && (!found ==> w.drawn == old(w.drawn) + 200)
  {
    ghost var d := w.drawn;
    found := false;
    x, y := 0, 0;
    var k := 0;
    while k < 100
      invariant 0 <= k <= 100 && w.drawn == d + 2 * k
      invariant PoolSearch(w, d, 0, 100) == PoolSearch(w, d, k, 100)
    {
      found, x, y := PoolTry(w, d, k);
      if found {
        return;
      }
      k := k + 1;
    }
  }

  /** The goodie offered this tick, and the draws it costs: one chance in
      G = 25*level + 300; then one in five for a sonar kit at (0, 60), else a
      water pool at the first clear cell of the search, or nothing. */
  function Goodie(w: World, d: nat): (r: (seq<Actor>, nat))
    requires w.Valid()
    reads w`earth, w.earth
    ensures |r.0| <= 1
    ensures w.rng(d) % GoodieOdds(w.level) != 0 <==> r.1 == 1
    ensures |r.0| == 1 ==> r.0[0].alive && r.0[0].visible
    ensures |r.0| == 1 ==>
              || (r.0[0].kind.SonarKit? && (r.0[0].x, r.0[0].y) == (0, 60))
              || (r.0[0].kind.WaterPool? && InAnchorRange(r.0[0].x, r.0[0].y) && AreaClear(w, r.0[0].x, r.0[0].y))
  {
    if w.rng(d) % GoodieOdds(w.level) != 0 then ([], 1)
    else if w.rng(d + 1) % 5 == 0 then ([NewSonarKit(0, 60, w.level)], 2)
    else match PoolSearch(w, d + 2, 0, 100)
      case Found(x, y, at) => ([NewWaterPool(x, y, w.level)], 2 + 2 * (at + 1))
      case NotFound => ([], 202)
  }

  /** The goodie step of move(). */
  method SpawnGoodie(w: World)
    requires w.Valid()
    modifies w`actors, w`drawn
    ensures var g := old(Goodie(w, w.drawn));
            w.actors == old(w.actors) + g.0 && w.drawn == old(w.drawn) + g.1
  {
    ghost var g := Goodie(w, w.drawn);
    var r := w.Rand();
    if r % GoodieOdds(w.level) != 0 {
      return;
    }
    var s := w.Rand();
    if s % 5 == 0 {
      w.AddActor(NewSonarKit(0, 60, w.level));
      return;
    }
    var found, x, y := FindPoolCell(w);
    if found {
      w.AddActor(NewWaterPool(x, y, w.level));
    }
  }

  // ----------------------------------------------------------- the actors

  /** The part of the world an actor's update may change. */
  datatype Snap = Snap(actors: seq<Actor>, player: Tunnelman, drawn: nat, score: int, barrelsLeft: int)

  ghost function SnapOf(w: World): Snap
    reads w`actors, w`player, w`drawn, w`score, w`barrelsLeft
  {
    Snap(w.actors, w.player, w.drawn, w.score, w.barrelsLeft)
  }

  /** What the update of actor i does to the world, whatever its kind: the
      list keeps its length, the oil count drops by one only for a barrel,
      the player keeps its cell and facing, a dead player stays dead, its
      water, sonar and gold never shrink, and the draws only advance. */
  predicate Stepped(b: Snap, i: nat, a: Snap) {
    && i < |b.actors| && |a.actors| == |b.actors|
    && (a.barrelsLeft == b.barrelsLeft || (b.actors[i].kind.Barrel? && a.barrelsLeft == b.barrelsLeft - 1))
    && a.player.x == b.player.x && a.player.y == b.player.y && a.player.dir == b.player.dir
    && (a.player.alive ==> b.player.alive)
    && a.player.water >= b.player.water && a.player.sonar >= b.player.sonar && a.player.gold >= b.player.gold
    && a.drawn >= b.drawn
  }

  /** Boulder::doSomething over snapshots: a dead boulder changes nothing; a
      stable or waiting one advances its state machine on the earth below
      it; a falling one dies on a blocked row below and otherwise moves one
      row down after its impact on the protesters and the player. */
  ghost predicate BoulderUpdated(w: World, b: Snap, i: nat, a: Snap)
    requires w.Valid() && i < |b.actors| && b.actors[i].kind.Boulder?
    reads w`earth, w.earth
  {
    var x := b.actors[i];
    var blocked := x.y - 1 < 0 || w.BlockedAmong(b.actors, x.x, x.y - 1);
    var r := Objects.Impact(b.actors, b.player, x.x, x.y - 1, w.level);
    && (!x.alive ==> a == b)
    && (x.alive && x.kind.state != Falling ==>
          var st := BoulderSettle(x.kind.state, x.kind.ticks, Objects.EarthBelow(w, x.x, x.y));
          a == Snap(b.actors[i := x.(kind := Boulder(st.0, st.1))], b.player, b.drawn, b.score, b.barrelsLeft))
    && (x.alive && x.kind.state == Falling && blocked ==>
          a == Snap(b.actors[i := x.(alive := false)], b.player, b.drawn, b.score, b.barrelsLeft))
    && (x.alive && x.kind.state == Falling && !blocked ==>
          a == Snap(r.0[i := x.(y := x.y - 1)], r.1, b.drawn, b.score + r.2, b.barrelsLeft))
  }

  /** GoldNugget::doSomething over snapshots: a hidden nugget the player comes
      within 4 of is revealed; a protester-claimable one bribes the first
      protester within 3 and dies, or else counts down unless permanent; a
      player-claimable one within 3 of the player is picked up (+10). */
  ghost predicate GoldUpdated(w: World, b: Snap, i: nat, a: Snap)
    requires i < |b.actors| && b.actors[i].kind.Gold?
  {
    var x := b.actors[i];
    var d2 := Dist2(x.x, x.y, b.player.x, b.player.y);
    var k := Objects.FirstNear(b.actors, x.x, x.y, 3);
    var c := Objects.Countdown(x.kind.lifetime);
    var got := d2 <= 9;
    && (!x.alive || (!x.visible && d2 <= 16) ==>
          a == Snap(b.actors[i := x.(visible := x.visible || x.alive)], b.player, b.drawn, b.score, b.barrelsLeft))
    && (x.alive && (x.visible || d2 > 16) && x.kind.pickupByProtester && k >= 0 ==>
          var bribe := Objects.Bribed(b.actors[k], w.level);
          k != i && a == Snap(b.actors[k := bribe.0][i := x.(alive := false)], b.player, b.drawn, b.score + bribe.1, b.barrelsLeft))
    && (x.alive && (x.visible || d2 > 16) && x.kind.pickupByProtester && k < 0 ==>
          var y := if x.kind.permanent then x else x.(alive := c.1, kind := x.kind.(lifetime := c.0));
          a == Snap(b.actors[i := y], b.player, b.drawn, b.score, b.barrelsLeft))
    && (x.alive && (x.visible || d2 > 16) && !x.kind.pickupByProtester ==>
          a == Snap(b.actors[i := x.(alive := !got)], b.player.(gold := b.player.gold + (if got then 1 else 0)),
                    b.drawn, b.score + (if got then 10 else 0), b.barrelsLeft))
  }

  /** Barrel::doSomething over snapshots: see BarrelTick; picking it up is
      worth 1000 and leaves one barrel fewer. */
  ghost predicate BarrelUpdated(b: Snap, i: nat, a: Snap)
    requires i < |b.actors|
  {
    var x := b.actors[i];
    var r := Objects.BarrelTick(x, Dist2(x.x, x.y, b.player.x, b.player.y));
    a == Snap(b.actors[i := r.0], b.player, b.drawn, b.score + (if r.1 then 1000 else 0),
              b.barrelsLeft - (if r.1 then 1 else 0))
  }

  /** SonarKit::doSomething and WaterPool::doSomething over snapshots: the
      player within 3 picks the goodie up (+75 and a sonar charge, or +100
      and five units of water); otherwise its life counts down. */
  ghost predicate GoodieUpdated(b: Snap, i: nat, a: Snap)
    requires i < |b.actors| && (b.actors[i].kind.SonarKit? || b.actors[i].kind.WaterPool?)
  {
    var x := b.actors[i];
    var got := x.alive && Dist2(x.x, x.y, b.player.x, b.player.y) <= 9;
    var c := Objects.Countdown(x.kind.lifetime);
    var sonar := x.kind.SonarKit?;
    var y := if !x.alive then x else if got then x.(alive := false) else x.(alive := c.1, kind := x.kind.(lifetime := c.0));
    var t := if sonar then b.player.(sonar := b.player.sonar + (if got then 1 else 0))
             else b.player.(water := b.player.water + (if got then 5 else 0));
    a == Snap(b.actors[i := y], t, b.drawn, b.score + (if got then (if sonar then 75 else 100) else 0), b.barrelsLeft)
  }

  /** Squirt::doSomething over snapshots: a squirt with a protester within 3
      annoys every such protester by 2 and dies; otherwise it advances one
      cell or dies when stopped or spent. */
  ghost predicate SquirtUpdated(w: World, b: Snap, i: nat, a: Snap)
    requires w.Valid() && i < |b.actors| && b.actors[i].kind.Squirt?
    reads w`earth, w.earth
  {
    var x := b.actors[i];
    var r := AnnoyAll(b.actors, x.x, x.y, 3, 2, w.level);
    var stopped := Objects.SquirtStopped(w, b.actors, x.x + DeltaX(x.dir), x.y + DeltaY(x.dir));
    var s := if !x.alive then b.actors
             else if r.2 then r.0[i := x.(alive := false)]
             else b.actors[i := Objects.SquirtAdvance(x, stopped)];
    a == Snap(s, b.player, b.drawn, b.score + (if x.alive && r.2 then r.1 else 0), b.barrelsLeft)
  }

  /** A protester's doSomething over snapshots: the tick function of its
      kind, applied to what it sees with the earth of w and the boulders
      and player of `b`, gives the new protester, the shout (2 hit points
      off the player) and the draws it used. */
  ghost predicate ProtesterUpdated(w: World, b: Snap, i: nat, a: Snap)
    requires w.Valid() && i < |b.actors| && b.actors[i].IsProtester()
    reads w`earth, w.earth
  {
    var x := b.actors[i];
    var v := Protesters.ViewAmong(w, b.actors, b.player, x.x, x.y);
    var r := if x.kind.variant.Regular? then Protesters.RegularTick(x, v, w.level, w.Draws(b.drawn).0, w.Draws(b.drawn).1)
             else Protesters.HardcoreTick(x, v, w.Draws(b.drawn).0, w.Draws(b.drawn).1);
    a == Snap(b.actors[i := r.a], if r.shout then AnnoyTunnelman(b.player, 2) else b.player,
              b.drawn + r.draws, b.score, b.barrelsLeft)
  }

  /** The update of actor i as its kind's doSomething performs it, over the
      world before (`b`) and after (`a`), with the earth, level and draw
      stream of w, which no actor's update changes. A hardcore protester off
      the anchor cells, or with the player off them, changes nothing. */
  ghost predicate Updated(w: World, b: Snap, i: nat, a: Snap)
    requires w.Valid()
    reads w`earth, w.earth
  {
    i < |b.actors| &&
    var x := b.actors[i];
    match x.kind
    case Boulder(_, _) => BoulderUpdated(w, b, i, a)
    case Barrel => BarrelUpdated(b, i, a)
    case Gold(_, _, _) => GoldUpdated(w, b, i, a)
    case SonarKit(_) => GoodieUpdated(b, i, a)
    case WaterPool(_) => GoodieUpdated(b, i, a)
    case Squirt(_) => SquirtUpdated(w, b, i, a)
    case Protester(Regular, _) => ProtesterUpdated(w, b, i, a)
    case Protester(Hardcore(_), _) =>
      if InAnchorRange(x.x, x.y) && InAnchorRange(b.player.x, b.player.y) then ProtesterUpdated(w, b, i, a)
      else a == b
  }

  /** Whatever the kind, an update is a step: it keeps the list's length,
      lowers the oil count only for a barrel, and leaves the player's cell,
      facing and supplies as Stepped says. */
  lemma UpdatedSteps(w: World, b: Snap, i: nat, a: Snap)
    requires w.Valid() && Updated(w, b, i, a)
    ensures Stepped(b, i, a)
  {
    var x := b.actors[i];
    if x.kind.Boulder? && x.alive && x.kind.state == Falling {
      var r := Objects.Impact(b.actors, b.player, x.x, x.y - 1, w.level);
      assert |r.0| == |b.actors|;
    }
  }

  /** One actor's doSomething, dispatched on its kind. A hardcore protester
      is updated only while it and the player stand on anchor cells, which
      the moves of both keep true in the game. */
  method ActorStep(w: World, i: nat)
    requires w.Valid() && i < |w.actors|
    modifies w`actors, w`player, w`drawn, w`score, w`barrelsLeft
    ensures Updated(w, old(SnapOf(w)), i, SnapOf(w))
  {
    match w.actors[i].kind
    case Boulder(_, _) => BoulderStep(w, i);
    case Barrel => BarrelStep(w, i);
    case Gold(_, _, _) => GoldStep(w, i);
    case SonarKit(_) => GoodieStep(w, i);
    case WaterPool(_) => GoodieStep(w, i);
    case Squirt(_) => SquirtStep(w, i);
    case Protester(Regular, _) => RegularStep(w, i);
    case Protester(Hardcore(_), _) =>
      if InAnchorRange(w.actors[i].x, w.actors[i].y) && InAnchorRange(w.player.x, w.player.y) {
        HardcoreStep(w, i);
      }
  }

  /** Boulder::doSomething on the world (Actor.cpp:61-100). */
  method BoulderStep(w: World, i: nat)
    requires w.Valid() && i < |w.actors| && w.actors[i].kind.Boulder?
    modifies w`actors, w`player, w`score
    ensures BoulderUpdated(w, old(SnapOf(w)), i, SnapOf(w))
  {
    Objects.BoulderDoSomething(w, i);
  }

  /** Barrel::doSomething on the world (Actor.cpp:34-54). */
  method BarrelStep(w: World, i: nat)
    requires i < |w.actors| && w.actors[i].kind.Barrel?
    modifies w`actors, w`score, w`barrelsLeft
    ensures BarrelUpdated(old(SnapOf(w)), i, SnapOf(w))
  {
    Objects.BarrelDoSomething(w, i);
  }

  /** GoldNugget::doSomething on the world (Actor.cpp:118-156). */
  method GoldStep(w: World, i: nat)
    requires i < |w.actors| && w.actors[i].kind.Gold?
    modifies w`actors, w`player, w`score
    ensures GoldUpdated(w, old(SnapOf(w)), i, SnapOf(w))
  {
    Objects.GoldDoSomething(w, i);
  }

  /** SonarKit::doSomething or WaterPool::doSomething on the world. */
  method GoodieStep(w: World, i: nat)
    requires i < |w.actors| && (w.actors[i].kind.SonarKit? || w.actors[i].kind.WaterPool?)
    modifies w`actors, w`player, w`score
    ensures GoodieUpdated(old(SnapOf(w)), i, SnapOf(w))
  {
    if w.actors[i].kind.SonarKit? {
      Objects.SonarKitDoSomething(w, i);
    } else {
      Objects.WaterPoolDoSomething(w, i);
    }
  }

  /** Squirt::doSomething on the world (Actor.cpp:186-233). */
  method SquirtStep(w: World, i: nat)
    requires w.Valid() && i < |w.actors| && w.actors[i].kind.Squirt?
    modifies w`actors, w`score
    ensures SquirtUpdated(w, old(SnapOf(w)), i, SnapOf(w))
  {
    Objects.SquirtDoSomething(w, i);
  }

  /** RegularProtester::doSomething on the world (Actor.cpp:452-503). */
  method RegularStep(w: World, i: nat)
    requires w.Valid() && i < |w.actors| && w.actors[i].IsProtester() && w.actors[i].kind.variant.Regular?
    modifies w`actors, w`player, w`drawn
    ensures ProtesterUpdated(w, old(SnapOf(w)), i, SnapOf(w))
  {
    ghost var b := SnapOf(w);
    ghost var x := b.actors[i];
    ghost var v := Protesters.ViewAmong(w, b.actors, b.player, x.x, x.y);
    ghost var r := Protesters.RegularTick(x, v, w.level, w.Draws(b.drawn).0, w.Draws(b.drawn).1);
    ghost var a := Snap(b.actors[i := r.a], if r.shout then AnnoyTunnelman(b.player, 2) else b.player,
                        b.drawn + r.draws, b.score, b.barrelsLeft);
    assert ProtesterUpdated(w, b, i, a);
    Protesters.RegularDoSomething(w, i, v, r);
    assert SnapOf(w) == a;
  }

  /** HardcoreProtester::doSomething on the world (Actor.cpp:653-715). */
  method HardcoreStep(w: World, i: nat)
    requires w.Valid() && i < |w.actors| && w.actors[i].IsProtester() && w.actors[i].kind.variant.Hardcore?
    requires InAnchorRange(w.actors[i].x, w.actors[i].y) && InAnchorRange(w.player.x, w.player.y)
    modifies w`actors, w`player, w`drawn
    ensures ProtesterUpdated(w, old(SnapOf(w)), i, SnapOf(w))
  {
    ghost var b := SnapOf(w);
    ghost var x := b.actors[i];
    ghost var v := Protesters.ViewAmong(w, b.actors, b.player, x.x, x.y);
    ghost var r := Protesters.HardcoreTick(x, v, w.Draws(b.drawn).0, w.Draws(b.drawn).1);
    ghost var a := Snap(b.actors[i := r.a], if r.shout then AnnoyTunnelman(b.player, 2) else b.player,
                        b.drawn + r.draws, b.score, b.barrelsLeft);
    assert ProtesterUpdated(w, b, i, a);
    Protesters.HardcoreDoSomething(w, i, v, r);
    assert SnapOf(w) == a;
  }

  /** A run of the actor loop: `seen[j]` is actor j as the loop reached it
      and `states[j]` the world at that moment, `states[j + 1]` the world
      after it. Actors are visited in list order; a live one is updated as
      its kind's doSomething does (`Updated`, over the earth of w), a dead
      one is skipped and changes nothing. */
  ghost predicate Trace(w: World, seen: seq<Actor>, states: seq<Snap>)
    requires w.Valid()
    reads w`earth, w.earth
  {
    && |states| == |seen| + 1 && |seen| <= |states[0].actors|
    && (forall j | 0 <= j < |states| :: |states[j].actors| == |states[0].actors|)
    && (forall j | 0 <= j < |seen| :: seen[j] == states[j].actors[j])
    && (forall j | 0 <= j < |seen| ::
          if seen[j].alive then Updated(w, states[j], j, states[j + 1]) else states[j + 1] == states[j])
  }

  /** The first n visits that updated an actor each left the game going. */
  predicate Continued(seen: seq<Actor>, states: seq<Snap>, n: int)
    requires |states| == |seen| + 1 && n <= |seen|
  {
    forall j | 0 <= j < n ::
      seen[j].alive ==> Verdict(states[j + 1].player.alive, states[j + 1].barrelsLeft) == ContinueGame
  }

  /** The run stopped the loop: its last visit updated a live actor and left
      the player dead or no barrel left. */
  predicate Halted(seen: seq<Actor>, states: seq<Snap>)
    requires |states| == |seen| + 1
  {
    && |seen| > 0 && seen[|seen| - 1].alive
    && Verdict(states[|seen|].player.alive, states[|seen|].barrelsLeft) != ContinueGame
  }

  /** Visiting one more actor extends a run. */
  lemma TraceSnoc(w: World, seen: seq<Actor>, states: seq<Snap>, st: Snap)
    requires w.Valid() && Trace(w, seen, states) && |seen| < |states[0].actors|
    requires |st.actors| == |states[0].actors|
    requires var i := |seen|;
             if states[i].actors[i].alive then Updated(w, states[i], i, st) else st == states[i]
    ensures var i := |seen|; Trace(w, seen + [states[i].actors[i]], states + [st])
    ensures var i := |seen|;
            Continued(seen, states, i) && (states[i].actors[i].alive ==> Verdict(st.player.alive, st.barrelsLeft) == ContinueGame)
            ==> Continued(seen + [states[i].actors[i]], states + [st], i + 1)
  {
    var i := |seen|;
    var seen', states' := seen + [states[i].actors[i]], states + [st];
    assert forall j | 0 <= j < |seen| :: seen'[j] == seen[j];
    assert forall j | 0 <= j < |states| :: states'[j] == states[j];
  }

  /** A run seen only through Stepped: every visit that updated an actor
      was a step, every other visit changed nothing. */
  predicate Steps(seen: seq<Actor>, states: seq<Snap>)
    requires |states| == |seen| + 1
  {
    forall j | 0 <= j < |seen| ::
      if seen[j].alive then Stepped(states[j], j, states[j + 1]) else states[j + 1] == states[j]
  }

  /** Every run is a run of steps. */
  lemma TraceSteps(w: World, seen: seq<Actor>, states: seq<Snap>)
    requires w.Valid() && Trace(w, seen, states)
    ensures Steps(seen, states)
  {
    forall j | 0 <= j < |seen| && seen[j].alive
      ensures Stepped(states[j], j, states[j + 1])
    {
      UpdatedSteps(w, states[j], j, states[j + 1]);
    }
  }

  /** The first n visits of a run of steps keep the player's cell and
      facing, never revive it and lose none of its supplies; the oil count
      and the draws move one way only. */
  lemma {:induction false} StepsKeepPlayer(seen: seq<Actor>, states: seq<Snap>, n: nat)
    requires |states| == |seen| + 1 && Steps(seen, states) && n <= |seen|
    ensures var a, b := states[0], states[n];
            && b.player.x == a.player.x && b.player.y == a.player.y && b.player.dir == a.player.dir
            && (b.player.alive ==> a.player.alive)
            && b.player.water >= a.player.water && b.player.sonar >= a.player.sonar && b.player.gold >= a.player.gold
            && b.barrelsLeft <= a.barrelsLeft && b.drawn >= a.drawn
    decreases n
  {
    if n > 0 {
      StepsKeepPlayer(seen, states, n - 1);
    }
  }

  /** Over any run the player keeps its cell and facing, does not come back
      to life and loses none of its water, sonar or gold; the oil count and
      the draws move one way only. */
  lemma RunKeepsPlayer(w: World, seen: seq<Actor>, states: seq<Snap>, n: nat)
    requires w.Valid() && Trace(w, seen, states) && n <= |seen|
    ensures var a, b := states[0], states[n];
            && b.player.x == a.player.x && b.player.y == a.player.y && b.player.dir == a.player.dir
            && (b.player.alive ==> a.player.alive)
            && b.player.water >= a.player.water && b.player.sonar >= a.player.sonar && b.player.gold >= a.player.gold
            && b.barrelsLeft <= a.barrelsLeft && b.drawn >= a.drawn
  {
    TraceSteps(w, seen, states);
    StepsKeepPlayer(seen, states, n);
  }

  /** The loop over the actor list (StudentWorld.cpp:199-211): a run from the
      world on entry (`states[0]`) to the world on exit (the last state).
      Every update but the last left the game going; the loop stops right
      after the first update that leaves the player dead or no barrel left,
      so no later actor is updated, and otherwise it reaches every actor. */
  method ActAll(w: World) returns (s: Status, ghost seen: seq<Actor>, ghost states: seq<Snap>)
    requires w.Valid() && w.player.alive
    modifies w`actors, w`player, w`drawn, w`score, w`barrelsLeft
    ensures |w.actors| == |old(w.actors)| && |seen| <= |w.actors|
    ensures Trace(w, seen, states) && states[0] == old(SnapOf(w)) && states[|seen|] == SnapOf(w)
    ensures Continued(seen, states, |seen| - 1)
    ensures s != ContinueGame <==> Halted(seen, states)
    ensures s == ContinueGame ==> |seen| == |w.actors| && w.player.alive
    ensures s == ContinueGame && (exists j | 0 <= j < |seen| :: seen[j].alive) ==> w.barrelsLeft != 0
    ensures s != ContinueGame ==> s == Verdict(w.player.alive, w.barrelsLeft)
  {
    var i := 0;
    seen, states := [], [SnapOf(w)];
    while i < |w.actors|
      invariant i <= |w.actors| == |old(w.actors)| && |seen| == i
      invariant Trace(w, seen, states) && states[0] == old(SnapOf(w)) && states[i] == SnapOf(w)
      invariant Continued(seen, states, i)
      invariant w.player.alive
      invariant (exists j | 0 <= j < i :: seen[j].alive) ==> w.barrelsLeft != 0
    {
      var live := w.actors[i].alive;
      if live {
        ActorStep(w, i);
        UpdatedSteps(w, states[i], i, SnapOf(w));
      }
      TraceSnoc(w, seen, states, SnapOf(w));
      seen, states := seen + [states[i].actors[i]], states + [SnapOf(w)];
      if live {
        s := Verdict(w.player.alive, w.barrelsLeft);
        if s != ContinueGame {
          return;
        }
      }
      i := i + 1;
    }
    s := ContinueGame;
  }

  // ------------------------------------------------------------- the tick

  /** What the end of a tick that goes on does to the world the actor loop
      left (`last`): the goodie offered at the draws reached so far is
      added, then the dead are swept away; the player, the score and the
      oil count are as the loop left them. */
  ghost predicate Closed(w: World, last: Snap, a: Snap)
    requires w.Valid()
    reads w`earth, w.earth
  {
    var g := Goodie(w, last.drawn);
    a == Snap(Survivors(last.actors + g.0), last.player, last.drawn + g.1, last.score, last.barrelsLeft)
  }

  /** The end of a tick that goes on (StudentWorld.cpp:212-253): the goodie,
      then the sweep of the dead. */
  method CloseTick(w: World)
    requires w.Valid()
    modifies w`actors, w`drawn
    ensures Closed(w, old(SnapOf(w)), SnapOf(w))
  {
    ghost var last, g := SnapOf(w), Goodie(w, w.drawn);
    SpawnGoodie(w);
    w.Sweep();
    assert SnapOf(w) == Snap(Survivors(last.actors + g.0), last.player, last.drawn + g.1, last.score, last.barrelsLeft);
  }

  /** The part of move() after a player's turn that left it alive: the actor
      loop, then, if the game goes on, the goodie and the sweep. An early
      stop on the player's death costs a life. */
  method ActorPhase(w: World) returns (s: Status, ghost seen: seq<Actor>, ghost states: seq<Snap>)
    requires w.Valid() && w.player.alive
    modifies w`actors, w`drawn, w`player, w`score, w`barrelsLeft, w`lives
    ensures s == Verdict(w.player.alive, w.barrelsLeft)
    ensures w.lives == old(w.lives) - (if s == PlayerDied then 1 else 0)
    ensures s == ContinueGame ==> forall a | a in w.actors :: a.alive
    ensures Trace(w, seen, states) && Continued(seen, states, |seen| - 1) && states[0] == old(SnapOf(w))
    ensures Halted(seen, states) ==> states[|seen|] == SnapOf(w)
    ensures !Halted(seen, states) ==> |seen| == |states[0].actors| && w.player.alive && Closed(w, states[|seen|], SnapOf(w))
  {
    s, seen, states := ActAll(w);
    if s != ContinueGame {
      if s == PlayerDied {
        w.lives := w.lives - 1;
      }
      return;
    }
    CloseTick(w);
    s := Verdict(w.player.alive, w.barrelsLeft);
    // The closing death check of move() cannot fire: nothing after the
    // actor loop touches the player, so the player is still alive.
    assert s != PlayerDied;
  }

  /** The world after the first steps of move(): the counter since the last
      protester advances, a protester may arrive (two draws), then a live
      player acts on `key` (Player.Turn); a dead player changes nothing. */
  ghost function Opened(w: World, b: Snap, since: int, key: Player.Key): (a: Snap)
    requires w.Valid()
    reads w`earth, w.earth
    ensures a.score == b.score && a.barrelsLeft == b.barrelsLeft && a.drawn >= b.drawn
    ensures |a.actors| >= |b.actors|
  {
    var live := LiveProtesters(b.actors);
    var due := since + 1 >= SpawnInterval(w.level) && live < ProtesterCap(w.level);
    var arrived := b.actors + Arrival(since + 1, live, w.level, w.Draws(b.drawn).0, w.Draws(b.drawn).1);
    var turn := if b.player.alive then Player.Turn(w, b.player, arrived, key) else (b.player, arrived);
    Snap(turn.1, turn.0, b.drawn + (if due then 2 else 0), b.score, b.barrelsLeft)
  }

  /** The tick counters of move() (StudentWorld.cpp:169-175): both advance,
      and a protester may arrive on the advanced count. */
  method CountTick(w: World)
    modifies w`ticks, w`ticksSinceLastProtester, w`actors, w`drawn
    ensures w.ticks == old(w.ticks) + 1
    ensures var live := LiveProtesters(old(w.actors));
            var due := old(w.ticksSinceLastProtester) + 1 >= SpawnInterval(w.level) && live < ProtesterCap(w.level);
            && w.actors == old(w.actors) + Arrival(old(w.ticksSinceLastProtester) + 1, live, w.level,
                                                   w.Draws(old(w.drawn)).0, w.Draws(old(w.drawn)).1)
            && w.drawn == old(w.drawn) + (if due then 2 else 0)
            && w.ticksSinceLastProtester == (if due then 0 else old(w.ticksSinceLastProtester) + 1)
  {
    w.ticks := w.ticks + 1;
    w.ticksSinceLastProtester := w.ticksSinceLastProtester + 1;
    SpawnProtester(w);
  }

  /** The first steps of move() (StudentWorld.cpp:169-194): the tick
      counters advance, a protester may arrive, and a live player acts on
      `key` and digs; the world is then `Opened`. */
  method OpenTick(w: World, key: Player.Key)
    requires w.Valid()
    modifies w`ticks, w`ticksSinceLastProtester, w`actors, w`drawn, w`player, w.earth
    ensures w.ticks == old(w.ticks) + 1
    ensures var due := old(w.ticksSinceLastProtester) + 1 >= SpawnInterval(w.level)
                       && LiveProtesters(old(w.actors)) < ProtesterCap(w.level);
            w.ticksSinceLastProtester == if due then 0 else old(w.ticksSinceLastProtester) + 1
    ensures old(w.player.alive) ==>
              forall i, j | 0 <= i < TerrainWidth && 0 <= j < TerrainHeight ::
                w.earth[i, j] == (old(w.earth[i, j]) && !Covers(old(w.player.x), old(w.player.y), i, j))
    ensures !old(w.player.alive) ==> unchanged(w.earth)
    ensures SnapOf(w) == old(Opened(w, SnapOf(w), w.ticksSinceLastProtester, key))
  {
    ghost var b, since := SnapOf(w), w.ticksSinceLastProtester;
    ghost var due := since + 1 >= SpawnInterval(w.level) && LiveProtesters(b.actors) < ProtesterCap(w.level);
    CountTick(w);
    ghost var turn := if w.player.alive then Player.Turn(w, w.player, w.actors, key) else (w.player, w.actors);
    ghost var a := Snap(turn.1, turn.0, b.drawn + (if due then 2 else 0), b.score, b.barrelsLeft);
    assert Opened(w, b, since, key) == a;
    Player.TunnelmanDoSomething(w, key);
    assert SnapOf(w) == a;
  }

  /** move(): the status it returns is the verdict on the state it leaves
      behind, a life is lost exactly when the player died, and a tick that
      goes on leaves only live actors in the list. `seen` and `states` are
      the run of the actor loop, which starts from the world after the
      arrival and the player's turn (`Opened`, on the earth before the
      dig); the run is empty when the player died in its own turn. When the
      tick ends early the world it leaves is the run's last state; when it
      goes on, the goodie and the sweep close it. */
  method Move(w: World, key: Player.Key) returns (s: Status, ghost seen: seq<Actor>, ghost states: seq<Snap>)
    requires w.Valid()
    modifies w`ticks, w`ticksSinceLastProtester, w`actors, w`drawn, w`player, w`score, w`barrelsLeft, w`lives, w.earth
    ensures w.ticks == old(w.ticks) + 1
    ensures s == Verdict(w.player.alive, w.barrelsLeft)
    ensures w.lives == old(w.lives) - (if s == PlayerDied then 1 else 0)
    ensures s == ContinueGame ==> forall a | a in w.actors :: a.alive
    ensures var due := old(w.ticksSinceLastProtester) + 1 >= SpawnInterval(w.level)
                       && LiveProtesters(old(w.actors)) < ProtesterCap(w.level);
            w.ticksSinceLastProtester == if due then 0 else old(w.ticksSinceLastProtester) + 1
    ensures old(w.player.alive) ==>
              forall i, j | 0 <= i < TerrainWidth && 0 <= j < TerrainHeight ::
                w.earth[i, j] == (old(w.earth[i, j]) && !Covers(old(w.player.x), old(w.player.y), i, j))
    ensures !old(w.player.alive) ==> unchanged(w.earth)
    ensures Trace(w, seen, states) && Continued(seen, states, |seen| - 1)
    ensures states[0] == old(Opened(w, SnapOf(w), w.ticksSinceLastProtester, key))
    ensures Halted(seen, states) ==> states[|seen|] == SnapOf(w)
    ensures !Halted(seen, states) && s != PlayerDied ==> |seen| == |states[0].actors| && Closed(w, states[|seen|], SnapOf(w))
    ensures !Halted(seen, states) && s == PlayerDied ==> seen == [] && states[0] == SnapOf(w)
  {
    OpenTick(w, key);
    if !w.player.alive {
      w.lives := w.lives - 1;
      seen, states := [], [SnapOf(w)];
      return PlayerDied, seen, states;
    }
    s, seen, states := ActorPhase(w);
  }
}
