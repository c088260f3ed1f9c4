/** The protesters' tick (Actor.cpp:452-503 for the regular protester,
    653-715 for the hardcore one) and the queries it makes of the world
    (Actor.cpp:536-815).

    A tick is specified by a function of the protester and of what it sees:
    the player, which of its four neighbours it may step into, whether the
    player is in its line of sight, the two path-search answers and, for a
    hardcore protester, whether the player is within reach. The methods
    compute those from the world, lazily, as the source does, and are proved
    to give the function's result. */
module Protesters {
  import opened Geometry
  import opened Actors
  import opened Paths
  import opened StudentWorld
  import opened Pathfinding

  // ------------------------------------------------------------ path answer

  /** What a path search rooted at `root` answers for a protester at p: the
      step direction for its exact distance, or left when p is unreachable. */
  ghost function PathDir(w: World, root: Cell, p: Cell): Dir
    requires w.Valid()
    reads w`earth, w.earth, w`actors
  {
    PathDirAmong(w, w.actors, root, p)
  }

  /** PathDir with the boulders of the actor list s. */
  ghost function PathDirAmong(w: World, s: seq<Actor>, root: Cell, p: Cell): Dir
    requires w.Valid()
    reads w`earth, w.earth
  {
    var open := OpenAmong(w, s, MazeRows);
    if exists k: nat :: ExactDist(open, root, p, k) then
      var k: nat :| ExactDist(open, root, p, k);
      NextStep(open, root, p, k, TerrainHeight)
    else Left
  }

  /** A cell has one exact distance from the root. */
  lemma ExactDistUnique(open: set<Cell>, root: Cell, c: Cell, k: nat, j: nat)
    requires ExactDist(open, root, c, k) && ExactDist(open, root, c, j)
    ensures k == j
  {
    if k < j {
      WithinMono(open, root, c, k, j - 1);
    } else if j < k {
      WithinMono(open, root, c, j, k - 1);
    }
  }

  /** getPathToExit / getPathToTunnelman as one call. */
  method PathDirection(w: World, root: Cell, p: Cell) returns (dir: Dir)
    requires w.Valid() && InAnchorRange(root.0, root.1)
    ensures dir == PathDir(w, root, p)
  {
    ghost var k;
    dir, k := PathStep(w, root, p);
    ghost var open := Open(w, MazeRows);
    if k >= 0 {
      forall j: nat | ExactDist(open, root, p, j) ensures j == k {
        ExactDistUnique(open, root, p, j, k);
      }
    } else {
      forall j: nat ensures !ExactDist(open, root, p, j) {
        assert !Within(open, root, p, j);
      }
    }
  }

  // -------------------------------------------------------------- movement

  /** Which of the four neighbours the protester may step into. */
  datatype Openings = Openings(up: bool, down: bool, left: bool, right: bool)
  {
    predicate Has(d: Dir) {
      match d
      case Up => up
      case Down => down
      case Left => left
      case Right => right
    }
  }

  /** canMoveInDirection: the neighbour is inside [0,60]x[0,60] and not
      blocked by earth or a boulder footprint. */
  predicate CanMove(w: World, x: int, y: int, d: Dir)
    requires w.Valid()
    reads w`earth, w.earth, w`actors
  {
    CanMoveAmong(w, w.actors, x, y, d)
  }

  /** CanMove with the boulders of the actor list s. */
  predicate CanMoveAmong(w: World, s: seq<Actor>, x: int, y: int, d: Dir)
    requires w.Valid()
    reads w`earth, w.earth
  {
    InAnchorRange(x + DeltaX(d), y + DeltaY(d)) && !w.BlockedAmong(s, x + DeltaX(d), y + DeltaY(d))
  }

  function OpeningsAt(w: World, x: int, y: int): (o: Openings)
    requires w.Valid()
    reads w`earth, w.earth, w`actors
    ensures forall d: Dir :: o.Has(d) <==> CanMove(w, x, y, d)
  {
    OpeningsAmong(w, w.actors, x, y)
  }

  function OpeningsAmong(w: World, s: seq<Actor>, x: int, y: int): (o: Openings)
    requires w.Valid()
    reads w`earth, w.earth
    ensures forall d: Dir :: o.Has(d) <==> CanMoveAmong(w, s, x, y, d)
  {
    Openings(CanMoveAmong(w, s, x, y, Up), CanMoveAmong(w, s, x, y, Down),
             CanMoveAmong(w, s, x, y, Left), CanMoveAmong(w, s, x, y, Right))
  }

  /** canMoveInDirection (Actor.cpp:551-563). */
  method CanMoveInDirection(w: World, x: int, y: int, d: Dir) returns (can: bool)
    requires w.Valid()
    ensures can == CanMove(w, x, y, d)
  {
    var nextX, nextY := x, y;
    match d {
      case Up => nextY := nextY + 1;
      case Down => nextY := nextY - 1;
      case Left => nextX := nextX - 1;
      case Right => nextX := nextX + 1;
    }
    if nextX < 0 || nextX > MaxAnchor || nextY < 0 || nextY > MaxAnchor {
      return false;
    }
    can := !w.IsBlocked(nextX, nextY);
  }

  /** b stands where a stood, or one cell on in b's direction, which was open. */
  predicate MovedWithin(a: Actor, b: Actor, o: Openings) {
    (b.x == a.x && b.y == a.y) || (o.Has(b.dir) && b.x == a.x + DeltaX(b.dir) && b.y == a.y + DeltaY(b.dir))
  }

  /** The protester with its counters replaced. */
  function WithP(a: Actor, q: ProtesterState): (b: Actor)
    requires a.IsProtester()
    ensures b.IsProtester() && b.kind.p == q && b.kind.variant == a.kind.variant
    ensures b.x == a.x && b.y == a.y && b.dir == a.dir && b.alive == a.alive && b.visible == a.visible
  {
    a.(kind := a.kind.(p := q))
  }

  /** moveInCurrentDirection (Actor.cpp:628-643): one step on when the way is
      open; otherwise the protester stays and its run ends (numSquaresToMove
      becomes 0). */
  function Forward(a: Actor, o: Openings): (b: Actor)
    requires a.IsProtester()
    ensures b.IsProtester() && b.kind.variant == a.kind.variant
    ensures b.dir == a.dir && b.alive == a.alive && b.visible == a.visible
    ensures MovedWithin(a, b, o) && ((b.x, b.y) != (a.x, a.y) <==> o.Has(a.dir))
    ensures b.kind.p == if o.Has(a.dir) then a.kind.p else a.kind.p.WithNumSquaresToMove(0)
  {
    if o.Has(a.dir) then a.(x := a.x + DeltaX(a.dir), y := a.y + DeltaY(a.dir))
    else WithP(a, a.kind.p.WithNumSquaresToMove(0))
  }

  method MoveInCurrentDirection(w: World, a: Actor) returns (b: Actor)
    requires w.Valid() && a.IsProtester()
    ensures b == Forward(a, OpeningsAt(w, a.x, a.y))
  {
    var nextX, nextY := a.x, a.y;
    match a.dir {
      case Up => nextY := nextY + 1;
      case Down => nextY := nextY - 1;
      case Left => nextX := nextX - 1;
      case Right => nextX := nextX + 1;
    }
    var can := CanMoveInDirection(w, a.x, a.y, a.dir);
    if can {
      b := a.(x := nextX, y := nextY);
    } else {
      b := WithP(a, a.kind.p.WithNumSquaresToMove(0));
    }
  }

  /** setMoveDirection's candidates: the open directions, in the order up,
      down, left, right. */
  function ValidDirs(o: Openings): (ds: seq<Dir>)
    ensures forall d: Dir :: d in ds <==> o.Has(d)
    ensures |ds| <= 4
  {
    (if o.up then [Up] else []) + (if o.down then [Down] else [])
      + (if o.left then [Left] else []) + (if o.right then [Right] else [])
  }

  predicate Perpendicular(d: Dir, e: Dir) {
    (d == Left || d == Right) <==> (e == Up || e == Down)
  }

  /** tryPerpendicularTurn's candidates: the open directions at right angles
      to d (up, down for a horizontal d; left, right for a vertical one). */
  function TurnDirs(o: Openings, d: Dir): (ds: seq<Dir>)
    ensures forall e: Dir :: e in ds <==> o.Has(e) && Perpendicular(d, e)
    ensures |ds| <= 2
  {
    if d == Left || d == Right then (if o.up then [Up] else []) + (if o.down then [Down] else [])
    else (if o.left then [Left] else []) + (if o.right then [Right] else [])
  }

  /** setMoveDirection (Actor.cpp:615-626) with the next two rand() results:
      an open direction and a new run of 8..60 squares, using both draws;
      nothing and no draw when no way is open. */
  function Heading(a: Actor, o: Openings, r1: nat, r2: nat): (r: (Actor, nat))
    requires a.IsProtester()
    ensures ValidDirs(o) == [] ==> r == (a, 0)
    ensures ValidDirs(o) != [] ==>
              && r.1 == 2 && o.Has(r.0.dir)
              && r.0 == WithP(a.(dir := r.0.dir), a.kind.p.WithNumSquaresToMove(SquaresToMove(r2)))
              && 8 <= r.0.kind.p.numSquaresToMove <= 60
  {
    var ds := ValidDirs(o);
    if ds == [] then (a, 0)
    else (WithP(a.(dir := ds[r1 % |ds|]), a.kind.p.WithNumSquaresToMove(SquaresToMove(r2))), 2)
  }

  method SetMoveDirection(w: World, a: Actor) returns (b: Actor)
    requires w.Valid() && a.IsProtester()
    modifies w`drawn
    ensures var r := Heading(a, OpeningsAt(w, a.x, a.y), w.Draws(old(w.drawn)).0, w.Draws(old(w.drawn)).1);
            b == r.0 && w.drawn == old(w.drawn) + r.1
  {
    ghost var d := w.drawn;
    var o := Look(w, a.x, a.y);
    var ds := ValidDirs(o);
    b := a;
    if ds != [] {
      var r1 := w.Rand();
      b := b.(dir := ds[r1 % |ds|]);
      var r2 := w.Rand();
      assert r1 == w.Draws(d).0 && r2 == w.Draws(d).1;
      b := WithP(b, b.kind.p.WithNumSquaresToMove(SquaresToMove(r2)));
    }
    assert o == OpeningsAt(w, a.x, a.y);
  }

  /** The four canMoveInDirection queries at (x, y). */
  method Look(w: World, x: int, y: int) returns (o: Openings)
    requires w.Valid()
    ensures o == OpeningsAt(w, x, y)
  {
    var up := CanMoveInDirection(w, x, y, Up);
    var down := CanMoveInDirection(w, x, y, Down);
    var left := CanMoveInDirection(w, x, y, Left);
    var right := CanMoveInDirection(w, x, y, Right);
    o := Openings(up, down, left, right);
  }

  /** tryPerpendicularTurn (Actor.cpp:587-613 and its callers): after 200
      ticks without a turn, an open direction at right angles, chosen with
      one draw, with the turn clock reset. Returns the protester, whether it
      turned, and the draws used. */
  function Turn(a: Actor, o: Openings, r1: nat): (r: (Actor, bool, nat))
    requires a.IsProtester()
    ensures r.1 ==> && a.kind.p.ticksSinceLastTurn >= 200 && o.Has(r.0.dir) && Perpendicular(a.dir, r.0.dir)
                    && r.0 == WithP(a.(dir := r.0.dir), a.kind.p.WithTicksSinceLastTurn(0)) && r.2 == 1
    ensures !r.1 ==> r.0 == a && r.2 == 0
    ensures !r.1 <==> a.kind.p.ticksSinceLastTurn < 200 || TurnDirs(o, a.dir) == []
  {
    if a.kind.p.ticksSinceLastTurn < 200 then (a, false, 0)
    else
      var ds := TurnDirs(o, a.dir);
      if ds == [] then (a, false, 0)
      else (WithP(a.(dir := ds[r1 % |ds|]), a.kind.p.WithTicksSinceLastTurn(0)), true, 1)
  }

  method TryPerpendicularTurn(w: World, a: Actor) returns (b: Actor, turned: bool)
    requires w.Valid() && a.IsProtester()
    modifies w`drawn
    ensures var r := Turn(a, OpeningsAt(w, a.x, a.y), w.Draws(old(w.drawn)).0);
            b == r.0 && turned == r.1 && w.drawn == old(w.drawn) + r.2
  {
    if a.kind.p.ticksSinceLastTurn < 200 {
      return a, false;
    }
    var o := Look(w, a.x, a.y);
    var ds := TurnDirs(o, a.dir);
    if ds != [] {
      var r1 := w.Rand();
      b := WithP(a.(dir := ds[r1 % |ds|]), a.kind.p.WithTicksSinceLastTurn(0));
      assert o == OpeningsAt(w, a.x, a.y);
      return b, true;
    }
    return a, false;
  }

  /** The choice of direction before a wandering step, on the shortened run
      a1: an ended run picks a new heading; otherwise a perpendicular turn
      may start a new run of 8..60. Returns the protester and the draws used. */
  function Reoriented(a1: Actor, o: Openings, r1: nat, r2: nat): (r: (Actor, nat))
    requires a1.IsProtester()
    ensures r.0.IsProtester() && r.0.kind.variant == a1.kind.variant && r.1 <= 2
    ensures r.0.x == a1.x && r.0.y == a1.y && r.0.alive == a1.alive && r.0.visible == a1.visible
    ensures r.0.kind.p.hitPoints == a1.kind.p.hitPoints && r.0.kind.p.leaving == a1.kind.p.leaving
    ensures r.0.kind.p.restingTicks == a1.kind.p.restingTicks
    ensures r.0.kind.p.ticksSinceLastShout == a1.kind.p.ticksSinceLastShout
    ensures r.0.dir != a1.dir ==> o.Has(r.0.dir)
  {
    if a1.kind.p.numSquaresToMove <= 0 then Heading(a1, o, r1, r2)
    else
      var (t, turned, _) := Turn(a1, o, r1);
      if turned then (WithP(t, t.kind.p.WithNumSquaresToMove(SquaresToMove(r2))), 2) else (t, 0)
  }

  /** The wandering tail shared by both protesters (Actor.cpp:494-502,
      707-714): the run shortens by one, the protester is reoriented, then
      it takes one step. Returns the protester and the draws used. */
  function Wander(a: Actor, o: Openings, r1: nat, r2: nat): (r: (Actor, nat))
    requires a.IsProtester()
    ensures r.0.IsProtester() && r.0.kind.variant == a.kind.variant && r.1 <= 2
    ensures r.0.alive == a.alive && r.0.visible == a.visible && MovedWithin(a, r.0, o)
    ensures r.0.kind.p.hitPoints == a.kind.p.hitPoints && r.0.kind.p.leaving == a.kind.p.leaving
    ensures r.0.kind.p.restingTicks == a.kind.p.restingTicks
    ensures r.0.kind.p.ticksSinceLastShout == a.kind.p.ticksSinceLastShout
  {
    var a1 := WithP(a, a.kind.p.WithNumSquaresToMove(a.kind.p.numSquaresToMove - 1));
    var (a2, n) := Reoriented(a1, o, r1, r2);
    (Forward(a2, o), n)
  }

  /** The reorientation in the world, drawing from rand(). */
  method Reorient(w: World, a1: Actor) returns (b: Actor)
    requires w.Valid() && a1.IsProtester()
    modifies w`drawn
    ensures var r := Reoriented(a1, OpeningsAt(w, a1.x, a1.y), w.Draws(old(w.drawn)).0, w.Draws(old(w.drawn)).1);
            b == r.0 && w.drawn == old(w.drawn) + r.1
  {
    ghost var d, o := w.drawn, OpeningsAt(w, a1.x, a1.y);
    if a1.kind.p.numSquaresToMove <= 0 {
      b := SetMoveDirection(w, a1);
    } else {
      var turned;
      b, turned := TryPerpendicularTurn(w, a1);
      if turned {
        var r2 := w.Rand();
        assert r2 == w.Draws(d).1;
        b := WithP(b, b.kind.p.WithNumSquaresToMove(SquaresToMove(r2)));
      }
    }
    assert o == OpeningsAt(w, a1.x, a1.y);
  }

  /** Wander in the world; o is what is open around the protester. */
  method WanderStep(w: World, a: Actor, ghost o: Openings) returns (b: Actor)
    requires w.Valid() && a.IsProtester() && o == OpeningsAt(w, a.x, a.y)
    modifies w`drawn
    ensures var r := Wander(a, o, w.Draws(old(w.drawn)).0, w.Draws(old(w.drawn)).1);
            b == r.0 && w.drawn == old(w.drawn) + r.1
  {
    b := WithP(a, a.kind.p.WithNumSquaresToMove(a.kind.p.numSquaresToMove - 1));
    b := Reorient(w, b);
    assert o == OpeningsAt(w, b.x, b.y);
    b := MoveInCurrentDirection(w, b);
  }

  // -------------------------------------------------------- the player seen

  /** facingTunnelman (Actor.cpp:570-585): the player lies strictly ahead
      and at most 4 off the line of facing. */
  predicate Facing(a: Actor, t: Tunnelman) {
    match a.dir
    case Left => t.x < a.x && -4 <= t.y - a.y <= 4
    case Right => t.x > a.x && -4 <= t.y - a.y <= 4
    case Up => t.y > a.y && -4 <= t.x - a.x <= 4
    case Down => t.y < a.y && -4 <= t.x - a.x <= 4
  }

  /** getDirectionToTunnelman (Actor.cpp:783-790): along the axis with the
      larger gap, the horizontal one on a tie. */
  function DirTo(x: int, y: int, t: Tunnelman): Dir {
    if Abs(x - t.x) < Abs(y - t.y) then (if t.y > y then Up else Down)
    else (if t.x > x then Right else Left)
  }

  function Abs(n: int): nat { if n < 0 then -n else n }

  /** A step toward the player always brings the protester closer. */
  lemma DirToCloses(x: int, y: int, t: Tunnelman)
    requires (x, y) != (t.x, t.y)
    ensures var d := DirTo(x, y, t);
            Dist2(x + DeltaX(d), y + DeltaY(d), t.x, t.y) < Dist2(x, y, t.x, t.y)
  {
    var d := DirTo(x, y, t);
    if d == Left || d == Right {
      SquareTowardZero(x - t.x);
    } else {
      SquareTowardZero(y - t.y);
    }
  }

  /** isTunnelmanInLineOfSight (Actor.cpp:792-815): same column or same row
      as the player, with no blocked cell strictly between. */
  predicate LineOfSight(w: World, x: int, y: int, tx: int, ty: int)
    requires w.Valid()
    reads w`earth, w.earth, w`actors
  {
    SightAmong(w, w.actors, x, y, tx, ty)
  }

  /** LineOfSight with the boulders of the actor list s. */
  predicate SightAmong(w: World, s: seq<Actor>, x: int, y: int, tx: int, ty: int)
    requires w.Valid()
    reads w`earth, w.earth
  {
    if x == tx then forall j | Min(y, ty) < j < Max(y, ty) :: !w.BlockedAmong(s, x, j)
    else if y == ty then forall i | Min(x, tx) < i < Max(x, tx) :: !w.BlockedAmong(s, i, y)
    else false
  }

  method InLineOfSight(w: World, x: int, y: int) returns (seen: bool)
    requires w.Valid()
    ensures seen == LineOfSight(w, x, y, w.player.x, w.player.y)
  {
    var tx, ty := w.player.x, w.player.y;
    if x == tx {
      var j := Min(y, ty) + 1;
      while j < Max(y, ty)
        invariant Min(y, ty) < j <= Max(y, ty) || j == Min(y, ty) + 1
        invariant forall j' | Min(y, ty) < j' < j :: !w.BlockedAmong(w.actors, x, j')
      {
        if w.IsBlocked(x, j) {
          return false;
        }
        j := j + 1;
      }
      return true;
    } else if y == ty {
      var i := Min(x, tx) + 1;
      while i < Max(x, tx)
        invariant Min(x, tx) < i <= Max(x, tx) || i == Min(x, tx) + 1
        invariant forall i' | Min(x, tx) < i' < i :: !w.BlockedAmong(w.actors, i', y)
      {
        if w.IsBlocked(i, y) {
          return false;
        }
        i := i + 1;
      }
      return true;
    }
    return false;
  }

  /** A protester that sees the player and steps toward it still sees it. */
  lemma ChaseKeepsSight(w: World, x: int, y: int, t: Tunnelman)
    requires w.Valid() && LineOfSight(w, x, y, t.x, t.y) && (x, y) != (t.x, t.y)
    ensures var d := DirTo(x, y, t);
            LineOfSight(w, x + DeltaX(d), y + DeltaY(d), t.x, t.y)
  {
  }

  // ------------------------------------------------------------- one tick

  /** What a protester sees on a tick: the player, its open neighbours,
      whether the player is in its line of sight, the path-search answers
      toward the exit and toward the player, and (hardcore only) whether
      the player is within reach. */
  datatype View = View(player: Tunnelman, open: Openings, sight: bool, exitDir: Dir, reach: bool, chaseDir: Dir)

  /** The tick's result: the protester, whether it shouted at the player
      (who then loses 2 hit points), and how many rand() results it used. */
  datatype Outcome = Outcome(a: Actor, shout: bool, draws: nat)

  /** A regular protester's rest after acting. */
  function Rested(a: Actor, level: nat): (b: Actor)
    requires a.IsProtester()
    ensures b == WithP(a, a.kind.p.WithRestingTicks(RestTicks(level)))
  {
    WithP(a, a.kind.p.WithRestingTicks(RestTicks(level)))
  }

  /** The counters a protester advances on each tick it acts. */
  function Counted(a: Actor): (b: Actor)
    requires a.IsProtester()
    ensures b.IsProtester() && b.x == a.x && b.y == a.y && b.dir == a.dir && b.alive == a.alive
    ensures b.kind == a.kind.(p := a.kind.p.(ticksSinceLastShout := a.kind.p.ticksSinceLastShout + 1,
                                             ticksSinceLastTurn := a.kind.p.ticksSinceLastTurn + 1))
  {
    WithP(a, a.kind.p.(ticksSinceLastShout := a.kind.p.ticksSinceLastShout + 1,
                      ticksSinceLastTurn := a.kind.p.ticksSinceLastTurn + 1))
  }

  /** The protester may shout: facing the player, within 4, and its
      incremented shout clock at 15 or more. */
  predicate MayShout(a: Actor, t: Tunnelman)
    requires a.IsProtester()
  {
    Facing(a, t) && Dist2(a.x, a.y, t.x, t.y) <= 16 && a.kind.p.ticksSinceLastShout + 1 >= ShoutCooldown
  }

  /** The last two choices of both ticks, once no shout was possible: with
      the player in sight, more than 4 away and the way toward it open, a
      step toward the player that ends the current run; otherwise Wander.
      Returns the protester and the draws used. */
  function Pursue(a: Actor, o: Openings, sight: bool, t: Tunnelman, r1: nat, r2: nat): (r: (Actor, nat))
    requires a.IsProtester()
    ensures r.0.IsProtester() && r.0.kind.variant == a.kind.variant && r.1 <= 2
    ensures r.0.alive == a.alive && MovedWithin(a, r.0, o)
    ensures r.0.kind.p.hitPoints == a.kind.p.hitPoints && r.0.kind.p.leaving == a.kind.p.leaving
    ensures r.0.kind.p.restingTicks == a.kind.p.restingTicks
    ensures r.0.kind.p.ticksSinceLastShout == a.kind.p.ticksSinceLastShout
    ensures sight && Dist2(a.x, a.y, t.x, t.y) > 16 && o.Has(DirTo(a.x, a.y, t)) ==>
              && r.1 == 0 && r.0.kind.p.numSquaresToMove == 0
              && Dist2(r.0.x, r.0.y, t.x, t.y) < Dist2(a.x, a.y, t.x, t.y)
  {
    if sight && Dist2(a.x, a.y, t.x, t.y) > 16 && o.Has(DirTo(a.x, a.y, t)) then
      DirToCloses(a.x, a.y, t);
      var b := Forward(a.(dir := DirTo(a.x, a.y, t)), o);
      (WithP(b, b.kind.p.WithNumSquaresToMove(0)), 0)
    else Wander(a, o, r1, r2)
  }

  /** A leaving protester's step (Actor.cpp:464-471, 667-674): at the exit
      it is gone; elsewhere it steps along the path to the exit. */
  function Leave(a: Actor, v: View): (b: Actor)
    requires a.IsProtester()
    ensures b.IsProtester() && b.kind.variant == a.kind.variant && MovedWithin(a, b, v.open)
    ensures b.alive <==> a.alive && (a.x, a.y) != (ExitX, ExitY)
    ensures b.kind.p.hitPoints == a.kind.p.hitPoints && b.kind.p.leaving == a.kind.p.leaving
    ensures b.kind.p.ticksSinceLastShout == a.kind.p.ticksSinceLastShout
  {
    if a.x == ExitX && a.y == ExitY then a.(alive := false)
    else Forward(a.(dir := v.exitDir), v.open)
  }

  /** A regular protester that is neither resting nor leaving: a shout when
      it may, otherwise Pursue; it rests afterwards either way. */
  function RegularEngaged(a: Actor, v: View, level: nat, r1: nat, r2: nat): (r: Outcome)
    requires a.IsProtester()
    ensures r.shout <==> MayShout(a, v.player)
    ensures r.shout ==> r.draws == 0 && (r.a.x, r.a.y) == (a.x, a.y)
  {
    var a1 := Counted(a);
    if MayShout(a, v.player) then Outcome(Rested(WithP(a1, a1.kind.p.WithTicksSinceLastShout(0)), level), true, 0)
    else
      var (b, n) := Pursue(a1, v.open, v.sight, v.player, r1, r2);
      Outcome(Rested(b, level), false, n)
  }

  /** Protester::doSomething (Actor.cpp:452-503). */
  function RegularTick(a: Actor, v: View, level: nat, r1: nat, r2: nat): (r: Outcome)
    requires a.IsProtester()
    ensures r.a.IsProtester() && r.a.kind.variant == a.kind.variant && r.draws <= 2
    ensures r.a.kind.p.hitPoints == a.kind.p.hitPoints && r.a.kind.p.leaving == a.kind.p.leaving
    ensures MovedWithin(a, r.a, v.open)
    ensures !a.alive ==> r == Outcome(a, false, 0)
    ensures a.alive && a.kind.p.restingTicks > 0 ==>
              r == Outcome(WithP(a, a.kind.p.WithRestingTicks(a.kind.p.restingTicks - 1)), false, 0)
    ensures r.shout <==> a.alive && a.kind.p.restingTicks <= 0 && !a.kind.p.leaving && MayShout(a, v.player)
    ensures r.shout ==> r.a.kind.p.ticksSinceLastShout == 0 && (r.a.x, r.a.y) == (a.x, a.y)
    ensures a.alive && a.kind.p.restingTicks <= 0 && !r.shout ==>
              r.a.kind.p.ticksSinceLastShout == a.kind.p.ticksSinceLastShout + 1
    ensures r.a.alive <==> a.alive && !(a.kind.p.restingTicks <= 0 && a.kind.p.leaving && a.x == ExitX && a.y == ExitY)
    ensures r.a.alive && a.kind.p.restingTicks <= 0 ==> r.a.kind.p.restingTicks == RestTicks(level)
  {
    var p := a.kind.p;
    if !a.alive then Outcome(a, false, 0)
    else if p.restingTicks > 0 then Outcome(WithP(a, p.WithRestingTicks(p.restingTicks - 1)), false, 0)
    else
      if p.leaving then
        var b := Leave(Counted(a), v);
        Outcome(if b.alive then Rested(b, level) else b, false, 0)
      else RegularEngaged(a, v, level, r1, r2)
  }

  /** A hardcore protester's move once it cannot shout: beyond 4 from the
      player and within reach, a step along the path to the player;
      otherwise Pursue. Returns the protester and the draws used. */
  function Advance(a: Actor, v: View, r1: nat, r2: nat): (r: (Actor, nat))
    requires a.IsProtester()
    ensures r.0.IsProtester() && r.0.kind.variant == a.kind.variant && r.1 <= 2
    ensures r.0.alive == a.alive && MovedWithin(a, r.0, v.open)
    ensures r.0.kind.p.hitPoints == a.kind.p.hitPoints && r.0.kind.p.leaving == a.kind.p.leaving
    ensures r.0.kind.p.restingTicks == a.kind.p.restingTicks
    ensures r.0.kind.p.ticksSinceLastShout == a.kind.p.ticksSinceLastShout
    ensures Dist2(a.x, a.y, v.player.x, v.player.y) > 16 && v.reach ==> r.1 == 0 && r.0.dir == v.chaseDir
  {
    if Dist2(a.x, a.y, v.player.x, v.player.y) > 16 && v.reach then (Forward(a.(dir := v.chaseDir), v.open), 0)
    else Pursue(a, v.open, v.sight, v.player, r1, r2)
  }

  /** A hardcore protester that is neither resting, staring nor leaving: a
      shout when it may, otherwise Advance. */
  function HardcoreEngaged(a: Actor, v: View, r1: nat, r2: nat): (r: Outcome)
    requires a.IsProtester()
    ensures r.shout <==> MayShout(a, v.player)
    ensures r.shout ==> r.draws == 0 && (r.a.x, r.a.y) == (a.x, a.y)
  {
    var a1 := Counted(a);
    if MayShout(a, v.player) then Outcome(WithP(a1, a1.kind.p.WithTicksSinceLastShout(0)), true, 0)
    else
      var (b, n) := Advance(a1, v, r1, r2);
      Outcome(b, false, n)
  }

  /** HardcoreProtester::doSomething (Actor.cpp:653-715): like the regular
      tick, but a bribe makes it stare instead of leave, it takes no rest
      after acting, its clocks do not advance on a leaving step, and within
      reach of the player it follows the path to the player. */
  function HardcoreTick(a: Actor, v: View, r1: nat, r2: nat): (r: Outcome)
    requires a.IsProtester() && a.kind.variant.Hardcore?
    ensures r.a.IsProtester() && r.a.kind.variant.Hardcore? && r.draws <= 2
    ensures r.a.kind.p.hitPoints == a.kind.p.hitPoints && r.a.kind.p.leaving == a.kind.p.leaving
    ensures MovedWithin(a, r.a, v.open)
    ensures !a.alive ==> r == Outcome(a, false, 0)
    ensures a.alive && a.kind.p.restingTicks > 0 ==>
              r == Outcome(WithP(a, a.kind.p.WithRestingTicks(a.kind.p.restingTicks - 1)), false, 0)
    ensures a.alive && a.kind.p.restingTicks <= 0 && a.kind.variant.stareTimer > 0 ==>
              r == Outcome(a.(kind := a.kind.(variant := Hardcore(a.kind.variant.stareTimer - 1))), false, 0)
    ensures r.shout <==> a.alive && a.kind.p.restingTicks <= 0 && a.kind.variant.stareTimer <= 0
                         && !a.kind.p.leaving && MayShout(a, v.player)
    ensures r.shout ==> r.a.kind.p.ticksSinceLastShout == 0 && (r.a.x, r.a.y) == (a.x, a.y)
    ensures a.alive && a.kind.p.restingTicks <= 0 && a.kind.variant.stareTimer <= 0 && !a.kind.p.leaving && !r.shout ==>
              r.a.kind.p.ticksSinceLastShout == a.kind.p.ticksSinceLastShout + 1
    ensures a.kind.p.leaving ==> r.a.kind.p.ticksSinceLastShout == a.kind.p.ticksSinceLastShout
    ensures r.a.alive <==> a.alive && !(a.kind.p.restingTicks <= 0 && a.kind.variant.stareTimer <= 0
                                       && a.kind.p.leaving && a.x == ExitX && a.y == ExitY)
    ensures r.a.kind.p.restingTicks == Max(0, a.kind.p.restingTicks - 1) || r.a.kind.p.restingTicks == a.kind.p.restingTicks
  {
    var p := a.kind.p;
    var d2 := Dist2(a.x, a.y, v.player.x, v.player.y);
    if !a.alive then Outcome(a, false, 0)
    else if p.restingTicks > 0 then Outcome(WithP(a, p.WithRestingTicks(p.restingTicks - 1)), false, 0)
    else if a.kind.variant.stareTimer > 0 then
      Outcome(a.(kind := a.kind.(variant := Hardcore(a.kind.variant.stareTimer - 1))), false, 0)
    else if p.leaving then Outcome(Leave(a, v), false, 0)
    else HardcoreEngaged(a, v, r1, r2)
  }

  /** The shout clock event a tick amounts to: a shout, a tick on which the
      clock advanced, or an idle tick. */
  function ShoutEventOf(a: Actor, r: Outcome): ShoutEvent
    requires a.IsProtester() && r.a.IsProtester()
  {
    if r.shout then Shout
    else if r.a.kind.p.ticksSinceLastShout == a.kind.p.ticksSinceLastShout + 1 then Tick
    else Idle
  }

  /** Both ticks follow the shout clock: the counter after a tick is the
      clock's, and a shout happens only when the clock allows it, so the
      spacing of ShoutsAreSpaced holds for every protester. */
  lemma TicksFollowShoutClock(a: Actor, v: View, level: nat, r1: nat, r2: nat)
    requires a.IsProtester()
    ensures var r := if a.kind.variant.Regular? then RegularTick(a, v, level, r1, r2) else HardcoreTick(a, v, r1, r2);
            var e := ShoutEventOf(a, r);
            && r.a.kind.p.ticksSinceLastShout == ShoutClock(a.kind.p.ticksSinceLastShout, e)
            && ShoutAllowed(a.kind.p.ticksSinceLastShout, e)
  {
  }

  // ---------------------------------------------------------------- world

  /** The reach budget of a hardcore protester: 16 + 2*level. */
  function ReachBudget(level: nat): nat { 16 + level * 2 }

  /** What a protester anchored at (x, y) sees in world w. */
  ghost function ViewAt(w: World, x: int, y: int): View
    requires w.Valid()
    reads w`earth, w.earth, w`actors, w`player
  {
    ViewAmong(w, w.actors, w.player, x, y)
  }

  /** What a protester anchored at (x, y) sees with the earth of w, the
      boulders of the actor list s and the player t. */
  ghost function ViewAmong(w: World, s: seq<Actor>, t: Tunnelman, x: int, y: int): View
    requires w.Valid()
    reads w`earth, w.earth
  {
    View(t, OpeningsAmong(w, s, x, y), SightAmong(w, s, x, y, t.x, t.y),
         PathDirAmong(w, s, (ExitX, ExitY), (x, y)),
         InReachAmong(w, s, (x, y), (t.x, t.y), ReachBudget(w.level)),
         PathDirAmong(w, s, (t.x, t.y), (x, y)))
  }

  /** moveToExit (Actor.cpp:536-541): face along the exit path and step;
      v is the world as seen from the protester's cell. */
  method MoveToExit(w: World, a: Actor, ghost v: View) returns (b: Actor)
    requires w.Valid() && a.IsProtester()
    requires v.open == OpeningsAt(w, a.x, a.y) && v.exitDir == PathDir(w, (ExitX, ExitY), (a.x, a.y))
    ensures b == Forward(a.(dir := v.exitDir), v.open)
  {
    var d := PathDirection(w, (ExitX, ExitY), (a.x, a.y));
    b := MoveInCurrentDirection(w, a.(dir := d));
  }

  /** Leave in the world. */
  method LeaveStep(w: World, a: Actor, ghost v: View) returns (b: Actor)
    requires w.Valid() && a.IsProtester()
    requires v.open == OpeningsAt(w, a.x, a.y) && v.exitDir == PathDir(w, (ExitX, ExitY), (a.x, a.y))
    ensures b == Leave(a, v)
  {
    if a.x == ExitX && a.y == ExitY {
      return a.(alive := false);
    }
    b := MoveToExit(w, a, v);
  }

  /** Pursue in the world: the line-of-sight scan and, failing a chase,
      the wandering step. */
  method PursueStep(w: World, a: Actor, ghost v: View) returns (b: Actor)
    requires w.Valid() && a.IsProtester()
    requires v.player == w.player && v.open == OpeningsAt(w, a.x, a.y) && v.sight == LineOfSight(w, a.x, a.y, w.player.x, w.player.y)
    modifies w`drawn
    ensures var r := Pursue(a, v.open, v.sight, v.player, w.Draws(old(w.drawn)).0, w.Draws(old(w.drawn)).1);
            b == r.0 && w.drawn == old(w.drawn) + r.1
  {
    var chase := ShouldStepToward(w, a, v);
    if chase {
      b := StepToward(w, a, v);
    } else {
      b := WanderStep(w, a, v.open);
    }
  }

  /** The sight test: the player seen, more than 4 away, and the way toward
      it open. */
  method ShouldStepToward(w: World, a: Actor, ghost v: View) returns (chase: bool)
    requires w.Valid()
    requires v.player == w.player && v.open == OpeningsAt(w, a.x, a.y) && v.sight == LineOfSight(w, a.x, a.y, w.player.x, w.player.y)
    ensures chase <==> v.sight && Dist2(a.x, a.y, v.player.x, v.player.y) > 16 && v.open.Has(DirTo(a.x, a.y, v.player))
  {
    chase := false;
    var seen := InLineOfSight(w, a.x, a.y);
    if seen && w.Dist2ToPlayer(a.x, a.y) > 16 {
      chase := CanMoveInDirection(w, a.x, a.y, DirTo(a.x, a.y, w.player));
    }
  }

  /** The step toward the player, which ends the current run. */
  method StepToward(w: World, a: Actor, ghost v: View) returns (b: Actor)
    requires w.Valid() && a.IsProtester() && v.player == w.player && v.open == OpeningsAt(w, a.x, a.y)
    ensures var c := Forward(a.(dir := DirTo(a.x, a.y, v.player)), v.open);
            b == WithP(c, c.kind.p.WithNumSquaresToMove(0))
  {
    b := MoveInCurrentDirection(w, a.(dir := DirTo(a.x, a.y, w.player)));
    b := WithP(b, b.kind.p.WithNumSquaresToMove(0));
  }

  /** A regular protester's tick in the world: its entry of the actor list
      becomes RegularTick's protester, a shout costs the player 2 hit
      points, and the rand() stream advances by the draws used. v is the
      world as seen from the protester's cell and r RegularTick's outcome
      on it. */
  method RegularDoSomething(w: World, i: nat, ghost v: View, ghost r: Outcome)
    requires w.Valid() && i < |w.actors| && w.actors[i].IsProtester() && w.actors[i].kind.variant.Regular?
    requires v == ViewAt(w, w.actors[i].x, w.actors[i].y)
    requires r == RegularTick(w.actors[i], v, w.level, w.Draws(w.drawn).0, w.Draws(w.drawn).1)
    modifies w`actors, w`player, w`drawn
    ensures w.actors == old(w.actors)[i := r.a]
    ensures w.player == (if r.shout then AnnoyTunnelman(old(w.player), 2) else old(w.player))
    ensures w.drawn == old(w.drawn) + r.draws
  {
    var a := w.actors[i];
    var b, shout := RegularAct(w, a, v);
    if shout {
      w.player := AnnoyTunnelman(w.player, 2);
    }
    w.actors := w.actors[i := b];
  }

  /** Protester::doSomething's decisions for protester a: the protester
      after the tick and whether it shouted. */
  method RegularAct(w: World, a: Actor, ghost v: View) returns (b: Actor, shout: bool)
    requires w.Valid() && a.IsProtester() && a.kind.variant.Regular?
    requires v.player == w.player && v.open == OpeningsAt(w, a.x, a.y) && v.sight == LineOfSight(w, a.x, a.y, w.player.x, w.player.y)
    requires v.exitDir == PathDir(w, (ExitX, ExitY), (a.x, a.y))
    modifies w`drawn
    ensures var r := RegularTick(a, v, w.level, w.Draws(old(w.drawn)).0, w.Draws(old(w.drawn)).1);
            b == r.a && shout == r.shout && w.drawn == old(w.drawn) + r.draws
  {
    if !a.alive {
      return a, false;
    }
    var p := a.kind.p;
    if p.restingTicks > 0 {
      return WithP(a, p.WithRestingTicks(p.restingTicks - 1)), false;
    }
    if p.leaving {
      b := LeaveStep(w, Counted(a), v);
      if b.alive {
        b := Rested(b, w.level);
      }
      return b, false;
    }
    b, shout := RegularEngage(w, a, v);
  }

  /** The shout-or-pursue part of a regular protester's tick. */
  method RegularEngage(w: World, a: Actor, ghost v: View) returns (b: Actor, shout: bool)
    requires w.Valid() && a.IsProtester() && a.kind.variant.Regular?
    requires a.alive && a.kind.p.restingTicks <= 0 && !a.kind.p.leaving
    requires v.player == w.player && v.open == OpeningsAt(w, a.x, a.y) && v.sight == LineOfSight(w, a.x, a.y, w.player.x, w.player.y)
    modifies w`drawn
    ensures var r := RegularEngaged(a, v, w.level, w.Draws(old(w.drawn)).0, w.Draws(old(w.drawn)).1);
            b == r.a && shout == r.shout && w.drawn == old(w.drawn) + r.draws
  {
    b := Counted(a);
    if Facing(b, w.player) && w.Dist2ToPlayer(b.x, b.y) <= 16 && b.kind.p.ticksSinceLastShout >= ShoutCooldown {
      assert MayShout(a, v.player);
      return Rested(WithP(b, b.kind.p.WithTicksSinceLastShout(0)), w.level), true;
    }
    assert !MayShout(a, v.player);
    b := PursueStep(w, b, v);
    return Rested(b, w.level), false;
  }

  /** A hardcore protester's tick in the world, with v and r as for
      RegularDoSomething. The reach test and the path to the player need the
      protester and the player on anchor cells. */
  method HardcoreDoSomething(w: World, i: nat, ghost v: View, ghost r: Outcome)
    requires w.Valid() && i < |w.actors| && w.actors[i].IsProtester() && w.actors[i].kind.variant.Hardcore?
    requires InAnchorRange(w.actors[i].x, w.actors[i].y) && InAnchorRange(w.player.x, w.player.y)
    requires v == ViewAt(w, w.actors[i].x, w.actors[i].y)
    requires r == HardcoreTick(w.actors[i], v, w.Draws(w.drawn).0, w.Draws(w.drawn).1)
    modifies w`actors, w`player, w`drawn
    ensures w.actors == old(w.actors)[i := r.a]
    ensures w.player == (if r.shout then AnnoyTunnelman(old(w.player), 2) else old(w.player))
    ensures w.drawn == old(w.drawn) + r.draws
  {
    var a := w.actors[i];
    var b, shout := HardcoreAct(w, a, v);
    if shout {
      w.player := AnnoyTunnelman(w.player, 2);
    }
    w.actors := w.actors[i := b];
  }

  /** HardcoreProtester::doSomething's decisions for protester a. */
  method HardcoreAct(w: World, a: Actor, ghost v: View) returns (b: Actor, shout: bool)
    requires w.Valid() && a.IsProtester() && a.kind.variant.Hardcore?
    requires InAnchorRange(a.x, a.y) && InAnchorRange(w.player.x, w.player.y)
    requires v.player == w.player && v.open == OpeningsAt(w, a.x, a.y) && v.sight == LineOfSight(w, a.x, a.y, w.player.x, w.player.y)
    requires v.exitDir == PathDir(w, (ExitX, ExitY), (a.x, a.y))
    requires v.reach == InReach(w, (a.x, a.y), (w.player.x, w.player.y), ReachBudget(w.level))
    requires v.chaseDir == PathDir(w, (w.player.x, w.player.y), (a.x, a.y))
    modifies w`drawn
    ensures var r := HardcoreTick(a, v, w.Draws(old(w.drawn)).0, w.Draws(old(w.drawn)).1);
            b == r.a && shout == r.shout && w.drawn == old(w.drawn) + r.draws
  {
    if !a.alive {
      return a, false;
    }
    var p := a.kind.p;
    if p.restingTicks > 0 {
      return WithP(a, p.WithRestingTicks(p.restingTicks - 1)), false;
    }
    if a.kind.variant.stareTimer > 0 {
      return a.(kind := a.kind.(variant := Hardcore(a.kind.variant.stareTimer - 1))), false;
    }
    if p.leaving {
      b := LeaveStep(w, a, v);
      return b, false;
    }
    b, shout := HardcoreEngage(w, a, v);
  }

  /** The shout-or-advance part of a hardcore protester's tick. */
  method HardcoreEngage(w: World, a: Actor, ghost v: View) returns (b: Actor, shout: bool)
    requires w.Valid() && a.IsProtester() && a.kind.variant.Hardcore?
    requires a.alive && a.kind.p.restingTicks <= 0 && a.kind.variant.stareTimer <= 0 && !a.kind.p.leaving
    requires InAnchorRange(a.x, a.y) && InAnchorRange(w.player.x, w.player.y)
    requires v.player == w.player && v.open == OpeningsAt(w, a.x, a.y) && v.sight == LineOfSight(w, a.x, a.y, w.player.x, w.player.y)
    requires v.reach == InReach(w, (a.x, a.y), (w.player.x, w.player.y), ReachBudget(w.level))
    requires v.chaseDir == PathDir(w, (w.player.x, w.player.y), (a.x, a.y))
    modifies w`drawn
    ensures var r := HardcoreEngaged(a, v, w.Draws(old(w.drawn)).0, w.Draws(old(w.drawn)).1);
            b == r.a && shout == r.shout && w.drawn == old(w.drawn) + r.draws
  {
    b := Counted(a);
    if Facing(b, w.player) && w.Dist2ToPlayer(b.x, b.y) <= 16 && b.kind.p.ticksSinceLastShout >= ShoutCooldown {
      assert MayShout(a, v.player);
      return WithP(b, b.kind.p.WithTicksSinceLastShout(0)), true;
    }
    assert !MayShout(a, v.player);
    b := AdvanceStep(w, b, v);
    return b, false;
  }

  /** Advance in the world. */
  method AdvanceStep(w: World, b: Actor, ghost v: View) returns (c: Actor)
    requires w.Valid() && b.IsProtester() && InAnchorRange(b.x, b.y) && InAnchorRange(w.player.x, w.player.y)
    requires v.player == w.player && v.open == OpeningsAt(w, b.x, b.y) && v.sight == LineOfSight(w, b.x, b.y, w.player.x, w.player.y)
    requires v.reach == InReach(w, (b.x, b.y), (w.player.x, w.player.y), ReachBudget(w.level))
    requires v.chaseDir == PathDir(w, (w.player.x, w.player.y), (b.x, b.y))
    modifies w`drawn
    ensures var r := Advance(b, v, w.Draws(old(w.drawn)).0, w.Draws(old(w.drawn)).1);
            c == r.0 && w.drawn == old(w.drawn) + r.1
  {
    var chased;
    c, chased := Chase(w, b, v);
    if !chased {
      c := PursueStep(w, b, v);
    }
  }

  /** The hardcore chase: more than 4 from the player and within reach, a
      step along the path to the player. */
  method Chase(w: World, b: Actor, ghost v: View) returns (c: Actor, chased: bool)
    requires w.Valid() && b.IsProtester() && InAnchorRange(b.x, b.y) && InAnchorRange(w.player.x, w.player.y)
    requires v.player == w.player && v.open == OpeningsAt(w, b.x, b.y)
    requires v.reach == InReach(w, (b.x, b.y), (w.player.x, w.player.y), ReachBudget(w.level))
    requires v.chaseDir == PathDir(w, (w.player.x, w.player.y), (b.x, b.y))
    ensures chased <==> Dist2(b.x, b.y, v.player.x, v.player.y) > 16 && v.reach
    ensures chased ==> c == Forward(b.(dir := v.chaseDir), v.open)
  {
    chased := ShouldChase(w, b, v);
    c := b;
    if chased {
      c := ChaseStep(w, b, v);
    }
  }

  /** The chase test: more than 4 from the player and within reach. */
  method ShouldChase(w: World, b: Actor, ghost v: View) returns (chased: bool)
    requires w.Valid() && InAnchorRange(b.x, b.y) && v.player == w.player
    requires v.reach == InReach(w, (b.x, b.y), (w.player.x, w.player.y), ReachBudget(w.level))
    ensures chased <==> Dist2(b.x, b.y, v.player.x, v.player.y) > 16 && v.reach
  {
    chased := false;
    if w.Dist2ToPlayer(b.x, b.y) > 16 {
      chased := CanReachTunnelman(w, (b.x, b.y), (w.player.x, w.player.y), ReachBudget(w.level));
    }
  }

  /** One step along the path to the player. */
  method ChaseStep(w: World, b: Actor, ghost v: View) returns (c: Actor)
    requires w.Valid() && b.IsProtester() && InAnchorRange(w.player.x, w.player.y)
    requires v.open == OpeningsAt(w, b.x, b.y) && v.chaseDir == PathDir(w, (w.player.x, w.player.y), (b.x, b.y))
    ensures c == Forward(b.(dir := v.chaseDir), v.open)
  {
    var d := PathDirection(w, (w.player.x, w.player.y), (b.x, b.y));
    c := MoveInCurrentDirection(w, b.(dir := d));
  }
}
