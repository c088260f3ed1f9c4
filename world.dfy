/** The game world (StudentWorld.h, StudentWorld.cpp): the 64x60 earth grid,
    the list of actors, the player kept in a field of its own, the tick and
    barrel counters, and the world-level operations the actors call.

    Earth objects do nothing when they are updated (Actor.h:56-57), so an
    earth cell is modelled as a plain flag: `earth[x, y]` is true where the
    source holds an Earth object and false where it holds nullptr. The score,
    the lives and the level belong to the unseen GameWorld base and are plain
    fields here. rand() is a fixed stream `rng`; `drawn` counts the results
    consumed so far, so every draw is `rng(drawn)` followed by `drawn + 1`. */
module StudentWorld {
  import opened Geometry
  import opened Actors

  // ------------------------------------------------------------ difficulty

  /** B: boulders per level, min(level/2 + 2, 9). */
  function BoulderCount(level: nat): (b: int)
    ensures 2 <= b <= 9 && (level <= 14 ==> b == level / 2 + 2)
  {
    Min(level / 2 + 2, 9)
  }

  /** G: gold nuggets per level, max(5 - level/2, 2). */
  function GoldCount(level: nat): (g: int)
    ensures 2 <= g <= 5 && (level <= 6 ==> g == 5 - level / 2)
  {
    Max(5 - level / 2, 2)
  }

  /** L: oil barrels per level, min(2 + level, 21). */
  function BarrelCount(level: nat): (l: int)
    ensures 2 <= l <= 21 && (level <= 19 ==> l == level + 2)
  {
    Min(2 + level, 21)
  }

  /** T: ticks between protester arrivals, max(25, 200 - level). */
  function SpawnInterval(level: nat): (t: int)
    ensures 25 <= t <= 200 && (level <= 175 ==> t == 200 - level)
  {
    Max(25, 200 - level)
  }

  /** P: the cap on live protesters. The source truncates the double
      2 + level*1.5 to int; for a level >= 0 that is (4 + 3*level)/2 in
      integer arithmetic. */
  function ProtesterCap(level: nat): (p: int)
    ensures 2 <= p <= 15
    ensures p == Min(15, (2.0 + 1.5 * level as real).Floor)
  {
    var f := (4 + 3 * level) / 2;
    assert f as real <= 2.0 + 1.5 * level as real < f as real + 1.0;
    Min(15, f)
  }

  /** Percent chance that a new protester is hardcore, min(90, 10*level + 30). */
  function HardcorePercent(level: nat): (h: int)
    ensures 30 <= h <= 90
  {
    Min(90, level * 10 + 30)
  }

  /** One in (25*level + 300) ticks offers a bonus goodie. */
  function GoodieOdds(level: nat): (g: int)
    ensures g >= 300
  {
    level * 25 + 300
  }

  /** The reserved vertical shaft the level starts with. */
  predicate InShaft(x: int, y: int) {
    30 <= x <= 33 && 4 <= y <= 59
  }

  // ------------------------------------------------------ scans over actors

  /** (x, y) lies in the 4x4 footprint anchored at (ax, ay). */
  predicate Covers(ax: int, ay: int, x: int, y: int) {
    ax <= x < ax + Footprint && ay <= y < ay + Footprint
  }

  /** isBoulderAt's scan: some boulder, dead or alive, is anchored at (x, y). */
  function BoulderAt(s: seq<Actor>, x: int, y: int): (r: bool)
    ensures r <==> exists i | 0 <= i < |s| :: s[i].IsBoulder() && s[i].x == x && s[i].y == y
    decreases |s|
  {
    if s == [] then false
    else if s[0].IsBoulder() && s[0].x == x && s[0].y == y then true
    else
      var r := BoulderAt(s[1..], x, y);
      assert forall i | 1 <= i < |s| :: s[i] == s[1..][i - 1];
      r
  }

  /** isBlocked's scan: (x, y) lies in the footprint of some boulder. */
  function BoulderCovers(s: seq<Actor>, x: int, y: int): (r: bool)
    ensures r <==> exists i | 0 <= i < |s| :: s[i].IsBoulder() && Covers(s[i].x, s[i].y, x, y)
    decreases |s|
  {
    if s == [] then false
    else if s[0].IsBoulder() && Covers(s[0].x, s[0].y, x, y) then true
    else
      var r := BoulderCovers(s[1..], x, y);
      assert forall i | 1 <= i < |s| :: s[i] == s[1..][i - 1];
      r
  }

  /** isBoulderNearby's scan: some boulder anchor is within `radius` of (x, y). */
  function BoulderWithin(s: seq<Actor>, x: int, y: int, radius: nat): (r: bool)
    ensures r <==> exists i | 0 <= i < |s| :: s[i].IsBoulder() && WithinRadius(s[i].x, s[i].y, x, y, radius)
    decreases |s|
  {
    if s == [] then false
    else if s[0].IsBoulder() && WithinRadius(s[0].x, s[0].y, x, y, radius) then true
    else
      var r := BoulderWithin(s[1..], x, y, radius);
      assert forall i | 1 <= i < |s| :: s[i] == s[1..][i - 1];
      r
  }

  /** The count_if of move(): protesters that are alive. */
  function LiveProtesters(s: seq<Actor>): (n: nat)
    ensures n <= |s|
    ensures n == 0 <==> forall i | 0 <= i < |s| :: !(s[i].IsProtester() && s[i].alive)
    decreases |s|
  {
    if s == [] then 0
    else
      var n := LiveProtesters(s[..|s| - 1]);
      assert forall i | 0 <= i < |s| - 1 :: s[i] == s[..|s| - 1][i];
      n + (if s[|s| - 1].IsProtester() && s[|s| - 1].alive then 1 else 0)
  }

  /** A boulder's anchor cell is inside its own footprint: wherever
      isBoulderAt holds, isBlocked's boulder scan holds too. */
  lemma AnchorIsCovered(s: seq<Actor>, x: int, y: int)
    ensures BoulderAt(s, x, y) ==> BoulderCovers(s, x, y)
  {
    if BoulderAt(s, x, y) {
      var i :| 0 <= i < |s| && s[i].IsBoulder() && s[i].x == x && s[i].y == y;
      assert Covers(s[i].x, s[i].y, x, y);
    }
  }

  // ------------------------------------------------------ annoy and reveal

  /** What annoyProtestersAt does to one actor: a protester within `radius`
      of (x, y) is annoyed (and counts as hit even if it ignores it because it
      is leaving); every other actor is left alone. */
  function AnnoyOne(a: Actor, x: int, y: int, radius: nat, amount: int, level: nat): (r: (Actor, int, bool))
    ensures r.2 <==> a.IsProtester() && WithinRadius(a.x, a.y, x, y, radius)
    ensures !r.2 ==> r.0 == a && r.1 == 0
    ensures r.0.x == a.x && r.0.y == a.y && r.0.alive == a.alive && r.0.IsProtester() == a.IsProtester()
  {
    if a.IsProtester() && WithinRadius(a.x, a.y, x, y, radius) then
      var (q, pts) := Annoy(a.kind.p, amount, level);
      (a.(kind := a.kind.(p := q)), pts, true)
    else (a, 0, false)
  }

  /** annoyProtestersAt over the whole list: the new list, the points the
      annoyances award, and whether any protester was in range. */
  function AnnoyAll(s: seq<Actor>, x: int, y: int, radius: nat, amount: int, level: nat): (r: (seq<Actor>, int, bool))
    ensures |r.0| == |s|
    ensures forall i | 0 <= i < |s| :: r.0[i] == AnnoyOne(s[i], x, y, radius, amount, level).0
    ensures r.2 <==> exists i | 0 <= i < |s| :: s[i].IsProtester() && WithinRadius(s[i].x, s[i].y, x, y, radius)
    decreases |s|
  {
    if s == [] then ([], 0, false)
    else
      var (front, pts, hit) := AnnoyAll(s[..|s| - 1], x, y, radius, amount, level);
      var (a, p1, h1) := AnnoyOne(s[|s| - 1], x, y, radius, amount, level);
      assert forall i | 0 <= i < |s| - 1 :: s[i] == s[..|s| - 1][i];
      (front + [a], pts + p1, hit || h1)
  }

  /** annoyProtestersAt over one more actor. */
  lemma AnnoyAllSnoc(s: seq<Actor>, a: Actor, x: int, y: int, radius: nat, amount: int, level: nat)
    ensures var r := AnnoyAll(s, x, y, radius, amount, level);
            var one := AnnoyOne(a, x, y, radius, amount, level);
            AnnoyAll(s + [a], x, y, radius, amount, level) == (r.0 + [one.0], r.1 + one.1, r.2 || one.2)
  {
    assert (s + [a])[..|s|] == s;
  }

  /** The scan's points and answer over one more element of a prefix. */
  lemma AnnoyAllPrefix(s: seq<Actor>, i: int, x: int, y: int, radius: nat, amount: int, level: nat)
    requires 0 <= i < |s|
    ensures var r := AnnoyAll(s[..i], x, y, radius, amount, level);
            var one := AnnoyOne(s[i], x, y, radius, amount, level);
            var r' := AnnoyAll(s[..i + 1], x, y, radius, amount, level);
            r'.1 == r.1 + one.1 && r'.2 == (r.2 || one.2)
  {
    assert s[..i + 1] == s[..i] + [s[i]];
    AnnoyAllSnoc(s[..i], s[i], x, y, radius, amount, level);
  }

  /** When no protester is in range, annoyProtestersAt changes nothing and
      awards nothing: asking again gives the same false answer. */
  lemma {:induction false} MissChangesNothing(s: seq<Actor>, x: int, y: int, radius: nat, amount: int, level: nat)
    requires !AnnoyAll(s, x, y, radius, amount, level).2
    ensures AnnoyAll(s, x, y, radius, amount, level) == (s, 0, false)
    decreases |s|
  {
    if s != [] {
      var s' := s[..|s| - 1];
      assert forall i | 0 <= i < |s'| :: s'[i] == s[i];
      MissChangesNothing(s', x, y, radius, amount, level);
      assert s' + [s[|s| - 1]] == s;
    }
  }

  /** revealHiddenObjects over the whole list. */
  function Reveal(s: seq<Actor>, x: int, y: int, radius: nat): (r: seq<Actor>)
    ensures |r| == |s|
    ensures forall i | 0 <= i < |s| :: r[i].visible <==> s[i].visible || WithinRadius(s[i].x, s[i].y, x, y, radius)
    ensures forall i | 0 <= i < |s| :: r[i].(visible := s[i].visible) == s[i]
    ensures forall i | 0 <= i < |s| :: r[i] == RevealOne(s[i], x, y, radius)
    decreases |s|
  {
    if s == [] then []
    else
      var front := Reveal(s[..|s| - 1], x, y, radius);
      assert forall i | 0 <= i < |s| - 1 :: s[i] == s[..|s| - 1][i];
      front + [RevealOne(s[|s| - 1], x, y, radius)]
  }

  /** One actor of revealHiddenObjects: hidden and within the radius, it
      becomes visible. */
  function RevealOne(a: Actor, x: int, y: int, radius: nat): Actor {
    if !a.visible && WithinRadius(a.x, a.y, x, y, radius) then a.(visible := true) else a
  }

  // ------------------------------------------------------------ the sweep

  /** The actors the end-of-tick sweep keeps. */
  function Survivors(s: seq<Actor>): (r: seq<Actor>)
    ensures |r| <= |s|
    ensures forall a | a in r :: a.alive
    decreases |s|
  {
    if s == [] then []
    else
      var rest := Survivors(s[1..]);
      assert s == [s[0]] + s[1..];
      if s[0].alive then [s[0]] + rest else rest
  }

  /** The sweep keeps order: the survivors of a concatenation are the
      survivors of each part, in turn. */
  lemma {:induction false} SurvivorsAppend(a: seq<Actor>, b: seq<Actor>)
    ensures Survivors(a + b) == Survivors(a) + Survivors(b)
    decreases |a|
  {
    if a == [] {
      assert a + b == b;
    } else {
      assert (a + b)[0] == a[0] && (a + b)[1..] == a[1..] + b;
      SurvivorsAppend(a[1..], b);
    }
  }

  /** The sweep keeps every live actor, as often as it occurs, and drops
      every dead one. */
  lemma {:induction false} SurvivorsKeepLive(s: seq<Actor>, a: Actor)
    ensures multiset(Survivors(s))[a] == if a.alive then multiset(s)[a] else 0
    decreases |s|
  {
    if s != [] {
      assert s == [s[0]] + s[1..];
      SurvivorsKeepLive(s[1..], a);
    }
  }

  /** A list with no dead actor is swept to itself. */
  lemma {:induction false} SurvivorsAllAlive(s: seq<Actor>)
    requires forall i | 0 <= i < |s| :: s[i].alive
    ensures Survivors(s) == s
    decreases |s|
  {
    if s != [] {
      SurvivorsAllAlive(s[1..]);
    }
  }

  // ----------------------------------------------------------- placement

  /** The three kinds of object init places. */
  datatype Placement = PlaceBoulder | PlaceGold | PlaceBarrel

  /** The object init creates: a boulder, a hidden permanent nugget only the
      player can pick up, or a hidden barrel. */
  function PlacedObject(kind: Placement, x: int, y: int): (a: Actor)
    ensures a.x == x && a.y == y && a.alive
    ensures a.visible <==> kind == PlaceBoulder
  {
    match kind
    case PlaceBoulder => NewBoulder(x, y)
    case PlaceGold => NewGold(x, y, false, false, true)
    case PlaceBarrel => NewBarrel(x, y)
  }

  function PlacedObjects(kind: Placement, ps: seq<(int, int)>): (r: seq<Actor>)
    ensures |r| == |ps|
    ensures forall i | 0 <= i < |ps| :: r[i] == PlacedObject(kind, ps[i].0, ps[i].1)
    decreases |ps|
  {
    if ps == [] then []
    else
      var front := PlacedObjects(kind, ps[..|ps| - 1]);
      assert forall i | 0 <= i < |ps| - 1 :: ps[i] == ps[..|ps| - 1][i];
      front + [PlacedObject(kind, ps[|ps| - 1].0, ps[|ps| - 1].1)]
  }

  /** The column a draw gives, rand() % 61. */
  function DrawX(r: nat): int { r % 61 }

  /** The row a draw gives: rand() % 37 + 20 for a boulder, rand() % 57 otherwise. */
  function DrawY(kind: Placement, r: nat): int {
    if kind == PlaceBoulder then r % 37 + 20 else r % 57
  }

  /** Further than 6.0 from every earlier object: sqrt(d) <= 6.0 iff d <= 36. */
  predicate FarFromAll(x: int, y: int, ps: seq<(int, int)>) {
    forall i | 0 <= i < |ps| :: Dist2(x, y, ps[i].0, ps[i].1) > 36
  }

  /** No two placed objects are within 6.0 of each other. */
  predicate Separated(ps: seq<(int, int)>) {
    forall i, j | 0 <= i < j < |ps| :: Dist2(ps[j].0, ps[j].1, ps[i].0, ps[i].1) > 36
  }

  /** Every placed object is anchored in [0,60] and outside columns 27..33. */
  predicate InBand(ps: seq<(int, int)>) {
    forall i | 0 <= i < |ps| :: 0 <= ps[i].0 <= MaxAnchor && !(27 <= ps[i].0 <= 33)
  }

  /** Accepting a position far from all earlier ones keeps them separated. */
  lemma AcceptKeepsSeparated(ps: seq<(int, int)>, x: int, y: int)
    requires Separated(ps) && FarFromAll(x, y, ps)
    ensures Separated(ps + [(x, y)])
  {
    var ps' := ps + [(x, y)];
    forall i, j | 0 <= i < j < |ps'|
      ensures Dist2(ps'[j].0, ps'[j].1, ps'[i].0, ps'[i].1) > 36
    {
      if j == |ps| {
        assert ps'[i] == ps[i];
      } else {
        assert ps'[i] == ps[i] && ps'[j] == ps[j];
      }
    }
  }

  /** An anchor in the band appended to anchors in the band. */
  lemma InBandSnoc(ps: seq<(int, int)>, x: int, y: int)
    requires InBand(ps) && 0 <= x <= MaxAnchor && !(27 <= x <= 33)
    ensures InBand(ps + [(x, y)])
  {
    var ps' := ps + [(x, y)];
    assert forall i | 0 <= i < |ps| :: ps'[i] == ps[i];
  }

  /** An accepted anchor appended after `ps` and the objects placed so far
      keeps the whole list separated and in its band. */
  lemma AcceptAppends(ps: seq<(int, int)>, added: seq<(int, int)>, x: int, y: int)
    requires Separated(ps + added) && InBand(ps + added) && FarFromAll(x, y, ps + added)
    requires 0 <= x <= MaxAnchor && !(27 <= x <= 33)
    ensures Separated(ps + (added + [(x, y)])) && InBand(ps + (added + [(x, y)]))
  {
    AcceptKeepsSeparated(ps + added, x, y);
    InBandSnoc(ps + added, x, y);
    assert ps + (added + [(x, y)]) == (ps + added) + [(x, y)];
  }

  /** (x, y) is under the footprint of one of the anchors in ps. */
  predicate CoveredByAny(ps: seq<(int, int)>, x: int, y: int)
  {
    exists k | 0 <= k < |ps| :: Covers(ps[k].0, ps[k].1, x, y)
  }

  /** One boulder attempt's effect on a cell, in terms of the boulders
      placed so far: the cell keeps its initial earth unless a boulder
      accepted so far, this one included, covers it. */
  lemma CarveStep(before: seq<(int, int)>, ok: bool, x: int, y: int, i: int, j: int,
                  initial: bool, prior: bool, now: bool)
    requires prior == (initial && !CoveredByAny(before, i, j))
    requires now == (prior && !(ok && Covers(x, y, i, j)))
    ensures now == (initial && !CoveredByAny(if ok then before + [(x, y)] else before, i, j))
  {
    if ok {
      var after := before + [(x, y)];
      if CoveredByAny(before, i, j) {
        var k :| 0 <= k < |before| && Covers(before[k].0, before[k].1, i, j);
        assert after[k] == before[k];
      }
      if Covers(x, y, i, j) {
        assert after[|before|] == (x, y);
      }
      if CoveredByAny(after, i, j) {
        var k :| 0 <= k < |after| && Covers(after[k].0, after[k].1, i, j);
        if k < |before| {
          assert after[k] == before[k];
        }
      }
    }
  }

  // ---------------------------------------------------------------- world

  datatype Status = ContinueGame | PlayerDied | FinishedLevel

  class World {
    /** m_earth: true where the cell holds earth. */
    var earth: array2<bool>
    /** m_everything, in insertion order. */
    var actors: seq<Actor>
    /** m_tunnelman, never part of `actors`. */
    var player: Tunnelman
    var ticks: int
    var barrelsLeft: int
    var ticksSinceLastProtester: int
    var score: int
    var lives: int
    const level: nat
    /** The rand() stream and how much of it has been consumed. */
    const rng: nat -> nat
    var drawn: nat

    ghost predicate Valid()
      reads this`earth
    {
      earth.Length0 == TerrainWidth && earth.Length1 == TerrainHeight
    }

    /** The constructor leaves every earth cell empty (StudentWorld.cpp:11-16). */
    constructor (level: nat, lives: int, rng: nat -> nat)
      ensures Valid() && fresh(earth)
      ensures forall x, y | 0 <= x < TerrainWidth && 0 <= y < TerrainHeight :: !earth[x, y]
      ensures this.level == level && this.lives == lives && this.rng == rng
      ensures actors == [] && ticks == 0 && score == 0 && drawn == 0
    {
      earth := new bool[TerrainWidth, TerrainHeight]((x, y) => false);
      actors := [];
      player := StartTunnelman;
      ticks := 0;
      barrelsLeft := 0;
      ticksSinceLastProtester := 0;
      score := 0;
      this.lives := lives;
      this.level := level;
      this.rng := rng;
      drawn := 0;
    }

    /** The next two rand() results once d have been drawn. */
    function Draws(d: nat): (nat, nat)
    {
      (rng(d), rng(d + 1))
    }

    /** One rand() result. */
    method Rand() returns (r: nat)
      modifies this`drawn
      ensures r == rng(old(drawn)) && drawn == old(drawn) + 1
    {
      r := rng(drawn);
      drawn := drawn + 1;
    }

    // ---------------------------------------------------------- terrain

    /** isEarthAt: false, not an error, for any cell off the grid. */
    predicate IsEarthAt(x: int, y: int)
      requires Valid()
      reads this`earth, earth
      ensures IsEarthAt(x, y) ==> InTerrain(x, y)
    {
      InTerrain(x, y) && earth[x, y]
    }

    predicate IsBoulderAt(x: int, y: int)
      reads this`actors
    {
      BoulderAt(actors, x, y)
    }

    /** isBlocked: earth, or inside some boulder's 4x4 footprint. */
    predicate IsBlocked(x: int, y: int)
      requires Valid()
      reads this`earth, earth, this`actors
    {
      BlockedAmong(actors, x, y)
    }

    /** isBlocked judged against the actor list s in place of the current one. */
    predicate BlockedAmong(s: seq<Actor>, x: int, y: int)
      requires Valid()
      reads this`earth, earth
    {
      IsEarthAt(x, y) || BoulderCovers(s, x, y)
    }

    predicate IsBoulderNearby(x: int, y: int, radius: nat)
      reads this`actors
    {
      BoulderWithin(actors, x, y, radius)
    }

    /** distanceToTunnelman, squared. */
    function Dist2ToPlayer(x: int, y: int): int
      reads this`player
    {
      Dist2(x, y, player.x, player.y)
    }

    /** removeEarth: true exactly when the cell held earth; the cell is empty
        afterwards and no other cell changes. Off the grid nothing happens. */
    method RemoveEarth(x: int, y: int) returns (removed: bool)
      requires Valid()
      modifies earth
      ensures removed == old(IsEarthAt(x, y))
      ensures !IsEarthAt(x, y)
      ensures forall i, j | 0 <= i < TerrainWidth && 0 <= j < TerrainHeight && (i, j) != (x, y) ::
                earth[i, j] == old(earth[i, j])
      ensures !InTerrain(x, y) ==> unchanged(earth)
    {
      if x < 0 || x >= TerrainWidth || y < 0 || y >= TerrainHeight {
        return false;
      }
      if earth[x, y] {
        earth[x, y] := false;
        return true;
      }
      return false;
    }

    /** A second removeEarth on the same cell reports false and leaves the
        grid as the first call left it. */
    method RemoveEarthTwice(x: int, y: int) returns (first: bool, second: bool)
      requires Valid()
      modifies earth
      ensures first == old(IsEarthAt(x, y)) && !second
      ensures !IsEarthAt(x, y)
    {
      first := RemoveEarth(x, y);
      second := RemoveEarth(x, y);
    }

    // ------------------------------------------------- world operations

    /** addActor: appends to the actor list. */
    method AddActor(a: Actor)
      modifies this`actors
      ensures actors == old(actors) + [a]
    {
      actors := actors + [a];
    }

    /** decrementBarrels: one fewer barrel left, nothing else changes. */
    method DecrementBarrels()
      modifies this`barrelsLeft
      ensures barrelsLeft == old(barrelsLeft) - 1
    {
      barrelsLeft := barrelsLeft - 1;
    }

    /** annoyProtestersAt: annoys every protester within `radius` of (x, y)
        and reports whether there was one. */
    method AnnoyProtestersAt(x: int, y: int, radius: nat, amount: int) returns (annoyed: bool)
      modifies this`actors, this`score
      ensures var r := AnnoyAll(old(actors), x, y, radius, amount, level);
              actors == r.0 && score == old(score) + r.1 && annoyed == r.2
    {
      annoyed := false;
      var i := 0;
      while i < |actors|
        invariant 0 <= i <= |actors|
        invariant AnnoyedUpTo(old(actors), i, old(score), annoyed, x, y, radius, amount)
      {
        annoyed := AnnoyStep(old(actors), i, old(score), annoyed, x, y, radius, amount);
        i := i + 1;
      }
      assert old(actors)[..i] == old(actors);
    }

    /** The scan of annoyProtestersAt after its first `i` actors: those are
        annoyed, the rest untouched, and the score and the answer are the
        scan's over that prefix. */
    ghost predicate AnnoyedUpTo(orig: seq<Actor>, i: int, score0: int, annoyed: bool,
                                x: int, y: int, radius: nat, amount: int)
      reads this`actors, this`score
    {
      0 <= i <= |orig| == |actors| &&
      (forall k | i <= k < |actors| :: actors[k] == orig[k]) &&
      (forall k | 0 <= k < i :: actors[k] == AnnoyOne(orig[k], x, y, radius, amount, level).0) &&
      var r := AnnoyAll(orig[..i], x, y, radius, amount, level);
      score == score0 + r.1 && annoyed == r.2
    }

    /** One pass of annoyProtestersAt's loop body. */
    method AnnoyStep(ghost orig: seq<Actor>, i: int, ghost score0: int, annoyed: bool,
                     x: int, y: int, radius: nat, amount: int) returns (annoyed': bool)
      requires i < |actors| && AnnoyedUpTo(orig, i, score0, annoyed, x, y, radius, amount)
      modifies this`actors, this`score
      ensures AnnoyedUpTo(orig, i + 1, score0, annoyed', x, y, radius, amount)
    {
      AnnoyAllPrefix(orig, i, x, y, radius, amount, level);
      annoyed' := annoyed;
      var (b, pts, hit) := AnnoyOne(actors[i], x, y, radius, amount, level);
      if hit {
        actors := actors[i := b];
        score := score + pts;
        annoyed' := true;
      }
    }

    /** revealHiddenObjects: every hidden actor within `radius` of (x, y)
        becomes visible; nothing else changes. */
    method RevealHiddenObjects(x: int, y: int, radius: nat)
      modifies this`actors
      ensures actors == Reveal(old(actors), x, y, radius)
    {
      var i := 0;
      while i < |actors|
        invariant 0 <= i <= |actors| == |old(actors)|
        invariant forall k | i <= k < |actors| :: actors[k] == old(actors)[k]
        invariant forall k | 0 <= k < i :: actors[k] == RevealOne(old(actors)[k], x, y, radius)
      {
        var a := actors[i];
        if !a.visible && WithinRadius(a.x, a.y, x, y, radius) {
          actors := actors[i := a.(visible := true)];
        }
        i := i + 1;
      }
    }

    /** The end-of-tick sweep: erases the dead actors in place, keeping the
        survivors in order. The player is not in the list and stays. */
    method Sweep()
      modifies this`actors
      ensures actors == Survivors(old(actors))
    {
      var i := 0;
      while i < |actors|
        invariant 0 <= i <= |actors|
        invariant Survivors(old(actors)) == actors[..i] + Survivors(actors[i..])
        decreases |actors| - i
      {
        ghost var before := actors;
        ghost var rest := actors[i..];
        assert rest[0] == actors[i] && rest[1..] == actors[i + 1..];
        if !actors[i].alive {
          assert Survivors(rest) == Survivors(before[i + 1..]);
          actors := actors[..i] + actors[i + 1..];
          assert actors[..i] == before[..i] && actors[i..] == before[i + 1..];
        } else {
          assert Survivors(rest) == [before[i]] + Survivors(before[i + 1..]);
          assert before[..i + 1] == before[..i] + [before[i]];
          i := i + 1;
        }
      }
      assert actors[i..] == [];
    }

    // ------------------------------------------------------------ init

    /** Every earth cell of the footprint is present (the part of the 4x4
        footprint that lies on the grid). */
    predicate FootprintAllEarth(x: int, y: int)
      requires Valid()
      reads this`earth, earth
    {
      forall i, j | 0 <= i < TerrainWidth && 0 <= j < TerrainHeight && Covers(x, y, i, j) :: earth[i, j]
    }

    /** Every anchor of `ps` has earth under its whole footprint. */
    predicate AllOnEarth(ps: seq<(int, int)>)
      requires Valid()
      reads this`earth, earth
    {
      forall k | 0 <= k < |ps| :: FootprintAllEarth(ps[k].0, ps[k].1)
    }

    /** Adding an anchor with earth under its footprint keeps AllOnEarth. */
    lemma AllOnEarthSnoc(ps: seq<(int, int)>, x: int, y: int)
      requires Valid() && AllOnEarth(ps) && FootprintAllEarth(x, y)
      ensures AllOnEarth(ps + [(x, y)])
    {
      var ps' := ps + [(x, y)];
      forall k | 0 <= k < |ps'|
        ensures FootprintAllEarth(ps'[k].0, ps'[k].1)
      {
        if k < |ps| {
          assert ps'[k] == ps[k];
        }
      }
    }

    /** The acceptance test of init's placement loops. */
    predicate Acceptable(kind: Placement, x: int, y: int, ps: seq<(int, int)>)
      requires Valid()
      reads this`earth, earth
    {
      !(27 <= x <= 33) && (kind != PlaceBoulder ==> FootprintAllEarth(x, y)) && FarFromAll(x, y, ps)
    }

    /** One pass of the do-while body: the column band, then (for gold and
        barrels) the earth under the footprint, then the distance to every
        earlier object. */
    method CheckPosition(kind: Placement, x: int, y: int, ps: seq<(int, int)>) returns (valid: bool)
      requires Valid() && x >= 0 && y >= 0
      ensures valid == Acceptable(kind, x, y, ps)
    {
      if 27 <= x <= 33 {
        return false;
      }
      if kind != PlaceBoulder {
        var hasEarth := true;
        var i := x;
        while i < x + Footprint && i < TerrainWidth && hasEarth
          invariant x <= i <= x + Footprint
          invariant hasEarth <==> forall i', j | x <= i' < i && i' < TerrainWidth && 0 <= j < TerrainHeight && Covers(x, y, i', j) :: earth[i', j]
        {
          var j := y;
          while j < y + Footprint && j < TerrainHeight && hasEarth
            invariant y <= j <= y + Footprint
            invariant hasEarth <==>
                        (forall i', j' | x <= i' < i && i' < TerrainWidth && 0 <= j' < TerrainHeight && Covers(x, y, i', j') :: earth[i', j']) &&
                        (forall j' | y <= j' < j && j' < TerrainHeight :: earth[i, j'])
          {
            if !earth[i, j] {
              hasEarth := false;
            }
            j := j + 1;
          }
          i := i + 1;
        }
        if !hasEarth {
          return false;
        }
      }
      var k := 0;
      while k < |ps|
        invariant 0 <= k <= |ps|
        invariant forall k' | 0 <= k' < k :: Dist2(x, y, ps[k'].0, ps[k'].1) > 36
      {
        if Dist2(x, y, ps[k].0, ps[k].1) <= 36 {
          return false;
        }
        k := k + 1;
      }
      return true;
    }

    /** Removes the earth under a boulder's footprint. */
    method ClearFootprint(x: int, y: int)
      requires Valid() && x >= 0 && y >= 0
      modifies earth
      ensures forall i, j | 0 <= i < TerrainWidth && 0 <= j < TerrainHeight ::
                earth[i, j] == (old(earth[i, j]) && !Covers(x, y, i, j))
    {
      var i := x;
      while i < x + Footprint && i < TerrainWidth
        invariant x <= i <= x + Footprint
        invariant forall i', j | 0 <= i' < TerrainWidth && 0 <= j < TerrainHeight ::
                    earth[i', j] == (old(earth[i', j]) && !(Covers(x, y, i', j) && i' < i))
      {
        var j := y;
        while j < y + Footprint && j < TerrainHeight
          invariant y <= j <= y + Footprint
          invariant forall i', j' | 0 <= i' < TerrainWidth && 0 <= j' < TerrainHeight ::
                      earth[i', j'] == (old(earth[i', j']) && !(Covers(x, y, i', j') && (i' < i || (i' == i && j' < j))))
        {
          earth[i, j] := false;
          j := j + 1;
        }
        i := i + 1;
      }
    }

    /** The two draws of one placement attempt: x = rand() % 61, and y in
        the kind's band. */
    method DrawAnchor(kind: Placement) returns (x: int, y: int)
      modifies this`drawn
      ensures x == DrawX(rng(old(drawn))) && y == DrawY(kind, rng(old(drawn) + 1))
      ensures drawn == old(drawn) + 2
    {
      var rx := Rand();
      var ry := Rand();
      x := DrawX(rx);
      y := DrawY(kind, ry);
    }

    /** One attempt of the boulder loop: the draws, the acceptance test, and
        on success the boulder, after clearing the earth under it. The cells
        keep their `initial` earth unless a boulder placed so far covers
        them. */
    method TryBoulder(ps: seq<(int, int)>, ghost initial: map<(int, int), bool>) returns (ok: bool, x: int, y: int)
      requires Valid() && Carved(initial, ps)
      modifies this`actors, this`drawn, earth
      ensures x == DrawX(rng(old(drawn))) && y == DrawY(PlaceBoulder, rng(old(drawn) + 1))
      ensures drawn == old(drawn) + 2
      ensures ok == old(Acceptable(PlaceBoulder, x, y, ps))
      ensures actors == old(actors) + (if ok then [PlacedObject(PlaceBoulder, x, y)] else [])
      ensures Carved(initial, if ok then ps + [(x, y)] else ps)
    {
      x, y := DrawAnchor(PlaceBoulder);
      ok := CheckPosition(PlaceBoulder, x, y, ps);
      if ok {
        ClearFootprint(x, y);
        AddActor(PlacedObject(PlaceBoulder, x, y));
      }
      forall i, j | 0 <= i < TerrainWidth && 0 <= j < TerrainHeight
        ensures (i, j) in initial && earth[i, j] == (initial[(i, j)] && !CoveredByAny(if ok then ps + [(x, y)] else ps, i, j))
      {
        CarveStep(ps, ok, x, y, i, j, initial[(i, j)], old(earth[i, j]), earth[i, j]);
      }
    }

    /** One attempt of the gold or barrel loop: the draws, the acceptance
        test (earth under the whole footprint included), and on success the
        object. `mine` are the objects this loop placed so far; they and the
        new one lie on all earth. */
    method TryOnEarth(kind: Placement, ps: seq<(int, int)>, ghost mine: seq<(int, int)>) returns (ok: bool, x: int, y: int)
      requires Valid() && kind != PlaceBoulder && AllOnEarth(mine)
      modifies this`actors, this`drawn
      ensures x == DrawX(rng(old(drawn))) && y == DrawY(kind, rng(old(drawn) + 1))
      ensures drawn == old(drawn) + 2
      ensures ok == Acceptable(kind, x, y, ps)
      ensures actors == old(actors) + (if ok then [PlacedObject(kind, x, y)] else [])
      ensures AllOnEarth(if ok then mine + [(x, y)] else mine)
    {
      x, y := DrawAnchor(kind);
      ok := CheckPosition(kind, x, y, ps);
      if ok {
        AllOnEarthSnoc(mine, x, y);
        AddActor(PlacedObject(kind, x, y));
      }
    }

    /** Appending one accepted object extends the placed list that follows
        the actors already present. */
    lemma PlacedObjectsSnoc(base: seq<Actor>, kind: Placement, ps: seq<(int, int)>, x: int, y: int)
      ensures base + PlacedObjects(kind, ps + [(x, y)]) == (base + PlacedObjects(kind, ps)) + [PlacedObject(kind, x, y)]
    {
      assert (ps + [(x, y)])[..|ps|] == ps;
    }

    /** The boulder loop (StudentWorld.cpp:58-86), given at most `attempts`
        tries in place of the source's unbounded retries: each boulder is
        accepted against the boulders placed before it, and clears the earth
        under it. */
    method PlaceBoulders(count: nat, attempts: nat) returns (added: seq<(int, int)>)
      requires Valid()
      modifies this`actors, this`drawn, earth
      ensures |added| <= count
      ensures Separated(added) && InBand(added)
      ensures actors == old(actors) + PlacedObjects(PlaceBoulder, added)
      ensures |added| < count ==> drawn == old(drawn) + 2 * attempts
      ensures forall i, j | 0 <= i < TerrainWidth && 0 <= j < TerrainHeight ::
                earth[i, j] == (old(earth[i, j]) && !CoveredByAny(added, i, j))
    {
      ghost var initial := map i, j | 0 <= i < TerrainWidth && 0 <= j < TerrainHeight :: (i, j) := earth[i, j];
      added := [];
      var tries := 0;
      while |added| < count && tries < attempts
        invariant |added| <= count && tries <= attempts
        invariant Separated(added) && InBand(added)
        invariant actors == old(actors) + PlacedObjects(PlaceBoulder, added)
        invariant drawn == old(drawn) + 2 * tries
        invariant Carved(initial, added)
      {
        added := BoulderAttempt(added, old(actors), initial);
        tries := tries + 1;
      }
    }

    /** Every cell keeps its `initial` earth unless one of the boulders
        anchored at `added` covers it. */
    ghost predicate Carved(initial: map<(int, int), bool>, added: seq<(int, int)>)
      requires Valid()
      reads this`earth, earth
    {
      forall i, j | 0 <= i < TerrainWidth && 0 <= j < TerrainHeight ::
        (i, j) in initial && earth[i, j] == (initial[(i, j)] && !CoveredByAny(added, i, j))
    }

    /** One pass of the boulder loop's body, with its bookkeeping: the
        anchors, the actors and the earth stay in step. */
    method BoulderAttempt(added: seq<(int, int)>, ghost base: seq<Actor>, ghost initial: map<(int, int), bool>)
      returns (added': seq<(int, int)>)
      requires Valid() && Separated(added) && InBand(added)
      requires actors == base + PlacedObjects(PlaceBoulder, added)
      requires Carved(initial, added)
      modifies this`actors, this`drawn, earth
      ensures Separated(added') && InBand(added')
      ensures actors == base + PlacedObjects(PlaceBoulder, added')
      ensures Carved(initial, added')
      ensures drawn == old(drawn) + 2 && |added| <= |added'| <= |added| + 1
    {
      var ok, x, y := TryBoulder(added, initial);
      added' := if ok then added + [(x, y)] else added;
      if ok {
        AcceptKeepsSeparated(added, x, y);
        InBandSnoc(added, x, y);
        PlacedObjectsSnoc(base, PlaceBoulder, added, x, y);
      }
    }

    /** The gold loop (StudentWorld.cpp:88-124) or the barrel loop
        (StudentWorld.cpp:127-164), given at most `attempts` tries: each
        object is accepted against every object placed before it (`ps`, then
        the ones this loop adds) and only over all earth. The earth is not
        touched. */
    method PlaceOnEarth(kind: Placement, count: nat, ps: seq<(int, int)>, attempts: nat)
      returns (added: seq<(int, int)>)
      requires Valid() && kind != PlaceBoulder && Separated(ps) && InBand(ps)
      modifies this`actors, this`drawn
      ensures |added| <= count
      ensures Separated(ps + added) && InBand(ps + added) && AllOnEarth(added)
      ensures actors == old(actors) + PlacedObjects(kind, added)
      ensures |added| < count ==> drawn == old(drawn) + 2 * attempts
    {
      added := [];
      var tries := 0;
      while |added| < count && tries < attempts
        invariant |added| <= count && tries <= attempts
        invariant Separated(ps + added) && InBand(ps + added) && AllOnEarth(added)
        invariant actors == old(actors) + PlacedObjects(kind, added)
        invariant drawn == old(drawn) + 2 * tries
      {
        added := OnEarthAttempt(kind, ps, added, old(actors));
        tries := tries + 1;
      }
    }

    /** One pass of the gold or barrel loop's body, with its bookkeeping. */
    method OnEarthAttempt(kind: Placement, ps: seq<(int, int)>, added: seq<(int, int)>, ghost base: seq<Actor>)
      returns (added': seq<(int, int)>)
      requires Valid() && kind != PlaceBoulder
      requires Separated(ps + added) && InBand(ps + added) && AllOnEarth(added)
      requires actors == base + PlacedObjects(kind, added)
      modifies this`actors, this`drawn
      ensures Separated(ps + added') && InBand(ps + added') && AllOnEarth(added')
      ensures actors == base + PlacedObjects(kind, added')
      ensures drawn == old(drawn) + 2 && |added| <= |added'| <= |added| + 1
    {
      var ok, x, y := TryOnEarth(kind, ps + added, added);
      added' := added;
      if ok {
        AcceptAppends(ps, added, x, y);
        PlacedObjectsSnoc(base, kind, added, x, y);
        added' := added + [(x, y)];
      }
    }

    /** init: the earth grid with the shaft cleared, a fresh player, the
        counters, then B boulders, G gold nuggets and L barrels, each placed
        with up to `attempts` tries. The new actors are the boulders anchored
        at `bs`, then the nuggets at `gs`, then the barrels at `ls`. */
    method Init(attempts: nat) returns (bs: seq<(int, int)>, gs: seq<(int, int)>, ls: seq<(int, int)>)
      requires Valid()
      modifies this, earth
      ensures Valid() && earth == old(earth)
      ensures ticks == 0 && ticksSinceLastProtester == SpawnInterval(level)
      ensures barrelsLeft == BarrelCount(level) && player == StartTunnelman
      ensures score == old(score) && lives == old(lives)
      ensures |bs| <= BoulderCount(level) && |gs| <= GoldCount(level) && |ls| <= BarrelCount(level)
      ensures Separated(bs + gs + ls) && InBand(bs + gs + ls)
      ensures actors == old(actors) + PlacedObjects(PlaceBoulder, bs) + PlacedObjects(PlaceGold, gs)
                                    + PlacedObjects(PlaceBarrel, ls)
      ensures forall x, y | 0 <= x < TerrainWidth && 0 <= y < TerrainHeight ::
                earth[x, y] == (!InShaft(x, y) && !CoveredByAny(bs, x, y))
      ensures AllOnEarth(gs) && AllOnEarth(ls)
    {
      ticks := 0;
      ticksSinceLastProtester := SpawnInterval(level);
      player := StartTunnelman;
      barrelsLeft := BarrelCount(level);
      bs, gs, ls := Populate(attempts);
    }

    /** The terrain and the objects of init: fills the earth, then places the
        boulders (clearing the earth under them), the nuggets and the barrels. */
    method Populate(attempts: nat) returns (bs: seq<(int, int)>, gs: seq<(int, int)>, ls: seq<(int, int)>)
      requires Valid()
      modifies this`actors, this`drawn, earth
      ensures |bs| <= BoulderCount(level) && |gs| <= GoldCount(level) && |ls| <= BarrelCount(level)
      ensures Separated(bs + gs + ls) && InBand(bs + gs + ls)
      ensures actors == old(actors) + PlacedObjects(PlaceBoulder, bs) + PlacedObjects(PlaceGold, gs)
                                    + PlacedObjects(PlaceBarrel, ls)
      ensures forall x, y | 0 <= x < TerrainWidth && 0 <= y < TerrainHeight ::
                earth[x, y] == (!InShaft(x, y) && !CoveredByAny(bs, x, y))
      ensures AllOnEarth(gs) && AllOnEarth(ls)
    {
      FillEarth();
      assert Separated([]) && InBand([]);
      bs := PlaceBoulders(BoulderCount(level), attempts);
      gs := PlaceOnEarth(PlaceGold, GoldCount(level), bs, attempts);
      ls := PlaceOnEarth(PlaceBarrel, BarrelCount(level), bs + gs, attempts);
    }

    /** The earth grid of a new level: earth everywhere except the shaft. */
    method FillEarth()
      requires Valid()
      modifies earth
      ensures forall x, y | 0 <= x < TerrainWidth && 0 <= y < TerrainHeight :: earth[x, y] == !InShaft(x, y)
    {
      for x := 0 to TerrainWidth
        invariant forall i, j | 0 <= i < x && 0 <= j < TerrainHeight :: earth[i, j] == !InShaft(i, j)
      {
        for y := 0 to TerrainHeight
          invariant forall i, j | 0 <= i < x && 0 <= j < TerrainHeight :: earth[i, j] == !InShaft(i, j)
          invariant forall j | 0 <= j < y :: earth[x, j] == !InShaft(x, j)
        {
          earth[x, y] := !InShaft(x, y);
        }
      }
    }
  }
}
