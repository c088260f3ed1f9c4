/** The closed set of actor kinds the world holds, with the per-actor state each
    kind keeps (Actor.h), and the actor-local rules that touch no other object:
    protester annoyance and bribery, the protester field accessors, the
    boulder's detachment countdown, the shout clock and the player's hit points.

    The source's class hierarchy (BaseForEverything and its subclasses) becomes
    one datatype `Actor` whose `kind` is a variant per subclass; the virtual
    `isProtester` is a predicate over that variant. */
module Actors {
  import opened Geometry

  function Max(a: int, b: int): int { if a >= b then a else b }
  function Min(a: int, b: int): int { if a <= b then a else b }

  // ---------------------------------------------------------------- kinds

  /** A boulder is always in exactly one of these three states. */
  datatype BoulderState = Stable | Waiting | Falling

  /** A regular protester, or a hardcore protester with its stare timer. */
  datatype Variant = Regular | Hardcore(stareTimer: int)

  /** The counters and flag every protester keeps (Actor.h:128-133). */
  datatype ProtesterState = ProtesterState(
    hitPoints: int,
    numSquaresToMove: int,
    ticksSinceLastShout: int,
    ticksSinceLastTurn: int,
    restingTicks: int,
    leaving: bool)
  {
    /** setTicksSinceLastShout: the getter then returns t; nothing else changes. */
    function WithTicksSinceLastShout(t: int): (q: ProtesterState)
      ensures q.ticksSinceLastShout == t
      ensures q.hitPoints == hitPoints && q.numSquaresToMove == numSquaresToMove
      ensures q.ticksSinceLastTurn == ticksSinceLastTurn && q.restingTicks == restingTicks
      ensures q.leaving == leaving
    {
      this.(ticksSinceLastShout := t)
    }

    /** setTicksSinceLastTurn: the getter then returns t; nothing else changes. */
    function WithTicksSinceLastTurn(t: int): (q: ProtesterState)
      ensures q.ticksSinceLastTurn == t
      ensures q.hitPoints == hitPoints && q.numSquaresToMove == numSquaresToMove
      ensures q.ticksSinceLastShout == ticksSinceLastShout && q.restingTicks == restingTicks
      ensures q.leaving == leaving
    {
      this.(ticksSinceLastTurn := t)
    }

    /** setRestingTicks: the getter then returns t; nothing else changes. */
    function WithRestingTicks(t: int): (q: ProtesterState)
      ensures q.restingTicks == t
      ensures q.hitPoints == hitPoints && q.numSquaresToMove == numSquaresToMove
      ensures q.ticksSinceLastShout == ticksSinceLastShout
      ensures q.ticksSinceLastTurn == ticksSinceLastTurn && q.leaving == leaving
    {
      this.(restingTicks := t)
    }

    /** setNumSquaresToMove: the getter then returns n; nothing else changes. */
    function WithNumSquaresToMove(n: int): (q: ProtesterState)
      ensures q.numSquaresToMove == n
      ensures q.hitPoints == hitPoints && q.restingTicks == restingTicks
      ensures q.ticksSinceLastShout == ticksSinceLastShout
      ensures q.ticksSinceLastTurn == ticksSinceLastTurn && q.leaving == leaving
    {
      this.(numSquaresToMove := n)
    }
  }

  /** One variant per concrete actor class kept in the world's actor list. */
  datatype Kind =
    | Boulder(state: BoulderState, ticks: int)
    | Barrel
    | Gold(pickupByProtester: bool, permanent: bool, lifetime: int)
    | SonarKit(lifetime: int)
    | WaterPool(lifetime: int)
    | Squirt(travel: int)
    | Protester(variant: Variant, p: ProtesterState)

  /** Position, facing, liveness and visibility are what every actor has. */
  datatype Actor = Actor(x: int, y: int, dir: Dir, alive: bool, visible: bool, kind: Kind)
  {
    /** The virtual isProtester: false in the base class, true in Protester
        and both of its subclasses. */
    predicate IsProtester()
      ensures IsProtester() <==> kind.Protester?
    {
      match kind
      case Protester(_, _) => true
      case Boulder(_, _) => false
      case Barrel => false
      case Gold(_, _, _) => false
      case SonarKit(_) => false
      case WaterPool(_) => false
      case Squirt(_) => false
    }

    predicate IsBoulder() { kind.Boulder? }
  }

  /** The player, kept apart from the actor list. */
  datatype Tunnelman = Tunnelman(
    x: int, y: int, dir: Dir, alive: bool,
    hitPoints: int, water: int, sonar: int, gold: int)

  // ------------------------------------------------------------ constants

  const RegularHitPoints: int := 5
  const HardcoreHitPoints: int := 20
  const BoulderWaitTicks: int := 30
  const SquirtRange: int := 4
  const DroppedGoldLifetime: int := 100

  /** The Tunnelman's starting state: at (30,60) facing right, 10 hit points,
      5 water, 1 sonar charge, no gold. */
  const StartTunnelman: Tunnelman := Tunnelman(30, 60, Right, true, 10, 5, 1, 0)

  /** Rest applied after a protester's action: max(0, 3 - level/4). */
  function RestTicks(level: nat): (r: int)
    ensures 0 <= r <= 3
    ensures level < 12 ==> r == 3 - level / 4
  {
    Max(0, 3 - level / 4)
  }

  /** Stun after a non-fatal annoyance, and a hardcore protester's stare after
      a bribe: max(50, 100 - 10*level). */
  function StunTicks(level: nat): (r: int)
    ensures 50 <= r <= 100
    ensures level <= 5 ==> r == 100 - 10 * level
  {
    Max(50, 100 - level * 10)
  }

  /** Lifetime of a sonar kit or water pool: max(100, 300 - 10*level). */
  function GoodieLifetime(level: nat): (r: int)
    ensures 100 <= r <= 300
    ensures level <= 20 ==> r == 300 - 10 * level
  {
    Max(100, 300 - 10 * level)
  }

  /** rand() % 53 + 8: a fresh wander length in [8, 60]. */
  function SquaresToMove(draw: nat): (n: int)
    ensures 8 <= n <= 60
  {
    draw % 53 + 8
  }

  // --------------------------------------------------------- construction

  function NewBoulder(x: int, y: int): Actor {
    Actor(x, y, Down, true, true, Boulder(Stable, 0))
  }

  function NewBarrel(x: int, y: int): Actor {
    Actor(x, y, Right, true, false, Barrel)
  }

  /** A gold nugget; a non-permanent one lives 100 ticks, a permanent one keeps
      the sentinel -1. */
  function NewGold(x: int, y: int, visible: bool, pickupByProtester: bool, permanent: bool): Actor {
    Actor(x, y, Right, true, visible,
          Gold(pickupByProtester, permanent, if permanent then -1 else DroppedGoldLifetime))
  }

  function NewSonarKit(x: int, y: int, level: nat): Actor {
    Actor(x, y, Right, true, true, SonarKit(GoodieLifetime(level)))
  }

  function NewWaterPool(x: int, y: int, level: nat): Actor {
    Actor(x, y, Right, true, true, WaterPool(GoodieLifetime(level)))
  }

  function NewSquirt(x: int, y: int, d: Dir): Actor {
    Actor(x, y, d, true, true, Squirt(SquirtRange))
  }

  /** A new protester at the exit cell facing left; `draw` is the rand() the
      Protester constructor consumes for its wander length. */
  function NewProtester(hardcore: bool, level: nat, draw: nat): (a: Actor)
    ensures a.IsProtester() && a.alive && a.visible && a.x == ExitX && a.y == ExitY && a.dir == Left
    ensures !a.kind.p.leaving && a.kind.p.ticksSinceLastShout == 0 && a.kind.p.ticksSinceLastTurn == 0
    ensures a.kind.p.hitPoints == if hardcore then HardcoreHitPoints else RegularHitPoints
    ensures 8 <= a.kind.p.numSquaresToMove <= 60 && a.kind.p.numSquaresToMove == draw % 53 + 8
    ensures a.kind.p.restingTicks == RestTicks(level) && 0 <= a.kind.p.restingTicks <= 3
    ensures a.kind.variant.Hardcore? <==> hardcore
    ensures a.kind.variant.Hardcore? ==> a.kind.variant.stareTimer == 0
  {
    Actor(ExitX, ExitY, Left, true, true,
          Protester(if hardcore then Hardcore(0) else Regular,
                    ProtesterState(if hardcore then HardcoreHitPoints else RegularHitPoints,
                                   SquaresToMove(draw), 0, 0, RestTicks(level), false)))
  }

  // ------------------------------------------------------- annoy and bribe

  /** Protester::annoy (Actor.cpp:505-525): the new protester state and the
      points awarded. A leaving protester ignores annoyance. */
  function Annoy(p: ProtesterState, amount: int, level: nat): (r: (ProtesterState, int))
    ensures p.leaving ==> r == (p, 0)
    ensures !p.leaving ==> r.0.hitPoints == p.hitPoints - amount
    ensures !p.leaving ==> (r.0.leaving <==> p.hitPoints - amount <= 0)
    ensures !p.leaving && r.0.leaving ==>
              r.0.restingTicks == 0 && r.1 == (if amount >= 100 then 500 else 100)
    ensures !p.leaving && !r.0.leaving ==> r.0.restingTicks == StunTicks(level) && r.1 == 0
    ensures r.0.numSquaresToMove == p.numSquaresToMove
    ensures r.0.ticksSinceLastShout == p.ticksSinceLastShout
    ensures r.0.ticksSinceLastTurn == p.ticksSinceLastTurn
  {
    if p.leaving then (p, 0)
    else
      var hp := p.hitPoints - amount;
      if hp <= 0 then
        (p.(hitPoints := hp, leaving := true, restingTicks := 0),
         if amount >= 100 then 500 else 100)
      else
        (p.(hitPoints := hp, restingTicks := StunTicks(level)), 0)
  }

  /** A run of annoyances on one protester: its final state and total award. */
  function AnnoyRun(p: ProtesterState, amounts: seq<int>, level: nat): (ProtesterState, int)
    decreases |amounts|
  {
    if amounts == [] then (p, 0)
    else
      var (q, pts) := Annoy(p, amounts[0], level);
      var (q', rest) := AnnoyRun(q, amounts[1..], level);
      (q', pts + rest)
  }

  /** Leaving is irrevocable, and a protester scores for its defeat at most
      once: whatever annoyances it takes, the total award is 0, 100 or 500. */
  lemma {:induction false} AnnoyAwardsAtMostOnce(p: ProtesterState, amounts: seq<int>, level: nat)
    ensures p.leaving ==> AnnoyRun(p, amounts, level) == (p, 0)
    ensures AnnoyRun(p, amounts, level).1 in {0, 100, 500}
    ensures AnnoyRun(p, amounts, level).1 != 0 ==> !p.leaving && AnnoyRun(p, amounts, level).0.leaving
    decreases |amounts|
  {
    if amounts != [] {
      var (q, pts) := Annoy(p, amounts[0], level);
      AnnoyAwardsAtMostOnce(q, amounts[1..], level);
      if q.leaving {
        assert AnnoyRun(q, amounts[1..], level) == (q, 0);
      }
    }
  }

  /** bribeWithGold for both variants (Actor.cpp:101-108, 527-534): a regular
      protester leaves at once (+25); a hardcore one stays and stares for
      max(50, 100 - 10*level) ticks (+50). */
  function Bribe(v: Variant, p: ProtesterState, level: nat): (r: (Variant, ProtesterState, int))
    ensures v.Regular? ==> r.0 == v && r.1.leaving && r.1.restingTicks == 0 && r.2 == 25
    ensures v.Hardcore? ==> r.0 == Hardcore(StunTicks(level)) && r.1 == p && r.2 == 50
    ensures r.1.hitPoints == p.hitPoints
  {
    match v
    case Regular => (v, p.(leaving := true, restingTicks := 0), 25)
    case Hardcore(_) => (Hardcore(StunTicks(level)), p, 50)
  }

  // ------------------------------------------------------- boulder phases

  /** The stable and waiting states of Boulder::doSomething (Actor.cpp:68-85):
      a stable boulder with no earth in the row below its footprint starts a
      30-tick wait; a waiting boulder counts down and falls when the counter
      reaches 0. */
  function BoulderSettle(s: BoulderState, ticks: int, earthBelow: bool): (r: (BoulderState, int))
    requires s != Falling
    ensures s == Stable ==> (r.0 == Waiting <==> !earthBelow) && r.0 != Falling
    ensures s == Stable && !earthBelow ==> r.1 == BoulderWaitTicks
    ensures s == Waiting ==> r.0 != Stable && r.1 == ticks - 1 && (r.0 == Falling <==> ticks <= 1)
  {
    if s == Stable then
      if earthBelow then (s, ticks) else (Waiting, BoulderWaitTicks)
    else
      if ticks - 1 <= 0 then (Falling, ticks - 1) else (Waiting, ticks - 1)
  }

  /** The boulder's state after n ticks spent outside the falling state
      (the earth below matters only to a stable boulder). */
  function SettleFor(n: nat, s: BoulderState, ticks: int, earthBelow: bool): (BoulderState, int)
    decreases n
  {
    if n == 0 || s == Falling then (s, ticks)
    else
      var (s', t') := BoulderSettle(s, ticks, earthBelow);
      SettleFor(n - 1, s', t', earthBelow)
  }

  /** A boulder that has just started waiting keeps waiting for 29 more ticks
      and is falling exactly on the 30th. */
  lemma {:induction false} WaitLastsThirtyTicks(n: nat, earthBelow: bool)
    requires n <= BoulderWaitTicks
    ensures n < BoulderWaitTicks ==> SettleFor(n, Waiting, BoulderWaitTicks, earthBelow) == (Waiting, BoulderWaitTicks - n)
    ensures n == BoulderWaitTicks ==> SettleFor(n, Waiting, BoulderWaitTicks, earthBelow).0 == Falling
  {
    if n > 0 {
      WaitCountdown(n, BoulderWaitTicks, earthBelow);
    }
  }

  lemma {:induction false} WaitCountdown(n: nat, ticks: int, earthBelow: bool)
    requires 1 <= n <= ticks
    ensures n < ticks ==> SettleFor(n, Waiting, ticks, earthBelow) == (Waiting, ticks - n)
    ensures n == ticks ==> SettleFor(n, Waiting, ticks, earthBelow).0 == Falling
    decreases n
  {
    if n == 1 {
      if ticks == 1 {
        assert SettleFor(1, Waiting, ticks, earthBelow) == SettleFor(0, Falling, 0, earthBelow);
      } else {
        assert SettleFor(1, Waiting, ticks, earthBelow) == SettleFor(0, Waiting, ticks - 1, earthBelow);
      }
    } else {
      assert SettleFor(n, Waiting, ticks, earthBelow) == SettleFor(n - 1, Waiting, ticks - 1, earthBelow);
      WaitCountdown(n - 1, ticks - 1, earthBelow);
    }
  }

  // ----------------------------------------------------------- shout clock

  /** What one protester tick does to ticksSinceLastShout: nothing (resting,
      staring, or a hardcore protester's leaving step), one more tick, or a
      shout, which needs the incremented counter to be at least 15 and resets
      it to 0 (Actor.cpp:461-480, 676-684). */
  datatype ShoutEvent = Idle | Tick | Shout

  const ShoutCooldown: int := 15

  function ShoutClock(c: int, e: ShoutEvent): int {
    match e
    case Idle => c
    case Tick => c + 1
    case Shout => 0
  }

  /** The shout is only taken when the incremented counter allows it. */
  predicate ShoutAllowed(c: int, e: ShoutEvent) {
    e == Shout ==> c + 1 >= ShoutCooldown
  }

  function ClockAfter(c: int, evs: seq<ShoutEvent>): int
    decreases |evs|
  {
    if evs == [] then c else ClockAfter(ShoutClock(c, evs[0]), evs[1..])
  }

  /** Every event of the run was allowed by the clock at its time. */
  predicate ValidShoutRun(c: int, evs: seq<ShoutEvent>)
    decreases |evs|
  {
    evs == [] || (ShoutAllowed(c, evs[0]) && ValidShoutRun(ShoutClock(c, evs[0]), evs[1..]))
  }

  /** Number of ticks in which the protester was not idle. */
  function Active(evs: seq<ShoutEvent>): (n: nat)
    ensures n <= |evs|
    decreases |evs|
  {
    if evs == [] then 0 else (if evs[0] == Idle then 0 else 1) + Active(evs[1..])
  }

  /** The counter never runs ahead of the active ticks it has seen. */
  lemma {:induction false} ClockBoundedByActive(c: int, evs: seq<ShoutEvent>)
    requires c >= 0
    ensures 0 <= ClockAfter(c, evs) <= c + Active(evs)
    decreases |evs|
  {
    if evs != [] {
      ClockBoundedByActive(ShoutClock(c, evs[0]), evs[1..]);
    }
  }

  /** Starting from a fresh counter (a new protester, or right after a shout),
      a shout at position k of a valid run comes after at least 15 active
      ticks, counting its own. So two shouts of one protester are at least 15
      of its non-resting ticks apart. */
  lemma {:induction false} ShoutsAreSpaced(evs: seq<ShoutEvent>, k: nat)
    requires ValidShoutRun(0, evs)
    requires k < |evs| && evs[k] == Shout
    ensures Active(evs[..k + 1]) >= ShoutCooldown
  {
    RunPrefix(0, evs, k);
    ClockBoundedByActive(0, evs[..k]);
    ActiveSplit(evs[..k], [evs[k]]);
    assert evs[..k + 1] == evs[..k] + [evs[k]];
  }

  /** In a valid run, the event at position k is allowed by the clock reached
      after the first k events. */
  lemma {:induction false} RunPrefix(c: int, evs: seq<ShoutEvent>, k: nat)
    requires ValidShoutRun(c, evs) && k < |evs|
    ensures ShoutAllowed(ClockAfter(c, evs[..k]), evs[k])
    decreases k
  {
    if k == 0 {
      assert evs[..0] == [];
    } else {
      RunPrefix(ShoutClock(c, evs[0]), evs[1..], k - 1);
      assert evs[1..][..k - 1] == evs[..k][1..];
    }
  }

  lemma {:induction false} ActiveSplit(a: seq<ShoutEvent>, b: seq<ShoutEvent>)
    ensures Active(a + b) == Active(a) + Active(b)
    decreases |a|
  {
    if a == [] {
      assert a + b == b;
    } else {
      assert (a + b)[0] == a[0] && (a + b)[1..] == a[1..] + b;
      ActiveSplit(a[1..], b);
    }
  }

  // -------------------------------------------------------- player damage

  /** Tunnelman::annoy / decreaseHitPoints (Actor.cpp:380-386, 412-414): lose
      `amount` hit points and die at 0 or below. */
  function AnnoyTunnelman(t: Tunnelman, amount: int): (r: Tunnelman)
    ensures r.hitPoints == t.hitPoints - amount
    ensures r.alive <==> t.alive && t.hitPoints - amount > 0
    ensures r.x == t.x && r.y == t.y && r.dir == t.dir
    ensures r.water == t.water && r.sonar == t.sonar && r.gold == t.gold
  {
    var hp := t.hitPoints - amount;
    t.(hitPoints := hp, alive := t.alive && hp > 0)
  }
}
