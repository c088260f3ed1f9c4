/** The protesters' searches over the terrain (Actor.cpp:718-929):
    getPathToExit and getPathToTunnelman (one method, `PathStep`, rooted at
    the exit or at the Tunnelman) and the Hardcore protester's bounded
    reachability test `CanReachTunnelman`.

    Each search keeps a label per cell (the maze array, or the visited array
    with the step counts of the queue) and a queue of cells. The labels live
    in 64x61 arrays and the queues hold 64*61 entries: the searches start at
    anchors in row 60 (the exit (60,60), a Tunnelman or a protester standing
    in the top row), which a 64x60 array does not have. */
module Pathfinding {
  import opened Geometry
  import opened Paths
  import opened Actors
  import opened StudentWorld

  /** Rows of the label arrays: the terrain rows plus the top anchor row 60. */
  const MazeRows: int := TerrainHeight + 1
  const QueueSize: int := TerrainWidth * MazeRows

  /** The cells a search may step into: inside columns 0..63 and rows
      0..rows-1, and not blocked by earth or a boulder footprint. */
  ghost function Open(w: World, rows: int): (open: set<Cell>)
    requires w.Valid()
    reads w`earth, w.earth, w`actors
    ensures forall c | c in open :: InExtent(c, rows)
  {
    OpenAmong(w, w.actors, rows)
  }

  /** The open cells with the boulders of the actor list s. */
  ghost function OpenAmong(w: World, s: seq<Actor>, rows: int): (open: set<Cell>)
    requires w.Valid()
    reads w`earth, w.earth
    ensures forall c | c in open :: InExtent(c, rows)
  {
    set x, y | 0 <= x < TerrainWidth && 0 <= y < rows && !w.BlockedAmong(s, x, y) :: (x, y)
  }

  lemma OpenMember(w: World, rows: int, x: int, y: int)
    requires w.Valid()
    ensures (x, y) in Open(w, rows) <==> InExtent((x, y), rows) && !w.IsBlocked(x, y)
  {
  }

  // ---------------------------------------------------------------- the
  //                                                  direction of a path step

  /** The bounds test made before a neighbour's label is read: x > 0 for
      left, x < 63 for right, y > 0 for down and y < top for up. */
  predicate InBounds(p: Cell, d: Dir, top: int) {
    match d
    case Left => p.0 > 0
    case Right => p.0 < TerrainWidth - 1
    case Down => p.1 > 0
    case Up => p.1 < top
  }

  /** The neighbour in direction d qualifies when the protester stands k
      moves from the root: it is one move closer (k > 0), or, at the root
      itself (k == 0), it is unlabelled, which every neighbour is when the
      root is dequeued. */
  ghost predicate Chosen(open: set<Cell>, root: Cell, p: Cell, k: nat, top: int, d: Dir) {
    InBounds(p, d, top) && (k == 0 || ExactDist(open, root, Step(p, d), k - 1))
  }

  /** The direction a path search returns for a protester k moves from the
      root: the first qualifying neighbour in the order left, right, down,
      up, and left when none qualifies. */
  ghost function NextStep(open: set<Cell>, root: Cell, p: Cell, k: nat, top: int): Dir {
    if Chosen(open, root, p, k, top, Left) then Left
    else if Chosen(open, root, p, k, top, Right) then Right
    else if Chosen(open, root, p, k, top, Down) then Down
    else if Chosen(open, root, p, k, top, Up) then Up
    else Left
  }

  lemma NextStepIsChosen(open: set<Cell>, root: Cell, p: Cell, k: nat, top: int, d: Dir)
    requires Chosen(open, root, p, k, top, d)
    ensures Chosen(open, root, p, k, top, NextStep(open, root, p, k, top))
  {
  }

  function Opposite(d: Dir): (e: Dir)
    ensures Step(Step((0, 0), d), e) == (0, 0)
  {
    match d
    case Up => Down
    case Down => Up
    case Left => Right
    case Right => Left
  }

  /** A cell reachable from the root is the root or an open cell. */
  lemma WithinIsOpen(open: set<Cell>, root: Cell, c: Cell, k: nat)
    requires Within(open, root, c, k)
    ensures c == root || c in open
  {
    if c != root {
      var d :| CanEnter(open, Back(c, d), d) && Within(open, root, Back(c, d), k - 1);
      assert Step(Back(c, d), d) == c;
    }
  }

  /** With the up test reaching row 60 (`top` = 60), the returned direction
      always leads one move closer to the root: following path steps reaches
      the exit or the Tunnelman in exactly k moves. */
  lemma NextStepProgress(open: set<Cell>, root: Cell, p: Cell, k: nat)
    requires forall c | c in open :: InExtent(c, MazeRows)
    requires InExtent(root, MazeRows)
    requires ExactDist(open, root, p, k) && k > 0
    ensures ExactDist(open, root, Step(p, NextStep(open, root, p, k, TerrainHeight)), k - 1)
  {
    assert p != root;
    var d :| CanEnter(open, Back(p, d), d) && Within(open, root, Back(p, d), k - 1);
    var q := Back(p, d);
    assert Step(q, d) == p;
    forall j: nat | Within(open, root, q, j) ensures Within(open, root, p, j + 1) {
      WithinStep(open, root, q, d, j);
    }
    assert ExactDist(open, root, q, k - 1);
    WithinIsOpen(open, root, q, k - 1);
    assert InExtent(q, MazeRows);
    var e := Opposite(d);
    assert Step(p, e) == q;
    assert Chosen(open, root, p, k, TerrainHeight, e);
    NextStepIsChosen(open, root, p, k, TerrainHeight, e);
  }

  /** As written, the up test stops at y < 59, so a protester in row 59 never
      steps up into row 60. One move below the exit, with the exit the only
      closer cell, the search answers left, which leads away from the exit;
      with the test at y < 60 it answers up, onto the exit. */
  lemma UpNeverTakenFromRowFiftyNine()
    ensures var open, root, p := {(60, 59)}, (ExitX, ExitY), (60, 59);
            && ExactDist(open, root, p, 1)
            && NextStep(open, root, p, 1, TerrainHeight - 1) == Left
            && !Within(open, root, Step(p, Left), 0)
            && NextStep(open, root, p, 1, TerrainHeight) == Up
            && Step(p, Up) == root
  {
    var open, root, p := {(60, 59)}, (ExitX, ExitY), (60, 59);
    assert Back(p, Down) == root && CanEnter(open, root, Down);
    assert Within(open, root, p, 1);
    assert p != root;
    NotChosenAwayFromRoot(open, root, p, TerrainHeight - 1);
    NotChosenAwayFromRoot(open, root, p, TerrainHeight);
    assert !InBounds(p, Up, TerrainHeight - 1);
    ExactZeroIsRoot(open, root, Step(p, Up));
    assert Chosen(open, root, p, 1, TerrainHeight, Up);
  }

  /** Zero moves from the root is the root itself. */
  lemma ExactZeroIsRoot(open: set<Cell>, root: Cell, c: Cell)
    ensures ExactDist(open, root, c, 0) <==> c == root
  {
  }

  /** One move below the exit, only the step up reaches the root. */
  lemma NotChosenAwayFromRoot(open: set<Cell>, root: Cell, p: Cell, top: int)
    requires root == (ExitX, ExitY) && p == (60, 59)
    ensures !Chosen(open, root, p, 1, top, Left) && !Chosen(open, root, p, 1, top, Right)
    ensures !Chosen(open, root, p, 1, top, Down)
  {
    ExactZeroIsRoot(open, root, Step(p, Left));
    ExactZeroIsRoot(open, root, Step(p, Right));
    ExactZeroIsRoot(open, root, Step(p, Down));
  }

  /** The source's maze is int[64][60]: maze[x][y] is word x*60+y of one
      block of 3840 words. */
  function MazeSlot(x: int, y: int): int { x * TerrainHeight + y }

  /** Row 60 is outside that block: maze[x][60] is the word of maze[x+1][0],
      and maze[63][60] is one past the block's end. The exit's label 0 is
      written over the label of cell (61, 0). */
  lemma RowSixtyAliases(x: int)
    requires 0 <= x < TerrainWidth - 1
    ensures MazeSlot(x, TerrainHeight) == MazeSlot(x + 1, 0)
    ensures MazeSlot(TerrainWidth - 1, TerrainHeight) == TerrainWidth * TerrainHeight
    ensures MazeSlot(ExitX, ExitY) == MazeSlot(ExitX + 1, 0)
  {
  }

  // ------------------------------------------------------------ path search

  function LabelOf(lab: map<Cell, nat>, c: Cell): int {
    if c in lab then lab[c] else -1
  }

  /** The arrays hold the search state: the queue's first |Q| entries are Q,
      and the maze holds each cell's label, -1 where unlabelled. */
  ghost predicate Mirrors(maze: array2<int>, qx: array<int>, qy: array<int>, Q: seq<Cell>, lab: map<Cell, nat>)
    reads maze, qx, qy
  {
    && qx.Length == QueueSize && qy.Length == QueueSize && qx != qy
    && |Q| <= QueueSize
    && (forall i {:trigger qx[i]} {:trigger qy[i]} | 0 <= i < |Q| :: qx[i] == Q[i].0 && qy[i] == Q[i].1)
    && MazeHolds(maze, lab)
  }

  /** The maze holds each cell's label, -1 where unlabelled. */
  ghost predicate MazeHolds(maze: array2<int>, lab: map<Cell, nat>)
    reads maze
  {
    && maze.Length0 == TerrainWidth && maze.Length1 == MazeRows
    && (forall c | c in lab :: InExtent(c, MazeRows))
    && (forall x, y {:trigger maze[x, y]} | 0 <= x < TerrainWidth && 0 <= y < MazeRows :: maze[x, y] == LabelOf(lab, (x, y)))
  }

  /** open is the set of unblocked cells of the 64 x 61 extent that the
      searches run over. The membership test is keyed on IsBlocked, so it is
      only unfolded where the world is consulted. */
  ghost predicate Agrees(w: World, open: set<Cell>, rows: int)
    requires w.Valid()
    reads w`earth, w.earth, w`actors
  {
    (forall c | c in open :: InExtent(c, rows)) &&
    forall x, y {:trigger w.IsBlocked(x, y)} | 0 <= x < TerrainWidth && 0 <= y < rows ::
      (x, y) in open <==> !w.IsBlocked(x, y)
  }

  lemma OpenAgrees(w: World, rows: int)
    requires w.Valid()
    ensures Agrees(w, Open(w, rows), rows)
  {
    forall x, y | 0 <= x < TerrainWidth && 0 <= y < rows
      ensures (x, y) in Open(w, rows) <==> !w.IsBlocked(x, y)
    {
      OpenMember(w, rows, x, y);
    }
  }

  /** The source's test before expanding into direction d (bounds, up only
      below row 59, unlabelled, not blocked) is the search's move test. */
  lemma EnterTest(w: World, open: set<Cell>, lab: map<Cell, nat>, p: Cell, d: Dir)
    requires w.Valid() && Agrees(w, open, MazeRows) && InExtent(p, MazeRows)
    ensures InBounds(p, d, TerrainHeight - 1) ==> InExtent(Step(p, d), MazeRows)
    ensures (InBounds(p, d, TerrainHeight - 1) && LabelOf(lab, Step(p, d)) == -1 && !w.IsBlocked(Step(p, d).0, Step(p, d).1))
            <==> (CanEnter(open, p, d) && Step(p, d) !in lab)
  {
    var n := Step(p, d);
    if InBounds(p, d, TerrainHeight - 1) {
      assert (n.0, n.1) in open <==> !w.IsBlocked(n.0, n.1);
    } else if d != Up {
      assert !InExtent(n, MazeRows);
    }
  }

  /** Labels the unlabelled cell (nx, ny) with v and appends it to the queue. */
  method Push(maze: array2<int>, qx: array<int>, qy: array<int>, back: nat, nx: int, ny: int, v: int,
              ghost Q: seq<Cell>, ghost lab: map<Cell, nat>)
    requires Mirrors(maze, qx, qy, Q, lab) && back == |Q| < QueueSize
    requires InExtent((nx, ny), MazeRows) && (nx, ny) !in lab && v >= 0
    modifies maze, qx, qy
    ensures Mirrors(maze, qx, qy, Q + [(nx, ny)], lab[(nx, ny) := v])
  {
    maze[nx, ny] := v;
    qx[back] := nx;
    qy[back] := ny;
  }

  /** The source's test before expanding into direction d (bounds, up only
      below row 59, unlabelled, not blocked) as a search move. */
  ghost predicate Enters(open: set<Cell>, lab: map<Cell, nat>, p: Cell, d: Dir) {
    CanEnter(open, p, d) && Step(p, d) !in lab
  }

  /** One of the four expansion blocks of the last dequeued cell (x, y), in
      the order left, right, down, up: an unlabelled, unblocked neighbour
      inside the bounds (up only below row 59) is labelled one more and
      appended to the queue. */
  method Expand(w: World, maze: array2<int>, qx: array<int>, qy: array<int>, back: nat, x: int, y: int, d: Dir,
                ghost open: set<Cell>, ghost Q: seq<Cell>, ghost lab: map<Cell, nat>)
    returns (enter: bool)
    requires w.Valid() && Agrees(w, open, MazeRows)
    requires Mirrors(maze, qx, qy, Q, lab) && back == |Q| && (x, y) in lab
    requires Enters(open, lab, (x, y), d) ==> |Q| < QueueSize
    modifies maze, qx, qy
    ensures Agrees(w, open, MazeRows)
    ensures enter == Enters(open, lab, (x, y), d)
    ensures enter ==> Mirrors(maze, qx, qy, Q + [Step((x, y), d)], lab[Step((x, y), d) := lab[(x, y)] + 1])
    ensures !enter ==> Mirrors(maze, qx, qy, Q, lab)
  {
    var nx, ny := x + DeltaX(d), y + DeltaY(d);
    EnterTest(w, open, lab, (x, y), d);
    enter := InBounds((x, y), d, TerrainHeight - 1) && maze[nx, ny] == -1 && !w.IsBlocked(nx, ny);
    if enter {
      Push(maze, qx, qy, back, nx, ny, maze[x, y] + 1, Q, lab);
    }
  }

  /** Block i of the dequeued cell (x, y) enters its neighbour: labelled one
      more than (x, y) and appended, the invariant holds with the block done. */
  lemma EnqueueStep(open: set<Cell>, root: Cell, Q: seq<Cell>, lab: map<Cell, nat>, front: nat,
                    order: seq<Dir>, i: nat, x: int, y: int, bounded: bool, budget: int)
    requires i < |order| && 0 < front && front <= |Q| && Q[front - 1] == (x, y)
    requires BfsInv(open, root, Q, lab, front, Done(order, i), bounded, budget)
    requires Enters(open, lab, (x, y), order[i])
    ensures (x, y) in lab
    ensures var n := Step((x, y), order[i]);
            BfsInv(open, root, Q + [n], lab[n := lab[(x, y)] + 1], front, Done(order, i + 1), bounded, budget)
  {
    EnqueueInv(open, root, Q, lab, front, Done(order, i), bounded, budget, order[i]);
  }

  /** Block i of the dequeued cell (x, y) does not enter: the invariant holds
      with the block done. */
  lemma SkipStep(open: set<Cell>, root: Cell, Q: seq<Cell>, lab: map<Cell, nat>, front: nat,
                 order: seq<Dir>, i: nat, x: int, y: int, bounded: bool, budget: int)
    requires i < |order| && 0 < front && front <= |Q| && Q[front - 1] == (x, y)
    requires BfsInv(open, root, Q, lab, front, Done(order, i), bounded, budget)
    requires !Enters(open, lab, (x, y), order[i])
    ensures BfsInv(open, root, Q, lab, front, Done(order, i + 1), bounded, budget)
  {
    SkipInv(open, root, Q, lab, front, Done(order, i), bounded, budget, order[i]);
  }

  /** The queue has room for a cell the search enters: its cells are
      distinct cells of the 64x61 extent, and the new one is not among them. */
  lemma QueueRoom(open: set<Cell>, Q: seq<Cell>, lab: map<Cell, nat>, p: Cell, d: Dir)
    requires Distinct(Q) && Labelled(Q, lab) && p in lab
    requires forall c | c in open :: InExtent(c, MazeRows)
    requires forall c | c in lab :: InExtent(c, MazeRows)
    ensures Enters(open, lab, p, d) ==> |Q| < QueueSize
  {
    var n := Step(p, d);
    if Enters(open, lab, p, d) {
      var Q' := Q + [n];
      forall i | 0 <= i < |Q'| ensures InExtent(Q'[i], MazeRows) {
        if i < |Q| {
          assert Q'[i] == Q[i] && Q[i] in lab;
        }
      }
      forall i, j | 0 <= i < j < |Q'| ensures Q'[i] != Q'[j] {
        if j == |Q| {
          assert Q[i] in lab;
        }
      }
      DistinctCellsBound(Q', MazeRows);
    }
  }

  /** The neighbour's label test in direction d at a cell p labelled k: the
      neighbour carries k-1 exactly when it qualifies. */
  ghost predicate LabelMatches(open: set<Cell>, root: Cell, lab: map<Cell, nat>, p: Cell, d: Dir)
    requires p in lab
  {
    LabelOf(lab, Step(p, d)) == lab[p] as int - 1 <==> (lab[p] == 0 || ExactDist(open, root, Step(p, d), lab[p] - 1))
  }

  /** The label test is exact for the cell being dequeued. */
  lemma LabelTest(open: set<Cell>, root: Cell, Q: seq<Cell>, lab: map<Cell, nat>, f: nat, d: Dir)
    requires BfsInv(open, root, Q, lab, f, AllDirs, false, 0) && f < |Q|
    ensures Q[f] in lab && LabelMatches(open, root, lab, Q[f], d)
  {
    var p := Q[f];
    assert p in lab;
    var n := Step(p, d);
    if lab[p] == 0 {
      assert Within(open, root, p, lab[p]);
      assert p == root && Q[0] == root;
      assert f == 0;
      assert n != root;
      assert n !in lab;
    } else {
      LabelExact(open, root, Q, lab, f, n, lab[p] - 1);
    }
  }

  /** The label tests of the dequeued protester cell (x, y), in the order
      left, right, down, up; the up test reaches row 60. */
  method ChooseStep(maze: array2<int>, x: int, y: int, ghost open: set<Cell>, ghost root: Cell, ghost lab: map<Cell, nat>)
    returns (dir: Dir)
    requires MazeHolds(maze, lab) && (x, y) in lab
    requires LabelMatches(open, root, lab, (x, y), Left) && LabelMatches(open, root, lab, (x, y), Right)
    requires LabelMatches(open, root, lab, (x, y), Down) && LabelMatches(open, root, lab, (x, y), Up)
    ensures dir == NextStep(open, root, (x, y), lab[(x, y)], TerrainHeight)
  {
    var minDist := maze[x, y];
    if x > 0 && maze[x - 1, y] == minDist - 1 {
      return Left;
    }
    if x < TerrainWidth - 1 && maze[x + 1, y] == minDist - 1 {
      return Right;
    }
    if y > 0 && maze[x, y - 1] == minDist - 1 {
      return Down;
    }
    if y < TerrainHeight && maze[x, y + 1] == minDist - 1 {
      return Up;
    }
    return Left;
  }

  /** The protester's cell is dequeued at position f: its label is its
      distance and the label tests give the path step. */
  method FoundStep(maze: array2<int>, x: int, y: int, ghost open: set<Cell>, ghost root: Cell,
                   ghost Q: seq<Cell>, ghost lab: map<Cell, nat>, ghost f: nat)
    returns (dir: Dir)
    requires MazeHolds(maze, lab)
    requires BfsInv(open, root, Q, lab, f, AllDirs, false, 0) && f < |Q| && Q[f] == (x, y)
    ensures (x, y) in lab && ExactDist(open, root, (x, y), lab[(x, y)])
    ensures dir == NextStep(open, root, (x, y), lab[(x, y)], TerrainHeight)
  {
    LabelTest(open, root, Q, lab, f, Left);
    LabelTest(open, root, Q, lab, f, Right);
    LabelTest(open, root, Q, lab, f, Down);
    LabelTest(open, root, Q, lab, f, Up);
    LabelExact(open, root, Q, lab, f, (x, y), lab[(x, y)]);
    dir := ChooseStep(maze, x, y, open, root, lab);
  }

  /** The order of the source's four expansion blocks. */
  const ExpandOrder: seq<Dir> := [Left, Right, Down, Up]

  /** The order of the four expansion blocks of canReachTunnelman. */
  const ReachOrder: seq<Dir> := [Up, Right, Down, Left]

  /** The directions handled by the first i blocks of an expansion order. */
  ghost function Done(order: seq<Dir>, i: nat): set<Dir>
    requires i <= |order|
  {
    if i == 0 then {} else Done(order, i - 1) + {order[i - 1]}
  }

  /** Both orders visit every direction. */
  lemma OrdersComplete()
    ensures Done(ExpandOrder, |ExpandOrder|) == AllDirs
    ensures Done(ReachOrder, |ReachOrder|) == AllDirs
  {
    assert Done(ExpandOrder, 2) == {Left, Right};
    assert Done(ExpandOrder, 4) == {Left, Right, Down, Up};
    assert Done(ReachOrder, 2) == {Up, Right};
    assert Done(ReachOrder, 4) == {Up, Right, Down, Left};
  }

  /** The search's state after the expansion blocks before i of the
      dequeued cell (x, y); p is not among the dequeued cells. */
  ghost predicate ExpandDone(w: World, root: Cell, maze: array2<int>, qx: array<int>, qy: array<int>,
                             front: nat, back: nat, x: int, y: int, i: nat, p: Cell,
                             open: set<Cell>, Q: seq<Cell>, lab: map<Cell, nat>)
    requires w.Valid()
    reads w`earth, w.earth, w`actors, maze, qx, qy
  {
    && i <= |ExpandOrder| && Agrees(w, open, MazeRows)
    && Mirrors(maze, qx, qy, Q, lab) && back == |Q|
    && 0 < front <= |Q| && Q[front - 1] == (x, y)
    && (forall j | 0 <= j < front :: Q[j] != p)
    && BfsInv(open, root, Q, lab, front, Done(ExpandOrder, i), false, 0)
  }

  /** Expansion block i (of ExpandOrder) of the dequeued cell (x, y). */
  method ExpandBlock(w: World, ghost root: Cell, maze: array2<int>, qx: array<int>, qy: array<int>,
                     front: nat, back: nat, x: int, y: int, i: nat, ghost p: Cell,
                     ghost open: set<Cell>, ghost Q: seq<Cell>, ghost lab: map<Cell, nat>)
    returns (back': nat, ghost Q': seq<Cell>, ghost lab': map<Cell, nat>)
    requires w.Valid() && i < |ExpandOrder|
    requires ExpandDone(w, root, maze, qx, qy, front, back, x, y, i, p, open, Q, lab)
    modifies maze, qx, qy
    ensures ExpandDone(w, root, maze, qx, qy, front, back', x, y, i + 1, p, open, Q', lab')
  {
    var d := ExpandOrder[i];
    assert (x, y) in lab;
    QueueRoom(open, Q, lab, (x, y), d);
    var entered := Expand(w, maze, qx, qy, back, x, y, d, open, Q, lab);
    if entered {
      EnqueueStep(open, root, Q, lab, front, ExpandOrder, i, x, y, false, 0);
      ghost var n := Step((x, y), d);
      Q', lab' := Q + [n], lab[n := lab[(x, y)] + 1];
      back' := back + 1;
      assert forall j | 0 <= j < front :: Q'[j] == Q[j];
    } else {
      SkipStep(open, root, Q, lab, front, ExpandOrder, i, x, y, false, 0);
      Q', lab', back' := Q, lab, back;
    }
  }

  /** The expansion blocks i.. of the dequeued cell (x, y), in the order
      left, right, down, up; p is not among the dequeued cells. */
  method ExpandFrom(w: World, ghost root: Cell, maze: array2<int>, qx: array<int>, qy: array<int>,
                    front: nat, back: nat, x: int, y: int, i: nat, ghost p: Cell,
                    ghost open: set<Cell>, ghost Q: seq<Cell>, ghost lab: map<Cell, nat>)
    returns (back': nat, ghost Q': seq<Cell>, ghost lab': map<Cell, nat>)
    requires w.Valid()
    requires ExpandDone(w, root, maze, qx, qy, front, back, x, y, i, p, open, Q, lab)
    modifies maze, qx, qy
    ensures ExpandDone(w, root, maze, qx, qy, front, back', x, y, |ExpandOrder|, p, open, Q', lab')
    decreases |ExpandOrder| - i
  {
    if i == |ExpandOrder| {
      back', Q', lab' := back, Q, lab;
    } else {
      var b1, Q1, l1 := ExpandBlock(w, root, maze, qx, qy, front, back, x, y, i, p, open, Q, lab);
      back', Q', lab' := ExpandFrom(w, root, maze, qx, qy, front, b1, x, y, i + 1, p, open, Q1, l1);
    }
  }

  /** getPathToExit (root (60,60)) and getPathToTunnelman (root at the
      Tunnelman): a breadth-first search from the root that stops when it
      dequeues the protester's cell p. When p is reachable, k is its distance
      and the result is the path step toward the root; otherwise the result
      is left. */
  method PathStep(w: World, root: Cell, p: Cell) returns (dir: Dir, ghost k: int)
    requires w.Valid() && InAnchorRange(root.0, root.1)
    ensures k >= 0 ==> ExactDist(Open(w, MazeRows), root, p, k) && dir == NextStep(Open(w, MazeRows), root, p, k, TerrainHeight)
    ensures k < 0 ==> dir == Left && forall j: nat :: !Within(Open(w, MazeRows), root, p, j)
  {
    OpenAgrees(w, MazeRows);
    dir, k := Search(w, root, p, Open(w, MazeRows));
  }

  /** The search's arrays before the first dequeue: only the root queued,
      labelled 0. */
  method NewSearch(root: Cell) returns (maze: array2<int>, qx: array<int>, qy: array<int>)
    requires InExtent(root, MazeRows)
    ensures fresh(maze) && fresh(qx) && fresh(qy)
    ensures Mirrors(maze, qx, qy, [root], map[root := 0])
  {
    maze := new int[TerrainWidth, MazeRows]((i, j) => -1);
    qx := new int[QueueSize];
    qy := new int[QueueSize];
    qx[0], qy[0] := root.0, root.1;
    maze[root.0, root.1] := 0;
  }

  /** One turn of the search loop: dequeue the next cell; stop with the path
      step if it is p, otherwise expand it. */
  method SearchStep(w: World, ghost root: Cell, p: Cell, maze: array2<int>, qx: array<int>, qy: array<int>,
                    front: nat, back: nat, ghost open: set<Cell>, ghost Q: seq<Cell>, ghost lab: map<Cell, nat>)
    returns (found: bool, dir: Dir, front': nat, back': nat, ghost Q': seq<Cell>, ghost lab': map<Cell, nat>)
    requires w.Valid() && Agrees(w, open, MazeRows)
    requires Mirrors(maze, qx, qy, Q, lab) && back == |Q| && front < back
    requires BfsInv(open, root, Q, lab, front, AllDirs, false, 0)
    requires forall i | 0 <= i < front :: Q[i] != p
    modifies maze, qx, qy
    ensures found ==> p in lab' && ExactDist(open, root, p, lab'[p]) && dir == NextStep(open, root, p, lab'[p], TerrainHeight)
    ensures !found ==> && Agrees(w, open, MazeRows) && Mirrors(maze, qx, qy, Q', lab')
                       && back' == |Q'| && front' == front + 1 <= back'
                       && BfsInv(open, root, Q', lab', front', AllDirs, false, 0)
                       && forall i | 0 <= i < front' :: Q'[i] != p
  {
    var x, y := qx[front], qy[front];
    assert Q[front] == (x, y);
    front' := front + 1;
    if x == p.0 && y == p.1 {
      found := true;
      dir := FoundStep(maze, x, y, open, root, Q, lab, front);
      back', Q', lab' := back, Q, lab;
      return;
    }
    found, dir := false, Left;
    back', Q', lab' := ExpandCell(w, root, p, maze, qx, qy, front, back, x, y, open, Q, lab);
  }

  /** The expansion half of SearchStep: the dequeued cell (x, y) is not p. */
  method ExpandCell(w: World, ghost root: Cell, ghost p: Cell, maze: array2<int>, qx: array<int>, qy: array<int>,
                    front: nat, back: nat, x: int, y: int, ghost open: set<Cell>, ghost Q: seq<Cell>, ghost lab: map<Cell, nat>)
    returns (back': nat, ghost Q': seq<Cell>, ghost lab': map<Cell, nat>)
    requires w.Valid() && Agrees(w, open, MazeRows)
    requires Mirrors(maze, qx, qy, Q, lab) && back == |Q| && front < back
    requires BfsInv(open, root, Q, lab, front, AllDirs, false, 0)
    requires forall i | 0 <= i < front :: Q[i] != p
    requires Q[front] == (x, y) && (x, y) != p
    modifies maze, qx, qy
    ensures && Agrees(w, open, MazeRows) && Mirrors(maze, qx, qy, Q', lab')
            && back' == |Q'| && front + 1 <= back'
            && BfsInv(open, root, Q', lab', front + 1, AllDirs, false, 0)
            && forall i | 0 <= i < front + 1 :: Q'[i] != p
  {
    DequeueInv(open, root, Q, lab, front, false, 0);
    assert Done(ExpandOrder, 0) == {};
    back', Q', lab' := ExpandFrom(w, root, maze, qx, qy, front + 1, back, x, y, 0, p, open, Q, lab);
    OrdersComplete();
  }

  /** The search of PathStep over the open cells `open` of the world. */
  method Search(w: World, root: Cell, p: Cell, ghost open: set<Cell>) returns (dir: Dir, ghost k: int)
    requires w.Valid() && Agrees(w, open, MazeRows) && InAnchorRange(root.0, root.1)
    ensures k >= 0 ==> ExactDist(open, root, p, k) && dir == NextStep(open, root, p, k, TerrainHeight)
    ensures k < 0 ==> dir == Left && forall j: nat :: !Within(open, root, p, j)
  {
    var maze, qx, qy := NewSearch(root);
    var front, back := 0, 1;
    ghost var Q, lab := [root], map[root := 0];
    InitInv(open, root, AllDirs, false, 0);
    while front < back
      invariant Mirrors(maze, qx, qy, Q, lab) && back == |Q| && front <= back
      invariant BfsInv(open, root, Q, lab, front, AllDirs, false, 0)
      invariant forall i | 0 <= i < front :: Q[i] != p
      invariant Agrees(w, open, MazeRows)
      decreases QueueSize - front
    {
      var found;
      found, dir, front, back, Q, lab := SearchStep(w, root, p, maze, qx, qy, front, back, open, Q, lab);
      if found {
        k := lab[p];
        return;
      }
    }
    dir, k := Left, -1;
    forall j: nat ensures !Within(open, root, p, j) {
      if Within(open, root, p, j) {
        ExhaustedComplete(open, root, Q, lab, false, 0, p, j);
        assert false;
      }
    }
  }

  // ---------------------------------------------------------------- the
  //                                          hardcore protester's reach test

  /** The arrays of canReachTunnelman hold the search state: the queue's
      first |Q| entries are Q with their labels as step counts, and `visited`
      marks exactly the labelled cells. */
  ghost predicate Tracks(visited: array2<bool>, rx: array<int>, ry: array<int>, rs: array<int>,
                         Q: seq<Cell>, lab: map<Cell, nat>)
    reads visited, rx, ry, rs
  {
    && rx.Length == QueueSize && ry.Length == QueueSize && rs.Length == QueueSize
    && rx != ry && rx != rs && ry != rs
    && |Q| <= QueueSize
    && (forall i {:trigger rx[i]} {:trigger ry[i]} {:trigger rs[i]} | 0 <= i < |Q| ::
          rx[i] == Q[i].0 && ry[i] == Q[i].1 && Q[i] in lab && rs[i] == lab[Q[i]])
    && visited.Length0 == TerrainWidth && visited.Length1 == MazeRows
    && (forall c | c in lab :: InExtent(c, MazeRows))
    && (forall x, y {:trigger visited[x, y]} | 0 <= x < TerrainWidth && 0 <= y < MazeRows ::
          visited[x, y] == ((x, y) in lab))
  }

  /** The source's test before entering direction d (inside the 64 x 60
      terrain, not visited, not blocked) is the search's move test over the
      open cells of the terrain. */
  lemma ReachTest(w: World, open: set<Cell>, lab: map<Cell, nat>, p: Cell, d: Dir)
    requires w.Valid() && Agrees(w, open, TerrainHeight) && InExtent(p, MazeRows)
    ensures var n := Step(p, d);
            InTerrain(n.0, n.1) ==> InExtent(n, MazeRows)
    ensures var n := Step(p, d);
            (InTerrain(n.0, n.1) && n !in lab && !w.IsBlocked(n.0, n.1)) <==> Enters(open, lab, p, d)
  {
    var n := Step(p, d);
    if InTerrain(n.0, n.1) {
      assert (n.0, n.1) in open <==> !w.IsBlocked(n.0, n.1);
    } else {
      assert !InExtent(n, TerrainHeight);
    }
  }

  /** The arrays of a reach test before the first dequeue. */
  method NewReach(s: Cell) returns (visited: array2<bool>, rx: array<int>, ry: array<int>, rs: array<int>)
    requires InExtent(s, MazeRows)
    ensures fresh(visited) && fresh(rx) && fresh(ry) && fresh(rs)
    ensures Tracks(visited, rx, ry, rs, [s], map[s := 0])
  {
    visited := new bool[TerrainWidth, MazeRows]((i, j) => false);
    rx := new int[QueueSize];
    ry := new int[QueueSize];
    rs := new int[QueueSize];
    rx[0], ry[0], rs[0] := s.0, s.1, 0;
    visited[s.0, s.1] := true;
  }

  /** Marks the unvisited cell (nx, ny) and appends it with step count v. */
  method Record(visited: array2<bool>, rx: array<int>, ry: array<int>, rs: array<int>, back: nat,
                nx: int, ny: int, v: nat, ghost Q: seq<Cell>, ghost lab: map<Cell, nat>)
    requires Tracks(visited, rx, ry, rs, Q, lab) && back == |Q| < QueueSize
    requires InExtent((nx, ny), MazeRows) && (nx, ny) !in lab
    modifies visited, rx, ry, rs
    ensures Tracks(visited, rx, ry, rs, Q + [(nx, ny)], lab[(nx, ny) := v])
  {
    ghost var Q', lab' := Q + [(nx, ny)], lab[(nx, ny) := v];
    forall i | 0 <= i < |Q|
      ensures Q'[i] == Q[i] && Q[i] in lab && lab'[Q[i]] == lab[Q[i]]
    {
      assert rx[i] == Q[i].0;
    }
    rx[back], ry[back], rs[back] := nx, ny, v;
    visited[nx, ny] := true;
  }

  /** The source's enqueue test of canReachTunnelman for direction d. */
  method Enterable(w: World, visited: array2<bool>, x: int, y: int, d: Dir,
                   ghost open: set<Cell>, ghost Q: seq<Cell>, ghost lab: map<Cell, nat>,
                   ghost rx: array<int>, ghost ry: array<int>, ghost rs: array<int>)
    returns (ok: bool)
    requires w.Valid() && Agrees(w, open, TerrainHeight)
    requires Tracks(visited, rx, ry, rs, Q, lab) && InExtent((x, y), MazeRows)
    ensures ok == Enters(open, lab, (x, y), d)
    ensures ok ==> InExtent(Step((x, y), d), MazeRows)
  {
    var nx, ny := x + DeltaX(d), y + DeltaY(d);
    ReachTest(w, open, lab, (x, y), d);
    ok := 0 <= nx < TerrainWidth && 0 <= ny < TerrainHeight && !visited[nx, ny] && !w.IsBlocked(nx, ny);
  }

  /** The Tunnelman found one step past a cell fewer than M moves out is
      within M moves. */
  lemma ReachHit(open: set<Cell>, root: Cell, Q: seq<Cell>, lab: map<Cell, nat>, front: nat, i: nat,
                 x: int, y: int, steps: int, M: nat, t: Cell)
    requires i < |ReachOrder| && BfsInv(open, root, Q, lab, front, Done(ReachOrder, i), true, M)
    requires 0 < front <= |Q| && Q[front - 1] == (x, y) && (x, y) in lab && steps == lab[(x, y)] < M
    requires Enters(open, lab, (x, y), ReachOrder[i]) && Step((x, y), ReachOrder[i]) == t
    ensures Within(open, root, t, M)
  {
    EnqueueStep(open, root, Q, lab, front, ReachOrder, i, x, y, true, M);
    WithinStep(open, root, (x, y), ReachOrder[i], steps);
    WithinMono(open, root, t, steps + 1, M);
  }

  /** The reach test's state after the blocks before i of the dequeued
      cell (x, y), steps moves out, with the Tunnelman not yet found. */
  ghost predicate BlockDone(w: World, t: Cell, visited: array2<bool>, rx: array<int>, ry: array<int>, rs: array<int>,
                            front: nat, back: nat, x: int, y: int, steps: int, i: nat, M: nat,
                            open: set<Cell>, root: Cell, Q: seq<Cell>, lab: map<Cell, nat>)
    requires w.Valid()
    reads w`earth, w.earth, w`actors, visited, rx, ry, rs
  {
    && i <= |ReachOrder| && Agrees(w, open, TerrainHeight) && Tracks(visited, rx, ry, rs, Q, lab)
    && back == |Q| && 0 < front <= |Q| && Q[front - 1] == (x, y) && t !in lab
    && (x, y) in lab && lab[(x, y)] == steps
    && BfsInv(open, root, Q, lab, front, Done(ReachOrder, i), true, M)
  }

  /** Block i (of ReachOrder) of the dequeued cell (x, y), which is steps < M
      moves from the start: an enterable neighbour that is the Tunnelman ends
      the test, any other is marked and appended one step further. */
  method ReachBlock(w: World, t: Cell, visited: array2<bool>, rx: array<int>, ry: array<int>, rs: array<int>,
                    front: nat, back: nat, x: int, y: int, steps: int, i: nat, ghost M: nat,
                    ghost open: set<Cell>, ghost root: Cell, ghost Q: seq<Cell>, ghost lab: map<Cell, nat>)
    returns (hit: bool, back': nat, ghost Q': seq<Cell>, ghost lab': map<Cell, nat>)
    requires w.Valid() && visited != w.earth && i < |ReachOrder| && steps < M
    requires BlockDone(w, t, visited, rx, ry, rs, front, back, x, y, steps, i, M, open, root, Q, lab)
    modifies visited, rx, ry, rs
    ensures hit ==> Within(open, root, t, M)
    ensures !hit ==> BlockDone(w, t, visited, rx, ry, rs, front, back', x, y, steps, i + 1, M, open, root, Q', lab')
  {
    var d := ReachOrder[i];
    var nx, ny := x + DeltaX(d), y + DeltaY(d);
    QueueRoom(open, Q, lab, (x, y), d);
    hit, back', Q', lab' := false, back, Q, lab;
    var ok := Enterable(w, visited, x, y, d, open, Q, lab, rx, ry, rs);
    if ok {
      if nx == t.0 && ny == t.1 {
        ReachHit(open, root, Q, lab, front, i, x, y, steps, M, t);
        hit := true;
        return;
      }
      back', Q', lab' := ReachEnqueue(w, t, visited, rx, ry, rs, front, back, x, y, steps, i, M, open, root, Q, lab);
    } else {
      SkipStep(open, root, Q, lab, front, ReachOrder, i, x, y, true, M);
    }
  }

  /** The enqueue half of ReachBlock: the neighbour in direction ReachOrder[i]
      is enterable and is not the Tunnelman. */
  method ReachEnqueue(w: World, t: Cell, visited: array2<bool>, rx: array<int>, ry: array<int>, rs: array<int>,
                      front: nat, back: nat, x: int, y: int, steps: int, i: nat, ghost M: nat,
                      ghost open: set<Cell>, ghost root: Cell, ghost Q: seq<Cell>, ghost lab: map<Cell, nat>)
    returns (back': nat, ghost Q': seq<Cell>, ghost lab': map<Cell, nat>)
    requires w.Valid() && Agrees(w, open, TerrainHeight) && visited != w.earth
    requires Tracks(visited, rx, ry, rs, Q, lab) && back == |Q|
    requires i < |ReachOrder| && BfsInv(open, root, Q, lab, front, Done(ReachOrder, i), true, M)
    requires 0 < front <= |Q| && Q[front - 1] == (x, y) && (x, y) in lab && steps == lab[(x, y)] < M
    requires Enters(open, lab, (x, y), ReachOrder[i]) && InExtent(Step((x, y), ReachOrder[i]), MazeRows)
    requires |Q| < QueueSize && t !in lab && Step((x, y), ReachOrder[i]) != t
    modifies visited, rx, ry, rs
    ensures BlockDone(w, t, visited, rx, ry, rs, front, back', x, y, steps, i + 1, M, open, root, Q', lab')
  {
    var d := ReachOrder[i];
    var nx, ny := x + DeltaX(d), y + DeltaY(d);
    ghost var n := Step((x, y), d);
    assert n == (nx, ny) && lab[(x, y)] + 1 == steps + 1;
    Record(visited, rx, ry, rs, back, nx, ny, steps + 1, Q, lab);
    EnqueueStep(open, root, Q, lab, front, ReachOrder, i, x, y, true, M);
    Q', lab' := Q + [n], lab[n := steps + 1];
    back' := back + 1;
    assert Q'[front - 1] == Q[front - 1];
  }

  /** Blocks i.. of the dequeued cell (x, y), in the order up, right, down,
      left. */
  method ReachFrom(w: World, t: Cell, visited: array2<bool>, rx: array<int>, ry: array<int>, rs: array<int>,
                   front: nat, back: nat, x: int, y: int, steps: int, i: nat, ghost M: nat,
                   ghost open: set<Cell>, ghost root: Cell, ghost Q: seq<Cell>, ghost lab: map<Cell, nat>)
    returns (hit: bool, back': nat, ghost Q': seq<Cell>, ghost lab': map<Cell, nat>)
    requires w.Valid() && visited != w.earth && steps < M
    requires BlockDone(w, t, visited, rx, ry, rs, front, back, x, y, steps, i, M, open, root, Q, lab)
    modifies visited, rx, ry, rs
    ensures hit ==> Within(open, root, t, M)
    ensures !hit ==> && Agrees(w, open, TerrainHeight) && Tracks(visited, rx, ry, rs, Q', lab')
                     && back' == |Q'| && front <= |Q'| && t !in lab'
                     && BfsInv(open, root, Q', lab', front, AllDirs, true, M)
    decreases |ReachOrder| - i
  {
    if i == |ReachOrder| {
      OrdersComplete();
      hit, back', Q', lab' := false, back, Q, lab;
      return;
    }
    var b1;
    ghost var Q1, l1;
    hit, b1, Q1, l1 := ReachBlock(w, t, visited, rx, ry, rs, front, back, x, y, steps, i, M, open, root, Q, lab);
    if hit {
      back', Q', lab' := back, Q, lab;
      return;
    }
    hit, back', Q', lab' := ReachFrom(w, t, visited, rx, ry, rs, front, b1, x, y, steps, i + 1, M, open, root, Q1, l1);
  }

  /** One turn of the reach test's loop: dequeue the next cell; a cell M or
      more steps out is skipped, any other is expanded. */
  method ReachStep(w: World, t: Cell, visited: array2<bool>, rx: array<int>, ry: array<int>, rs: array<int>,
                   front: nat, back: nat, M: nat,
                   ghost open: set<Cell>, ghost root: Cell, ghost Q: seq<Cell>, ghost lab: map<Cell, nat>)
    returns (hit: bool, front': nat, back': nat, ghost Q': seq<Cell>, ghost lab': map<Cell, nat>)
    requires w.Valid() && Agrees(w, open, TerrainHeight) && visited != w.earth
    requires Tracks(visited, rx, ry, rs, Q, lab) && back == |Q| && front < back
    requires BfsInv(open, root, Q, lab, front, AllDirs, true, M)
    requires t !in lab
    modifies visited, rx, ry, rs
    ensures hit ==> Within(open, root, t, M)
    ensures !hit ==> && Agrees(w, open, TerrainHeight) && Tracks(visited, rx, ry, rs, Q', lab')
                     && back' == |Q'| && front' == front + 1 <= back' && t !in lab'
                     && BfsInv(open, root, Q', lab', front', AllDirs, true, M)
  {
    var x, y, steps := rx[front], ry[front], rs[front];
    assert Q[front] == (x, y) && steps == lab[(x, y)];
    front' := front + 1;
    DequeueInv(open, root, Q, lab, front, true, M);
    if steps >= M {
      BudgetSpentInv(open, root, Q, lab, front', M);
      hit, back', Q', lab' := false, back, Q, lab;
      return;
    }
    hit, back', Q', lab' := ReachFrom(w, t, visited, rx, ry, rs, front', back, x, y, steps, 0, M, open, root, Q, lab);
  }

  /** The breadth-first part of canReachTunnelman from s: whether the
      Tunnelman's cell t is at most M moves away through open cells. */
  method Reach(w: World, s: Cell, t: Cell, M: nat, ghost open: set<Cell>) returns (r: bool)
    requires w.Valid() && Agrees(w, open, TerrainHeight) && InExtent(s, MazeRows) && t != s
    ensures r == Within(open, s, t, M)
  {
    var visited, rx, ry, rs := NewReach(s);
    var front, back := 0, 1;
    ghost var Q, lab := [s], map[s := 0];
    InitInv(open, s, AllDirs, true, M);
    while front < back
      invariant Tracks(visited, rx, ry, rs, Q, lab) && back == |Q| && front <= back
      invariant BfsInv(open, s, Q, lab, front, AllDirs, true, M)
      invariant t !in lab
      invariant Agrees(w, open, TerrainHeight) && visited != w.earth
      decreases QueueSize - front
    {
      var hit;
      hit, front, back, Q, lab := ReachStep(w, t, visited, rx, ry, rs, front, back, M, open, s, Q, lab);
      if hit {
        return true;
      }
    }
    r := false;
    if Within(open, s, t, M) {
      ExhaustedComplete(open, s, Q, lab, true, M, t, M);
      assert false;
    }
  }

  /** t is within reach M of s: within radius M, or at most M search moves
      away over the open terrain cells. */
  ghost predicate InReach(w: World, s: Cell, t: Cell, M: nat)
    requires w.Valid()
    reads w`earth, w.earth, w`actors
  {
    InReachAmong(w, w.actors, s, t, M)
  }

  /** InReach with the boulders of the actor list `actors`. */
  ghost predicate InReachAmong(w: World, actors: seq<Actor>, s: Cell, t: Cell, M: nat)
    requires w.Valid()
    reads w`earth, w.earth
  {
    WithinRadius(s.0, s.1, t.0, t.1, M) || Within(OpenAmong(w, actors, TerrainHeight), s, t, M)
  }

  /** canReachTunnelman(M) (Actor.cpp:718-770): true when the Tunnelman is
      within distance M in a straight line, or at most M moves away through
      cells of the 64 x 60 terrain that are free of earth and boulders. */
  method CanReachTunnelman(w: World, s: Cell, t: Cell, M: nat) returns (r: bool)
    requires w.Valid() && InExtent(s, MazeRows)
    ensures r == InReach(w, s, t, M)
  {
    if WithinRadius(s.0, s.1, t.0, t.1, M) {
      return true;
    }
    OpenAgrees(w, TerrainHeight);
    r := Reach(w, s, t, M, Open(w, TerrainHeight));
  }
}
