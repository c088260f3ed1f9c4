/** The meaning of the protesters' breadth-first searches (Actor.cpp:718-929).

    A search starts at a root cell and moves one cell left, right, down or up
    into an open cell (in the search's extent and not blocked by earth or a
    boulder footprint). Neither search ever moves upward into row 60: the path
    searches test y < 59 before looking up, and the reachability search opens
    only rows below 60. `Within(open, root, c, k)` says that c can be reached
    from root in at most k such moves.

    The searches keep a queue Q of discovered cells and a label per discovered
    cell (the maze value, or the step count stored beside the queue entry).
    `BfsInv` is the invariant both searches keep; the lemmas below prove that
    it makes every label the exact distance from the root, and that the queue
    holds each cell at most once and so never outgrows the extent. */
module Paths {
  import opened Geometry

  type Cell = (int, int)

  function Step(c: Cell, d: Dir): Cell { (c.0 + DeltaX(d), c.1 + DeltaY(d)) }

  function Back(c: Cell, d: Dir): Cell { (c.0 - DeltaX(d), c.1 - DeltaY(d)) }

  const AllDirs: set<Dir> := {Up, Down, Left, Right}

  /** A search at p may move in direction d. */
  predicate CanEnter(open: set<Cell>, p: Cell, d: Dir) {
    Step(p, d) in open && (d == Up ==> p.1 + 1 < TerrainHeight)
  }

  /** c is reachable from root in at most k moves. */
  ghost predicate Within(open: set<Cell>, root: Cell, c: Cell, k: nat)
    decreases k
  {
    c == root ||
    (k > 0 && exists d: Dir :: CanEnter(open, Back(c, d), d) && Within(open, root, Back(c, d), k - 1))
  }

  /** c is exactly k moves from root. */
  ghost predicate ExactDist(open: set<Cell>, root: Cell, c: Cell, k: nat) {
    Within(open, root, c, k) && (k == 0 || !Within(open, root, c, k - 1))
  }

  lemma {:induction false} WithinMono(open: set<Cell>, root: Cell, c: Cell, k: nat, j: nat)
    requires Within(open, root, c, k) && k <= j
    ensures Within(open, root, c, j)
    decreases k
  {
    if c != root {
      var d :| CanEnter(open, Back(c, d), d) && Within(open, root, Back(c, d), k - 1);
      WithinMono(open, root, Back(c, d), k - 1, j - 1);
    }
  }

  lemma WithinStep(open: set<Cell>, root: Cell, p: Cell, d: Dir, k: nat)
    requires Within(open, root, p, k) && CanEnter(open, p, d)
    ensures Within(open, root, Step(p, d), k + 1)
  {
    var c := Step(p, d);
    assert Back(c, d) == p;
  }

  /** From a root below row 60, no search ever reaches row 60. */
  lemma {:induction false} WithinBelowTop(open: set<Cell>, root: Cell, c: Cell, k: nat)
    requires root.1 < TerrainHeight && Within(open, root, c, k)
    ensures c.1 < TerrainHeight
    decreases k
  {
    if c != root {
      var d :| CanEnter(open, Back(c, d), d) && Within(open, root, Back(c, d), k - 1);
      WithinBelowTop(open, root, Back(c, d), k - 1);
    }
  }

  // ------------------------------------------------------------ invariant

  /** The root heads the queue; Q[..front] are the dequeued cells. */
  ghost predicate Shape(root: Cell, Q: seq<Cell>, front: nat) {
    |Q| >= 1 && Q[0] == root && front <= |Q| && (front == 0 ==> |Q| == 1)
  }

  ghost predicate Distinct(Q: seq<Cell>) {
    forall i, j | 0 <= i < j < |Q| :: Q[i] != Q[j]
  }

  /** The labelled cells are exactly the queued ones. */
  ghost predicate Labelled(Q: seq<Cell>, lab: map<Cell, nat>) {
    (forall i | 0 <= i < |Q| :: Q[i] in lab) && (forall c | c in lab :: c in Q)
  }

  /** Labels never decrease along the queue. */
  ghost predicate Ordered(Q: seq<Cell>, lab: map<Cell, nat>) {
    forall i, j | 0 <= i <= j < |Q| && Q[i] in lab && Q[j] in lab :: lab[Q[i]] <= lab[Q[j]]
  }

  /** The last queued cell is at most one further than the last dequeued one. */
  ghost predicate Spread(Q: seq<Cell>, lab: map<Cell, nat>, front: nat) {
    0 < front <= |Q| && Q[|Q| - 1] in lab && Q[front - 1] in lab ==>
      lab[Q[|Q| - 1]] <= lab[Q[front - 1]] + 1
  }

  /** Every label is a reachable distance: the root has 0, the others are open
      cells reachable within their label. */
  ghost predicate Sound(open: set<Cell>, root: Cell, lab: map<Cell, nat>) {
    && root in lab && lab[root] == 0
    && (forall c | c in lab && c != root :: c in open)
    && (forall c | c in lab :: Within(open, root, c, lab[c]))
  }

  /** Expanding p in direction d is finished: if the search may move there,
      the neighbour is labelled at most one further than p. */
  ghost predicate NeighbourDone(open: set<Cell>, lab: map<Cell, nat>, p: Cell, d: Dir)
    requires p in lab
  {
    CanEnter(open, p, d) ==> Step(p, d) in lab && lab[Step(p, d)] <= lab[p] + 1
  }

  /** p is labelled and, in a search with a step budget, labelled below it. */
  ghost predicate Expands(lab: map<Cell, nat>, p: Cell, bounded: bool, budget: int) {
    p in lab && (!bounded || lab[p] < budget)
  }

  /** Every dequeued cell has been expanded (the last one in the directions of
      `done`). A search with a step budget (`bounded`) expands only cells
      labelled below `budget`. */
  ghost predicate Closed(open: set<Cell>, Q: seq<Cell>, lab: map<Cell, nat>,
                         front: nat, done: set<Dir>, bounded: bool, budget: int)
  {
    forall i, d {:trigger NeighbourDone(open, lab, Q[i], d)}
      | 0 <= i < front && i < |Q| && (i < front - 1 || d in done) && Expands(lab, Q[i], bounded, budget)
      :: NeighbourDone(open, lab, Q[i], d)
  }

  /** The invariant both searches keep. */
  ghost predicate BfsInv(open: set<Cell>, root: Cell, Q: seq<Cell>, lab: map<Cell, nat>,
                         front: nat, done: set<Dir>, bounded: bool, budget: int)
  {
    && Shape(root, Q, front) && Distinct(Q) && Labelled(Q, lab) && Ordered(Q, lab)
    && Spread(Q, lab, front) && Sound(open, root, lab)
    && Closed(open, Q, lab, front, done, bounded, budget)
  }

  lemma AllDirsFull(d: Dir)
    ensures d in AllDirs
  {
  }

  /** Before the first dequeue: only the root, labelled 0. */
  lemma InitInv(open: set<Cell>, root: Cell, done: set<Dir>, bounded: bool, budget: int)
    ensures BfsInv(open, root, [root], map[root := 0], 0, done, bounded, budget)
  {
  }

  /** Dequeueing the next cell: the previous one is fully expanded. */
  lemma DequeueInv(open: set<Cell>, root: Cell, Q: seq<Cell>, lab: map<Cell, nat>,
                   front: nat, bounded: bool, budget: int)
    requires BfsInv(open, root, Q, lab, front, AllDirs, bounded, budget)
    requires front < |Q|
    ensures BfsInv(open, root, Q, lab, front + 1, {}, bounded, budget)
  {
    DequeueSpread(root, Q, lab, front);
    DequeueClosed(open, Q, lab, front, bounded, budget);
  }

  lemma DequeueSpread(root: Cell, Q: seq<Cell>, lab: map<Cell, nat>, front: nat)
    requires Shape(root, Q, front) && Labelled(Q, lab) && Ordered(Q, lab) && Spread(Q, lab, front)
    requires front < |Q|
    ensures Spread(Q, lab, front + 1)
  {
    if front > 0 {
      assert Q[front - 1] in lab && Q[front] in lab;
      assert lab[Q[front - 1]] <= lab[Q[front]];
    }
  }

  lemma DequeueClosed(open: set<Cell>, Q: seq<Cell>, lab: map<Cell, nat>,
                      front: nat, bounded: bool, budget: int)
    requires Closed(open, Q, lab, front, AllDirs, bounded, budget)
    ensures Closed(open, Q, lab, front + 1, {}, bounded, budget)
  {
    forall i, d | 0 <= i < front + 1 && i < |Q| && (i < front || d in {}) && Expands(lab, Q[i], bounded, budget)
      ensures NeighbourDone(open, lab, Q[i], d)
    {
      AllDirsFull(d);
    }
  }

  /** A cell whose label is at the budget is not expanded: it counts as done. */
  lemma BudgetSpentInv(open: set<Cell>, root: Cell, Q: seq<Cell>, lab: map<Cell, nat>,
                       front: nat, budget: int)
    requires BfsInv(open, root, Q, lab, front, {}, true, budget)
    requires front > 0 && Q[front - 1] in lab && lab[Q[front - 1]] >= budget
    ensures BfsInv(open, root, Q, lab, front, AllDirs, true, budget)
  {
    forall i, d | 0 <= i < front && i < |Q| && (i < front - 1 || d in AllDirs) && Expands(lab, Q[i], true, budget)
      ensures NeighbourDone(open, lab, Q[i], d)
    {
      assert i < front - 1;
    }
  }

  /** Expanding the last dequeued cell p in direction d, when the neighbour is
      open and not yet labelled: label it lab[p]+1 and append it. */
  lemma EnqueueInv(open: set<Cell>, root: Cell, Q: seq<Cell>, lab: map<Cell, nat>,
                   front: nat, done: set<Dir>, bounded: bool, budget: int, d: Dir)
    requires BfsInv(open, root, Q, lab, front, done, bounded, budget)
    requires front > 0 && CanEnter(open, Q[front - 1], d) && Step(Q[front - 1], d) !in lab
    ensures Q[front - 1] in lab
    ensures var p := Q[front - 1]; var n := Step(p, d);
            BfsInv(open, root, Q + [n], lab[n := lab[p] + 1], front, done + {d}, bounded, budget)
  {
    var p := Q[front - 1];
    var n := Step(p, d);
    assert p in lab;
    EnqueueShape(root, Q, lab, front, n);
    EnqueueOrdered(Q, lab, front, n);
    EnqueueSound(open, root, lab, p, d);
    EnqueueClosed(open, Q, lab, front, done, bounded, budget, d);
  }

  lemma EnqueueShape(root: Cell, Q: seq<Cell>, lab: map<Cell, nat>, front: nat, n: Cell)
    requires Shape(root, Q, front) && Distinct(Q) && Labelled(Q, lab)
    requires front > 0 && n !in lab && Q[front - 1] in lab
    ensures Shape(root, Q + [n], front) && Distinct(Q + [n])
    ensures Labelled(Q + [n], lab[n := lab[Q[front - 1]] + 1])
  {
    var Q', lab' := Q + [n], lab[n := lab[Q[front - 1]] + 1];
    forall c | c in lab' ensures c in Q' {
      if c != n {
        var k :| 0 <= k < |Q| && Q[k] == c;
        assert Q'[k] == c;
      }
    }
  }

  lemma EnqueueOrdered(Q: seq<Cell>, lab: map<Cell, nat>, front: nat, n: Cell)
    requires Labelled(Q, lab) && Ordered(Q, lab) && Spread(Q, lab, front)
    requires 0 < front <= |Q| && n !in lab
    ensures Q[front - 1] in lab
    ensures Ordered(Q + [n], lab[n := lab[Q[front - 1]] + 1])
    ensures Spread(Q + [n], lab[n := lab[Q[front - 1]] + 1], front)
  {
    var v := lab[Q[front - 1]] + 1;
    var Q', lab' := Q + [n], lab[n := v];
    forall i | 0 <= i < |Q| ensures Q'[i] in lab' && lab'[Q'[i]] == lab[Q[i]] <= v {
      assert Q[i] in lab && Q[i] != n;
      assert lab[Q[i]] <= lab[Q[|Q| - 1]];
    }
    assert lab'[Q'[|Q|]] == v;
  }

  lemma EnqueueSound(open: set<Cell>, root: Cell, lab: map<Cell, nat>, p: Cell, d: Dir)
    requires Sound(open, root, lab) && p in lab
    requires CanEnter(open, p, d) && Step(p, d) !in lab
    ensures Sound(open, root, lab[Step(p, d) := lab[p] + 1])
  {
    WithinStep(open, root, p, d, lab[p]);
  }

  lemma EnqueueClosed(open: set<Cell>, Q: seq<Cell>, lab: map<Cell, nat>,
                      front: nat, done: set<Dir>, bounded: bool, budget: int, d: Dir)
    requires Closed(open, Q, lab, front, done, bounded, budget) && Labelled(Q, lab)
    requires 0 < front <= |Q| && Step(Q[front - 1], d) !in lab
    ensures Q[front - 1] in lab
    ensures var n := Step(Q[front - 1], d);
            Closed(open, Q + [n], lab[n := lab[Q[front - 1]] + 1], front, done + {d}, bounded, budget)
  {
    var n := Step(Q[front - 1], d);
    var Q', lab' := Q + [n], lab[n := lab[Q[front - 1]] + 1];
    forall i, e {:trigger NeighbourDone(open, lab', Q'[i], e)}
      | 0 <= i < front && i < |Q'| && (i < front - 1 || e in done + {d}) && Expands(lab', Q'[i], bounded, budget)
      ensures NeighbourDone(open, lab', Q'[i], e)
    {
      assert Q'[i] == Q[i] && Q[i] in lab && Q[i] != n;
      assert lab'[Q'[i]] == lab[Q[i]];
      if i < front - 1 || e in done {
        assert NeighbourDone(open, lab, Q[i], e);
        if CanEnter(open, Q[i], e) {
          assert Step(Q[i], e) != n;
        }
      } else {
        assert e == d && i == front - 1;
      }
    }
  }

  /** Expanding p in direction d when the neighbour is closed or already
      labelled changes nothing; a labelled neighbour is at most one further. */
  lemma SkipInv(open: set<Cell>, root: Cell, Q: seq<Cell>, lab: map<Cell, nat>,
                front: nat, done: set<Dir>, bounded: bool, budget: int, d: Dir)
    requires BfsInv(open, root, Q, lab, front, done, bounded, budget)
    requires front > 0 && (!CanEnter(open, Q[front - 1], d) || Step(Q[front - 1], d) in lab)
    ensures BfsInv(open, root, Q, lab, front, done + {d}, bounded, budget)
  {
    SkipClosed(open, Q, lab, front, done, bounded, budget, d);
  }

  lemma SkipClosed(open: set<Cell>, Q: seq<Cell>, lab: map<Cell, nat>,
                   front: nat, done: set<Dir>, bounded: bool, budget: int, d: Dir)
    requires Closed(open, Q, lab, front, done, bounded, budget)
    requires Labelled(Q, lab) && Ordered(Q, lab) && Spread(Q, lab, front)
    requires 0 < front <= |Q| && (!CanEnter(open, Q[front - 1], d) || Step(Q[front - 1], d) in lab)
    ensures Closed(open, Q, lab, front, done + {d}, bounded, budget)
  {
    var p := Q[front - 1];
    forall i, e | 0 <= i < front && i < |Q| && (i < front - 1 || e in done + {d}) && Expands(lab, Q[i], bounded, budget)
      ensures NeighbourDone(open, lab, Q[i], e)
    {
      if i < front - 1 || e in done {
        assert NeighbourDone(open, lab, Q[i], e);
      } else if CanEnter(open, p, d) {
        var n := Step(p, d);
        var k :| 0 <= k < |Q| && Q[k] == n;
        assert Q[|Q| - 1] in lab && p in lab;
        assert lab[Q[k]] <= lab[Q[|Q| - 1]];
      }
    }
  }

  // --------------------------------------------------------- consequences

  /** Every cell within k moves, for k no larger than the label at the queue
      front (or any k once the queue is exhausted) and within the budget, has
      been labelled with at most k. */
  lemma {:induction false} Complete(open: set<Cell>, root: Cell, Q: seq<Cell>, lab: map<Cell, nat>,
                                    front: nat, bounded: bool, budget: int, c: Cell, k: nat)
    requires BfsInv(open, root, Q, lab, front, AllDirs, bounded, budget)
    requires Within(open, root, c, k)
    requires front == |Q| || k <= lab[Q[front]]
    requires bounded ==> k <= budget
    ensures c in lab && lab[c] <= k
    decreases k
  {
    if c != root {
      var d :| CanEnter(open, Back(c, d), d) && Within(open, root, Back(c, d), k - 1);
      var p := Back(c, d);
      Complete(open, root, Q, lab, front, bounded, budget, p, k - 1);
      assert p in Q;
      var i :| 0 <= i < |Q| && Q[i] == p;
      assert Step(p, d) == c;
      assert NeighbourDone(open, lab, Q[i], d);
    }
  }

  /** No search-reachable cell is missing once the queue is exhausted. */
  lemma ExhaustedComplete(open: set<Cell>, root: Cell, Q: seq<Cell>, lab: map<Cell, nat>,
                          bounded: bool, budget: int, c: Cell, k: nat)
    requires BfsInv(open, root, Q, lab, |Q|, AllDirs, bounded, budget)
    requires Within(open, root, c, k) && (bounded ==> k <= budget)
    ensures c in lab
  {
    Complete(open, root, Q, lab, |Q|, bounded, budget, c, k);
  }

  /** While cells labelled k are being dequeued, a cell is labelled j <= k
      exactly when it is exactly j moves from the root. */
  lemma LabelExact(open: set<Cell>, root: Cell, Q: seq<Cell>, lab: map<Cell, nat>,
                   front: nat, c: Cell, j: nat)
    requires BfsInv(open, root, Q, lab, front, AllDirs, false, 0)
    requires front < |Q| && j <= lab[Q[front]]
    ensures (c in lab && lab[c] == j) <==> ExactDist(open, root, c, j)
  {
    if c in lab && lab[c] == j {
      LabelIsExact(open, root, Q, lab, front, c);
    }
    if ExactDist(open, root, c, j) {
      ExactIsLabel(open, root, Q, lab, front, c, j);
    }
  }

  lemma LabelIsExact(open: set<Cell>, root: Cell, Q: seq<Cell>, lab: map<Cell, nat>,
                     front: nat, c: Cell)
    requires BfsInv(open, root, Q, lab, front, AllDirs, false, 0)
    requires front < |Q| && c in lab && lab[c] <= lab[Q[front]]
    ensures ExactDist(open, root, c, lab[c])
  {
    assert Sound(open, root, lab);
    if lab[c] > 0 && Within(open, root, c, lab[c] - 1) {
      Complete(open, root, Q, lab, front, false, 0, c, lab[c] - 1);
    }
  }

  lemma ExactIsLabel(open: set<Cell>, root: Cell, Q: seq<Cell>, lab: map<Cell, nat>,
                     front: nat, c: Cell, j: nat)
    requires BfsInv(open, root, Q, lab, front, AllDirs, false, 0)
    requires front < |Q| && j <= lab[Q[front]] && ExactDist(open, root, c, j)
    ensures c in lab && lab[c] == j
  {
    Complete(open, root, Q, lab, front, false, 0, c, j);
    assert Sound(open, root, lab);
    if lab[c] < j {
      WithinMono(open, root, c, lab[c], j - 1);
    }
  }

  // -------------------------------------------------------- queue bounds

  /** Cells of the search extent: columns 0..63, rows 0..rows-1. */
  predicate InExtent(c: Cell, rows: int) {
    0 <= c.0 < TerrainWidth && 0 <= c.1 < rows
  }

  function CellIndex(c: Cell): int { c.1 * TerrainWidth + c.0 }

  function IndexSet(Q: seq<Cell>): set<int>
    decreases |Q|
  {
    if Q == [] then {} else IndexSet(Q[..|Q| - 1]) + {CellIndex(Q[|Q| - 1])}
  }

  /** Distinct cells of the extent have distinct indices below 64*rows. */
  lemma IndexInjective(a: Cell, b: Cell, rows: int)
    requires InExtent(a, rows) && InExtent(b, rows)
    ensures 0 <= CellIndex(a) < TerrainWidth * rows
    ensures a != b ==> CellIndex(a) != CellIndex(b)
  {
    if a.1 < b.1 {
      assert CellIndex(a) < (a.1 + 1) * TerrainWidth <= CellIndex(b);
    } else if b.1 < a.1 {
      assert CellIndex(b) < (b.1 + 1) * TerrainWidth <= CellIndex(a);
    }
    assert CellIndex(a) < (rows - 1) * TerrainWidth + TerrainWidth;
  }

  lemma {:induction false} IndexNotIn(Q: seq<Cell>, c: Cell, rows: int)
    requires forall i | 0 <= i < |Q| :: InExtent(Q[i], rows)
    requires InExtent(c, rows) && c !in Q
    ensures CellIndex(c) !in IndexSet(Q)
    decreases |Q|
  {
    if Q != [] {
      IndexNotIn(Q[..|Q| - 1], c, rows);
      IndexInjective(Q[|Q| - 1], c, rows);
    }
  }

  lemma {:induction false} IndexSetFacts(Q: seq<Cell>, rows: int)
    requires forall i, j | 0 <= i < j < |Q| :: Q[i] != Q[j]
    requires forall i | 0 <= i < |Q| :: InExtent(Q[i], rows)
    ensures |IndexSet(Q)| == |Q|
    ensures forall v | v in IndexSet(Q) :: 0 <= v < TerrainWidth * rows
    decreases |Q|
  {
    if Q != [] {
      var P, c := Q[..|Q| - 1], Q[|Q| - 1];
      IndexSetFacts(P, rows);
      IndexNotIn(P, c, rows);
      IndexInjective(c, c, rows);
    }
  }

  lemma {:induction false} RangeCard(S: set<int>, n: nat)
    requires forall v | v in S :: 0 <= v < n
    ensures |S| <= n
    decreases n
  {
    if n == 0 {
      forall v ensures v !in S { }
      assert S == {};
    } else {
      var S' := S - {n - 1};
      RangeCard(S', n - 1);
      if n - 1 in S {
        assert S == S' + {n - 1};
      } else {
        assert S == S';
      }
    }
  }

  /** A queue that holds each cell of the extent at most once is no longer
      than the extent has cells. */
  lemma DistinctCellsBound(Q: seq<Cell>, rows: nat)
    requires forall i, j | 0 <= i < j < |Q| :: Q[i] != Q[j]
    requires forall i | 0 <= i < |Q| :: InExtent(Q[i], rows)
    ensures |Q| <= TerrainWidth * rows
  {
    IndexSetFacts(Q, rows);
    RangeCard(IndexSet(Q), TerrainWidth * rows);
  }
}
