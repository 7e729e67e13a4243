/** The rules engine of the Reversi client (class `Game` in game.hpp).

    The board is modelled twice: the class `Game` keeps the source's
    8x8 `char` array and mutates it in place, and the functions of this
    module describe boards as values, a row-major string of 64 raw
    characters (`Board`).  'X' is black, 'O' is white and '*' is empty;
    any other character may be stored by `SetBoardState` and is kept as
    it is. */
module Reversi {

  /** A board as a value: 64 cells, row-major from row 0 (rank 8). */
  type Board = b: seq<char> | |b| == 64 witness seq(64, _ => '*')

  /** Row and column step of the eight scan directions, in the order of the
      engine's `dx`/`dy` tables: N, S, W, E, NW, NE, SW, SE. */
  const DX: seq<int> := [-1, 1, 0, 0, -1, -1, 1, 1]
  const DY: seq<int> := [0, 0, -1, 1, -1, 1, -1, 1]

  predicate IsValidPos(row: int, col: int) {
    0 <= row < 8 && 0 <= col < 8
  }

  /** The opponent of any character: 'O' for 'X', and 'X' for everything
      else (an empty or unassigned piece included). */
  function Opponent(player: char): (q: char)
    ensures q != player
    ensures q == 'O' <==> player == 'X'
    ensures q == 'O' || q == 'X'
  {
    if player == 'X' then 'O' else 'X'
  }

  /** The cell at (row, col), '*' outside the board (`get_piece`). */
  function Piece(b: Board, row: int, col: int): char {
    if IsValidPos(row, col) then b[8 * row + col] else '*'
  }

  /** Steps left before the walk in direction d from (r, c) leaves the
      board; the termination measure of every ray walk. */
  function Remaining(r: int, c: int, d: int): int
    requires 0 <= d < 8
  {
    if DX[d] == 1 then 8 - r
    else if DX[d] == -1 then r + 1
    else if DY[d] == 1 then 8 - c
    else c + 1
  }

  /** The ray scan of `check_direction` after its first step: from (r, c)
      in direction d, over cells that are neither '*' nor the player's,
      true iff a cell holding `player` is met before a '*' or the edge. */
  function ClosedFrom(b: Board, r: int, c: int, d: int, player: char): bool
    requires 0 <= d < 8
    decreases Remaining(r, c, d)
  {
    if !IsValidPos(r, c) then false
    else if b[8 * r + c] == '*' then false
    else if b[8 * r + c] == player then true
    else ClosedFrom(b, r + DX[d], c + DY[d], d, player)
  }

  /** The first step of the scan of `check_direction`. */
  lemma BracketsFirst(b: Board, row: int, col: int, d: int, player: char)
    requires 0 <= d < 8
    ensures Brackets(b, row, col, d, player) ==
      (IsValidPos(row + DX[d], col + DY[d]) && b[8 * (row + DX[d]) + col + DY[d]] == Opponent(player)
       && ClosedFrom(b, row + DX[d] + DX[d], col + DY[d] + DY[d], d, player))
  {
    assert row + 2 * DX[d] == row + DX[d] + DX[d] && col + 2 * DY[d] == col + DY[d] + DY[d];
  }

  /** One step of the scan of `check_direction`. */
  lemma ClosedFromStep(b: Board, r: int, c: int, d: int, player: char)
    requires 0 <= d < 8 && IsValidPos(r, c)
    ensures ClosedFrom(b, r, c, d, player) ==
      (b[8 * r + c] != '*' && (b[8 * r + c] == player || ClosedFrom(b, r + DX[d], c + DY[d], d, player)))
    ensures Remaining(r + DX[d], c + DY[d], d) < Remaining(r, c, d)
  {
  }

  /** Direction d qualifies for a move of `player` at (row, col): the
      neighbour holds the opponent and the rest of the ray is closed by
      the player's own piece. */
  predicate Brackets(b: Board, row: int, col: int, d: int, player: char)
    requires 0 <= d < 8
  {
    IsValidPos(row + DX[d], col + DY[d])
    && b[8 * (row + DX[d]) + col + DY[d]] == Opponent(player)
    && ClosedFrom(b, row + 2 * DX[d], col + 2 * DY[d], d, player)
  }

  /** The legality rule of `is_valid_move`. */
  predicate Legal(b: Board, row: int, col: int, player: char) {
    IsValidPos(row, col) && b[8 * row + col] == '*'
    && exists d :: 0 <= d < 8 && Brackets(b, row, col, d, player)
  }

  /** Some position is legal for `player`. */
  ghost predicate HasLegal(b: Board, player: char) {
    exists i, j :: Legal(b, i, j, player)
  }

  /** Length of the run of cells equal to q that starts at (r, c) and
      goes in direction d: what `flip_direction` walks over. */
  function Run(b: Board, r: int, c: int, d: int, q: char): nat
    requires 0 <= d < 8
    decreases Remaining(r, c, d)
  {
    if IsValidPos(r, c) && b[8 * r + c] == q then 1 + Run(b, r + DX[d], c + DY[d], d, q)
    else 0
  }

  // ---------------------------------------------------------------------
  // Ray geometry: which ray from (row, col) a cell lies on, and how far.

  function Abs(n: int): nat {
    if n < 0 then -n else n
  }

  function Sign(n: int): int {
    if n < 0 then -1 else if n > 0 then 1 else 0
  }

  /** The index in DX/DY of the unit step (u, v). */
  function DirIndex(u: int, v: int): int {
    if u == -1 && v == 0 then 0
    else if u == 1 && v == 0 then 1
    else if u == 0 && v == -1 then 2
    else if u == 0 && v == 1 then 3
    else if u == -1 && v == -1 then 4
    else if u == -1 && v == 1 then 5
    else if u == 1 && v == -1 then 6
    else 7
  }

  /** The direction whose ray from (row, col) passes through (i, j), or -1
      when (i, j) is (row, col) itself or lies on none of the eight rays. */
  function RayDir(row: int, col: int, i: int, j: int): (d: int)
    ensures -1 <= d < 8
    ensures d >= 0 ==> Sign(i - row) == DX[d] && Sign(j - col) == DY[d]
    ensures d >= 0 ==> (i - row == 0 || j - col == 0 || Abs(i - row) == Abs(j - col))
  {
    var di, dj := i - row, j - col;
    if (di == 0 && dj == 0) || (di != 0 && dj != 0 && Abs(di) != Abs(dj)) then -1
    else DirIndex(Sign(di), Sign(dj))
  }

  /** Number of steps from (row, col) to (i, j) along a ray. */
  function RayDist(row: int, col: int, i: int, j: int): nat {
    var di, dj := Abs(i - row), Abs(j - col);
    if di < dj then dj else di
  }

  /** One step along ray d from its origin or from a cell of the ray
      stays on the ray and is one step further away. */
  lemma RayNext(row: int, col: int, r: int, c: int, d: int)
    requires 0 <= d < 8
    requires RayDir(row, col, r, c) == d || (r == row && c == col)
    ensures RayDir(row, col, r + DX[d], c + DY[d]) == d
    ensures RayDist(row, col, r + DX[d], c + DY[d]) == RayDist(row, col, r, c) + 1
  {
  }

  /** Boards b1 and b2 agree on every cell of ray d from (row, col). */
  ghost predicate SameOnRay(b1: Board, b2: Board, row: int, col: int, d: int) {
    forall i, j :: IsValidPos(i, j) && RayDir(row, col, i, j) == d ==> b1[8 * i + j] == b2[8 * i + j]
  }

  lemma {:induction false} ClosedFromFrame(b1: Board, b2: Board, row: int, col: int, r: int, c: int, d: int, player: char)
    requires 0 <= d < 8 && SameOnRay(b1, b2, row, col, d) && RayDir(row, col, r, c) == d
    ensures ClosedFrom(b1, r, c, d, player) == ClosedFrom(b2, r, c, d, player)
    decreases Remaining(r, c, d)
  {
    if IsValidPos(r, c) && b1[8 * r + c] != '*' && b1[8 * r + c] != player {
      RayNext(row, col, r, c, d);
      ClosedFromFrame(b1, b2, row, col, r + DX[d], c + DY[d], d, player);
    }
  }

  lemma {:induction false} RunFrame(b1: Board, b2: Board, row: int, col: int, r: int, c: int, d: int, q: char)
    requires 0 <= d < 8 && SameOnRay(b1, b2, row, col, d) && RayDir(row, col, r, c) == d
    ensures Run(b1, r, c, d, q) == Run(b2, r, c, d, q)
    decreases Remaining(r, c, d)
  {
    if IsValidPos(r, c) && b1[8 * r + c] == q {
      RayNext(row, col, r, c, d);
      RunFrame(b1, b2, row, col, r + DX[d], c + DY[d], d, q);
    }
  }

  /** Whether direction d qualifies depends only on the cells of ray d. */
  lemma BracketsFrame(b1: Board, b2: Board, row: int, col: int, d: int, player: char)
    requires 0 <= d < 8 && SameOnRay(b1, b2, row, col, d)
    ensures Brackets(b1, row, col, d, player) == Brackets(b2, row, col, d, player)
  {
    RayNext(row, col, row, col, d);
    RayNext(row, col, row + DX[d], col + DY[d], d);
    ClosedFromFrame(b1, b2, row, col, row + 2 * DX[d], col + 2 * DY[d], d, player);
  }

  // ---------------------------------------------------------------------
  // The effect of a move, cell by cell.

  /** Cell (i, j) is flipped by a move of `player` at (row, col) through
      one of the directions below n: it lies on a qualifying ray within
      the opponent run that starts at the neighbour. */
  predicate Flips(b: Board, row: int, col: int, player: char, i: int, j: int, n: int) {
    var d := RayDir(row, col, i, j);
    0 <= d < n && Brackets(b, row, col, d, player)
    && RayDist(row, col, i, j) <= Run(b, row + DX[d], col + DY[d], d, Opponent(player))
  }

  /** The board after placing `player` at (row, col) and flipping the runs
      of the qualifying directions below n (all of them when n == 8). */
  function Played(b: Board, row: int, col: int, player: char, n: int): Board {
    seq(64, k requires 0 <= k < 64 =>
      if k == 8 * row + col then player
      else if Flips(b, row, col, player, k / 8, k % 8, n) then player
      else b[k])
  }

  /** The board after a legal move of `player` at (row, col). */
  function Play(b: Board, row: int, col: int, player: char): Board {
    Played(b, row, col, player, 8)
  }

  /** What `flip_direction` does: the opponent run that starts at the
      neighbour in direction d becomes `player`; the rest is kept. */
  function Flip(b: Board, row: int, col: int, d: int, player: char): Board
    requires 0 <= d < 8
  {
    FlipTo(b, row, col, d, player, Run(b, row + DX[d], col + DY[d], d, Opponent(player)))
  }

  /** The first n cells of ray d from (row, col) set to `player`. */
  function FlipTo(b: Board, row: int, col: int, d: int, player: char, n: int): Board {
    seq(64, k requires 0 <= k < 64 =>
      if RayDir(row, col, k / 8, k % 8) == d && RayDist(row, col, k / 8, k % 8) <= n then player
      else b[k])
  }

  lemma FlipToAt(b: Board, row: int, col: int, d: int, player: char, n: int, r: int, c: int)
    requires IsValidPos(r, c)
    ensures FlipTo(b, row, col, d, player, n)[8 * r + c]
      == if RayDir(row, col, r, c) == d && RayDist(row, col, r, c) <= n then player else b[8 * r + c]
  {
    var k := 8 * r + c;
    assert k / 8 == r && k % 8 == c;
  }

  /** The state of `flip_direction`'s walk after `steps` cells: (r, c) is
      the next cell of the ray and the run still ahead accounts for the
      rest of the run that starts at the neighbour. */
  predicate FlipWalk(b: Board, row: int, col: int, d: int, player: char, steps: nat, r: int, c: int)
    requires 0 <= d < 8
  {
    RayDir(row, col, r, c) == d && RayDist(row, col, r, c) == steps + 1
    && Run(b, row + DX[d], col + DY[d], d, Opponent(player)) == steps + Run(b, r, c, d, Opponent(player))
  }

  lemma FlipWalkStart(b: Board, row: int, col: int, d: int, player: char)
    requires 0 <= d < 8
    ensures FlipWalk(b, row, col, d, player, 0, row + DX[d], col + DY[d])
    ensures FlipTo(b, row, col, d, player, 0) == b
  {
    RayNext(row, col, row, col, d);
    forall k | 0 <= k < 64 ensures FlipTo(b, row, col, d, player, 0)[k] == b[k] {
      if RayDir(row, col, k / 8, k % 8) == d {
        assert RayDist(row, col, k / 8, k % 8) > 0;
      }
    }
  }

  /** One iteration of the walk: the cell it turns is the next one of the
      ray, and it leaves the walk one step further on. */
  lemma FlipWalkStep(b: Board, row: int, col: int, d: int, player: char, steps: nat, r: int, c: int)
    requires 0 <= d < 8 && FlipWalk(b, row, col, d, player, steps, r, c)
    requires IsValidPos(r, c) && FlipTo(b, row, col, d, player, steps)[8 * r + c] == Opponent(player)
    ensures FlipWalk(b, row, col, d, player, steps + 1, r + DX[d], c + DY[d])
    ensures FlipTo(b, row, col, d, player, steps + 1) == FlipTo(b, row, col, d, player, steps)[8 * r + c := player]
    ensures 0 <= Remaining(r + DX[d], c + DY[d], d) < Remaining(r, c, d)
  {
    FlipToAt(b, row, col, d, player, steps, r, c);
    FlipToStep(b, row, col, d, player, steps, r, c);
    RayNext(row, col, r, c, d);
  }

  /** The loop state of `flip_direction`: the walk so far and the board
      it has produced. */
  ghost predicate Walking(cells: Board, b: Board, row: int, col: int, d: int, player: char, steps: nat, r: int, c: int)
    requires 0 <= d < 8
  {
    FlipWalk(b, row, col, d, player, steps, r, c) && cells == FlipTo(b, row, col, d, player, steps)
  }

  lemma WalkingStep(cells: Board, b: Board, row: int, col: int, d: int, player: char, steps: nat, r: int, c: int)
    requires 0 <= d < 8 && Walking(cells, b, row, col, d, player, steps, r, c)
    requires IsValidPos(r, c) && cells[8 * r + c] == Opponent(player)
    ensures Walking(cells[8 * r + c := player], b, row, col, d, player, steps + 1, r + DX[d], c + DY[d])
    ensures 0 <= Remaining(r + DX[d], c + DY[d], d) < Remaining(r, c, d)
  {
    FlipWalkStep(b, row, col, d, player, steps, r, c);
  }

  /** A walk that stops at a cell outside the opponent run has flipped the
      whole run. */
  lemma FlipWalkDone(b: Board, row: int, col: int, d: int, player: char, steps: nat, r: int, c: int)
    requires 0 <= d < 8 && FlipWalk(b, row, col, d, player, steps, r, c)
    requires !(IsValidPos(r, c) && FlipTo(b, row, col, d, player, steps)[8 * r + c] == Opponent(player))
    ensures FlipTo(b, row, col, d, player, steps) == Flip(b, row, col, d, player)
  {
    if IsValidPos(r, c) {
      FlipToAt(b, row, col, d, player, steps, r, c);
    }
  }

  /** Setting one more cell of the ray extends the flipped prefix. */
  lemma FlipToStep(b: Board, row: int, col: int, d: int, player: char, n: nat, r: int, c: int)
    requires 0 <= d < 8 && IsValidPos(r, c)
    requires RayDir(row, col, r, c) == d && RayDist(row, col, r, c) == n + 1
    ensures FlipTo(b, row, col, d, player, n + 1) == FlipTo(b, row, col, d, player, n)[8 * r + c := player]
  {
    var next, cur := FlipTo(b, row, col, d, player, n + 1), FlipTo(b, row, col, d, player, n);
    forall k | 0 <= k < 64 ensures next[k] == cur[8 * r + c := player][k] {
      if k != 8 * r + c && RayDir(row, col, k / 8, k % 8) == d && RayDist(row, col, k / 8, k % 8) == n + 1 {
        RayUnique(row, col, k / 8, k % 8, r, c);
      }
    }
  }

  /** Before direction d is processed, its ray still holds the cells of
      the original board. */
  lemma PlayedKeepsRay(b: Board, row: int, col: int, player: char, d: int)
    requires IsValidPos(row, col) && 0 <= d < 8
    ensures SameOnRay(b, Played(b, row, col, player, d), row, col, d)
  {
    var cur := Played(b, row, col, player, d);
    forall i, j | IsValidPos(i, j) && RayDir(row, col, i, j) == d
      ensures b[8 * i + j] == cur[8 * i + j]
    {
      var k := 8 * i + j;
      assert k / 8 == i && k % 8 == j;
      assert k != 8 * row + col;
      assert !Flips(b, row, col, player, i, j, d);
    }
  }

  /** Flipping the directions one after another, each checked against the
      board as it stands after the earlier ones, gives the per-cell
      description: rays of different directions are disjoint. */
  lemma PlayStep(b: Board, row: int, col: int, player: char, d: int)
    requires IsValidPos(row, col) && 0 <= d < 8
    ensures Brackets(b, row, col, d, player) ==>
      Flip(Played(b, row, col, player, d), row, col, d, player) == Played(b, row, col, player, d + 1)
    ensures !Brackets(b, row, col, d, player) ==>
      Played(b, row, col, player, d) == Played(b, row, col, player, d + 1)
  {
    if Brackets(b, row, col, d, player) {
      PlayStepFlips(b, row, col, player, d);
    } else {
      PlayStepSkips(b, row, col, player, d);
    }
  }

  lemma PlayStepFlips(b: Board, row: int, col: int, player: char, d: int)
    requires IsValidPos(row, col) && 0 <= d < 8 && Brackets(b, row, col, d, player)
    ensures Flip(Played(b, row, col, player, d), row, col, d, player) == Played(b, row, col, player, d + 1)
  {
    var cur := Played(b, row, col, player, d);
    var next := Played(b, row, col, player, d + 1);
    PlayedKeepsRay(b, row, col, player, d);
    RayNext(row, col, row, col, d);
    RunFrame(b, cur, row, col, row + DX[d], col + DY[d], d, Opponent(player));
    var flipped := Flip(cur, row, col, d, player);
    forall k | 0 <= k < 64 ensures flipped[k] == next[k] {
      FlipStepAt(b, row, col, player, d, k);
    }
  }

  lemma PlayStepSkips(b: Board, row: int, col: int, player: char, d: int)
    requires IsValidPos(row, col) && 0 <= d < 8 && !Brackets(b, row, col, d, player)
    ensures Played(b, row, col, player, d) == Played(b, row, col, player, d + 1)
  {
    var cur := Played(b, row, col, player, d);
    var next := Played(b, row, col, player, d + 1);
    forall k | 0 <= k < 64 ensures cur[k] == next[k] {
      assert Flips(b, row, col, player, k / 8, k % 8, d + 1) == Flips(b, row, col, player, k / 8, k % 8, d);
    }
  }

  lemma FlipStepAt(b: Board, row: int, col: int, player: char, d: int, k: int)
    requires IsValidPos(row, col) && 0 <= d < 8 && 0 <= k < 64
    requires Brackets(b, row, col, d, player)
    requires Run(Played(b, row, col, player, d), row + DX[d], col + DY[d], d, Opponent(player))
          == Run(b, row + DX[d], col + DY[d], d, Opponent(player))
    ensures Flip(Played(b, row, col, player, d), row, col, d, player)[k] == Played(b, row, col, player, d + 1)[k]
  {
    var cur := Played(b, row, col, player, d);
    var n := Run(b, row + DX[d], col + DY[d], d, Opponent(player));
    var dk := RayDir(row, col, k / 8, k % 8);
    assert Flip(cur, row, col, d, player)[k] == if dk == d && RayDist(row, col, k / 8, k % 8) <= n then player else cur[k];
    if k == 8 * row + col {
      FlipStepOrigin(b, row, col, player, d, k);
    } else if dk == d {
      FlipStepOnRay(b, row, col, player, d, k);
    } else {
      FlipStepOffRay(b, row, col, player, d, k);
    }
  }

  lemma FlipStepOrigin(b: Board, row: int, col: int, player: char, d: int, k: int)
    requires IsValidPos(row, col) && 0 <= d < 8 && k == 8 * row + col
    ensures RayDir(row, col, k / 8, k % 8) == -1
    ensures Played(b, row, col, player, d)[k] == player == Played(b, row, col, player, d + 1)[k]
  {
    assert k / 8 == row && k % 8 == col;
  }

  lemma FlipStepOnRay(b: Board, row: int, col: int, player: char, d: int, k: int)
    requires IsValidPos(row, col) && 0 <= d < 8 && 0 <= k < 64 && k != 8 * row + col
    requires Brackets(b, row, col, d, player) && RayDir(row, col, k / 8, k % 8) == d
    ensures Played(b, row, col, player, d)[k] == b[k]
    ensures Played(b, row, col, player, d + 1)[k] ==
      if RayDist(row, col, k / 8, k % 8) <= Run(b, row + DX[d], col + DY[d], d, Opponent(player)) then player else b[k]
  {
    var i, j := k / 8, k % 8;
    var n := Run(b, row + DX[d], col + DY[d], d, Opponent(player));
    assert !Flips(b, row, col, player, i, j, d);
    assert Flips(b, row, col, player, i, j, d + 1) == (RayDist(row, col, i, j) <= n);
  }

  lemma FlipStepOffRay(b: Board, row: int, col: int, player: char, d: int, k: int)
    requires IsValidPos(row, col) && 0 <= d < 8 && 0 <= k < 64 && k != 8 * row + col
    requires RayDir(row, col, k / 8, k % 8) != d
    ensures Played(b, row, col, player, d + 1)[k] == Played(b, row, col, player, d)[k]
  {
    assert Flips(b, row, col, player, k / 8, k % 8, d + 1) == Flips(b, row, col, player, k / 8, k % 8, d);
  }

  /** Two cells of the same ray at the same distance are the same cell. */
  lemma RayUnique(row: int, col: int, i1: int, j1: int, i2: int, j2: int)
    requires RayDir(row, col, i1, j1) == RayDir(row, col, i2, j2) >= 0
    requires RayDist(row, col, i1, j1) == RayDist(row, col, i2, j2)
    ensures i1 == i2 && j1 == j2
  {
  }

  lemma {:induction false} RunHolds(b: Board, row: int, col: int, r: int, c: int, d: int, q: char, i: int, j: int)
    requires 0 <= d < 8 && RayDir(row, col, r, c) == d && RayDir(row, col, i, j) == d
    requires RayDist(row, col, r, c) <= RayDist(row, col, i, j) < RayDist(row, col, r, c) + Run(b, r, c, d, q)
    ensures IsValidPos(i, j) && b[8 * i + j] == q
    decreases Remaining(r, c, d)
  {
    if RayDist(row, col, i, j) == RayDist(row, col, r, c) {
      RayUnique(row, col, i, j, r, c);
    } else {
      RayNext(row, col, r, c, d);
      RunHolds(b, row, col, r + DX[d], c + DY[d], d, q, i, j);
    }
  }

  /** A move changes nothing but its own square and cells of the
      opponent that lie on a qualifying ray, inside the opponent run that
      starts next to the square; each such cell becomes the player's. */
  lemma PlayConfined(b: Board, row: int, col: int, player: char, i: int, j: int)
    requires IsValidPos(row, col) && IsValidPos(i, j) && (i, j) != (row, col)
    ensures var d := RayDir(row, col, i, j);
      Play(b, row, col, player)[8 * i + j] != b[8 * i + j] ==>
        0 <= d && Brackets(b, row, col, d, player)
        && b[8 * i + j] == Opponent(player)
        && Play(b, row, col, player)[8 * i + j] == player
  {
    var k := 8 * i + j;
    assert k / 8 == i && k % 8 == j;
    var d := RayDir(row, col, i, j);
    if Play(b, row, col, player)[k] != b[k] {
      assert Flips(b, row, col, player, i, j, 8);
      RayNext(row, col, row, col, d);
      RunHolds(b, row, col, row + DX[d], col + DY[d], d, Opponent(player), i, j);
    }
  }

  /** In every qualifying direction the whole opponent run next to the
      square is turned: each cell of the ray up to the run's length. */
  lemma PlayFlipsRun(b: Board, row: int, col: int, player: char, d: int, i: int, j: int)
    requires IsValidPos(row, col) && IsValidPos(i, j) && 0 <= d < 8
    requires Brackets(b, row, col, d, player) && RayDir(row, col, i, j) == d
    requires RayDist(row, col, i, j) <= Run(b, row + DX[d], col + DY[d], d, Opponent(player))
    ensures Play(b, row, col, player)[8 * i + j] == player
  {
    var k := 8 * i + j;
    assert k / 8 == i && k % 8 == j;
  }

  /** A legal move always turns at least one disc: the neighbour of a
      qualifying direction. */
  lemma LegalMoveFlips(b: Board, row: int, col: int, player: char)
    requires Legal(b, row, col, player)
    ensures exists i, j :: IsValidPos(i, j) && b[8 * i + j] == Opponent(player) && Play(b, row, col, player)[8 * i + j] == player
  {
    var d :| 0 <= d < 8 && Brackets(b, row, col, d, player);
    var i, j := row + DX[d], col + DY[d];
    RayNext(row, col, row, col, d);
    PlayFlipsRun(b, row, col, player, d, i, j);
  }

  /** Every cell is 'X', 'O' or '*'. */
  ghost predicate Clean(b: Board) {
    forall k :: 0 <= k < 64 ==> b[k] == 'X' || b[k] == 'O' || b[k] == '*'
  }

  lemma {:induction false} ClosedEnd(b: Board, row: int, col: int, r: int, c: int, d: int, player: char)
    requires Clean(b) && (player == 'X' || player == 'O')
    requires 0 <= d < 8 && RayDir(row, col, r, c) == d && ClosedFrom(b, r, c, d, player)
    ensures exists i, j :: (IsValidPos(i, j) && RayDir(row, col, i, j) == d && b[8 * i + j] == player
      && RayDist(row, col, i, j) == RayDist(row, col, r, c) + Run(b, r, c, d, Opponent(player)))
    decreases Remaining(r, c, d)
  {
    if b[8 * r + c] != player {
      RayNext(row, col, r, c, d);
      ClosedEnd(b, row, col, r + DX[d], c + DY[d], d, player);
    }
  }

  /** On a board of 'X', 'O' and '*' only, every run a move of 'X' or 'O'
      flips is bracketed: the cell right after it holds the player's
      piece. */
  lemma BracketedRun(b: Board, row: int, col: int, d: int, player: char)
    requires Clean(b) && (player == 'X' || player == 'O') && 0 <= d < 8
    requires Brackets(b, row, col, d, player)
    ensures Run(b, row + DX[d], col + DY[d], d, Opponent(player)) >= 1
    ensures exists i, j :: (IsValidPos(i, j) && RayDir(row, col, i, j) == d && b[8 * i + j] == player
      && RayDist(row, col, i, j) == Run(b, row + DX[d], col + DY[d], d, Opponent(player)) + 1)
  {
    RayNext(row, col, row, col, d);
    RayNext(row, col, row + DX[d], col + DY[d], d);
    ClosedEnd(b, row, col, row + 2 * DX[d], col + 2 * DY[d], d, player);
  }

  lemma {:induction false} RunCloses(b: Board, row: int, col: int, r: int, c: int, d: int, player: char, i: int, j: int)
    requires 0 <= d < 8 && player != '*' && RayDir(row, col, r, c) == d
    requires IsValidPos(i, j) && RayDir(row, col, i, j) == d && b[8 * i + j] == player
    requires RayDist(row, col, i, j) == RayDist(row, col, r, c) + Run(b, r, c, d, Opponent(player))
    ensures ClosedFrom(b, r, c, d, player)
    decreases Remaining(r, c, d)
  {
    if Run(b, r, c, d, Opponent(player)) == 0 {
      RayUnique(row, col, i, j, r, c);
    } else {
      RayNext(row, col, r, c, d);
      RunCloses(b, row, col, r + DX[d], c + DY[d], d, player, i, j);
    }
  }

  /** The converse of `BracketedRun`, on any board: an opponent run of
      length at least one next to the square, followed at once by the
      player's piece, qualifies the direction. Only the empty piece '*' is
      excepted, because the scan tests for '*' before it tests for the
      player (see `EmptyNeverBrackets`). */
  lemma RunBrackets(b: Board, row: int, col: int, d: int, player: char, i: int, j: int)
    requires 0 <= d < 8 && player != '*'
    requires Run(b, row + DX[d], col + DY[d], d, Opponent(player)) >= 1
    requires IsValidPos(i, j) && RayDir(row, col, i, j) == d && b[8 * i + j] == player
    requires RayDist(row, col, i, j) == Run(b, row + DX[d], col + DY[d], d, Opponent(player)) + 1
    ensures Brackets(b, row, col, d, player)
  {
    RayNext(row, col, row, col, d);
    RayNext(row, col, row + DX[d], col + DY[d], d);
    assert row + 2 * DX[d] == row + DX[d] + DX[d] && col + 2 * DY[d] == col + DY[d] + DY[d];
    RunCloses(b, row, col, row + 2 * DX[d], col + 2 * DY[d], d, player, i, j);
  }

  /** The bracketing rule both ways, for 'X' and 'O' on a board of 'X',
      'O' and '*': a direction qualifies exactly when the opponent run
      next to the square is not empty and the player's piece follows it. */
  lemma BracketsExactly(b: Board, row: int, col: int, d: int, player: char)
    requires Clean(b) && (player == 'X' || player == 'O') && 0 <= d < 8
    ensures Brackets(b, row, col, d, player) <==>
      Run(b, row + DX[d], col + DY[d], d, Opponent(player)) >= 1
      && exists i, j :: (IsValidPos(i, j) && RayDir(row, col, i, j) == d && b[8 * i + j] == player
        && RayDist(row, col, i, j) == Run(b, row + DX[d], col + DY[d], d, Opponent(player)) + 1)
  {
    if Brackets(b, row, col, d, player) {
      BracketedRun(b, row, col, d, player);
    } else if Run(b, row + DX[d], col + DY[d], d, Opponent(player)) >= 1 {
      forall i, j | IsValidPos(i, j) && RayDir(row, col, i, j) == d && b[8 * i + j] == player
        ensures RayDist(row, col, i, j) != Run(b, row + DX[d], col + DY[d], d, Opponent(player)) + 1
      {
        if RayDist(row, col, i, j) == Run(b, row + DX[d], col + DY[d], d, Opponent(player)) + 1 {
          RunBrackets(b, row, col, d, player, i, j);
        }
      }
    }
  }

  lemma {:induction false} EmptyNeverCloses(b: Board, r: int, c: int, d: int)
    requires 0 <= d < 8
    ensures !ClosedFrom(b, r, c, d, '*')
    decreases Remaining(r, c, d)
  {
    if IsValidPos(r, c) && b[8 * r + c] != '*' {
      EmptyNeverCloses(b, r + DX[d], c + DY[d], d);
    }
  }

  /** The exception of `RunBrackets`: no direction ever qualifies for the
      empty piece, so no square is legal for it. */
  lemma EmptyNeverBrackets(b: Board, row: int, col: int)
    ensures forall d :: 0 <= d < 8 ==> !Brackets(b, row, col, d, '*')
    ensures !Legal(b, row, col, '*')
  {
    forall d | 0 <= d < 8
      ensures !Brackets(b, row, col, d, '*')
    {
      EmptyNeverCloses(b, row + 2 * DX[d], col + 2 * DY[d], d);
    }
  }

  // ---------------------------------------------------------------------
  // Counting, the result and the opening position.

  /** Number of cells of s equal to ch. */
  function Count(s: seq<char>, ch: char): nat {
    if s == [] then 0 else Count(s[..|s| - 1], ch) + (if s[|s| - 1] == ch then 1 else 0)
  }

  lemma {:induction false} CountAppend(a: seq<char>, b: seq<char>, ch: char)
    ensures Count(a + b, ch) == Count(a, ch) + Count(b, ch)
    decreases |b|
  {
    if b == [] {
      assert a + b == a;
    } else {
      assert (a + b)[..|a + b| - 1] == a + b[..|b| - 1];
      CountAppend(a, b[..|b| - 1], ch);
    }
  }

  /** Counting one more cell of a prefix. */
  lemma CountPrefix(s: seq<char>, n: nat, ch: char)
    requires n < |s|
    ensures Count(s[..n + 1], ch) == Count(s[..n], ch) + if s[n] == ch then 1 else 0
  {
    assert s[..n + 1][..n] == s[..n];
  }

  lemma {:induction false} CountAbsent(s: seq<char>, ch: char)
    requires forall k :: 0 <= k < |s| ==> s[k] != ch
    ensures Count(s, ch) == 0
    decreases |s|
  {
    if s != [] {
      CountAbsent(s[..|s| - 1], ch);
    }
  }

  /** The verdict of `get_result` for the given disc counts. */
  function Outcome(black: int, white: int): (r: string)
    ensures r == "X wins!" <==> black > white
    ensures r == "O wins!" <==> white > black
    ensures r == "Draw!" <==> black == white
  {
    if black > white then "X wins!"
    else if white > black then "O wins!"
    else "Draw!"
  }

  function Stars(n: nat): seq<char> {
    seq(n, _ => '*')
  }

  /** The opening position set up by the constructor: 'X' on d5 and e4,
      'O' on e5 and d4, all else empty. */
  function Initial(): Board {
    Stars(27) + ['X', 'O'] + Stars(6) + ['O', 'X'] + Stars(27)
  }

  lemma InitialAt(k: int)
    requires 0 <= k < 64
    ensures Initial()[k] == if k == 27 || k == 36 then 'X' else if k == 28 || k == 35 then 'O' else '*'
  {
  }

  lemma InitialCounts()
    ensures Count(Initial(), 'X') == 2 && Count(Initial(), 'O') == 2
  {
    var s := Stars(27) + ['X', 'O'];
    var t := s + Stars(6) + ['O', 'X'];
    CountAppend(Stars(27), ['X', 'O'], 'X');
    CountAppend(Stars(27), ['X', 'O'], 'O');
    CountAppend(s, Stars(6), 'X');
    CountAppend(s, Stars(6), 'O');
    CountAppend(s + Stars(6), ['O', 'X'], 'X');
    CountAppend(s + Stars(6), ['O', 'X'], 'O');
    CountAppend(t, Stars(27), 'X');
    CountAppend(t, Stars(27), 'O');
    CountAbsent(Stars(27), 'X');
    CountAbsent(Stars(27), 'O');
    CountAbsent(Stars(6), 'X');
    CountAbsent(Stars(6), 'O');
  }

  /** The opening position cell by cell. */
  ghost predicate IsOpening(b: Board) {
    forall k :: 0 <= k < 64 ==> b[k] == if k == 27 || k == 36 then 'X' else if k == 28 || k == 35 then 'O' else '*'
  }

  /** A qualifying direction for 'X' from an empty square of the opening
      leads to one of the four opening moves. */
  lemma OpeningDirection(b: Board, i: int, j: int, d: int)
    requires IsOpening(b) && 0 <= d < 8 && IsValidPos(i, j) && b[8 * i + j] == '*'
    requires Brackets(b, i, j, d, 'X')
    ensures (i, j) in [(2, 4), (3, 5), (4, 2), (5, 3)]
  {
    var ni, nj := i + DX[d], j + DY[d];
    assert b[8 * ni + nj] == 'O';
    assert (ni == 3 && nj == 4) || (ni == 4 && nj == 3);
    // Each qualifying ray starts at one of the two 'O' discs. The branches
    // hold no statements: they only make the verifier consider the
    // straight and main-diagonal rays, the anti-diagonal rays through
    // (3,4) and those through (4,3) separately, which it does not do
    // unaided.
    OpeningAntiDiagonals(b);
    if d < 4 || d == 4 || d == 7 {
    } else if ni == 3 {
    } else {
    }
  }

  /** On the anti-diagonals, a scan for 'X' that passes one 'O' disc of
      the opening passes the other and then meets an empty square. */
  lemma OpeningAntiDiagonals(b: Board)
    requires IsOpening(b)
    ensures !ClosedFrom(b, 4, 3, 6, 'X') && !ClosedFrom(b, 3, 4, 5, 'X')
  {
    assert b[35] == 'O' && b[42] == '*';
    assert b[28] == 'O' && b[21] == '*';
  }

  /** From the opening position the legal moves of 'X' are exactly
      (2,4), (3,5), (4,2) and (5,3), that is e6, f5, c4 and d3. */
  lemma OpeningMovesForX(i: int, j: int)
    ensures Legal(Initial(), i, j, 'X') <==> (i, j) in [(2, 4), (3, 5), (4, 2), (5, 3)]
  {
    var b := Initial();
    forall k | 0 <= k < 64 ensures b[k] == if k == 27 || k == 36 then 'X' else if k == 28 || k == 35 then 'O' else '*' {
      InitialAt(k);
    }
    if Legal(b, i, j, 'X') {
      var d :| 0 <= d < 8 && Brackets(b, i, j, d, 'X');
      OpeningDirection(b, i, j, d);
    } else {
      assert Brackets(b, 2, 4, 1, 'X');
      assert Brackets(b, 3, 5, 2, 'X');
      assert Brackets(b, 4, 2, 3, 'X');
      assert Brackets(b, 5, 3, 0, 'X');
    }
  }

  /** d6, the square (2,3), is legal for 'O' in the opening position and
      not for 'X'. */
  lemma OpeningD6()
    ensures Legal(Initial(), 2, 3, 'O')
    ensures !Legal(Initial(), 2, 3, 'X')
  {
    InitialAt(19);
    InitialAt(27);
    InitialAt(35);
    assert Brackets(Initial(), 2, 3, 1, 'O');
    OpeningMovesForX(2, 3);
  }

  // ---------------------------------------------------------------------
  // The list of legal moves.

  /** The legal moves of `player` among the first n squares in row-major
      order, in that order. */
  function LegalPrefix(b: Board, player: char, n: nat): seq<(int, int)>
    requires n <= 64
  {
    if n == 0 then [] else
    var i, j := (n - 1) / 8, (n - 1) % 8;
    LegalPrefix(b, player, n - 1) + (if Legal(b, i, j, player) then [(i, j)] else [])
  }

  lemma LegalPrefixNext(b: Board, player: char, i: int, j: int)
    requires IsValidPos(i, j)
    ensures LegalPrefix(b, player, 8 * i + j + 1)
      == LegalPrefix(b, player, 8 * i + j) + if Legal(b, i, j, player) then [(i, j)] else []
  {
    assert (8 * i + j) / 8 == i && (8 * i + j) % 8 == j;
  }

  /** What `get_valid_moves` returns: every legal move, row by row. */
  function LegalMoves(b: Board, player: char): seq<(int, int)> {
    LegalPrefix(b, player, 64)
  }

  /** Every position listed among the first n squares is a legal one
      there, and the list is in strictly increasing row-major order (so
      without duplicates). */
  lemma {:induction false} LegalPrefixSound(b: Board, player: char, n: nat)
    requires n <= 64
    ensures forall m :: 0 <= m < |LegalPrefix(b, player, n)| ==>
      var (i, j) := LegalPrefix(b, player, n)[m];
      IsValidPos(i, j) && 8 * i + j < n && Legal(b, i, j, player)
    ensures forall m1, m2 :: 0 <= m1 < m2 < |LegalPrefix(b, player, n)| ==>
      8 * LegalPrefix(b, player, n)[m1].0 + LegalPrefix(b, player, n)[m1].1
        < 8 * LegalPrefix(b, player, n)[m2].0 + LegalPrefix(b, player, n)[m2].1
  {
    if n > 0 {
      LegalPrefixSound(b, player, n - 1);
      var k := n - 1;
      assert 8 * (k / 8) + k % 8 == k;
    }
  }

  /** Every legal position among the first n squares is listed. */
  lemma {:induction false} LegalPrefixComplete(b: Board, player: char, n: nat, i: int, j: int)
    requires n <= 64 && IsValidPos(i, j) && 8 * i + j < n && Legal(b, i, j, player)
    ensures (i, j) in LegalPrefix(b, player, n)
  {
    var k := n - 1;
    if 8 * i + j == k {
      assert i == k / 8 && j == k % 8;
    } else {
      LegalPrefixComplete(b, player, n - 1, i, j);
    }
  }

  /** `get_valid_moves` lists exactly the legal positions, in row-major
      order and without duplicates. */
  lemma LegalMovesExact(b: Board, player: char)
    ensures forall i, j :: (i, j) in LegalMoves(b, player) <==> Legal(b, i, j, player)
    ensures forall m1, m2 :: 0 <= m1 < m2 < |LegalMoves(b, player)| ==>
      8 * LegalMoves(b, player)[m1].0 + LegalMoves(b, player)[m1].1
        < 8 * LegalMoves(b, player)[m2].0 + LegalMoves(b, player)[m2].1
  {
    LegalPrefixSound(b, player, 64);
    forall i, j ensures (i, j) in LegalMoves(b, player) <==> Legal(b, i, j, player) {
      if (i, j) in LegalMoves(b, player) {
        var m :| 0 <= m < |LegalMoves(b, player)| && LegalMoves(b, player)[m] == (i, j);
      }
      if Legal(b, i, j, player) {
        LegalPrefixComplete(b, player, 64, i, j);
      }
    }
  }

  /** The list is empty exactly when the player has no legal move. */
  lemma NoLegalMoves(b: Board, player: char)
    ensures LegalMoves(b, player) == [] <==> !HasLegal(b, player)
  {
    LegalMovesExact(b, player);
    if HasLegal(b, player) {
      var i, j :| Legal(b, i, j, player);
      assert (i, j) in LegalMoves(b, player);
    }
    if LegalMoves(b, player) != [] {
      var m := LegalMoves(b, player)[0];
      assert m in LegalMoves(b, player);
      assert Legal(b, m.0, m.1, player);
    }
  }

  /** From the opening position both players can move, so the game is
      not over. */
  lemma OpeningNotOver()
    ensures LegalMoves(Initial(), 'X') != [] && LegalMoves(Initial(), 'O') != []
  {
    OpeningD6();
    OpeningMovesForX(2, 4);
    LegalMovesExact(Initial(), 'X');
    LegalMovesExact(Initial(), 'O');
    assert (2, 4) in LegalMoves(Initial(), 'X');
    assert (2, 3) in LegalMoves(Initial(), 'O');
  }

  /** A parsed move: `parse_move` reports success and writes the row and
      column through reference parameters, which keep their previous
      values when the text is not two characters long. */
  datatype Parsed = Parsed(ok: bool, row: int, col: int)

  /** `parse_move`: a column letter 'a'..'h' and a row digit '1'..'8',
      digit 8 being row 0. */
  function ParseMove(move: string, row: int, col: int): (r: Parsed)
    ensures r.ok <==> |move| == 2 && 'a' <= move[0] <= 'h' && '1' <= move[1] <= '8'
    ensures r.ok ==> IsValidPos(r.row, r.col)
    ensures |move| != 2 ==> r.row == row && r.col == col
    ensures |move| == 2 ==> r.col == move[0] as int - 'a' as int && r.row == 8 - (move[1] as int - '0' as int)
  {
    if |move| != 2 then Parsed(false, row, col)
    else
      var c := move[0] as int - 'a' as int;
      var r := 8 - (move[1] as int - '0' as int);
      Parsed(IsValidPos(r, c), r, c)
  }

  /** The engine's state: the 8x8 board, updated in place, the player to
      move and the two disc counts. */
  class Game {
    const board: array2<char>
    var currentPlayer: char
    var blackCount: int
    var whiteCount: int

    ghost predicate WellFormed() {
      board.Length0 == 8 && board.Length1 == 8
    }

    /** The object invariant: the counts match the board. */
    ghost predicate Valid()
      reads this, board
    {
      WellFormed()
      && blackCount == Count(Cells(), 'X')
      && whiteCount == Count(Cells(), 'O')
    }

    /** The board as a value, row-major. */
    ghost function Cells(): Board
      reads board
      requires WellFormed()
    {
      seq(64, k requires 0 <= k < 64 reads board => board[k / 8, k % 8])
    }

    /** The value of the board at (i, j) is the array's cell. */
    lemma CellAt(i: int, j: int)
      requires WellFormed() && IsValidPos(i, j)
      ensures Cells()[8 * i + j] == board[i, j]
    {
      var k := 8 * i + j;
      assert k / 8 == i && k % 8 == j;
    }

    /** A value showing every cell of the array is the board's value. */
    lemma CellsAre(s: Board)
      requires WellFormed()
      requires forall i, j :: 0 <= i < 8 && 0 <= j < 8 ==> board[i, j] == s[8 * i + j]
      ensures Cells() == s
    {
      forall k | 0 <= k < 64 ensures Cells()[k] == s[k] {
        assert k == 8 * (k / 8) + k % 8;
      }
    }

    /** The opening position, 'X' to move, two discs each. */
    constructor ()
      ensures Valid() && fresh(board)
      ensures Cells() == Initial()
      ensures currentPlayer == 'X' && blackCount == 2 && whiteCount == 2
    {
      board := new char[8, 8];
      new;
      for i := 0 to 8
        invariant forall r, c :: 0 <= r < i && 0 <= c < 8 ==> board[r, c] == '*'
      {
        for j := 0 to 8
          invariant forall r, c :: 0 <= r < 8 && 0 <= c < 8 && (r < i || (r == i && c < j)) ==> board[r, c] == '*'
        {
          board[i, j] := '*';
        }
      }
      board[3, 3] := 'X';
      board[3, 4] := 'O';
      board[4, 3] := 'O';
      board[4, 4] := 'X';
      currentPlayer := 'X';
      blackCount := 2;
      whiteCount := 2;
      forall i, j | 0 <= i < 8 && 0 <= j < 8 ensures board[i, j] == Initial()[8 * i + j] {
        InitialAt(8 * i + j);
      }
      CellsAre(Initial());
      InitialCounts();
    }

    /** `check_direction`: the ray scan of direction `dir`. */
    method CheckDirection(row: int, col: int, dir: int, player: char) returns (found: bool)
      requires WellFormed() && 0 <= dir < 8
      ensures found == Brackets(Cells(), row, col, dir, player)
    {
      ghost var b := Cells();
      var opponent := if player == 'X' then 'O' else 'X';
      var dr, dc := DX[dir], DY[dir];
      var r, c := row + dr, col + dc;
      BracketsFirst(b, row, col, dir, player);
      if !IsValidPos(r, c) {
        return false;
      }
      CellAt(r, c);
      if board[r, c] != opponent {
        return false;
      }
      found := ScanRay(row + dr + dr, col + dc + dc, dir, player);
    }

    /** The `while` walk of `check_direction`, from the second cell of the
        ray on. */
    method ScanRay(r0: int, c0: int, dir: int, player: char) returns (found: bool)
      requires WellFormed() && 0 <= dir < 8
      ensures found == ClosedFrom(Cells(), r0, c0, dir, player)
    {
      ghost var b := Cells();
      var dr, dc := DX[dir], DY[dir];
      var r, c := r0, c0;
      while IsValidPos(r, c)
        invariant ClosedFrom(b, r0, c0, dir, player) == ClosedFrom(b, r, c, dir, player)
        decreases Remaining(r, c, dir)
      {
        CellAt(r, c);
        ClosedFromStep(b, r, c, dir, player);
        if board[r, c] == '*' {
          return false;
        }
        if board[r, c] == player {
          return true;
        }
        r, c := r + dr, c + dc;
      }
      return false;
    }

    /** `flip_direction`: turn the opponent run next to (row, col) in
        direction `dir`. */
    method FlipDirection(row: int, col: int, dir: int, player: char)
      requires WellFormed() && 0 <= dir < 8
      modifies board
      ensures Cells() == Flip(old(Cells()), row, col, dir, player)
    {
      ghost var b := Cells();
      var opponent := if player == 'X' then 'O' else 'X';
      var dr, dc := DX[dir], DY[dir];
      var r, c := row + dr, col + dc;
      ghost var steps: nat := 0;
      FlipWalkStart(b, row, col, dir, player);
      while IsValidPos(r, c) && board[r, c] == opponent
        invariant Walking(Cells(), b, row, col, dir, player, steps, r, c)
        decreases Remaining(r, c, dir)
      {
        CellAt(r, c);
        ghost var cur := Cells();
        SetCell(r, c, player);
        WalkingStep(cur, b, row, col, dir, player, steps, r, c);
        r, c := r + dr, c + dc;
        steps := steps + 1;
      }
      if IsValidPos(r, c) {
        CellAt(r, c);
      }
      FlipWalkDone(b, row, col, dir, player, steps, r, c);
    }

    /** Writes one cell of the board. */
    method SetCell(r: int, c: int, v: char)
      requires WellFormed() && IsValidPos(r, c)
      modifies board
      ensures Cells() == old(Cells())[8 * r + c := v]
    {
      ghost var before := Cells();
      board[r, c] := v;
      forall i, j | 0 <= i < 8 && 0 <= j < 8 ensures board[i, j] == before[8 * r + c := v][8 * i + j] {
      }
      CellsAre(before[8 * r + c := v]);
    }

    /** `count_pieces`: recount both colours from the board. */
    method CountPieces()
      requires WellFormed()
      modifies this`blackCount, this`whiteCount
      ensures Valid()
      ensures currentPlayer == old(currentPlayer)
    {
      ghost var cells := Cells();
      blackCount := 0;
      whiteCount := 0;
      for i := 0 to 8
        invariant blackCount == Count(cells[..8 * i], 'X')
        invariant whiteCount == Count(cells[..8 * i], 'O')
      {
        for j := 0 to 8
          invariant blackCount == Count(cells[..8 * i + j], 'X')
          invariant whiteCount == Count(cells[..8 * i + j], 'O')
        {
          CellAt(i, j);
          CountPrefix(cells, 8 * i + j, 'X');
          CountPrefix(cells, 8 * i + j, 'O');
          if board[i, j] == 'X' {
            blackCount := blackCount + 1;
          } else if board[i, j] == 'O' {
            whiteCount := whiteCount + 1;
          }
        }
      }
      assert cells[..64] == cells;
    }

    /** `is_valid_move`. */
    method IsValidMove(row: int, col: int, player: char) returns (valid: bool)
      requires WellFormed()
      ensures valid == Legal(Cells(), row, col, player)
    {
      if !IsValidPos(row, col) || board[row, col] != '*' {
        return false;
      }
      for dir := 0 to 8
        invariant forall d :: 0 <= d < dir ==> !Brackets(Cells(), row, col, d, player)
      {
        var found := CheckDirection(row, col, dir, player);
        if found {
          return true;
        }
      }
      return false;
    }

    /** `make_move`: an illegal move changes nothing; a legal one places
        the disc, turns every bracketed run, recounts and passes the turn. */
    method MakeMove(row: int, col: int, player: char) returns (ok: bool)
      requires Valid()
      modifies this, board
      ensures Valid()
      ensures ok == Legal(old(Cells()), row, col, player)
      ensures !ok ==> (Cells() == old(Cells()) && currentPlayer == old(currentPlayer)
                       && blackCount == old(blackCount) && whiteCount == old(whiteCount))
      ensures ok ==> Cells() == Play(old(Cells()), row, col, player) && currentPlayer == Opponent(player)
    {
      ok := IsValidMove(row, col, player);
      if !ok {
        return;
      }
      ghost var b := Cells();
      board[row, col] := player;
      forall i, j | 0 <= i < 8 && 0 <= j < 8
        ensures board[i, j] == Played(b, row, col, player, 0)[8 * i + j]
      {
        var k := 8 * i + j;
        assert k / 8 == i && k % 8 == j;
      }
      CellsAre(Played(b, row, col, player, 0));
      for dir := 0 to 8
        invariant Cells() == Played(b, row, col, player, dir)
      {
        PlayedKeepsRay(b, row, col, player, dir);
        BracketsFrame(b, Cells(), row, col, dir, player);
        PlayStep(b, row, col, player, dir);
        var found := CheckDirection(row, col, dir, player);
        if found {
          FlipDirection(row, col, dir, player);
        }
      }
      CountPieces();
      currentPlayer := if player == 'X' then 'O' else 'X';
    }

    /** `get_valid_moves`: scan the squares row by row and collect the
        legal ones. */
    method GetValidMoves(player: char) returns (moves: seq<(int, int)>)
      requires WellFormed()
      ensures moves == LegalMoves(Cells(), player)
    {
      moves := [];
      for i := 0 to 8
        invariant moves == LegalPrefix(Cells(), player, 8 * i)
      {
        for j := 0 to 8
          invariant moves == LegalPrefix(Cells(), player, 8 * i + j)
        {
          var valid := IsValidMove(i, j, player);
          LegalPrefixNext(Cells(), player, i, j);
          if valid {
            moves := moves + [(i, j)];
          }
        }
      }
    }

    /** `has_valid_moves`. */
    method HasValidMoves(player: char) returns (has: bool)
      requires WellFormed()
      ensures has == HasLegal(Cells(), player)
    {
      var moves := GetValidMoves(player);
      NoLegalMoves(Cells(), player);
      has := moves != [];
    }

    /** `is_game_over`: neither colour has a legal move. */
    method IsGameOver() returns (over: bool)
      requires WellFormed()
      ensures over == (!HasLegal(Cells(), 'X') && !HasLegal(Cells(), 'O'))
    {
      var black := HasValidMoves('X');
      var white := HasValidMoves('O');
      over := !black && !white;
    }

    /** `get_board_state`: the 64 cells, row-major. */
    method GetBoardState() returns (state: string)
      requires WellFormed()
      ensures |state| == 64
      ensures forall i, j :: 0 <= i < 8 && 0 <= j < 8 ==> state[8 * i + j] == board[i, j]
      ensures state == Cells()
    {
      state := "";
      for i := 0 to 8
        invariant state == Cells()[..8 * i]
      {
        for j := 0 to 8
          invariant state == Cells()[..8 * i + j]
        {
          CellAt(i, j);
          assert Cells()[..8 * i + j + 1] == Cells()[..8 * i + j] + [Cells()[8 * i + j]];
          state := state + [board[i, j]];
        }
      }
      assert Cells()[..64] == Cells();
      forall i, j | 0 <= i < 8 && 0 <= j < 8 ensures state[8 * i + j] == board[i, j] {
        CellAt(i, j);
      }
    }

    /** `set_board_state`: a string of any length other than 64 is ignored;
        otherwise its characters are copied row-major, unchecked, and the
        discs are recounted. */
    method SetBoardState(state: string)
      requires Valid()
      modifies board, this`blackCount, this`whiteCount
      ensures Valid() && currentPlayer == old(currentPlayer)
      ensures |state| != 64 ==> Cells() == old(Cells()) && blackCount == old(blackCount) && whiteCount == old(whiteCount)
      ensures |state| == 64 ==> Cells() == state
    {
      if |state| != 64 {
        return;
      }
      var idx := 0;
      for i := 0 to 8
        invariant idx == 8 * i
        invariant forall r, c :: 0 <= r < i && 0 <= c < 8 ==> board[r, c] == state[8 * r + c]
      {
        for j := 0 to 8
          invariant idx == 8 * i + j
          invariant forall r, c :: 0 <= r < 8 && 0 <= c < 8 && (r < i || (r == i && c < j)) ==> board[r, c] == state[8 * r + c]
        {
          board[i, j] := state[idx];
          idx := idx + 1;
        }
      }
      CellsAre(state);
      CountPieces();
    }

    /** `get_piece`: the cell, or '*' off the board. */
    method GetPiece(row: int, col: int) returns (piece: char)
      requires WellFormed()
      ensures IsValidPos(row, col) ==> piece == board[row, col]
      ensures !IsValidPos(row, col) ==> piece == '*'
      ensures piece == Piece(Cells(), row, col)
    {
      if !IsValidPos(row, col) {
        return '*';
      }
      CellAt(row, col);
      return board[row, col];
    }

    /** `get_result`: recount, then compare the two colours. */
    method GetResult() returns (result: string)
      requires WellFormed()
      modifies this`blackCount, this`whiteCount
      ensures Valid()
      ensures result == Outcome(Count(Cells(), 'X'), Count(Cells(), 'O'))
    {
      CountPieces();
      if blackCount > whiteCount {
        result := "X wins!";
      } else if whiteCount > blackCount {
        result := "O wins!";
      } else {
        result := "Draw!";
      }
    }
  }
}
