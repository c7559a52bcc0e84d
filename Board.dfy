/** Rules of the Reversi board shared by the JavaScript engine (api/index.js)
    and the Python engine it was ported from (api/game_logic.py).

    A board is an 8x8 grid of integers: 0 is an empty cell, 1 and 2 are the
    two colours, and the opponent of `color` is `3 - color`. Neither engine
    validates cell values or colours, so nothing here restricts them either;
    only the disc-count lemmas at the end assume a real colour.

    The predicates in this module are the reference definitions the engines'
    loops are proved against. They are stated with quantifiers over distances
    along a ray rather than as scans, so that "the ray reaches a mover disc
    before an empty cell or the edge" is said outright. */
module Board {

  type Grid = seq<seq<int>>

  const Empty := 0

  /** The eight compass offsets, in the order both engines scan them. */
  const Directions: seq<(int, int)> :=
    [(-1, -1), (-1, 0), (-1, 1), (0, -1), (0, 1), (1, -1), (1, 0), (1, 1)]

  predicate IsBoard(b: Grid) {
    |b| == 8 && forall i :: 0 <= i < 8 ==> |b[i]| == 8
  }

  predicate InBounds(r: int, c: int) {
    0 <= r < 8 && 0 <= c < 8
  }

  predicate IsDirection(dr: int, dc: int) {
    -1 <= dr <= 1 && -1 <= dc <= 1 && (dr != 0 || dc != 0)
  }

  /** The opponent of a colour, `3 - color` in both engines. */
  function Opponent(color: int): (o: int)
    ensures o != color
    ensures color == 1 <==> o == 2
    ensures color == 2 <==> o == 1
  {
    3 - color
  }

  /** The board of a two-dimensional array, row by row. */
  function Snapshot(a: array2<int>): (b: Grid)
    reads a
    requires a.Length0 == 8 && a.Length1 == 8
    ensures IsBoard(b)
    ensures forall i, j :: InBounds(i, j) ==> b[i][j] == a[i, j]
  {
    seq(8, i requires 0 <= i < 8 reads a => seq(8, j requires 0 <= j < 8 reads a => a[i, j]))
  }

  // ---------------------------------------------------------------------
  // Rays

  /** The coordinate reached from `x` after `k` steps of `d`, for `d` in {-1, 0, 1}. */
  function Along(x: int, d: int, k: int): int {
    if d < 0 then x - k else if d > 0 then x + k else x
  }

  /** The cell `k` steps from (r, c) in direction (dr, dc) is on the board. */
  predicate OnBoard(r: int, c: int, dr: int, dc: int, k: int) {
    InBounds(Along(r, dr, k), Along(c, dc, k))
  }

  /** The content of the cell `k` steps from (r, c) in direction (dr, dc). */
  function At(b: Grid, r: int, c: int, dr: int, dc: int, k: int): int
    requires IsBoard(b) && OnBoard(r, c, dr, dc, k)
  {
    b[Along(r, dr, k)][Along(c, dc, k)]
  }

  /** Walking from (r, c) along (dr, dc), the k-th cell is the first that is
      empty or holds `color`, and it holds `color` (not an empty cell). */
  predicate Reaches(b: Grid, r: int, c: int, dr: int, dc: int, color: int, k: int)
    requires IsBoard(b)
  {
    && 1 <= k
    && OnBoard(r, c, dr, dc, k) && At(b, r, c, dr, dc, k) != Empty && At(b, r, c, dr, dc, k) == color
    && forall m :: 1 <= m < k ==>
         OnBoard(r, c, dr, dc, m) && At(b, r, c, dr, dc, m) != Empty && At(b, r, c, dr, dc, m) != color
  }

  /** hasFlippable / has_flippable: the adjacent cell in direction (dr, dc)
      is on the board and holds `opponent`, and the ray reaches a `color`
      cell before an empty cell or the board edge. */
  predicate HasFlippable(b: Grid, r: int, c: int, dr: int, dc: int, color: int, opponent: int)
    requires IsBoard(b)
  {
    && OnBoard(r, c, dr, dc, 1) && At(b, r, c, dr, dc, 1) == opponent
    && exists k :: 1 <= k < 8 && Reaches(b, r, c, dr, dc, color, k)
  }

  /** canPlace / can_place: the target is empty and some direction has a flip run. */
  predicate CanPlace(b: Grid, r: int, c: int, color: int)
    requires IsBoard(b) && InBounds(r, c)
  {
    && b[r][c] == Empty
    && exists d :: 0 <= d < 8 && HasFlippable(b, r, c, Directions[d].0, Directions[d].1, color, Opponent(color))
  }

  /** Position of a cell in row-major order; getValidMoves lists cells in this order. */
  function RowMajor(cell: (int, int)): int {
    cell.0 * 8 + cell.1
  }

  /** The legal cells of rows 0..n-1, in row-major order. */
  function LegalRows(b: Grid, color: int, n: int): seq<(int, int)>
    requires IsBoard(b) && 0 <= n <= 8
  {
    if n == 0 then [] else LegalRows(b, color, n - 1) + LegalInRow(b, color, n - 1, 8)
  }

  /** The legal cells of row i among columns 0..n-1, left to right. */
  function LegalInRow(b: Grid, color: int, i: int, n: int): seq<(int, int)>
    requires IsBoard(b) && 0 <= i < 8 && 0 <= n <= 8
  {
    if n == 0 then []
    else LegalInRow(b, color, i, n - 1) + if CanPlace(b, i, n - 1, color) then [(i, n - 1)] else []
  }

  /** The cells getValidMoves / get_valid_moves report, row-major. */
  function LegalMoves(b: Grid, color: int): seq<(int, int)>
    requires IsBoard(b)
  {
    LegalRows(b, color, 8)
  }

  /** Cells listed in strictly increasing row-major order, hence each once. */
  predicate RowMajorIncreasing(s: seq<(int, int)>) {
    forall p, q :: 0 <= p < q < |s| ==> RowMajor(s[p]) < RowMajor(s[q])
  }

  /** Concatenating two increasing lists whose ranges do not overlap. */
  lemma IncreasingAppend(s: seq<(int, int)>, t: seq<(int, int)>, bound: int)
    requires RowMajorIncreasing(s) && RowMajorIncreasing(t)
    requires forall m :: m in s ==> RowMajor(m) < bound
    requires forall m :: m in t ==> bound <= RowMajor(m)
    ensures RowMajorIncreasing(s + t)
  {
    forall p, q | 0 <= p < q < |s + t| ensures RowMajor((s + t)[p]) < RowMajor((s + t)[q]) {
      if q < |s| {
        assert (s + t)[p] == s[p] && (s + t)[q] == s[q];
      } else if p < |s| {
        assert (s + t)[p] == s[p] && (s + t)[q] == t[q - |s|];
        assert s[p] in s && t[q - |s|] in t;
      } else {
        assert (s + t)[p] == t[p - |s|] && (s + t)[q] == t[q - |s|];
      }
    }
  }

  lemma {:induction false} LegalInRowSound(b: Grid, color: int, i: int, n: int)
    requires IsBoard(b) && 0 <= i < 8 && 0 <= n <= 8
    ensures forall m :: m in LegalInRow(b, color, i, n) ==> m.0 == i && 0 <= m.1 < n && CanPlace(b, i, m.1, color)
  {
    if n > 0 {
      LegalInRowSound(b, color, i, n - 1);
    }
  }

  lemma {:induction false} LegalInRowComplete(b: Grid, color: int, i: int, n: int)
    requires IsBoard(b) && 0 <= i < 8 && 0 <= n <= 8
    ensures forall j :: 0 <= j < n && CanPlace(b, i, j, color) ==> (i, j) in LegalInRow(b, color, i, n)
  {
    if n > 0 {
      LegalInRowComplete(b, color, i, n - 1);
    }
  }

  lemma {:induction false} LegalInRowIncreasing(b: Grid, color: int, i: int, n: int)
    requires IsBoard(b) && 0 <= i < 8 && 0 <= n <= 8
    ensures RowMajorIncreasing(LegalInRow(b, color, i, n))
  {
    if n > 0 {
      LegalInRowIncreasing(b, color, i, n - 1);
      LegalInRowSound(b, color, i, n - 1);
      var t: seq<(int, int)> := if CanPlace(b, i, n - 1, color) then [(i, n - 1)] else [];
      IncreasingAppend(LegalInRow(b, color, i, n - 1), t, i * 8 + n - 1);
    }
  }

  lemma {:induction false} LegalRowsSound(b: Grid, color: int, n: int)
    requires IsBoard(b) && 0 <= n <= 8
    ensures forall m :: m in LegalRows(b, color, n) ==> 0 <= m.0 < n && 0 <= m.1 < 8 && CanPlace(b, m.0, m.1, color)
  {
    if n > 0 {
      LegalRowsSound(b, color, n - 1);
      LegalInRowSound(b, color, n - 1, 8);
    }
  }

  lemma {:induction false} LegalRowsComplete(b: Grid, color: int, n: int)
    requires IsBoard(b) && 0 <= n <= 8
    ensures forall i, j :: 0 <= i < n && 0 <= j < 8 && CanPlace(b, i, j, color) ==> (i, j) in LegalRows(b, color, n)
  {
    if n > 0 {
      LegalRowsComplete(b, color, n - 1);
      LegalInRowComplete(b, color, n - 1, 8);
    }
  }

  lemma {:induction false} LegalRowsIncreasing(b: Grid, color: int, n: int)
    requires IsBoard(b) && 0 <= n <= 8
    ensures RowMajorIncreasing(LegalRows(b, color, n))
  {
    if n > 0 {
      LegalRowsIncreasing(b, color, n - 1);
      LegalRowsSound(b, color, n - 1);
      LegalInRowIncreasing(b, color, n - 1, 8);
      LegalInRowSound(b, color, n - 1, 8);
      IncreasingAppend(LegalRows(b, color, n - 1), LegalInRow(b, color, n - 1, 8), (n - 1) * 8);
    }
  }

  /** getValidMoves returns exactly the cells where canPlace holds, each
      once, in row-major order. */
  lemma LegalMovesExact(b: Grid, color: int)
    requires IsBoard(b)
    ensures forall m :: m in LegalMoves(b, color) <==> InBounds(m.0, m.1) && CanPlace(b, m.0, m.1, color)
    ensures RowMajorIncreasing(LegalMoves(b, color))
  {
    LegalRowsSound(b, color, 8);
    LegalRowsComplete(b, color, 8);
    LegalRowsIncreasing(b, color, 8);
  }

  // ---------------------------------------------------------------------
  // The effect of a move

  function Sign(x: int): int {
    if x > 0 then 1 else if x < 0 then -1 else 0
  }

  function Abs(x: int): int {
    if x < 0 then -x else x
  }

  /** (i, j) is a cell other than (r, c) on one of the eight rays from (r, c). */
  predicate Aligned(r: int, c: int, i: int, j: int) {
    (i != r || j != c) && (i == r || j == c || Abs(i - r) == Abs(j - c))
  }

  /** Number of steps from (r, c) to an aligned cell (i, j). */
  function Dist(r: int, c: int, i: int, j: int): int {
    if Abs(i - r) < Abs(j - c) then Abs(j - c) else Abs(i - r)
  }

  /** The k-th cell along (dr, dc) is converted by a move at (r, c): the
      direction has a flip run and cells 1..k all hold the opponent, which is
      what the engines' `while (cell == opponent)` flip loop walks over. */
  predicate InRun(b: Grid, r: int, c: int, dr: int, dc: int, color: int, k: int)
    requires IsBoard(b)
  {
    && HasFlippable(b, r, c, dr, dc, color, Opponent(color))
    && 1 <= k
    && forall m :: 1 <= m <= k ==> OnBoard(r, c, dr, dc, m) && At(b, r, c, dr, dc, m) == Opponent(color)
  }

  /** Cell (i, j) is flipped by `color` playing at (r, c). */
  predicate Captured(b: Grid, r: int, c: int, color: int, i: int, j: int)
    requires IsBoard(b)
  {
    Aligned(r, c, i, j) && InRun(b, r, c, Sign(i - r), Sign(j - c), color, Dist(r, c, i, j))
  }

  /** The board after `color` plays at (r, c): the target holds `color`,
      every captured cell went from the opponent to `color`, and every other
      cell is as it was. */
  function Moved(b: Grid, r: int, c: int, color: int): (m: Grid)
    requires IsBoard(b) && InBounds(r, c)
    ensures IsBoard(m)
    ensures m[r][c] == color
    ensures forall i, j :: InBounds(i, j) && Captured(b, r, c, color, i, j) ==>
              b[i][j] == Opponent(color) && m[i][j] == color
    ensures forall i, j :: InBounds(i, j) && (i, j) != (r, c) && !Captured(b, r, c, color, i, j) ==>
              m[i][j] == b[i][j]
  {
    var m := seq(8, i requires 0 <= i < 8 =>
               seq(8, j requires 0 <= j < 8 =>
                 if (i, j) == (r, c) || Captured(b, r, c, color, i, j) then color else b[i][j]));
    forall i, j | InBounds(i, j) && Captured(b, r, c, color, i, j)
      ensures b[i][j] == Opponent(color)
    {
      CellOfRay(r, c, i, j);
      var k := Dist(r, c, i, j);
      assert At(b, r, c, Sign(i - r), Sign(j - c), k) == Opponent(color);
    }
    m
  }

  // ---------------------------------------------------------------------
  // Geometry of rays

  /** The k-th cell of a ray is aligned with its origin, lies in that
      direction and at distance k. */
  lemma RayCell(r: int, c: int, dr: int, dc: int, k: int)
    requires IsDirection(dr, dc) && 1 <= k
    ensures Aligned(r, c, Along(r, dr, k), Along(c, dc, k))
    ensures Sign(Along(r, dr, k) - r) == dr && Sign(Along(c, dc, k) - c) == dc
    ensures Dist(r, c, Along(r, dr, k), Along(c, dc, k)) == k
  {
  }

  /** An aligned cell is the Dist-th cell of the ray in its direction. */
  lemma CellOfRay(r: int, c: int, i: int, j: int)
    requires Aligned(r, c, i, j)
    ensures IsDirection(Sign(i - r), Sign(j - c)) && 1 <= Dist(r, c, i, j)
    ensures Along(r, Sign(i - r), Dist(r, c, i, j)) == i && Along(c, Sign(j - c), Dist(r, c, i, j)) == j
  {
  }

  /** Steps a coordinate can still take in direction `d` before it leaves 0..7. */
  function StepsLeft(x: int, d: int): int {
    if d > 0 then 8 - x else if d < 0 then x + 1 else 0
  }

  /** A ray that starts and ends on the board stays on it in between. */
  lemma RayConvex(r: int, c: int, dr: int, dc: int, t: int, k: int)
    requires InBounds(r, c) && OnBoard(r, c, dr, dc, k) && 0 <= t <= k
    ensures OnBoard(r, c, dr, dc, t)
  {
  }

  /** A ray from a cell on the board leaves it within 7 steps. */
  lemma RayLength(r: int, c: int, dr: int, dc: int, k: int)
    requires InBounds(r, c) && IsDirection(dr, dc) && OnBoard(r, c, dr, dc, k)
    ensures k < 8
  {
  }

  /** Cells 1..t-1 of the ray all hold `v`: the part of a flip run the
      flip loop has walked over. */
  predicate RunOf(b: Grid, r: int, c: int, dr: int, dc: int, v: int, t: int)
    requires IsBoard(b)
  {
    forall m :: 1 <= m < t ==> OnBoard(r, c, dr, dc, m) && At(b, r, c, dr, dc, m) == v
  }

  /** Cells 1..t-1 of the ray are occupied and none holds `color`: the
      part of the ray hasFlippable has walked over. */
  predicate ClearRun(b: Grid, r: int, c: int, dr: int, dc: int, color: int, t: int)
    requires IsBoard(b)
  {
    forall m :: 1 <= m < t ==> OnBoard(r, c, dr, dc, m) && At(b, r, c, dr, dc, m) != Empty && At(b, r, c, dr, dc, m) != color
  }

  /** The flip loop steps over one more opponent disc of a run that ends at
      a `color` disc at distance `last`. */
  lemma RunOfStep(b: Grid, r: int, c: int, dr: int, dc: int, color: int, t: int, last: int)
    requires IsBoard(b) && InBounds(r, c) && 1 <= t <= last
    requires Reaches(b, r, c, dr, dc, color, last) && RunOf(b, r, c, dr, dc, Opponent(color), t)
    requires OnBoard(r, c, dr, dc, t) && At(b, r, c, dr, dc, t) == Opponent(color)
    ensures t + 1 <= last && OnBoard(r, c, dr, dc, t + 1) && RunOf(b, r, c, dr, dc, Opponent(color), t + 1)
  {
    RayConvex(r, c, dr, dc, t + 1, last);
  }

  /** hasFlippable steps over one more occupied cell that is not `color`. */
  lemma ClearRunStep(b: Grid, r: int, c: int, dr: int, dc: int, color: int, t: int)
    requires IsBoard(b) && 1 <= t && ClearRun(b, r, c, dr, dc, color, t)
    requires OnBoard(r, c, dr, dc, t) && At(b, r, c, dr, dc, t) != Empty && At(b, r, c, dr, dc, t) != color
    ensures ClearRun(b, r, c, dr, dc, color, t + 1)
  {
  }

  /** hasFlippable finds `color` at the t-th cell after a clear run. */
  lemma FoundColor(b: Grid, r: int, c: int, dr: int, dc: int, color: int, t: int)
    requires IsBoard(b) && InBounds(r, c) && IsDirection(dr, dc) && 1 <= t && ClearRun(b, r, c, dr, dc, color, t)
    requires OnBoard(r, c, dr, dc, t) && At(b, r, c, dr, dc, t) == color && color != Empty
    ensures t < 8 && Reaches(b, r, c, dr, dc, color, t)
  {
    RayLength(r, c, dr, dc, t);
  }

  /** A ray whose t-th cell is off the board or empty, and whose earlier
      cells do not hold `color`, never reaches `color`. */
  lemma BlockedRay(b: Grid, r: int, c: int, dr: int, dc: int, color: int, t: int)
    requires IsBoard(b) && InBounds(r, c) && 1 <= t && ClearRun(b, r, c, dr, dc, color, t)
    requires !OnBoard(r, c, dr, dc, t) || At(b, r, c, dr, dc, t) == Empty
    ensures forall k :: !Reaches(b, r, c, dr, dc, color, k)
  {
    forall k | Reaches(b, r, c, dr, dc, color, k) ensures false {
      if k > t {
        RayConvex(r, c, dr, dc, t, k);
      }
    }
  }

  /** Position of a direction in `Directions`. */
  function DirIndex(dr: int, dc: int): int {
    var k := 3 * (dr + 1) + (dc + 1);
    if k > 4 then k - 1 else k
  }

  lemma DirectionIndex(d: int)
    requires 0 <= d < 8
    ensures IsDirection(Directions[d].0, Directions[d].1)
    ensures DirIndex(Directions[d].0, Directions[d].1) == d
  {
  }

  lemma IndexDirection(dr: int, dc: int)
    requires IsDirection(dr, dc)
    ensures 0 <= DirIndex(dr, dc) < 8 && Directions[DirIndex(dr, dc)] == (dr, dc)
  {
  }

  /** Two boards that agree on the cells of two grids agree as grids. */
  lemma GridsEqual(a: Grid, b: Grid)
    requires IsBoard(a) && IsBoard(b)
    requires forall i, j :: InBounds(i, j) ==> a[i][j] == b[i][j]
    ensures a == b
  {
    forall i | 0 <= i < 8 ensures a[i] == b[i] {
      assert forall j :: 0 <= j < 8 ==> a[i][j] == b[i][j];
    }
  }

  // ---------------------------------------------------------------------
  // Intermediate boards of the executeMove / execute_move sweep

  /** Cell (i, j) once the target is set, the directions before `n` are
      flipped, and the first t - 1 cells of direction `n` are flipped. */
  ghost function Stage(b: Grid, r: int, c: int, color: int, n: int, t: int, i: int, j: int): int
    requires IsBoard(b) && InBounds(i, j)
  {
    if (i, j) == (r, c) then color
    else if !Aligned(r, c, i, j) then b[i][j]
    else if DirIndex(Sign(i - r), Sign(j - c)) < n && Captured(b, r, c, color, i, j) then color
    else if DirIndex(Sign(i - r), Sign(j - c)) == n && Dist(r, c, i, j) < t then color
    else b[i][j]
  }

  /** Before the sweep only the target differs from the input board. */
  lemma StageStart(b: Grid, r: int, c: int, color: int)
    requires IsBoard(b)
    ensures forall i, j :: InBounds(i, j) ==>
              Stage(b, r, c, color, 0, 1, i, j) == if (i, j) == (r, c) then color else b[i][j]
  {
    forall i, j | InBounds(i, j)
      ensures Stage(b, r, c, color, 0, 1, i, j) == if (i, j) == (r, c) then color else b[i][j]
    {
      if Aligned(r, c, i, j) {
        CellOfRay(r, c, i, j);
        IndexDirection(Sign(i - r), Sign(j - c));
      }
    }
  }

  /** After all eight directions the sweep has produced Moved. */
  lemma StageEnd(b: Grid, r: int, c: int, color: int)
    requires IsBoard(b) && InBounds(r, c)
    ensures forall i, j :: InBounds(i, j) ==> Stage(b, r, c, color, 8, 1, i, j) == Moved(b, r, c, color)[i][j]
  {
    forall i, j | InBounds(i, j)
      ensures Stage(b, r, c, color, 8, 1, i, j) == Moved(b, r, c, color)[i][j]
    {
      if Aligned(r, c, i, j) {
        CellOfRay(r, c, i, j);
        IndexDirection(Sign(i - r), Sign(j - c));
      }
    }
  }

  /** The cells of direction `d` not yet reached still hold their input value. */
  lemma StageAhead(b: Grid, r: int, c: int, color: int, d: int, dr: int, dc: int, t: int, k: int)
    requires IsBoard(b) && 0 <= d < 8 && Directions[d] == (dr, dc) && 1 <= t <= k
    requires OnBoard(r, c, dr, dc, k)
    ensures Stage(b, r, c, color, d, t, Along(r, dr, k), Along(c, dc, k)) == At(b, r, c, dr, dc, k)
  {
    DirectionIndex(d);
    RayCell(r, c, dr, dc, k);
  }

  /** Flipping the t-th cell of direction `d` advances the sweep by one cell. */
  lemma StageFlip(b: Grid, r: int, c: int, color: int, d: int, t: int)
    requires IsBoard(b) && 0 <= d < 8 && 1 <= t
    requires OnBoard(r, c, Directions[d].0, Directions[d].1, t)
    ensures forall i, j :: InBounds(i, j) ==>
              Stage(b, r, c, color, d, t + 1, i, j) ==
              if (i, j) == (Along(r, Directions[d].0, t), Along(c, Directions[d].1, t)) then color
              else Stage(b, r, c, color, d, t, i, j)
  {
    var (dr, dc) := Directions[d];
    DirectionIndex(d);
    RayCell(r, c, dr, dc, t);
    forall i, j | InBounds(i, j) && Aligned(r, c, i, j) && DirIndex(Sign(i - r), Sign(j - c)) == d
      ensures Dist(r, c, i, j) == t ==> (i, j) == (Along(r, dr, t), Along(c, dc, t))
    {
      CellOfRay(r, c, i, j);
      IndexDirection(Sign(i - r), Sign(j - c));
    }
  }

  /** When the flip loop of direction `d` stops at its t-th cell (or does not
      run because the direction has no flip run), the cells it flipped are
      exactly the captured cells of that direction. */
  predicate FlipLoopDone(b: Grid, r: int, c: int, color: int, d: int, t: int)
    requires IsBoard(b) && 0 <= d < 8
  {
    var (dr, dc) := Directions[d];
    if HasFlippable(b, r, c, dr, dc, color, Opponent(color)) then
      && RunOf(b, r, c, dr, dc, Opponent(color), t)
      && OnBoard(r, c, dr, dc, t) && At(b, r, c, dr, dc, t) != Opponent(color)
    else t == 1
  }

  lemma StageNextCell(b: Grid, r: int, c: int, color: int, d: int, t: int, i: int, j: int)
    requires IsBoard(b) && InBounds(r, c) && 0 <= d < 8 && 1 <= t && InBounds(i, j)
    requires FlipLoopDone(b, r, c, color, d, t)
    ensures Stage(b, r, c, color, d, t, i, j) == Stage(b, r, c, color, d + 1, 1, i, j)
  {
    if Aligned(r, c, i, j) {
      CellOfRay(r, c, i, j);
      IndexDirection(Sign(i - r), Sign(j - c));
      var (dr, dc) := (Sign(i - r), Sign(j - c));
      var k := Dist(r, c, i, j);
      if DirIndex(dr, dc) == d && HasFlippable(b, r, c, dr, dc, color, Opponent(color)) {
        if k < t {
          assert InRun(b, r, c, dr, dc, color, k);
        } else {
          assert !(OnBoard(r, c, dr, dc, t) && At(b, r, c, dr, dc, t) == Opponent(color));
        }
      }
    }
  }

  lemma StageNext(b: Grid, r: int, c: int, color: int, d: int, t: int)
    requires IsBoard(b) && InBounds(r, c) && 0 <= d < 8 && 1 <= t
    requires FlipLoopDone(b, r, c, color, d, t)
    ensures forall i, j :: InBounds(i, j) ==> Stage(b, r, c, color, d, t, i, j) == Stage(b, r, c, color, d + 1, 1, i, j)
  {
    forall i, j | InBounds(i, j)
      ensures Stage(b, r, c, color, d, t, i, j) == Stage(b, r, c, color, d + 1, 1, i, j)
    {
      StageNextCell(b, r, c, color, d, t, i, j);
    }
  }

  /** hasFlippable reads only the cells of its ray beyond the origin. */
  lemma HasFlippableFrame(b1: Grid, b2: Grid, r: int, c: int, dr: int, dc: int, color: int, opponent: int)
    requires IsBoard(b1) && IsBoard(b2)
    requires forall k :: 1 <= k && OnBoard(r, c, dr, dc, k) ==> At(b1, r, c, dr, dc, k) == At(b2, r, c, dr, dc, k)
    ensures HasFlippable(b1, r, c, dr, dc, color, opponent) == HasFlippable(b2, r, c, dr, dc, color, opponent)
  {
    forall k | 1 <= k < 8 ensures Reaches(b1, r, c, dr, dc, color, k) == Reaches(b2, r, c, dr, dc, color, k) {
    }
  }

  // ---------------------------------------------------------------------
  // What a move changes, and disc counts

  /** A cell other than the target that a move changes went from the
      opponent to `color` and lies on a direction whose hasFlippable held. */
  lemma MovedChanges(b: Grid, r: int, c: int, color: int, i: int, j: int)
    requires IsBoard(b) && InBounds(r, c) && InBounds(i, j) && (i, j) != (r, c)
    requires Moved(b, r, c, color)[i][j] != b[i][j]
    ensures b[i][j] == Opponent(color) && Moved(b, r, c, color)[i][j] == color
    ensures exists d, k :: 0 <= d < 8 && 1 <= k &&
              HasFlippable(b, r, c, Directions[d].0, Directions[d].1, color, Opponent(color)) &&
              i == Along(r, Directions[d].0, k) && j == Along(c, Directions[d].1, k)
  {
    CellOfRay(r, c, i, j);
    var (dr, dc) := (Sign(i - r), Sign(j - c));
    IndexDirection(dr, dc);
    var d := DirIndex(dr, dc);
    assert HasFlippable(b, r, c, Directions[d].0, Directions[d].1, color, Opponent(color));
    assert i == Along(r, Directions[d].0, Dist(r, c, i, j)) && j == Along(c, Directions[d].1, Dist(r, c, i, j));
  }

  function CountRow(s: seq<int>, v: int): nat {
    if s == [] then 0 else (if s[0] == v then 1 else 0) + CountRow(s[1..], v)
  }

  /** Number of cells holding `v`. */
  function Count(b: Grid, v: int): nat {
    if b == [] then 0 else CountRow(b[0], v) + Count(b[1..], v)
  }

  predicate SameShape(a: Grid, b: Grid) {
    |a| == |b| && forall i :: 0 <= i < |a| ==> |a[i]| == |b[i]|
  }

  function ConvertedRow(s: seq<int>, t: seq<int>, from: int, to: int): nat
    requires |s| == |t|
  {
    if s == [] then 0 else (if s[0] == from && t[0] == to then 1 else 0) + ConvertedRow(s[1..], t[1..], from, to)
  }

  /** Number of cells that hold `from` in `a` and `to` in `b`. */
  function Converted(a: Grid, b: Grid, from: int, to: int): nat
    requires SameShape(a, b)
  {
    if a == [] then 0 else ConvertedRow(a[0], b[0], from, to) + Converted(a[1..], b[1..], from, to)
  }

  /** Number of discs a move flips: the opponent discs that became `color`. */
  function Flips(b: Grid, r: int, c: int, color: int): nat
    requires IsBoard(b) && InBounds(r, c)
  {
    Converted(b, Moved(b, r, c, color), Opponent(color), color)
  }

  lemma {:induction false} RowCounts(s: seq<int>, t: seq<int>, color: int, opp: int)
    requires |s| == |t| && color != Empty && opp != Empty && color != opp
    requires forall j :: 0 <= j < |s| ==> t[j] == s[j] || (t[j] == color && (s[j] == Empty || s[j] == opp))
    ensures CountRow(t, Empty) == CountRow(s, Empty) - ConvertedRow(s, t, Empty, color)
    ensures CountRow(t, color) == CountRow(s, color) + ConvertedRow(s, t, Empty, color) + ConvertedRow(s, t, opp, color)
    ensures CountRow(t, opp) == CountRow(s, opp) - ConvertedRow(s, t, opp, color)
  {
    if s != [] {
      RowCounts(s[1..], t[1..], color, opp);
    }
  }

  /** When every cell either keeps its value or becomes `color` from empty
      or from `opp`, the counts move by exactly the conversions. */
  lemma {:induction false} GridCounts(a: Grid, b: Grid, color: int, opp: int)
    requires SameShape(a, b) && color != Empty && opp != Empty && color != opp
    requires forall i, j :: 0 <= i < |a| && 0 <= j < |a[i]| ==>
               b[i][j] == a[i][j] || (b[i][j] == color && (a[i][j] == Empty || a[i][j] == opp))
    ensures Count(b, Empty) == Count(a, Empty) - Converted(a, b, Empty, color)
    ensures Count(b, color) == Count(a, color) + Converted(a, b, Empty, color) + Converted(a, b, opp, color)
    ensures Count(b, opp) == Count(a, opp) - Converted(a, b, opp, color)
  {
    if a != [] {
      RowCounts(a[0], b[0], color, opp);
      assert forall i :: 0 <= i < |a[1..]| ==> a[1..][i] == a[i + 1] && b[1..][i] == b[i + 1];
      GridCounts(a[1..], b[1..], color, opp);
    }
  }

  lemma {:induction false} ConvertedRowAt(s: seq<int>, t: seq<int>, from: int, to: int, k: int)
    requires |s| == |t| && -1 <= k < |s|
    requires forall j :: 0 <= j < |s| ==> (s[j] == from && t[j] == to <==> j == k)
    ensures ConvertedRow(s, t, from, to) == if k < 0 then 0 else 1
  {
    if s != [] {
      ConvertedRowAt(s[1..], t[1..], from, to, if k <= 0 then -1 else k - 1);
    }
  }

  /** Exactly one cell, (i0, j0), holds `from` in `a` and `to` in `b`. */
  lemma {:induction false} ConvertedOnce(a: Grid, b: Grid, from: int, to: int, i0: int, j0: int)
    requires SameShape(a, b) && 0 <= i0 < |a| && 0 <= j0 < |a[i0]|
    requires forall i, j :: 0 <= i < |a| && 0 <= j < |a[i]| ==> (a[i][j] == from && b[i][j] == to <==> (i, j) == (i0, j0))
    ensures Converted(a, b, from, to) == 1
  {
    assert forall i, j :: 0 <= i < |a[1..]| && 0 <= j < |a[1..][i]| ==> a[1..][i][j] == a[i + 1][j] && b[1..][i][j] == b[i + 1][j];
    if i0 == 0 {
      ConvertedRowAt(a[0], b[0], from, to, j0);
      ConvertedNone(a[1..], b[1..], from, to);
    } else {
      ConvertedRowAt(a[0], b[0], from, to, -1);
      ConvertedOnce(a[1..], b[1..], from, to, i0 - 1, j0);
    }
  }

  lemma {:induction false} ConvertedNone(a: Grid, b: Grid, from: int, to: int)
    requires SameShape(a, b)
    requires forall i, j :: 0 <= i < |a| && 0 <= j < |a[i]| ==> !(a[i][j] == from && b[i][j] == to)
    ensures Converted(a, b, from, to) == 0
  {
    if a != [] {
      ConvertedRowAt(a[0], b[0], from, to, -1);
      assert forall i, j :: 0 <= i < |a[1..]| && 0 <= j < |a[1..][i]| ==> a[1..][i][j] == a[i + 1][j] && b[1..][i][j] == b[i + 1][j];
      ConvertedNone(a[1..], b[1..], from, to);
    }
  }

  /** A move on an empty cell by colour 1 or 2 fills exactly one empty
      cell; the mover gains that disc plus every flipped disc, and the
      opponent loses exactly the flipped discs. */
  lemma MoveCounts(b: Grid, r: int, c: int, color: int)
    requires IsBoard(b) && InBounds(r, c) && b[r][c] == Empty && (color == 1 || color == 2)
    ensures Count(Moved(b, r, c, color), Empty) == Count(b, Empty) - 1
    ensures Count(Moved(b, r, c, color), color) == Count(b, color) + 1 + Flips(b, r, c, color)
    ensures Count(Moved(b, r, c, color), Opponent(color)) == Count(b, Opponent(color)) - Flips(b, r, c, color)
  {
    var m := Moved(b, r, c, color);
    GridCounts(b, m, color, Opponent(color));
    ConvertedOnce(b, m, Empty, color, r, c);
  }

  lemma {:induction false} ConvertedRowPositive(s: seq<int>, t: seq<int>, from: int, to: int, k: int)
    requires |s| == |t| && 0 <= k < |s| && s[k] == from && t[k] == to
    ensures ConvertedRow(s, t, from, to) >= 1
  {
    if k > 0 {
      ConvertedRowPositive(s[1..], t[1..], from, to, k - 1);
    }
  }

  lemma {:induction false} ConvertedPositive(a: Grid, b: Grid, from: int, to: int, i0: int, j0: int)
    requires SameShape(a, b) && 0 <= i0 < |a| && 0 <= j0 < |a[i0]| && a[i0][j0] == from && b[i0][j0] == to
    ensures Converted(a, b, from, to) >= 1
  {
    if i0 == 0 {
      ConvertedRowPositive(a[0], b[0], from, to, j0);
    } else {
      ConvertedPositive(a[1..], b[1..], from, to, i0 - 1, j0);
    }
  }

  /** The disc next to (r, c) in a direction with a flip run is captured. */
  lemma AdjacentCaptured(b: Grid, r: int, c: int, color: int, dr: int, dc: int)
    requires IsBoard(b) && InBounds(r, c) && IsDirection(dr, dc)
    requires HasFlippable(b, r, c, dr, dc, color, Opponent(color))
    ensures InBounds(r + dr, c + dc) && Captured(b, r, c, color, r + dr, c + dc)
  {
    RayCell(r, c, dr, dc, 1);
    assert InRun(b, r, c, dr, dc, color, 1);
  }

  /** A move that captures some cell flips at least one disc. */
  lemma CapturedFlips(b: Grid, r: int, c: int, color: int, i: int, j: int)
    requires IsBoard(b) && InBounds(r, c) && InBounds(i, j) && Captured(b, r, c, color, i, j)
    ensures Flips(b, r, c, color) >= 1
  {
    var m := Moved(b, r, c, color);
    ConvertedPositive(b, m, Opponent(color), color, i, j);
  }

  /** A legal move flips at least one disc: the adjacent opponent disc of a
      direction with a flip run. */
  lemma LegalMoveFlips(b: Grid, r: int, c: int, color: int)
    requires IsBoard(b) && InBounds(r, c) && CanPlace(b, r, c, color)
    ensures Flips(b, r, c, color) >= 1
  {
    var d :| 0 <= d < 8 && HasFlippable(b, r, c, Directions[d].0, Directions[d].1, color, Opponent(color));
    var (dr, dc) := Directions[d];
    DirectionIndex(d);
    AdjacentCaptured(b, r, c, color, dr, dc);
    CapturedFlips(b, r, c, color, r + dr, c + dc);
  }
}
