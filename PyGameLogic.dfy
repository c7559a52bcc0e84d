/** api/game_logic.py, the original engine. Boards are two-dimensional
    arrays; unlike the JavaScript port, `execute_move` writes into the
    caller's board and returns that same board. Each method is proved
    against the reference predicates of module Board. */
module PyGameLogic {
  import Board

  /** get_valid_moves: the cells where can_place holds, scanned row by row. */
  method GetValidMoves(board: array2<int>, color: int) returns (moves: seq<(int, int)>)
    requires board.Length0 == 8 && board.Length1 == 8
    ensures moves == Board.LegalMoves(Board.Snapshot(board), color)
  {
    ghost var b := Board.Snapshot(board);
    moves := [];
    for r := 0 to 8
      invariant moves == Board.LegalRows(b, color, r)
    {
      for c := 0 to 8
        invariant moves == Board.LegalRows(b, color, r) + Board.LegalInRow(b, color, r, c)
      {
        var ok := CanPlace(board, r, c, color);
        if ok {
          moves := moves + [(r, c)];
        }
      }
    }
  }

  /** can_place: false on an occupied cell, otherwise true exactly when one of
      the eight directions has a flip run. */
  method CanPlace(board: array2<int>, r: int, c: int, color: int) returns (ok: bool)
    requires board.Length0 == 8 && board.Length1 == 8 && Board.InBounds(r, c)
    ensures ok == Board.CanPlace(Board.Snapshot(board), r, c, color)
  {
    if board[r, c] != 0 {
      return false;
    }
    var opponent := 3 - color;
    for d := 0 to |Board.Directions|
      invariant forall e :: 0 <= e < d ==>
                  !Board.HasFlippable(Board.Snapshot(board), r, c, Board.Directions[e].0, Board.Directions[e].1, color, opponent)
    {
      var (dr, dc) := Board.Directions[d];
      Board.DirectionIndex(d);
      var flippable := HasFlippable(board, r, c, dr, dc, color, opponent);
      if flippable {
        return true;
      }
    }
    return false;
  }

  /** has_flippable: the adjacent cell holds `opponent` and the ray reaches a
      `color` cell before an empty cell or the edge of the board. */
  method HasFlippable(board: array2<int>, r: int, c: int, dr: int, dc: int, color: int, opponent: int)
    returns (ok: bool)
    requires board.Length0 == 8 && board.Length1 == 8
    requires Board.InBounds(r, c) && Board.IsDirection(dr, dc)
    ensures ok == Board.HasFlippable(Board.Snapshot(board), r, c, dr, dc, color, opponent)
  {
    ghost var b := Board.Snapshot(board);
    var currR, currC := r + dr, c + dc;
    if !(currR >= 0 && currR < 8 && currC >= 0 && currC < 8) || board[currR, currC] != opponent {
      return false;
    }
    ghost var t := 1;
    while currR >= 0 && currR < 8 && currC >= 0 && currC < 8
      invariant 1 <= t && currR == Board.Along(r, dr, t) && currC == Board.Along(c, dc, t)
      invariant Board.ClearRun(b, r, c, dr, dc, color, t)
      decreases Board.StepsLeft(currR, dr) + Board.StepsLeft(currC, dc)
    {
      if board[currR, currC] == 0 {
        Board.BlockedRay(b, r, c, dr, dc, color, t);
        return false;
      }
      if board[currR, currC] == color {
        Board.FoundColor(b, r, c, dr, dc, color, t);
        return true;
      }
      Board.ClearRunStep(b, r, c, dr, dc, color, t);
      currR, currC := currR + dr, currC + dc;
      t := t + 1;
    }
    Board.BlockedRay(b, r, c, dr, dc, color, t);
    return false;
  }

  /** execute_move: sets the target to `color` and flips every captured
      disc in the caller's board, then returns that same board. */
  method ExecuteMove(board: array2<int>, r: int, c: int, color: int) returns (result: array2<int>)
    requires board.Length0 == 8 && board.Length1 == 8 && Board.InBounds(r, c)
    modifies board
    ensures result == board
    ensures Board.Snapshot(board) == Board.Moved(old(Board.Snapshot(board)), r, c, color)
  {
    ghost var b := Board.Snapshot(board);
    board[r, c] := color;
    var opponent := 3 - color;
    Board.StageStart(b, r, c, color);
    for d := 0 to |Board.Directions|
      invariant forall i, j :: Board.InBounds(i, j) ==> board[i, j] == Board.Stage(b, r, c, color, d, 1, i, j)
    {
      var (dr, dc) := Board.Directions[d];
      FlipDirection(board, r, c, dr, dc, color, opponent, b, d);
    }
    Board.StageEnd(b, r, c, color);
    Board.GridsEqual(Board.Snapshot(board), Board.Moved(b, r, c, color));
    return board;
  }

  /** The body of execute_move's direction loop (api/game_logic.py:35-41): when
      direction d = (dr, dc) has a flip run on `board`, flip it. `b` is
      the input board. */
  method FlipDirection(board: array2<int>, r: int, c: int, dr: int, dc: int, color: int, opponent: int,
                       ghost b: Board.Grid, ghost d: int)
    requires board.Length0 == 8 && board.Length1 == 8 && Board.IsBoard(b) && Board.InBounds(r, c)
    requires 0 <= d < 8 && Board.Directions[d] == (dr, dc) && opponent == Board.Opponent(color)
    requires forall i, j :: Board.InBounds(i, j) ==> board[i, j] == Board.Stage(b, r, c, color, d, 1, i, j)
    modifies board
    ensures forall i, j :: Board.InBounds(i, j) ==> board[i, j] == Board.Stage(b, r, c, color, d + 1, 1, i, j)
  {
    Board.DirectionIndex(d);
    forall k | 1 <= k && Board.OnBoard(r, c, dr, dc, k)
      ensures Board.At(Board.Snapshot(board), r, c, dr, dc, k) == Board.At(b, r, c, dr, dc, k)
    {
      Board.StageAhead(b, r, c, color, d, dr, dc, 1, k);
    }
    Board.HasFlippableFrame(Board.Snapshot(board), b, r, c, dr, dc, color, opponent);
    var flippable := HasFlippable(board, r, c, dr, dc, color, opponent);
    if flippable {
      FlipRun(board, r, c, dr, dc, color, opponent, b, d);
    } else {
      Board.StageNext(b, r, c, color, d, 1);
    }
  }

  /** The flip loop of one direction: starting next to (r, c), turn opponent
      discs into `color` until a cell that is not the opponent's. It never
      leaves the board because the run ends at a `color` cell. */
  method FlipRun(board: array2<int>, r: int, c: int, dr: int, dc: int, color: int, opponent: int,
                 ghost b: Board.Grid, ghost d: int)
    requires board.Length0 == 8 && board.Length1 == 8 && Board.IsBoard(b) && Board.InBounds(r, c)
    requires 0 <= d < 8 && Board.Directions[d] == (dr, dc) && opponent == Board.Opponent(color)
    requires Board.HasFlippable(b, r, c, dr, dc, color, opponent)
    requires forall i, j :: Board.InBounds(i, j) ==> board[i, j] == Board.Stage(b, r, c, color, d, 1, i, j)
    modifies board
    ensures forall i, j :: Board.InBounds(i, j) ==> board[i, j] == Board.Stage(b, r, c, color, d + 1, 1, i, j)
  {
    ghost var last :| 1 <= last < 8 && Board.Reaches(b, r, c, dr, dc, color, last);
    ghost var t := 1;
    var currR, currC := r + dr, c + dc;
    while board[currR, currC] == opponent
      invariant 1 <= t <= last && Board.OnBoard(r, c, dr, dc, t)
      invariant currR == Board.Along(r, dr, t) && currC == Board.Along(c, dc, t)
      invariant Board.RunOf(b, r, c, dr, dc, opponent, t)
      invariant forall i, j :: Board.InBounds(i, j) ==> board[i, j] == Board.Stage(b, r, c, color, d, t, i, j)
      decreases last - t
    {
      Board.StageAhead(b, r, c, color, d, dr, dc, t, t);
      Board.RunOfStep(b, r, c, dr, dc, color, t, last);
      FlipCell(board, r, c, currR, currC, color, b, d, t);
      currR, currC := currR + dr, currC + dc;
      t := t + 1;
    }
    Board.StageAhead(b, r, c, color, d, dr, dc, t, t);
    Board.StageNext(b, r, c, color, d, t);
  }

  /** One turn of the flip loop: the t-th cell (i, j) of direction d takes
      `color`, which extends the sweep by that cell. */
  method FlipCell(board: array2<int>, r: int, c: int, i: int, j: int, color: int,
                  ghost b: Board.Grid, ghost d: int, ghost t: int)
    requires board.Length0 == 8 && board.Length1 == 8 && Board.IsBoard(b) && 0 <= d < 8 && 1 <= t
    requires Board.OnBoard(r, c, Board.Directions[d].0, Board.Directions[d].1, t)
    requires i == Board.Along(r, Board.Directions[d].0, t) && j == Board.Along(c, Board.Directions[d].1, t)
    requires forall i', j' :: Board.InBounds(i', j') ==> board[i', j'] == Board.Stage(b, r, c, color, d, t, i', j')
    modifies board
    ensures forall i', j' :: Board.InBounds(i', j') ==> board[i', j'] == Board.Stage(b, r, c, color, d, t + 1, i', j')
  {
    Board.StageFlip(b, r, c, color, d, t);
    board[i, j] := color;
  }
}
