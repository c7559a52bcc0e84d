/** The standard Othello opening position and two facts about it: Dark's
    legal replies, and the board after Dark plays (2, 3). Both are stated about the reference predicates of
    module Board, which both engines are proved to follow. */
module Opening {
  import Board

  const Dark := 1
  const Light := 2

  /** Content of cell (i, j) in the opening position: Dark at (3, 4) and
      (4, 3), Light at (3, 3) and (4, 4), every other cell empty. */
  function StartCell(i: int, j: int): int {
    if (i, j) == (3, 4) || (i, j) == (4, 3) then Dark
    else if (i, j) == (3, 3) || (i, j) == (4, 4) then Light
    else Board.Empty
  }

  /** `b` is the opening position. */
  ghost predicate IsOpening(b: Board.Grid) {
    Board.IsBoard(b) && forall i, j :: Board.InBounds(i, j) ==> b[i][j] == StartCell(i, j)
  }

  function Initial(): (b: Board.Grid)
    ensures IsOpening(b)
  {
    seq(8, i => seq(8, j => StartCell(i, j)))
  }

  /** Any direction with a flip run for Dark in the opening position starts
      from one of the four cells (2, 3), (3, 2), (4, 5), (5, 4): the run is a
      single Light disc followed by a Dark one, since the only two Light discs
      lie on a diagonal that ends in empty cells. */
  lemma OnlyFourRuns(b: Board.Grid, r: int, c: int, dr: int, dc: int)
    requires IsOpening(b) && Board.InBounds(r, c) && Board.IsDirection(dr, dc)
    requires Board.HasFlippable(b, r, c, dr, dc, Dark, Light)
    ensures (r, c) in [(2, 3), (3, 2), (4, 5), (5, 4)]
  {
    var k :| 1 <= k < 8 && Board.Reaches(b, r, c, dr, dc, Dark, k);
    assert Board.At(b, r, c, dr, dc, 2) == Dark;
  }

  /** A direction with a flip run for Dark from (r, c): the adjacent disc is
      Light and the next one Dark. */
  lemma ShortRun(b: Board.Grid, r: int, c: int, d: int)
    requires IsOpening(b) && Board.InBounds(r, c) && 0 <= d < 8
    requires Board.InBounds(r + 2 * Board.Directions[d].0, c + 2 * Board.Directions[d].1)
    requires StartCell(r + Board.Directions[d].0, c + Board.Directions[d].1) == Light
    requires StartCell(r + 2 * Board.Directions[d].0, c + 2 * Board.Directions[d].1) == Dark
    ensures Board.HasFlippable(b, r, c, Board.Directions[d].0, Board.Directions[d].1, Dark, Light)
  {
    Board.DirectionIndex(d);
    var (dr, dc) := Board.Directions[d];
    assert Board.Along(r, dr, 1) == r + dr && Board.Along(c, dc, 1) == c + dc;
    assert Board.Along(r, dr, 2) == r + 2 * dr && Board.Along(c, dc, 2) == c + 2 * dc;
    assert Board.Reaches(b, r, c, dr, dc, Dark, 2);
  }

  /** Dark may play exactly where the ray rule allows in the opening
      position: the four cells (2, 3), (3, 2), (4, 5) and (5, 4). */
  lemma OpeningLegalCells(b: Board.Grid, i: int, j: int)
    requires IsOpening(b) && Board.InBounds(i, j)
    ensures Board.CanPlace(b, i, j, Dark) <==> (i, j) in [(2, 3), (3, 2), (4, 5), (5, 4)]
  {
    if Board.CanPlace(b, i, j, Dark) {
      var d :| 0 <= d < 8 && Board.HasFlippable(b, i, j, Board.Directions[d].0, Board.Directions[d].1, Dark, Light);
      Board.DirectionIndex(d);
      OnlyFourRuns(b, i, j, Board.Directions[d].0, Board.Directions[d].1);
    } else if (i, j) == (2, 3) {
      ShortRun(b, 2, 3, 6);
    } else if (i, j) == (3, 2) {
      ShortRun(b, 3, 2, 4);
    } else if (i, j) == (4, 5) {
      ShortRun(b, 4, 5, 3);
    } else if (i, j) == (5, 4) {
      ShortRun(b, 5, 4, 1);
    }
  }

  /** Two row-major increasing lists with the same members are equal. */
  lemma {:induction false} IncreasingDetermined(s: seq<(int, int)>, t: seq<(int, int)>)
    requires Board.RowMajorIncreasing(s) && Board.RowMajorIncreasing(t)
    requires forall m :: m in s <==> m in t
    ensures s == t
    decreases |s|
  {
    if s != [] {
      assert s[0] in t;
    }
    if t != [] {
      assert t[0] in s;
    }
    if s != [] {
      var p :| 0 <= p < |t| && t[p] == s[0];
      var q :| 0 <= q < |s| && s[q] == t[0];
      assert Board.RowMajor(t[0]) <= Board.RowMajor(s[0]) <= Board.RowMajor(t[0]);
      assert p == 0;
      forall m ensures m in s[1..] <==> m in t[1..] {
        if m in s[1..] {
          var x :| 1 <= x < |s| && s[x] == m;
          assert Board.RowMajor(s[0]) < Board.RowMajor(m);
          assert m in t;
        }
        if m in t[1..] {
          var y :| 1 <= y < |t| && t[y] == m;
          assert Board.RowMajor(t[0]) < Board.RowMajor(m);
          assert m in s;
        }
      }
      IncreasingDetermined(s[1..], t[1..]);
      assert s == [s[0]] + s[1..] && t == [t[0]] + t[1..];
    }
  }

  /** On the opening position Dark's legal moves are
      (2, 3), (3, 2), (4, 5) and (5, 4), listed in that (row-major) order. */
  lemma OpeningMoves(b: Board.Grid)
    requires IsOpening(b)
    ensures Board.LegalMoves(b, Dark) == [(2, 3), (3, 2), (4, 5), (5, 4)]
  {
    var expected := [(2, 3), (3, 2), (4, 5), (5, 4)];
    assert Board.RowMajorIncreasing(expected);
    Board.LegalMovesExact(b, Dark);
    forall m ensures m in Board.LegalMoves(b, Dark) <==> m in expected {
      if Board.InBounds(m.0, m.1) {
        OpeningLegalCells(b, m.0, m.1);
      }
    }
    IncreasingDetermined(Board.LegalMoves(b, Dark), expected);
  }

  /** Dark playing (2, 3) on the opening position
      flips (3, 3) and nothing else, leaving (4, 4) as the only Light disc. */
  lemma OpeningMove(b: Board.Grid)
    requires IsOpening(b)
    ensures forall i, j :: Board.InBounds(i, j) ==>
              Board.Moved(b, 2, 3, Dark)[i][j] ==
                if (i, j) == (2, 3) || (i, j) == (3, 3) then Dark else StartCell(i, j)
  {
    ShortRun(b, 2, 3, 6);
    Board.AdjacentCaptured(b, 2, 3, Dark, 1, 0);
    forall i, j | Board.InBounds(i, j) && (i, j) != (2, 3) && (i, j) != (3, 3)
      ensures !Board.Captured(b, 2, 3, Dark, i, j)
    {
      if Board.Captured(b, 2, 3, Dark, i, j) {
        assert false;
      }
    }
  }
}
