/** The move engine of skeleton/lib/board.js: `validMove`, `validMoves`,
    `hasMove`, `isOver` and `placePiece`, each stated against a reference
    definition of Othello's rules. */
module Moves {
  import opened Wrappers
  import opened Grid
  import opened Flip

  /** The rule of Othello: `pos` is an empty on-board cell, and along at least
      one of the eight directions lies a closed run of one or more opponent
      pieces. */
  ghost predicate Legal(b: Board, pos: Pos, color: Color)
  {
    && IsValidPos(pos)
    && At(b, pos) == None
    && exists i, n: nat :: 0 <= i < 8 && 1 <= n && Closes(b, pos, color, Dirs[i], n)
  }

  /** `color` has some legal move. */
  ghost predicate CanMove(b: Board, color: Color)
  {
    exists p :: Legal(b, p, color)
  }

  /** The game is over when neither colour can move. */
  ghost predicate Over(b: Board)
  {
    !CanMove(b, Black) && !CanMove(b, White)
  }

  /** `q` is in the non-null list that direction `Dirs[i]` yields. */
  ghost predicate InDirection(b: Board, pos: Pos, color: Color, i: int, q: Pos)
  {
    0 <= i < 8 && PositionsToFlip(b, pos, color, Dirs[i]).Some? && q in PositionsToFlip(b, pos, color, Dirs[i]).value
  }

  /** `q` is in the list of some direction: placing at `pos` flips it. */
  ghost predicate Flipped(b: Board, pos: Pos, color: Color, q: Pos)
  {
    exists i :: InDirection(b, pos, color, i, q)
  }

  /** `q` lies inside a closed run from `pos`: some direction holds a run of
      n opponent pieces and `q` is one of them. */
  ghost predicate Captured(b: Board, pos: Pos, color: Color, q: Pos)
  {
    exists i, n: nat, k :: 0 <= i < 8 && 1 <= n && Closes(b, pos, color, Dirs[i], n) && 1 <= k <= n && q == Offset(pos, Dirs[i], k)
  }

  /** `validMove`: an off-board or occupied position is refused, otherwise
      the eight walks are tried in `Board.DIRS` order until one is non-null. */
  method ValidMove(b: Board, pos: Pos, color: Color) returns (ok: bool)
    ensures ok <==> Legal(b, pos, color)
    ensures ok <==> IsValidPos(pos) && At(b, pos) == None && exists i :: 0 <= i < 8 && PositionsToFlip(b, pos, color, Dirs[i]).Some?
  {
    if IsValidPos(pos) {
      var occupied := IsOccupied(b, pos);
      if !occupied.value {
        var i := 0;
        while i < 8
          invariant 0 <= i <= 8
          invariant forall j :: 0 <= j < i ==> PositionsToFlip(b, pos, color, Dirs[j]).None?
        {
          var pieces := PositionsToFlip(b, pos, color, Dirs[i]);
          if pieces != None {
            assert Closes(b, pos, color, Dirs[i], |pieces.value|);
            return true;
          }
          i := i + 1;
        }
      }
    }
    return false;
  }

  /** Row-major order: row ascending, then column ascending. */
  predicate Before(p: Pos, q: Pos)
  {
    p.row < q.row || (p.row == q.row && p.col < q.col)
  }

  /** Strictly increasing in row-major order. */
  predicate RowMajor(ps: seq<Pos>)
  {
    forall i, j :: 0 <= i < j < |ps| ==> Before(ps[i], ps[j])
  }

  /** `found` holds the legal positions of `row` left of column `col`. */
  ghost predicate ScannedUpTo(b: Board, color: Color, row: int, col: int, found: seq<Pos>)
  {
    forall p :: p in found <==> Legal(b, p, color) && p.row == row && p.col < col
  }

  /** Testing column `col` extends the scan by one column. */
  lemma ScanStep(b: Board, color: Color, row: int, col: int, before: seq<Pos>, after: seq<Pos>)
    requires ScannedUpTo(b, color, row, col, before)
    requires Legal(b, Pos(row, col), color) ==> after == before + [Pos(row, col)]
    requires !Legal(b, Pos(row, col), color) ==> after == before
    ensures ScannedUpTo(b, color, row, col + 1, after)
  {
    forall p
      ensures p in after <==> Legal(b, p, color) && p.row == row && p.col < col + 1
    {
      assert p in after <==> p in before || (p == Pos(row, col) && Legal(b, p, color));
    }
  }

  /** The legal positions of one row, by ascending column. */
  method ScanRow(b: Board, color: Color, row: int) returns (found: seq<Pos>)
    requires 0 <= row < 8
    ensures forall p :: p in found <==> Legal(b, p, color) && p.row == row
    ensures forall k :: 0 <= k < |found| ==> found[k].row == row
    ensures RowMajor(found)
  {
    found := [];
    var col := 0;
    while col < 8
      invariant 0 <= col <= 8
      invariant ScannedUpTo(b, color, row, col, found)
      invariant forall k :: 0 <= k < |found| ==> found[k].row == row && found[k].col < col
      invariant RowMajor(found)
    {
      var ok := ValidMove(b, Pos(row, col), color);
      ghost var before := found;
      if ok {
        found := found + [Pos(row, col)];
      }
      ScanStep(b, color, row, col, before, found);
      col := col + 1;
    }
  }

  /** Appending a row-major list of later rows keeps row-major order. */
  lemma RowMajorAppend(xs: seq<Pos>, ys: seq<Pos>, row: int)
    requires RowMajor(xs) && RowMajor(ys)
    requires forall k :: 0 <= k < |xs| ==> xs[k].row < row
    requires forall k :: 0 <= k < |ys| ==> ys[k].row == row
    ensures RowMajor(xs + ys)
  {
    forall i, j | 0 <= i < j < |xs + ys|
      ensures Before((xs + ys)[i], (xs + ys)[j])
    {
      if j < |xs| {
        assert Before(xs[i], xs[j]);
      } else if i >= |xs| {
        assert Before(ys[i - |xs|], ys[j - |xs|]);
      }
    }
  }

  /** `validMoves`: every legal position for `color`, each once, scanned row
      by row. */
  method ValidMoves(b: Board, color: Color) returns (moves: seq<Pos>)
    ensures forall p :: p in moves <==> Legal(b, p, color)
    ensures RowMajor(moves)
    ensures forall i, j :: 0 <= i < j < |moves| ==> moves[i] != moves[j]
  {
    moves := [];
    var row := 0;
    while row < 8
      invariant 0 <= row <= 8
      invariant forall p :: p in moves <==> Legal(b, p, color) && p.row < row
      invariant forall k :: 0 <= k < |moves| ==> moves[k].row < row
      invariant RowMajor(moves)
    {
      var found := ScanRow(b, color, row);
      RowMajorAppend(moves, found, row);
      moves := moves + found;
      row := row + 1;
    }
    assert forall i, j :: 0 <= i < j < |moves| ==> Before(moves[i], moves[j]);
  }

  /** `hasMove`: the list of valid moves is non-empty. */
  method HasMove(b: Board, color: Color) returns (r: bool)
    ensures r <==> CanMove(b, color)
  {
    var moves := ValidMoves(b, color);
    if |moves| > 0 {
      assert moves[0] in moves;
    }
    r := |moves| > 0;
  }

  /** `isOver` as its doc-comment states it: both players are out of moves. */
  method IsOver(b: Board) returns (over: bool)
    ensures over <==> Over(b)
  {
    var black := HasMove(b, Black);
    var white := HasMove(b, White);
    over := !black && !white;
  }

  /** Every cell of a direction list is an on-board opponent piece. */
  lemma DirectionListOpponent(b: Board, pos: Pos, color: Color, d: Dir)
    requires PositionsToFlip(b, pos, color, d).Some?
    ensures forall q :: q in PositionsToFlip(b, pos, color, d).value ==> IsValidPos(q) && At(b, q) == Some(Other(color))
  {
    forall q | q in PositionsToFlip(b, pos, color, d).value
      ensures IsValidPos(q) && At(b, q) == Some(Other(color))
    {
      var _ := ListedCell(b, pos, color, d, q);
    }
  }

  /** The lists of directions 0..i-1. */
  ghost predicate GatheredUpTo(b: Board, pos: Pos, color: Color, i: int, flips: seq<Pos>)
  {
    forall q :: q in flips <==> exists j :: 0 <= j < i && InDirection(b, pos, color, j, q)
  }

  /** Appending the list of direction i extends the gathering to i + 1. */
  lemma GatherStep(b: Board, pos: Pos, color: Color, i: int, before: seq<Pos>, after: seq<Pos>)
    requires 0 <= i < 8
    requires GatheredUpTo(b, pos, color, i, before)
    requires PositionsToFlip(b, pos, color, Dirs[i]).None? ==> after == before
    requires PositionsToFlip(b, pos, color, Dirs[i]).Some? ==> after == before + PositionsToFlip(b, pos, color, Dirs[i]).value
    ensures GatheredUpTo(b, pos, color, i + 1, after)
  {
    forall q
      ensures q in after <==> exists j :: 0 <= j < i + 1 && InDirection(b, pos, color, j, q)
    {
      assert q in after <==> q in before || InDirection(b, pos, color, i, q);
    }
  }

  /** The positions of all eight direction lists gathered into one list,
      read off the board before anything is changed. */
  method CollectFlips(b: Board, pos: Pos, color: Color) returns (flips: seq<Pos>)
    ensures forall q :: q in flips <==> Flipped(b, pos, color, q)
    ensures forall q :: q in flips ==> IsValidPos(q) && At(b, q) == Some(Other(color))
  {
    flips := [];
    var i := 0;
    while i < 8
      invariant 0 <= i <= 8
      invariant GatheredUpTo(b, pos, color, i, flips)
      invariant forall q :: q in flips ==> IsValidPos(q) && At(b, q) == Some(Other(color))
    {
      var f := PositionsToFlip(b, pos, color, Dirs[i]);
      ghost var before := flips;
      if f.Some? {
        DirectionListOpponent(b, pos, color, Dirs[i]);
        flips := flips + f.value;
      }
      GatherStep(b, pos, color, i, before, flips);
      i := i + 1;
    }
  }

  /** `placePiece`, as its doc-comment defines it: an invalid move fails and
      leaves nothing changed; a valid one puts `color` on `pos` and on every
      cell of every non-null direction list (all computed on the board as it
      was), and no other cell changes. */
  method PlacePiece(b: Board, pos: Pos, color: Color) returns (r: Result<Board, Error>)
    ensures r.Failure? <==> !Legal(b, pos, color)
    ensures r.Failure? ==> r.error == InvalidMove
    ensures r.Success? ==> At(r.value, pos) == Some(color)
    ensures r.Success? ==> forall q :: Flipped(b, pos, color, q) ==> IsValidPos(q) && At(r.value, q) == Some(color)
    ensures r.Success? ==> forall q :: IsValidPos(q) && q != pos && !Flipped(b, pos, color, q) ==> At(r.value, q) == At(b, q)
    // only opponent pieces change colour, no other cell is filled or emptied
    ensures r.Success? ==> forall q :: Flipped(b, pos, color, q) ==> At(b, q) == Some(Other(color))
    ensures r.Success? ==> forall q :: IsValidPos(q) && q != pos ==> (At(r.value, q).Some? <==> At(b, q).Some?)
    ensures r.Success? ==> forall q :: IsValidPos(q) && At(b, q) == Some(color) ==> At(r.value, q) == Some(color)
  {
    var legal := ValidMove(b, pos, color);
    if !legal {
      return Failure(InvalidMove);
    }
    var flips := CollectFlips(b, pos, color);
    var placed := Update(b, pos, Some(color));
    var after := UpdateAll(placed, flips, Some(color));
    assert forall q :: IsValidPos(q) ==> At(after, q) == if q == pos || q in flips then Some(color) else At(b, q);
    PlacementEffects(b, pos, color, flips, after);
    r := Success(after);
  }

  /** Recolouring an empty target and a list of opponent pieces: the
      target and the listed cells hold `color`, every other cell keeps its
      content, so only opponent pieces change colour and the mover keeps
      every piece. */
  lemma PlacementEffects(b: Board, pos: Pos, color: Color, flips: seq<Pos>, after: Board)
    requires IsValidPos(pos) && At(b, pos) == None
    requires forall q :: q in flips <==> Flipped(b, pos, color, q)
    requires forall q :: q in flips ==> IsValidPos(q) && At(b, q) == Some(Other(color))
    requires forall q :: IsValidPos(q) ==> At(after, q) == if q == pos || q in flips then Some(color) else At(b, q)
    ensures At(after, pos) == Some(color)
    ensures forall q :: Flipped(b, pos, color, q) ==> IsValidPos(q) && At(after, q) == Some(color)
    ensures forall q :: IsValidPos(q) && q != pos && !Flipped(b, pos, color, q) ==> At(after, q) == At(b, q)
    ensures forall q :: Flipped(b, pos, color, q) ==> At(b, q) == Some(Other(color))
    ensures forall q :: IsValidPos(q) && q != pos ==> (At(after, q).Some? <==> At(b, q).Some?)
    ensures forall q :: IsValidPos(q) && At(b, q) == Some(color) ==> At(after, q) == Some(color)
  {
  }

  /** A cell of a non-null direction list lies inside a closed run. */
  lemma FlippedIsCaptured(b: Board, pos: Pos, color: Color, q: Pos)
    requires Flipped(b, pos, color, q)
    ensures Captured(b, pos, color, q)
  {
    var i :| InDirection(b, pos, color, i, q);
    var k := ListedCell(b, pos, color, Dirs[i], q);
    var n := |PositionsToFlip(b, pos, color, Dirs[i]).value|;
    assert Closes(b, pos, color, Dirs[i], n) && 1 <= k <= n && q == Offset(pos, Dirs[i], k);
  }

  /** A cell inside a closed run is in that direction's list. */
  lemma CapturedIsFlipped(b: Board, pos: Pos, color: Color, q: Pos)
    requires Captured(b, pos, color, q)
    ensures Flipped(b, pos, color, q)
  {
    var i, n: nat, k :| 0 <= i < 8 && 1 <= n && Closes(b, pos, color, Dirs[i], n) && 1 <= k <= n && q == Offset(pos, Dirs[i], k);
    RunCellListed(b, pos, color, Dirs[i], n, k);
    assert InDirection(b, pos, color, i, q);
  }

  /** The direction lists gathered by placement are exactly the runs of the
      rule: `q` is in some non-null list iff it lies inside a closed run. */
  lemma FlippedIffCaptured(b: Board, pos: Pos, color: Color, q: Pos)
    ensures Flipped(b, pos, color, q) <==> Captured(b, pos, color, q)
  {
    if Flipped(b, pos, color, q) {
      FlippedIsCaptured(b, pos, color, q);
    }
    if Captured(b, pos, color, q) {
      CapturedIsFlipped(b, pos, color, q);
    }
  }

  /** On the starting grid black may play (2,3), capturing white's (3,3)
      through black's (4,3), and white may play (2,4), capturing (3,4). */
  lemma OpeningMoves()
    ensures Legal(MakeGrid(), Pos(2, 3), Black)
    ensures Flipped(MakeGrid(), Pos(2, 3), Black, Pos(3, 3))
    ensures !Flipped(MakeGrid(), Pos(2, 3), Black, Pos(4, 3))
    ensures Legal(MakeGrid(), Pos(2, 4), White)
  {
    var g := MakeGrid();
    assert Closes(g, Pos(2, 3), Black, Dirs[2], 1) by {
      assert Offset(Pos(2, 3), Dirs[2], 1) == Pos(3, 3);
      assert Offset(Pos(2, 3), Dirs[2], 2) == Pos(4, 3);
    }
    assert Closes(g, Pos(2, 4), White, Dirs[2], 1) by {
      assert Offset(Pos(2, 4), Dirs[2], 1) == Pos(3, 4);
      assert Offset(Pos(2, 4), Dirs[2], 2) == Pos(4, 4);
    }
    assert Captured(g, Pos(2, 3), Black, Pos(3, 3)) by {
      assert Pos(3, 3) == Offset(Pos(2, 3), Dirs[2], 1);
    }
    FlippedIffCaptured(g, Pos(2, 3), Black, Pos(3, 3));
    FlippedIffCaptured(g, Pos(2, 3), Black, Pos(4, 3));
  }

  /** The starting position is not over: both colours can move. */
  lemma OpeningNotOver()
    ensures CanMove(MakeGrid(), Black) && CanMove(MakeGrid(), White)
    ensures !Over(MakeGrid())
  {
    OpeningMoves();
  }

  /** The empty grid is over: with no piece on the board no run can close,
      so neither colour has a legal move. */
  lemma EmptyGridOver()
    ensures !CanMove(EmptyGrid(), Black) && !CanMove(EmptyGrid(), White)
    ensures Over(EmptyGrid())
  {
    var b := EmptyGrid();
    forall p, color: Color, i, n: nat | 0 <= i < 8
      ensures !Closes(b, p, color, Dirs[i], n)
    {
      var q := Offset(p, Dirs[i], n + 1);
      if IsValidPos(q) {
        assert At(b, q) == None;
      }
    }
  }

  /** The pieces of the starting grid, cell by cell. */
  lemma OpeningPieces(q: Pos)
    requires IsValidPos(q)
    ensures At(MakeGrid(), q) == Some(White) <==> q == Pos(3, 3) || q == Pos(4, 4)
    ensures At(MakeGrid(), q) == Some(Black) <==> q == Pos(3, 4) || q == Pos(4, 3)
  {
  }

  /** On the starting grid a black run is one white piece long and starts
      from one of four cells. */
  lemma OpeningRunBlack(p: Pos, d: Dir, n: nat)
    requires 1 <= n && Closes(MakeGrid(), p, Black, d, n)
    ensures n == 1
    ensures p in {Pos(2, 3), Pos(3, 2), Pos(4, 5), Pos(5, 4)}
  {
    var g := MakeGrid();
    var a := Offset(p, d, 1);
    var c := Offset(p, d, 2);
    var e := Offset(p, d, 3);
    OpeningPieces(a);
    OpeningPieces(c);
    if 3 <= n + 1 {
      OpeningPieces(e);
    }
  }

  /** On the starting grid black's legal moves are exactly the four cells
      that face a white piece backed by a black one. */
  lemma OpeningLegalBlack(p: Pos)
    ensures Legal(MakeGrid(), p, Black) <==> p in {Pos(2, 3), Pos(3, 2), Pos(4, 5), Pos(5, 4)}
  {
    var g := MakeGrid();
    if Legal(g, p, Black) {
      var i, n: nat :| 0 <= i < 8 && 1 <= n && Closes(g, p, Black, Dirs[i], n);
      OpeningRunBlack(p, Dirs[i], n);
    } else {
      assert Closes(g, Pos(2, 3), Black, Dirs[2], 1) by {
        assert Offset(Pos(2, 3), Dirs[2], 1) == Pos(3, 3);
        assert Offset(Pos(2, 3), Dirs[2], 2) == Pos(4, 3);
      }
      assert Closes(g, Pos(3, 2), Black, Dirs[0], 1) by {
        assert Offset(Pos(3, 2), Dirs[0], 1) == Pos(3, 3);
        assert Offset(Pos(3, 2), Dirs[0], 2) == Pos(3, 4);
      }
      assert Closes(g, Pos(4, 5), Black, Dirs[4], 1) by {
        assert Offset(Pos(4, 5), Dirs[4], 1) == Pos(4, 4);
        assert Offset(Pos(4, 5), Dirs[4], 2) == Pos(4, 3);
      }
      assert Closes(g, Pos(5, 4), Black, Dirs[6], 1) by {
        assert Offset(Pos(5, 4), Dirs[6], 1) == Pos(4, 4);
        assert Offset(Pos(5, 4), Dirs[6], 2) == Pos(3, 4);
      }
    }
  }

  /** A position in the tail of one sorted list is in the tail of a sorted
      list with the same head and positions. */
  lemma TailMember(xs: seq<Pos>, ys: seq<Pos>, p: Pos)
    requires RowMajor(xs) && RowMajor(ys) && xs != [] && ys != [] && xs[0] == ys[0]
    requires forall q :: q in xs <==> q in ys
    requires p in xs[1..]
    ensures p in ys[1..]
  {
    var k :| 0 <= k < |xs| - 1 && xs[1..][k] == p;
    assert Before(xs[0], xs[k + 1]);
    assert p in ys;
    var j :| 0 <= j < |ys| && ys[j] == p;
    assert j != 0;
    assert ys[1..][j - 1] == p;
  }

  /** A list in strict row-major order is fixed by the positions it holds. */
  lemma {:induction false} RowMajorByContents(xs: seq<Pos>, ys: seq<Pos>)
    requires RowMajor(xs) && RowMajor(ys)
    requires forall p :: p in xs <==> p in ys
    ensures xs == ys
    decreases |xs|
  {
    if ys != [] {
      assert ys[0] in xs;
    }
    if xs != [] {
      assert xs[0] in ys;
      assert xs[0] == ys[0];
      forall p
        ensures p in xs[1..] ==> p in ys[1..]
        ensures p in ys[1..] ==> p in xs[1..]
      {
        if p in xs[1..] {
          TailMember(xs, ys, p);
        }
        if p in ys[1..] {
          TailMember(ys, xs, p);
        }
      }
      RowMajorByContents(xs[1..], ys[1..]);
      assert xs == [xs[0]] + xs[1..];
      assert ys == [ys[0]] + ys[1..];
    }
  }

  /** `validMoves("black")` on the starting grid: the four openings, in
      row-major order. */
  method OpeningValidMoves() returns (moves: seq<Pos>)
    ensures moves == [Pos(2, 3), Pos(3, 2), Pos(4, 5), Pos(5, 4)]
  {
    moves := ValidMoves(MakeGrid(), Black);
    forall p
      ensures p in moves <==> p in [Pos(2, 3), Pos(3, 2), Pos(4, 5), Pos(5, 4)]
    {
      OpeningLegalBlack(p);
    }
    RowMajorByContents(moves, [Pos(2, 3), Pos(3, 2), Pos(4, 5), Pos(5, 4)]);
  }
}
