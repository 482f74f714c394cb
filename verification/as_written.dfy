/** The bodies of skeleton/lib/board.js that disagree with their own
    doc-comments, modelled as written, each with a lemma exhibiting the
    difference from the intended member of `Flip` or `Moves`. */
module AsWritten {
  import opened Wrappers
  import opened Grid
  import Flip
  import Moves

  /** What `isMine(nextPos, arg)` answers in the walk. The walk passes no
      colour at all (`arg == None`): then `piece.color === undefined` is
      false for every piece, so an occupied cell reads as "not mine".
      `arg == Some(color)` is the walk with the colour supplied. */
  function OwnerSeen(b: Board, p: Pos, arg: Option<Color>): (o: Owner)
    requires IsValidPos(p)
    ensures o == NoPiece <==> At(b, p) == None
    ensures arg == None ==> o != Mine
  {
    match arg
    case Some(c) => IsMine(b, p, c).value
    case None => if At(b, p) == None then NoPiece else Theirs
  }

  /** `_positionsToFlip` exactly as its branches read: only `Mine` is
      truthy, and the first-step test `isOccupied(nextPos) &&
      piecesToFlip.length === 0` lets an empty first cell through to the
      general branch, which pushes it and walks on. */
  function Walk(b: Board, cur: Pos, arg: Option<Color>, d: Dir, acc: seq<Pos>): Option<seq<Pos>>
    decreases Flip.EdgeDistance(cur, d)
  {
    var next := Step(cur, d);
    if !IsValidPos(next) then None
    else if IsOccupied(b, next).value && |acc| == 0 then
      if OwnerSeen(b, next, arg) == Mine then None
      else Walk(b, next, arg, d, acc + [next])
    else
      if OwnerSeen(b, next, arg) == Mine then Some(acc)
      else Walk(b, next, arg, d, acc + [next])
  }

  /** Without the colour argument the walk never recognises a closing piece:
      it returns null for every board, position and direction. */
  lemma {:induction false} WalkNeverCloses(b: Board, cur: Pos, d: Dir, acc: seq<Pos>)
    ensures Walk(b, cur, None, d, acc) == None
    decreases Flip.EdgeDistance(cur, d)
  {
    var next := Step(cur, d);
    if IsValidPos(next) {
      assert OwnerSeen(b, next, None) != Mine;
      var longer := acc + [next];
      WalkNeverCloses(b, next, d, longer);
      assert Walk(b, cur, None, d, acc) == Walk(b, next, None, d, longer);
    }
  }

  /** Black's opening move (2,3) downwards: the intended walk captures (3,3),
      the walk as written finds nothing. */
  lemma WalkMissesOpening()
    ensures Walk(MakeGrid(), Pos(2, 3), None, Vec(1, 0), []) == None
    ensures Flip.PositionsToFlip(MakeGrid(), Pos(2, 3), Black, Vec(1, 0)) == Some([Pos(3, 3)])
  {
    WalkNeverCloses(MakeGrid(), Pos(2, 3), Vec(1, 0), []);
    assert Offset(Pos(2, 3), Vec(1, 0), 1) == Pos(3, 3);
    assert Offset(Pos(2, 3), Vec(1, 0), 2) == Pos(4, 3);
    Flip.SingleCapture(MakeGrid(), Pos(2, 3), Black, Vec(1, 0));
  }

  /** Even with the colour supplied, an empty neighbour is pushed as a piece
      to flip: black at (0,0) looking right, past an empty (0,1) to a black
      (0,2), gets [(0,1)], where the intended walk gives null. */
  lemma WalkFlipsGap(b: Board)
    requires At(b, Pos(0, 1)) == None && At(b, Pos(0, 2)) == Some(Black)
    ensures Walk(b, Pos(0, 0), Some(Black), Vec(0, 1), []) == Some([Pos(0, 1)])
    ensures Flip.PositionsToFlip(b, Pos(0, 0), Black, Vec(0, 1)) == None
  {
    var d: Dir := Vec(0, 1);
    assert Step(Pos(0, 0), d) == Pos(0, 1);
    assert Step(Pos(0, 1), d) == Pos(0, 2);
    assert IsValidPos(Pos(0, 2));
    assert OwnerSeen(b, Pos(0, 2), Some(Black)) == Mine;
    assert Walk(b, Pos(0, 1), Some(Black), d, [Pos(0, 1)]) == Some([Pos(0, 1)]);
    assert !IsOccupied(b, Pos(0, 1)).value;
    assert OwnerSeen(b, Pos(0, 1), Some(Black)) == NoPiece;
    assert [] + [Pos(0, 1)] == [Pos(0, 1)];
    assert At(b, Step(Pos(0, 0), d)) != Some(Other(Black));
  }

  /** A board showing it: only black at (0,2). */
  lemma WalkFlipsEmptyCell()
    ensures Walk(Update(EmptyGrid(), Pos(0, 2), Some(Black)), Pos(0, 0), Some(Black), Vec(0, 1), []) == Some([Pos(0, 1)])
    ensures Flip.PositionsToFlip(Update(EmptyGrid(), Pos(0, 2), Some(Black)), Pos(0, 0), Black, Vec(0, 1)) == None
  {
    var b := Update(EmptyGrid(), Pos(0, 2), Some(Black));
    assert At(b, Pos(0, 1)) == None;
    WalkFlipsGap(b);
  }

  /** `validMoves` as written: its loops run to `this.length`, which a Board
      does not have; `0 < undefined` is false, so no position is ever tried
      (nor is the misspelt `this.ValidMove` ever reached). */
  function ValidMoves(b: Board, color: Color): seq<Pos>
  {
    []
  }

  /** On the starting grid black has a legal move, (2,3), yet the
      enumeration as written is empty; the emptiness is the body itself, the
      content is the legal move it misses. */
  lemma ValidMovesMissesOpening()
    ensures Moves.Legal(MakeGrid(), Pos(2, 3), Black)
    ensures Moves.CanMove(MakeGrid(), Black)
    ensures |ValidMoves(MakeGrid(), Black)| == 0
  {
    Moves.OpeningMoves();
  }

  /** `isOver` as written: true when both colours HAVE a move (line 80),
      the opposite of its doc-comment. */
  method IsOver(b: Board) returns (over: bool)
    ensures over <==> Moves.CanMove(b, Black) && Moves.CanMove(b, White)
  {
    var black := Moves.HasMove(b, Black);
    var white := Moves.HasMove(b, White);
    over := black && white;
  }
}
