/** The board state of skeleton/lib/board.js: colours, positions, the eight
    directions, the 8x8 grid and its positional queries. */
module Grid {
  import opened Wrappers

  datatype Color = Black | White

  /** The opponent's colour. */
  function Other(c: Color): (o: Color)
    ensures o != c
  {
    if c == Black then White else Black
  }

  /** A cell holds no piece (`undefined` in the source) or one piece, which is
      just its colour. */
  type Cell = Option<Color>

  predicate Is8x8(g: seq<seq<Cell>>)
  {
    |g| == 8 && forall i :: 0 <= i < 8 ==> |g[i]| == 8
  }

  /** The `grid` field of a Board: eight rows of eight cells. */
  type Board = g: seq<seq<Cell>> | Is8x8(g) witness seq(8, _ => seq(8, _ => None))

  /** An `[x, y]` pair; either coordinate may lie off the board. */
  datatype Pos = Pos(row: int, col: int)

  type Unit = x: int | -1 <= x <= 1

  datatype Vec = Vec(dr: Unit, dc: Unit)

  /** A step to one of the eight neighbouring cells. */
  type Dir = v: Vec | v != Vec(0, 0) witness Vec(0, 1)

  /** `Board.DIRS`, in the source's order. */
  const Dirs: seq<Dir> := [
    Vec( 0,  1), Vec( 1,  1), Vec( 1,  0),
    Vec( 1, -1), Vec( 0, -1), Vec(-1, -1),
    Vec(-1,  0), Vec(-1,  1)
  ]

  /** `Board.DIRS` holds each of the eight neighbour steps exactly once. */
  lemma DirsAreTheNeighbours()
    ensures |Dirs| == 8
    ensures forall i, j :: 0 <= i < j < |Dirs| ==> Dirs[i] != Dirs[j]
    ensures forall v: Vec :: v != Vec(0, 0) ==> v in Dirs
  {
    forall v: Vec | v != Vec(0, 0)
      ensures v in Dirs
    {
      if v.dr == 0 {
        assert v == Dirs[0] || v == Dirs[4];
      } else if v.dr == 1 {
        assert v == Dirs[1] || v == Dirs[2] || v == Dirs[3];
      } else {
        assert v == Dirs[5] || v == Dirs[6] || v == Dirs[7];
      }
    }
  }

  /** The neighbour of `p` in direction `d` (`nextPos` in the direction walk). */
  function Step(p: Pos, d: Dir): Pos
  {
    Pos(p.row + d.dr, p.col + d.dc)
  }

  /** `k * u` for a unit `u`, written without multiplication. */
  function Scale(k: int, u: Unit): int
  {
    if u == 1 then k else if u == -1 then -k else 0
  }

  /** The cell `k` steps from `p` in direction `d`, `p + k·d`. */
  function Offset(p: Pos, d: Dir, k: int): Pos
  {
    Pos(p.row + Scale(k, d.dr), p.col + Scale(k, d.dc))
  }

  /** `isValidPos`: true exactly when both coordinates lie in [0, 7]. */
  function IsValidPos(p: Pos): (ok: bool)
    ensures ok <==> 0 <= p.row < 8 && 0 <= p.col < 8
  {
    !(p.row > 7 || p.col > 7 || p.row < 0 || p.col < 0)
  }

  /** The cell at an on-board position. */
  function At(b: Board, p: Pos): Cell
    requires IsValidPos(p)
  {
    b[p.row][p.col]
  }

  /** What the source throws: `getPiece` on an off-board position, and
      `placePiece` for an invalid move. */
  datatype Error = OutOfRange | InvalidMove

  /** `getPiece`: fails exactly for off-board positions, and otherwise yields
      the grid cell. */
  function GetPiece(b: Board, p: Pos): (r: Result<Cell, Error>)
    ensures r.Failure? <==> !IsValidPos(p)
    ensures r.Failure? ==> r.error == OutOfRange
    ensures r.Success? ==> r.value == At(b, p)
  {
    if p.row > 7 || p.col > 7 || p.row < 0 || p.col < 0 then Failure(OutOfRange)
    else Success(b[p.row][p.col])
  }

  /** The three answers of `isMine`: `undefined` for an empty cell, and
      `true`/`false` for an occupied one. */
  datatype Owner = NoPiece | Mine | Theirs

  /** `isMine`: three-way ownership of the cell at `p` from `c`'s side. */
  function IsMine(b: Board, p: Pos, c: Color): (r: Result<Owner, Error>)
    ensures r.Failure? <==> !IsValidPos(p)
    ensures r.Failure? ==> r.error == OutOfRange
    ensures r == Success(NoPiece) <==> IsValidPos(p) && At(b, p) == None
    ensures r == Success(Mine) <==> IsValidPos(p) && At(b, p) == Some(c)
    ensures r == Success(Theirs) <==> IsValidPos(p) && At(b, p) == Some(Other(c))
  {
    match GetPiece(b, p)
    case Failure(e) => Failure(e)
    case Success(piece) =>
      if piece == None then Success(NoPiece)
      else if piece.value == c then Success(Mine)
      else Success(Theirs)
  }

  /** `isOccupied`: whether the cell holds a piece; fails off the board like
      `getPiece`. */
  function IsOccupied(b: Board, p: Pos): (r: Result<bool, Error>)
    ensures r.Failure? <==> !IsValidPos(p)
    ensures r.Failure? ==> r.error == OutOfRange
    ensures r.Success? ==> (r.value <==> At(b, p).Some?)
  {
    match GetPiece(b, p)
    case Failure(e) => Failure(e)
    case Success(piece) => Success(piece != None)
  }

  /** `isOccupied` and `isMine` agree, whichever colour asks: a cell is
      occupied exactly when `isMine` answers something other than "no
      piece", and both fail off the board. */
  lemma OccupiedIffOwned(b: Board, p: Pos, c: Color)
    ensures IsOccupied(b, p).Failure? <==> IsMine(b, p, c).Failure?
    ensures IsOccupied(b, p) == Success(true) <==> IsMine(b, p, c) in {Success(Mine), Success(Theirs)}
    ensures IsOccupied(b, p) == Success(false) <==> IsMine(b, p, c) == Success(NoPiece)
  {
  }

  /** The board with the cell at `p` replaced by `c`. */
  function Update(b: Board, p: Pos, c: Cell): (r: Board)
    requires IsValidPos(p)
    ensures At(r, p) == c
    ensures forall q :: IsValidPos(q) && q != p ==> At(r, q) == At(b, q)
  {
    b[p.row := b[p.row][p.col := c]]
  }

  /** The board with every cell listed in `ps` replaced by `c`. */
  function UpdateAll(b: Board, ps: seq<Pos>, c: Cell): (r: Board)
    requires forall i :: 0 <= i < |ps| ==> IsValidPos(ps[i])
    ensures forall q :: IsValidPos(q) ==> At(r, q) == if q in ps then c else At(b, q)
    decreases |ps|
  {
    if ps == [] then b else UpdateAll(Update(b, ps[0], c), ps[1..], c)
  }

  /** A grid of 64 empty cells. */
  function EmptyGrid(): (g: Board)
    ensures forall q :: IsValidPos(q) ==> At(g, q) == None
  {
    seq(8, _ => seq(8, _ => None))
  }

  /** `_makeGrid`: the starting layout, black on (3,4) and (4,3), white on
      (3,3) and (4,4), the other 60 cells empty. */
  function MakeGrid(): (g: Board)
    ensures At(g, Pos(3, 4)) == Some(Black) && At(g, Pos(4, 3)) == Some(Black)
    ensures At(g, Pos(3, 3)) == Some(White) && At(g, Pos(4, 4)) == Some(White)
    ensures forall q :: IsValidPos(q) && q !in {Pos(3, 3), Pos(3, 4), Pos(4, 3), Pos(4, 4)} ==> At(g, q) == None
  {
    var g0 := EmptyGrid();
    var g1 := Update(g0, Pos(3, 4), Some(Black));
    var g2 := Update(g1, Pos(4, 3), Some(Black));
    var g3 := Update(g2, Pos(3, 3), Some(White));
    Update(g3, Pos(4, 4), Some(White))
  }
}
