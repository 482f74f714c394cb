/** The eight-direction walk of skeleton/lib/board.js (`_positionsToFlip`),
    modelled as its doc-comment describes, with an independent reference
    definition (`Closes`) of the run it must find. */
module Flip {
  import opened Wrappers
  import opened Grid

  /** The `n` cells `p + k·d` for k = 1..n, nearest first. */
  function Line(p: Pos, d: Dir, n: nat): seq<Pos>
  {
    seq(n, k => Offset(p, d, k + 1))
  }

  /** From `p` in direction `d` lie exactly `n` pieces of the opponent of
      `color`, all on the board, and right after them an on-board piece of
      `color` that closes the run. */
  ghost predicate Closes(b: Board, p: Pos, color: Color, d: Dir, n: nat)
  {
    && (forall k :: 1 <= k <= n ==> IsValidPos(Offset(p, d, k)) && At(b, Offset(p, d, k)) == Some(Other(color)))
    && IsValidPos(Offset(p, d, n + 1))
    && At(b, Offset(p, d, n + 1)) == Some(color)
  }

  /** A run from `p` has at most one length: its closing piece is not an
      opponent piece, and every cell nearer than it is. */
  lemma ClosesUnique(b: Board, p: Pos, color: Color, d: Dir, n: nat)
    requires Closes(b, p, color, d, n)
    ensures forall m: nat :: m != n ==> !Closes(b, p, color, d, m)
  {
    forall m: nat | m != n
      ensures !Closes(b, p, color, d, m)
    {
      if n < m {
        assert At(b, Offset(p, d, n + 1)) == Some(color);
      } else {
        assert At(b, Offset(p, d, m + 1)) == Some(Other(color));
      }
    }
  }

  /** A run of length 0 from `p` is a piece of `color` right next to `p`. */
  lemma ClosesEmpty(b: Board, p: Pos, color: Color, d: Dir)
    ensures Closes(b, p, color, d, 0) <==> IsValidPos(Step(p, d)) && At(b, Step(p, d)) == Some(color)
  {
    assert Offset(p, d, 1) == Step(p, d);
  }

  /** A run of length n + 1 from `p` is an opponent piece next to `p`
      followed by a run of length n from that neighbour. */
  lemma ClosesShift(b: Board, p: Pos, color: Color, d: Dir)
    ensures forall n: nat :: 1 <= n ==>
      (Closes(b, p, color, d, n) <==>
        IsValidPos(Step(p, d)) && At(b, Step(p, d)) == Some(Other(color)) && Closes(b, Step(p, d), color, d, n - 1))
  {
    var s := Step(p, d);
    assert Offset(p, d, 1) == s;
    assert forall k :: Offset(p, d, k + 1) == Offset(s, d, k);
    forall n: nat | 1 <= n
      ensures Closes(b, p, color, d, n) ==> Closes(b, s, color, d, n - 1)
      ensures IsValidPos(s) && At(b, s) == Some(Other(color)) && Closes(b, s, color, d, n - 1) ==> Closes(b, p, color, d, n)
    {
      if Closes(b, p, color, d, n) {
        forall k | 1 <= k <= n - 1
          ensures IsValidPos(Offset(s, d, k)) && At(b, Offset(s, d, k)) == Some(Other(color))
        {
          assert Offset(p, d, k + 1) == Offset(s, d, k);
        }
        assert Offset(p, d, n + 1) == Offset(s, d, n);
      }
      if IsValidPos(s) && At(b, s) == Some(Other(color)) && Closes(b, s, color, d, n - 1) {
        forall k | 1 <= k <= n
          ensures IsValidPos(Offset(p, d, k)) && At(b, Offset(p, d, k)) == Some(Other(color))
        {
          if k > 1 {
            assert Offset(p, d, k) == Offset(s, d, k - 1);
          }
        }
        assert Offset(p, d, n + 1) == Offset(s, d, n);
      }
    }
  }

  /** The line from `p` is its first cell followed by the line from there. */
  lemma LineShift(p: Pos, d: Dir, n: nat)
    ensures Line(p, d, n + 1) == [Step(p, d)] + Line(Step(p, d), d, n)
  {
    var s := Step(p, d);
    assert Offset(p, d, 1) == s;
    forall k | 0 <= k < n
      ensures Line(p, d, n + 1)[k + 1] == Line(s, d, n)[k]
    {
      assert Offset(p, d, k + 2) == Offset(s, d, k + 1);
    }
  }

  /** How far `p` is from leaving the board along `d`, per axis summed; it
      drops by at least one with every on-board step. */
  function EdgeDistance(p: Pos, d: Dir): nat
  {
    Reach(p.row, d.dr) + Reach(p.col, d.dc)
  }

  function Reach(x: int, u: Unit): nat
  {
    if u == 1 then (if x < 8 then 8 - x else 0)
    else if u == -1 then (if x >= 0 then x + 1 else 0)
    else 0
  }

  /** An edge or an empty cell next to `cur` leaves no run at all. */
  lemma NoRunPastGap(b: Board, cur: Pos, color: Color, d: Dir)
    requires !IsValidPos(Step(cur, d)) || At(b, Step(cur, d)) == None
    ensures forall n: nat :: !Closes(b, cur, color, d, n)
  {
    ClosesEmpty(b, cur, color, d);
    ClosesShift(b, cur, color, d);
  }

  /** An own piece next to `cur` closes a run of length 0 and no other. */
  lemma OnlyEmptyRun(b: Board, cur: Pos, color: Color, d: Dir)
    requires IsValidPos(Step(cur, d)) && At(b, Step(cur, d)) == Some(color)
    ensures Closes(b, cur, color, d, 0)
    ensures forall n: nat :: Closes(b, cur, color, d, n) ==> n == 0
  {
    ClosesEmpty(b, cur, color, d);
    ClosesUnique(b, cur, color, d, 0);
  }

  /** Past an opponent piece next to `cur`, runs from `cur` are one longer
      than runs from that piece, and there is none of length 0. */
  lemma RunThroughOpponent(b: Board, cur: Pos, color: Color, d: Dir)
    requires IsValidPos(Step(cur, d)) && At(b, Step(cur, d)) == Some(Other(color))
    ensures !Closes(b, cur, color, d, 0)
    ensures forall n: nat :: 1 <= n ==> (Closes(b, cur, color, d, n) <==> Closes(b, Step(cur, d), color, d, n - 1))
  {
    ClosesEmpty(b, cur, color, d);
    ClosesShift(b, cur, color, d);
  }

  /** The length of the opponent run from `cur` along `d`, when a piece of
      `color` closes it: the walk's own case split, without the collection. */
  function RunLength(b: Board, cur: Pos, color: Color, d: Dir): Option<nat>
    decreases EdgeDistance(cur, d)
  {
    var next := Step(cur, d);
    if !IsValidPos(next) then None
    else
      match IsMine(b, next, color).value
      case NoPiece => None
      case Mine => Some(0)
      case Theirs =>
        match RunLength(b, next, color, d)
        case None => None
        case Some(n) => Some(n + 1)
  }

  /** `RunLength` finds the closed run whenever there is one. */
  lemma {:induction false} RunLengthCloses(b: Board, cur: Pos, color: Color, d: Dir)
    ensures RunLength(b, cur, color, d).Some? ==> Closes(b, cur, color, d, RunLength(b, cur, color, d).value)
    ensures RunLength(b, cur, color, d).None? ==> forall n: nat :: !Closes(b, cur, color, d, n)
    decreases EdgeDistance(cur, d)
  {
    var next := Step(cur, d);
    if !IsValidPos(next) {
      NoRunPastGap(b, cur, color, d);
    } else {
      match IsMine(b, next, color).value
      case NoPiece =>
        NoRunPastGap(b, cur, color, d);
      case Mine =>
        OnlyEmptyRun(b, cur, color, d);
      case Theirs =>
        RunLengthCloses(b, next, color, d);
        RunThroughOpponent(b, cur, color, d);
    }
  }

  /** The run `RunLength` finds is the only closed run from `cur`. */
  lemma RunLengthOnly(b: Board, cur: Pos, color: Color, d: Dir)
    ensures RunLength(b, cur, color, d).Some? ==>
      forall m: nat :: m != RunLength(b, cur, color, d).value ==> !Closes(b, cur, color, d, m)
  {
    RunLengthCloses(b, cur, color, d);
    if RunLength(b, cur, color, d).Some? {
      ClosesUnique(b, cur, color, d, RunLength(b, cur, color, d).value);
    }
  }

  /** The recursive walk of `_positionsToFlip`: `acc` is the array of
      positions collected so far (`piecesToFlip`), `cur` the last position
      reached. As the doc-comment requires, an edge or an empty cell ends the
      walk with `None`, and so does a piece of `color` met before any opponent
      piece; a piece of `color` met after them returns the collection; an
      opponent piece joins the collection and the walk goes on from it. */
  function Walk(b: Board, cur: Pos, color: Color, d: Dir, acc: seq<Pos>): Option<seq<Pos>>
    decreases EdgeDistance(cur, d)
  {
    var next := Step(cur, d);
    if !IsValidPos(next) then None
    else
      match IsMine(b, next, color).value
      case NoPiece => None
      case Mine => if |acc| == 0 then None else Some(acc)
      case Theirs => Walk(b, next, color, d, acc + [next])
  }

  /** The walk appends the cells of the closed run from `cur` to what it has
      collected, and gives `None` when there is no closed run or when both the
      collection and the run are empty. */
  lemma {:induction false} WalkIsRun(b: Board, cur: Pos, color: Color, d: Dir, acc: seq<Pos>)
    ensures Walk(b, cur, color, d, acc) ==
      match RunLength(b, cur, color, d)
      case None => None
      case Some(n) => if |acc| + n == 0 then None else Some(acc + Line(cur, d, n))
    decreases EdgeDistance(cur, d)
  {
    var next := Step(cur, d);
    if IsValidPos(next) {
      match IsMine(b, next, color).value
      case NoPiece =>
      case Mine =>
        assert acc + Line(cur, d, 0) == acc;
      case Theirs =>
        WalkIsRun(b, next, color, d, acc + [next]);
        match RunLength(b, next, color, d)
        case None =>
        case Some(m) =>
          LineShift(cur, d, m);
          assert (acc + [next]) + Line(next, d, m) == acc + ([next] + Line(next, d, m));
    }
  }

  /** `_positionsToFlip(board, pos, color, dir, [])`: the opponent pieces a
      piece of `color` placed at `pos` would capture in direction `d`. */
  function PositionsToFlip(b: Board, pos: Pos, color: Color, d: Dir): (r: Option<seq<Pos>>)
    // a found run is non-empty ...
    ensures r.Some? ==> |r.value| >= 1
    // ... consists of the consecutive cells pos + k·d, k = 1..n ...
    ensures r.Some? ==> r.value == Line(pos, d, |r.value|)
    // ... all opponent pieces, with an on-board piece of `color` at pos + (n+1)·d
    ensures r.Some? ==> Closes(b, pos, color, d, |r.value|)
    // and there is none exactly when no such run exists
    ensures r.None? <==> forall n: nat :: 1 <= n ==> !Closes(b, pos, color, d, n)
    // in particular: the edge, an empty neighbour or an own neighbour gives None
    ensures !IsValidPos(Step(pos, d)) ==> r.None?
    ensures IsValidPos(Step(pos, d)) && At(b, Step(pos, d)) != Some(Other(color)) ==> r.None?
  {
    WalkIsRun(b, pos, color, d, []);
    RunLengthCloses(b, pos, color, d);
    RunLengthOnly(b, pos, color, d);
    Walk(b, pos, color, d, [])
  }

  /** A listed position is the k-th cell along `d`, an on-board opponent
      piece. */
  lemma ListedCell(b: Board, pos: Pos, color: Color, d: Dir, q: Pos) returns (k: int)
    requires PositionsToFlip(b, pos, color, d).Some? && q in PositionsToFlip(b, pos, color, d).value
    ensures 1 <= k <= |PositionsToFlip(b, pos, color, d).value|
    ensures q == Offset(pos, d, k)
    ensures IsValidPos(q) && At(b, q) == Some(Other(color))
  {
    var l := PositionsToFlip(b, pos, color, d).value;
    var j :| 0 <= j < |l| && l[j] == q;
    assert l[j] == Offset(pos, d, j + 1);
    k := j + 1;
  }

  /** Every cell inside a closed run is listed. */
  lemma RunCellListed(b: Board, pos: Pos, color: Color, d: Dir, n: nat, k: int)
    requires 1 <= n && Closes(b, pos, color, d, n) && 1 <= k <= n
    ensures PositionsToFlip(b, pos, color, d).Some?
    ensures Offset(pos, d, k) in PositionsToFlip(b, pos, color, d).value
  {
    var r := PositionsToFlip(b, pos, color, d);
    ClosesUnique(b, pos, color, d, n);
    assert |r.value| == n;
    assert r.value[k - 1] == Offset(pos, d, k);
  }

  /** One opponent piece backed by an own piece is captured alone. */
  lemma SingleCapture(b: Board, pos: Pos, color: Color, d: Dir)
    requires IsValidPos(Offset(pos, d, 1)) && At(b, Offset(pos, d, 1)) == Some(Other(color))
    requires IsValidPos(Offset(pos, d, 2)) && At(b, Offset(pos, d, 2)) == Some(color)
    ensures PositionsToFlip(b, pos, color, d) == Some([Offset(pos, d, 1)])
  {
    assert Closes(b, pos, color, d, 1);
    ClosesUnique(b, pos, color, d, 1);
    var r := PositionsToFlip(b, pos, color, d);
    assert |r.value| == 1;
    assert r.value == Line(pos, d, 1);
    assert Line(pos, d, 1) == [Offset(pos, d, 1)];
  }
}
