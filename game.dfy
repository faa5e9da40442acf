/**
 * The game pieces and click selection (src/main.rs): `spawn_settler` puts a
 * settler on the board, and `piece_selection_system` marks every piece on
 * the hovered hex as selected when the left mouse button is just pressed.
 *
 * The ECS world is modelled as a sequence of piece records; the `Selected`
 * marker component is the `selected` flag of a record, and inserting it
 * through `Commands` is modelled as an immediate update.
 */
module Game {
  import opened Hex
  import opened HexGrid
  import Board

  /** `PieceType`; `Settler` is also its default. */
  datatype PieceType = Settler

  /** `MoveRange::default()`. */
  const DefaultMoveRange: nat := 1

  /** Where `spawn_settler` places the settler. */
  const SettlerStart: HexCoord := HexCoord(-1, -1, 2)

  /** One entity with the `GamePiece` component and the components it requires. */
  datatype GamePiece = GamePiece(kind: PieceType, coord: HexCoord, moveRange: nat, selected: bool)

  /** The bundle `spawn_settler` spawns: a settler at the start hex with a move range of one, not selected. */
  function SettlerPiece(): (p: GamePiece)
    ensures p.coord.IsCube() && p.moveRange == DefaultMoveRange && !p.selected
  {
    GamePiece(Settler, SettlerStart, 1, false)
  }

  /** The effect of one click on hex h: every piece standing on h gets the `Selected` marker. */
  function SelectAt(ps: seq<GamePiece>, h: HexCoord): (qs: seq<GamePiece>)
    ensures |qs| == |ps|
  {
    if ps == [] then []
    else
      var n := |ps| - 1;
      SelectAt(ps[..n], h) + [if ps[n].coord == h then ps[n].(selected := true) else ps[n]]
  }

  /**
   * Piece by piece: a click on h selects the pieces on h, leaves the selected
   * flag of every other piece as it was, and never changes a piece's kind,
   * coordinate or move range.
   */
  lemma {:induction false} SelectAtElement(ps: seq<GamePiece>, h: HexCoord)
    ensures forall i :: 0 <= i < |ps| ==>
      && SelectAt(ps, h)[i].kind == ps[i].kind
      && SelectAt(ps, h)[i].coord == ps[i].coord
      && SelectAt(ps, h)[i].moveRange == ps[i].moveRange
      && (SelectAt(ps, h)[i].selected <==> ps[i].selected || ps[i].coord == h)
  {
    if ps != [] {
      var n := |ps| - 1;
      SelectAtElement(ps[..n], h);
      forall i | 0 <= i < n
        ensures SelectAt(ps, h)[i] == SelectAt(ps[..n], h)[i]
      {
      }
    }
  }

  /** Clicking the same hex twice selects the same pieces as clicking it once. */
  lemma SelectAtIdempotent(ps: seq<GamePiece>, h: HexCoord)
    ensures SelectAt(SelectAt(ps, h), h) == SelectAt(ps, h)
  {
    var once := SelectAt(ps, h);
    SelectAtElement(ps, h);
    SelectAtElement(once, h);
    assert forall i :: 0 <= i < |once| ==> SelectAt(once, h)[i] == once[i];
  }

  /** The order of two clicks does not matter. */
  lemma SelectAtCommutes(ps: seq<GamePiece>, h1: HexCoord, h2: HexCoord)
    ensures SelectAt(SelectAt(ps, h1), h2) == SelectAt(SelectAt(ps, h2), h1)
  {
    var a, b := SelectAt(ps, h1), SelectAt(ps, h2);
    SelectAtElement(ps, h1);
    SelectAtElement(ps, h2);
    SelectAtElement(a, h2);
    SelectAtElement(b, h1);
    assert forall i :: 0 <= i < |ps| ==> SelectAt(a, h2)[i] == SelectAt(b, h1)[i];
  }

  /** The indices of the selected pieces. */
  function SelectedIndices(ps: seq<GamePiece>): set<nat> {
    set i: nat | i < |ps| && ps[i].selected
  }

  /**
   * A click adds the pieces on h to the selection and removes none: the
   * selection after the click is the selection before plus the pieces on h.
   */
  lemma SelectAtGrowsSelection(ps: seq<GamePiece>, h: HexCoord)
    ensures SelectedIndices(SelectAt(ps, h)) == SelectedIndices(ps) + (set i: nat | i < |ps| && ps[i].coord == h)
  {
    SelectAtElement(ps, h);
  }

  /**
   * Nothing is ever deselected: after clicking one piece and then another on
   * a different hex, both are selected.
   */
  lemma SelectionAccumulates()
    ensures var a, b := SettlerPiece(), SettlerPiece().(coord := DefaultHexCoord);
      var after := SelectAt(SelectAt([a, b], a.coord), b.coord);
      after[0].selected && after[1].selected
  {
    var a, b := SettlerPiece(), SettlerPiece().(coord := DefaultHexCoord);
    SelectAtElement([a, b], a.coord);
    SelectAtElement(SelectAt([a, b], a.coord), b.coord);
  }

  /** The settler starts on a hex of the default board, with the default move range. */
  lemma SettlerStartsOnBoard()
    ensures SettlerPiece().coord.IsCube()
    ensures InBounds(SettlerPiece().coord, Board.DefaultSettings().boardRadius)
    ensures SettlerPiece().moveRange == DefaultMoveRange
  {
  }

  /** The pieces in the ECS world, in query iteration order. */
  class World {
    var pieces: seq<GamePiece>

    constructor()
      ensures pieces == []
    {
      pieces := [];
    }

    /** `spawn_settler`: add the settler bundle as a new entity. */
    method SpawnSettler()
      modifies this
      ensures pieces == old(pieces) + [SettlerPiece()]
    {
      pieces := pieces + [SettlerPiece()];
    }
  }

  /**
   * `piece_selection_system`: on a fresh left click with a hovered hex, walk
   * the pieces and mark each one standing on that hex; otherwise do nothing.
   */
  method PieceSelectionSystem(leftJustPressed: bool, hoveredTile: HoveredTile, world: World)
    modifies world
    ensures !leftJustPressed || hoveredTile.position.None? ==> world.pieces == old(world.pieces)
    ensures leftJustPressed && hoveredTile.position.Some? ==>
      world.pieces == SelectAt(old(world.pieces), hoveredTile.position.value)
  {
    if leftJustPressed {
      if hoveredTile.position.Some? {
        var hexHoverPosition := hoveredTile.position.value;
        ghost var before := world.pieces;
        var i := 0;
        while i < |world.pieces|
          invariant 0 <= i <= |before|
          invariant |world.pieces| == |before|
          invariant world.pieces == SelectAt(before[..i], hexHoverPosition) + before[i..]
        {
          assert before[..i + 1][..i] == before[..i];
          if world.pieces[i].coord == hexHoverPosition {
            world.pieces := world.pieces[i := world.pieces[i].(selected := true)];
          }
          i := i + 1;
        }
        assert before[..i] == before;
      }
    }
  }
}
