/**
 * Board generation (src/board.rs): the settings resource, the tile registry
 * keyed by coordinate, the per-tile resource draw and the nested loop that
 * enumerates every hex within the board radius.
 */
module Board {
  import opened Hex

  /** `BoardSettings`; the four probabilities are the weights of the resource draw. */
  datatype BoardSettings = BoardSettings(
    tileSize: real,
    boardRadius: int,
    goldPr: real,
    wheatPr: real,
    stonePr: real,
    woodPr: real)

  /**
   * `BoardSettings::default()`: a usable board (positive tile size, a radius
   * of at least zero) whose resource weights form a distribution.
   */
  function DefaultSettings(): (d: BoardSettings)
    ensures d.tileSize > 0.0 && d.boardRadius >= 0
    ensures d.goldPr >= 0.0 && d.wheatPr >= 0.0 && d.stonePr >= 0.0 && d.woodPr >= 0.0
    ensures d.goldPr + d.wheatPr + d.stonePr + d.woodPr == 1.0
  {
    BoardSettings(40.0, 5, 0.05, 0.4, 0.2, 0.35)
  }

  datatype Resource = Gold | Wheat | Stone | Wood

  /**
   * The `match` on the drawn value: the first cumulative threshold that the
   * value falls under decides the resource; `woodPr` is never consulted.
   */
  function ClassifyResource(v: real, settings: BoardSettings): (res: Resource)
    ensures res == Gold <==> v < settings.goldPr
    ensures res == Wood ==> v >= settings.goldPr + settings.wheatPr + settings.stonePr
  {
    if v < settings.goldPr then Gold
    else if v < settings.goldPr + settings.wheatPr then Wheat
    else if v < settings.goldPr + settings.wheatPr + settings.stonePr then Stone
    else Wood
  }

  /** Position of a resource in the order of the thresholds. */
  function Rank(res: Resource): nat {
    match res
    case Gold => 0
    case Wheat => 1
    case Stone => 2
    case Wood => 3
  }

  /**
   * With non-negative weights every resource owns one half-open interval of
   * draws, of width equal to its weight, laid out left to right; `woodPr`
   * plays no part.
   */
  lemma ClassifyResourceIntervals(v: real, settings: BoardSettings)
    requires settings.goldPr >= 0.0 && settings.wheatPr >= 0.0 && settings.stonePr >= 0.0
    ensures var g, w, s := settings.goldPr, settings.wheatPr, settings.stonePr;
      && (ClassifyResource(v, settings) == Gold <==> v < g)
      && (ClassifyResource(v, settings) == Wheat <==> g <= v < g + w)
      && (ClassifyResource(v, settings) == Stone <==> g + w <= v < g + w + s)
      && (ClassifyResource(v, settings) == Wood <==> g + w + s <= v)
    ensures forall woodPr: real :: ClassifyResource(v, settings.(woodPr := woodPr)) == ClassifyResource(v, settings)
  {
  }

  /** A larger draw never yields a resource earlier in the threshold order. */
  lemma ClassifyResourceMonotone(v1: real, v2: real, settings: BoardSettings)
    requires v1 <= v2
    ensures Rank(ClassifyResource(v1, settings)) <= Rank(ClassifyResource(v2, settings))
  {
  }

  /** Bevy's `Entity` handle, an opaque identifier. */
  type Entity = nat

  /** `Board`: the registry from coordinate to the entity of its tile. */
  class Board {
    var tiles: map<HexCoord, Entity>

    /** `Board::default()`: no tiles. */
    constructor ()
      ensures tiles == map[]
    {
      tiles := map[];
    }

    /** `add_tile`: bind `coord` to `entity`, replacing any earlier binding. */
    method AddTile(coord: HexCoord, entity: Entity)
      modifies this
      ensures tiles == old(tiles)[coord := entity]
    {
      tiles := tiles[coord := entity];
    }
  }

  function Max(a: int, b: int): int { if a < b then b else a }
  function Min(a: int, b: int): int { if a < b then a else b }

  /** First r of column q, as `r1` in the source. */
  function RowStart(radius: int, q: int): int { Max(-radius, -q - radius) }

  /** Last r of column q (inclusive), as `r2` in the source. */
  function RowEnd(radius: int, q: int): int { Min(radius, -q + radius) }

  /** The coordinates of column q with lo <= r < end, in the inner loop's order. */
  function RowCoords(q: int, lo: int, end: int): (cs: seq<HexCoord>)
    decreases end - lo
    ensures |cs| == if end <= lo then 0 else end - lo
  {
    if end <= lo then [] else RowCoords(q, lo, end - 1) + [HexCoord(q, end - 1, -q - (end - 1))]
  }

  /** The i-th coordinate of a row segment is (q, lo + i, -q - lo - i). */
  lemma {:induction false} RowCoordsAt(q: int, lo: int, end: int, i: int)
    requires 0 <= i < end - lo
    ensures RowCoords(q, lo, end)[i] == HexCoord(q, lo + i, -q - (lo + i))
    decreases end - lo
  {
    if i < end - 1 - lo {
      RowCoordsAt(q, lo, end - 1, i);
    }
  }

  /** The coordinates the outer loop has produced before reaching column q. */
  function ColumnCoords(radius: int, q: int): seq<HexCoord>
    decreases q + radius
  {
    if q <= -radius then []
    else ColumnCoords(radius, q - 1) + RowCoords(q - 1, RowStart(radius, q - 1), RowEnd(radius, q - 1) + 1)
  }

  /** Every coordinate `setup_board` visits, in visiting order. */
  function BoardCoords(radius: int): seq<HexCoord> {
    ColumnCoords(radius, radius + 1)
  }

  /** Number of cells of a hexagonal board of the given radius. */
  function HexCount(radius: nat): int {
    3 * radius * radius + 3 * radius + 1
  }

  predicate Distinct(cs: seq<HexCoord>) {
    forall i, j :: 0 <= i < j < |cs| ==> cs[i] != cs[j]
  }

  /** Row q holds 2R+1-|q| cells. */
  lemma RowLength(radius: int, q: int)
    requires 0 <= radius && -radius <= q <= radius
    ensures |RowCoords(q, RowStart(radius, q), RowEnd(radius, q) + 1)| == 2 * radius + 1 - Abs(q)
  {
  }

  /** Twice the number of cells in the columns left of q, while q <= 0. */
  lemma {:induction false} ColumnCountLeft(radius: int, q: int)
    requires 0 <= radius && -radius <= q <= 0
    ensures 2 * |ColumnCoords(radius, q)| == LeftCount(radius, q + radius)
    decreases q + radius
  {
    if q > -radius {
      ColumnCountLeft(radius, q - 1);
      RowLength(radius, q - 1);
      LeftCountStep(radius, q + radius);
    }
  }

  /** Twice the size of the first m columns: 2m(R+1) + m(m-1). */
  function LeftCount(radius: int, m: int): int {
    2 * m * (radius + 1) + m * (m - 1)
  }

  lemma LeftCountStep(radius: int, m: int)
    ensures LeftCount(radius, m) == LeftCount(radius, m - 1) + 2 * (radius + m)
  {
    assert (m - 1) * (radius + 1) == m * (radius + 1) - (radius + 1);
    assert (m - 1) * (m - 2) == m * (m - 1) - 2 * (m - 1);
  }

  /** Twice the size of the columns left of q >= 0: 3R^2 + R + 2q(2R+1) - q(q-1). */
  function RightCount(radius: int, q: int): int {
    3 * radius * radius + radius + 2 * q * (2 * radius + 1) - q * (q - 1)
  }

  lemma RightCountStep(radius: int, q: int)
    ensures RightCount(radius, q) == RightCount(radius, q - 1) + 2 * (2 * radius + 2 - q)
  {
    assert (q - 1) * (2 * radius + 1) == q * (2 * radius + 1) - (2 * radius + 1);
    assert (q - 1) * (q - 2) == q * (q - 1) - 2 * (q - 1);
  }

  lemma CountsMeet(radius: int)
    ensures LeftCount(radius, radius) == RightCount(radius, 0)
    ensures RightCount(radius, radius + 1) == 2 * (3 * radius * radius + 3 * radius + 1)
  {
    var r := radius;
    assert (r + 1) * (2 * r + 1) == 2 * r * r + 3 * r + 1;
    assert (r + 1) * r == r * r + r;
    assert r * (r - 1) == r * r - r;
    assert r * (r + 1) == r * r + r;
  }

  /** Twice the number of cells in the columns left of q, once q >= 0. */
  lemma {:induction false} ColumnCountRight(radius: int, q: int)
    requires 0 <= radius && 0 <= q <= radius + 1
    ensures 2 * |ColumnCoords(radius, q)| == RightCount(radius, q)
  {
    if q == 0 {
      ColumnCountLeft(radius, 0);
      CountsMeet(radius);
    } else {
      ColumnCountRight(radius, q - 1);
      RowLength(radius, q - 1);
      RightCountStep(radius, q);
    }
  }

  /** The loops of `setup_board` visit exactly 3R^2 + 3R + 1 coordinates. */
  lemma BoardCoordsCount(radius: nat)
    ensures |BoardCoords(radius)| == HexCount(radius)
  {
    ColumnCountRight(radius, radius + 1);
    CountsMeet(radius);
  }

  /** Membership in a column prefix: exactly the in-bounds cubes left of column q. */
  lemma {:induction false} ColumnCoordsMembers(radius: int, q: int, h: HexCoord)
    requires q <= radius + 1
    ensures h in ColumnCoords(radius, q) <==> -radius <= h.q < q && h.IsCube() && InBounds(h, radius)
    decreases q + radius
  {
    if q > -radius {
      var lo, end := RowStart(radius, q - 1), RowEnd(radius, q - 1) + 1;
      var row := RowCoords(q - 1, lo, end);
      ColumnCoordsMembers(radius, q - 1, h);
      assert h in row <==> h.q == q - 1 && h.IsCube() && InBounds(h, radius) by {
        RowCoordsMembers(q - 1, lo, end, h);
        if h.q == q - 1 && h.IsCube() {
          RowBounds(radius, h);
        }
      }
    }
  }

  /** A row segment holds exactly the cubes of its column with lo <= r < end. */
  lemma RowCoordsMembers(q: int, lo: int, end: int, h: HexCoord)
    ensures h in RowCoords(q, lo, end) <==> h.q == q && lo <= h.r < end && h.IsCube()
  {
    var row := RowCoords(q, lo, end);
    if h in row {
      var i :| 0 <= i < |row| && row[i] == h;
      RowCoordsAt(q, lo, end, i);
    }
    if h.q == q && lo <= h.r < end && h.IsCube() {
      RowCoordsAt(q, lo, end, h.r - lo);
    }
  }

  /** For a column on the board, the row range r1..=r2 is exactly the in-bounds range of a cube. */
  lemma RowBounds(radius: int, h: HexCoord)
    requires -radius <= h.q <= radius && h.IsCube()
    ensures RowStart(radius, h.q) <= h.r <= RowEnd(radius, h.q) <==> InBounds(h, radius)
  {
  }

  /** The enumeration is sound and complete: it lists the in-bounds cubes and nothing else. */
  lemma BoardCoordsMembers(radius: int, h: HexCoord)
    ensures h in BoardCoords(radius) <==> h.IsCube() && InBounds(h, radius)
  {
    ColumnCoordsMembers(radius, radius + 1, h);
  }

  /** Column prefixes never list a coordinate twice. */
  lemma {:induction false} ColumnCoordsDistinct(radius: int, q: int)
    requires q <= radius + 1
    ensures Distinct(ColumnCoords(radius, q))
    decreases q + radius
  {
    if q > -radius {
      var prefix := ColumnCoords(radius, q - 1);
      ColumnCoordsDistinct(radius, q - 1);
      var lo, end := RowStart(radius, q - 1), RowEnd(radius, q - 1) + 1;
      var row := RowCoords(q - 1, lo, end);
      forall i | 0 <= i < |prefix|
        ensures prefix[i].q < q - 1
      {
        ColumnCoordsMembers(radius, q - 1, prefix[i]);
      }
      forall i | 0 <= i < |row|
        ensures row[i] == HexCoord(q - 1, lo + i, -(q - 1) - (lo + i))
      {
        RowCoordsAt(q - 1, lo, end, i);
      }
      assert prefix + row == ColumnCoords(radius, q);
    }
  }

  /** No coordinate is visited twice. */
  lemma BoardCoordsDistinct(radius: int)
    ensures Distinct(BoardCoords(radius))
  {
    ColumnCoordsDistinct(radius, radius + 1);
  }

  /** The registry after inserting `coords[i]` with the i-th spawned entity, in order. */
  function InsertTiles(m: map<HexCoord, Entity>, coords: seq<HexCoord>, spawn: nat -> Entity): map<HexCoord, Entity>
  {
    if coords == [] then m
    else InsertTiles(m, coords[..|coords| - 1], spawn)[coords[|coords| - 1] := spawn(|coords| - 1)]
  }

  /**
   * Inserting distinct coordinates adds exactly those keys, binds the i-th to
   * the i-th entity, and keeps every other key's binding.
   */
  lemma {:induction false} InsertTilesContents(m: map<HexCoord, Entity>, coords: seq<HexCoord>, spawn: nat -> Entity)
    requires Distinct(coords)
    ensures var t := InsertTiles(m, coords, spawn);
      && (forall h :: h in t <==> h in m || h in coords)
      && (forall i :: 0 <= i < |coords| ==> t[coords[i]] == spawn(i))
      && (forall h :: h in m && h !in coords ==> t[h] == m[h])
  {
    if coords != [] {
      var init := coords[..|coords| - 1];
      InsertTilesContents(m, init, spawn);
      assert coords == init + [coords[|coords| - 1]];
    }
  }

  /** Inserting distinct fresh coordinates grows the registry by one key each. */
  lemma {:induction false} InsertTilesSize(m: map<HexCoord, Entity>, coords: seq<HexCoord>, spawn: nat -> Entity)
    requires Distinct(coords)
    requires forall h :: h in coords ==> h !in m
    ensures |InsertTiles(m, coords, spawn)| == |m| + |coords|
  {
    if coords != [] {
      var init := coords[..|coords| - 1];
      var last := coords[|coords| - 1];
      assert forall i :: 0 <= i < |init| ==> init[i] == coords[i];
      InsertTilesSize(m, init, spawn);
      var t := InsertTiles(m, init, spawn);
      assert last !in t by {
        InsertTilesContents(m, init, spawn);
        assert last !in init;
      }
      assert t[last := spawn(|init|)].Keys == t.Keys + {last};
    }
  }

  /** One spawned tile entity: its handle, coordinate and drawn resource. */
  datatype TileBundle = TileBundle(entity: Entity, coord: HexCoord, resource: Resource)

  /** The tiles spawned for `coords`, the i-th using the i-th draw and the i-th entity. */
  function SpawnedTiles(coords: seq<HexCoord>, settings: BoardSettings, draw: nat -> real, spawn: nat -> Entity): (ts: seq<TileBundle>)
    ensures |ts| == |coords|
  {
    if coords == [] then []
    else
      var n := |coords| - 1;
      SpawnedTiles(coords[..n], settings, draw, spawn) + [TileBundle(spawn(n), coords[n], ClassifyResource(draw(n), settings))]
  }

  /**
   * Tile i of the spawn list sits on the i-th visited coordinate, carries the
   * i-th entity, and its resource is the classification of the i-th draw.
   */
  lemma {:induction false} SpawnedTilesAt(coords: seq<HexCoord>, settings: BoardSettings, draw: nat -> real, spawn: nat -> Entity, i: nat)
    requires i < |coords|
    ensures SpawnedTiles(coords, settings, draw, spawn)[i] == TileBundle(spawn(i), coords[i], ClassifyResource(draw(i), settings))
  {
    var n := |coords| - 1;
    if i < n {
      SpawnedTilesAt(coords[..n], settings, draw, spawn, i);
    }
  }

  /** The coordinates visited before (q, r): the columns left of q, then column q below r. */
  function VisitedBefore(radius: int, q: int, r: int): seq<HexCoord> {
    ColumnCoords(radius, q) + RowCoords(q, Max(-radius, -q - radius), r)
  }

  lemma VisitedBeforeStep(radius: int, q: int, r: int)
    requires Max(-radius, -q - radius) <= r
    ensures VisitedBefore(radius, q, r + 1) == VisitedBefore(radius, q, r) + [HexCoord(q, r, -q - r)]
  {
  }

  lemma VisitedBeforeNextColumn(radius: int, q: int)
    requires -radius <= q
    ensures VisitedBefore(radius, q, Min(radius, -q + radius) + 1) == ColumnCoords(radius, q + 1)
    ensures VisitedBefore(radius, q, Max(-radius, -q - radius)) == ColumnCoords(radius, q)
  {
  }

  lemma InsertTilesSnoc(m: map<HexCoord, Entity>, coords: seq<HexCoord>, c: HexCoord, spawn: nat -> Entity)
    ensures InsertTiles(m, coords + [c], spawn) == InsertTiles(m, coords, spawn)[c := spawn(|coords|)]
  {
    assert (coords + [c])[..|coords|] == coords;
  }

  lemma SpawnedTilesSnoc(coords: seq<HexCoord>, c: HexCoord, settings: BoardSettings, draw: nat -> real, spawn: nat -> Entity)
    ensures SpawnedTiles(coords + [c], settings, draw, spawn)
         == SpawnedTiles(coords, settings, draw, spawn) + [TileBundle(spawn(|coords|), c, ClassifyResource(draw(|coords|), settings))]
  {
    assert (coords + [c])[..|coords|] == coords;
  }

  /**
   * `setup_board`: for each q in -R..=R and each r in r1..=r2, spawn a tile for
   * (q, r, -q-r) with a resource chosen by the i-th random draw, and register it.
   */
  method SetupBoard(grid: Board, settings: BoardSettings, draw: nat -> real, spawn: nat -> Entity)
    returns (spawned: seq<TileBundle>)
    modifies grid
    ensures grid.tiles == InsertTiles(old(grid.tiles), BoardCoords(settings.boardRadius), spawn)
    ensures spawned == SpawnedTiles(BoardCoords(settings.boardRadius), settings, draw, spawn)
  {
    var radius := settings.boardRadius;
    ghost var tiles0 := grid.tiles;
    spawned := [];
    var q := -radius;
    while q <= radius
      invariant radius >= 0 ==> -radius <= q <= radius + 1
      invariant radius < 0 ==> q == -radius
      invariant spawned == SpawnedTiles(ColumnCoords(radius, q), settings, draw, spawn)
      invariant grid.tiles == InsertTiles(tiles0, ColumnCoords(radius, q), spawn)
    {
      spawned := SetupColumn(grid, settings, draw, spawn, q, tiles0, spawned);
      q := q + 1;
    }
    if radius < 0 {
      assert BoardCoords(radius) == [];
    }
  }

  /**
   * One pass of the outer loop of `setup_board`: the inner loop over r in
   * r1..=r2 for column q, continuing the spawn order after the earlier columns.
   */
  method SetupColumn(grid: Board, settings: BoardSettings, draw: nat -> real, spawn: nat -> Entity,
                     q: int, ghost tiles0: map<HexCoord, Entity>, spawnedBefore: seq<TileBundle>)
    returns (spawned: seq<TileBundle>)
    requires -settings.boardRadius <= q <= settings.boardRadius
    requires spawnedBefore == SpawnedTiles(ColumnCoords(settings.boardRadius, q), settings, draw, spawn)
    requires grid.tiles == InsertTiles(tiles0, ColumnCoords(settings.boardRadius, q), spawn)
    modifies grid
    ensures spawned == SpawnedTiles(ColumnCoords(settings.boardRadius, q + 1), settings, draw, spawn)
    ensures grid.tiles == InsertTiles(tiles0, ColumnCoords(settings.boardRadius, q + 1), spawn)
  {
    var radius := settings.boardRadius;
    var r1 := Max(-radius, -q - radius);
    var r2 := Min(radius, -q + radius);
    var r := r1;
    spawned := spawnedBefore;
    ghost var visited := ColumnCoords(radius, q);
    VisitedBeforeNextColumn(radius, q);
    while r <= r2
      invariant r1 <= r <= r2 + 1
      invariant visited == VisitedBefore(radius, q, r)
      invariant spawned == SpawnedTiles(visited, settings, draw, spawn)
      invariant grid.tiles == InsertTiles(tiles0, visited, spawn)
    {
      spawned := SetupTile(grid, settings, draw, spawn, q, r, tiles0, visited, spawned);
      VisitedBeforeStep(radius, q, r);
      visited := visited + [HexCoord(q, r, -q - r)];
      r := r + 1;
    }
  }

  /**
   * The body of the inner loop of `setup_board`: spawn the tile at (q, r)
   * with a sampled resource and register it on the board. `visited` are the
   * coordinates handled before this one.
   */
  method SetupTile(grid: Board, settings: BoardSettings, draw: nat -> real, spawn: nat -> Entity,
                   q: int, r: int, ghost tiles0: map<HexCoord, Entity>, ghost visited: seq<HexCoord>,
                   spawnedBefore: seq<TileBundle>)
    returns (spawned: seq<TileBundle>)
    requires spawnedBefore == SpawnedTiles(visited, settings, draw, spawn)
    requires grid.tiles == InsertTiles(tiles0, visited, spawn)
    modifies grid
    ensures spawned == SpawnedTiles(visited + [HexCoord(q, r, -q - r)], settings, draw, spawn)
    ensures grid.tiles == InsertTiles(tiles0, visited + [HexCoord(q, r, -q - r)], spawn)
  {
    var coord := HexCoord(q, r, -q - r);
    var resourceType := ClassifyResource(draw(|spawnedBefore|), settings);
    var tile := spawn(|spawnedBefore|);
    SpawnedTilesSnoc(visited, coord, settings, draw, spawn);
    InsertTilesSnoc(tiles0, visited, coord, spawn);
    spawned := spawnedBefore + [TileBundle(tile, coord, resourceType)];
    grid.AddTile(coord, tile);
  }

  /**
   * Starting from the default (empty) board, `setup_board` registers one tile
   * per in-bounds cube, 3R^2 + 3R + 1 in all, and the i-th visited coordinate
   * keeps the i-th spawned entity.
   */
  lemma {:induction false} SetupBoardFromEmpty(radius: nat, spawn: nat -> Entity)
    ensures var t := InsertTiles(map[], BoardCoords(radius), spawn);
      && |t| == HexCount(radius)
      && (forall h :: h in t <==> h.IsCube() && InBounds(h, radius))
      && (forall i :: 0 <= i < |BoardCoords(radius)| ==> BoardCoords(radius)[i] in t && t[BoardCoords(radius)[i]] == spawn(i))
  {
    var cs := BoardCoords(radius);
    BoardCoordsDistinct(radius);
    BoardCoordsCount(radius);
    InsertTilesContents(map[], cs, spawn);
    InsertTilesSize(map[], cs, spawn);
    forall h ensures h in cs <==> h.IsCube() && InBounds(h, radius) {
      BoardCoordsMembers(radius, h);
    }
  }

  /** The default board of radius 5 has 91 tiles. */
  lemma DefaultBoardTileCount()
    ensures |BoardCoords(DefaultSettings().boardRadius)| == 91
  {
    BoardCoordsCount(5);
  }
}
