# Hex board prototype — verified model

This project models the logic core of a Bevy prototype of a turn-based
strategy game played on a hexagonal board. The model covers three parts.

- **Hex coordinates and picking** (`src/hex_grid.rs`). A `HexCoord` is a cube
  coordinate `(q, r, s)`. `to_screen_coords` maps it to a pixel centre.
  `check_hex_hover_position` turns the cursor position into a hex in four
  steps: centre the cursor on the window, convert to fractional cube
  coordinates, round with the largest-error correction, and bounds-check
  against the board radius. It writes the result into the `HoveredTile`
  slot. `update_hover_indicator` then copies that slot into the indicator's
  coordinate and visibility.
- **Board generation** (`src/board.rs`). `BoardSettings` holds the tile size,
  the board radius and the resource weights. `Board` maps each coordinate to
  its tile entity. `setup_board` is a nested loop over every cube within the
  radius. For each cube it draws a resource with a first-match cumulative
  threshold and registers the tile with `add_tile`.
- **Pieces and selection** (`src/main.rs`). `spawn_settler` places a settler
  at `(-1, -1, 2)` with `MoveRange(1)`. `piece_selection_system` reacts to a
  fresh left click while a hex is hovered: it marks every piece standing on
  that hex as `Selected`.

Modules: `Hex` (`hex.dfy`) holds the coordinate type. `Board` (`board.dfy`)
holds the settings, the registry and the enumeration. `HexGrid`
(`hex_grid.dfy`) holds picking and the hover state. `Game` (`game.dfy`)
holds pieces and selection.

State that the source updates in place is modelled as classes with
`modifies` clauses:

| class | models |
|---|---|
| `Board.Board` | the tile map |
| `HexGrid.HoveredTile` | the hover slot |
| `HexGrid.HoverIndicator` | the indicator entity |
| `Game.World` | the pieces |

The two systems with loops, `setup_board` and `piece_selection_system`, are
methods with `while` loops. Each is proved against a specification function:
`InsertTiles` / `SpawnedTiles` over the enumeration `BoardCoords`, or
`SelectAt`. `check_hex_hover_position` has no loop. Its method sets the slot to
`Pick` of the cursor. `update_hover_indicator`, `add_tile` and `spawn_settler`
state their new state directly. The properties of the specification functions
are proved as lemmas.

How the model abstracts the source:

- `f32` arithmetic becomes exact `real` arithmetic.
- `f32::round` becomes `RoundHalfAway`, which rounds half away from zero.
- `3_f32.sqrt()` becomes a parameter `sqrt3`. Only the picking round trip
  needs `sqrt3 * sqrt3 == 3`.
- The i-th random draw of `setup_board` is the parameter `draw(i)`.
- The i-th spawned tile entity is the parameter `spawn(i)`.
- `HexCoord::default()` (`src/hex_grid.rs:38-42`) is the constant `Hex.DefaultHexCoord`. `MoveRange::default()` (`src/main.rs:87-91`) is the constant `Game.DefaultMoveRange`. `HexGrid.CubeRoundAtOrigin`, `HexGrid.PickRoundedAtOrigin` and `Game.SettlerStartsOnBoard` state what the model relies on about them.

## Model

| member | source | states |
|---|---|---|
| Hex.ToScreenCoords | src/hex_grid.rs:31-35 | The pixel centre always has depth 0. `HexGrid.FractionalInvertsToScreenCoords` proves that the fractional conversion inverts it on cubes. |
| Board.DefaultSettings | src/board.rs:14-25 | The default settings have a positive tile size and a radius >= 0. The four resource weights are non-negative and sum to 1. |
| Board.ClassifyResource | src/board.rs:65-75 | The first arm wins: Gold is chosen exactly for draws below `goldPr`, whatever the other weights. Wood is chosen only for draws at or above `goldPr + wheatPr + stonePr`. |
| Board.ClassifyResourceIntervals | src/board.rs:65-75 | With non-negative gold, wheat and stone weights g, w, s, each resource is chosen exactly on its own interval, and `woodPr` never changes the result. The intervals are: Gold iff v < g; Wheat iff g <= v < g+w; Stone iff g+w <= v < g+w+s; Wood iff v >= g+w+s. |
| Board.ClassifyResourceMonotone | src/board.rs:65-75 | A larger draw never yields a resource that comes earlier in the threshold order. |
| Board.Board.constructor | src/board.rs:38-44 | The default board has no tiles. |
| Board.Board.AddTile | src/board.rs:33-35 | `add_tile` binds the coordinate to the entity and keeps every other key's binding. |
| Board.RowCoords | src/board.rs:59-60 | The inner loop's range lo..end yields end - lo coordinates, and none when end <= lo. `RowCoordsAt` and `RowCoordsMembers` state which ones. |
| Board.ColumnCoords | src/board.rs:56-60 | The coordinates the outer loop produces before column q, in loop order. It has no contract of its own. `ColumnCoordsMembers`, `ColumnCoordsDistinct` and `ColumnCountLeft`/`ColumnCountRight` state its members, distinctness and length. |
| Board.BoardCoords | src/board.rs:56-60 | All coordinates `setup_board` visits, in loop order. It has no contract of its own. `BoardCoordsMembers`, `BoardCoordsDistinct` and `BoardCoordsCount` state its members, distinctness and length. |
| Board.RowCoordsAt | src/board.rs:59-60 | The i-th cell of a row segment is (q, lo+i, -q-lo-i). |
| Board.RowLength | src/board.rs:57-59 | Column q of a radius-R board has 2R+1-\|q\| cells. |
| Board.RowCoordsMembers | src/board.rs:59-60 | A row segment holds exactly the cubes of column q with lo <= r < end. |
| Board.RowBounds | src/board.rs:57-58 | For an on-board column, r1 <= r <= r2 holds exactly when the cube is within the radius. |
| Board.ColumnCountLeft | src/board.rs:56-59 | The columns left of q <= 0 hold LeftCount/2 cells, a closed form. |
| Board.ColumnCountRight | src/board.rs:56-59 | The columns left of q >= 0 hold RightCount/2 cells, a closed form. |
| Board.BoardCoordsCount | src/board.rs:56-59 | The nested loop visits exactly 3R²+3R+1 coordinates. |
| Board.ColumnCoordsMembers | src/board.rs:56-60 | The columns before q list exactly the in-bounds cubes with -R <= q' < q. |
| Board.BoardCoordsMembers | src/board.rs:56-60 | The loop visits exactly the cubes with \|q\|,\|r\|,\|s\| <= R. This gives both soundness and completeness. |
| Board.ColumnCoordsDistinct | src/board.rs:56-60 | No column prefix lists a coordinate twice. |
| Board.BoardCoordsDistinct | src/board.rs:56-60 | No coordinate is visited twice. |
| Board.InsertTiles | src/board.rs:86-88 | The registry after `add_tile` for each visited coordinate in order. It has no contract of its own. `InsertTilesContents` and `InsertTilesSize` state its keys, bindings and size. |
| Board.InsertTilesContents | src/board.rs:33-35 | Inserting distinct coordinates in order adds exactly those keys and binds the i-th to the i-th entity. Every other key keeps its binding. |
| Board.InsertTilesSize | src/board.rs:34 | Inserting distinct fresh coordinates grows the map by exactly their number. |
| Board.SpawnedTiles | src/board.rs:60-87 | The spawn list has one tile per visited coordinate. `SpawnedTilesAt` states each tile's entity, coordinate and resource. |
| Board.SpawnedTilesAt | src/board.rs:60-87 | Tile i sits on the i-th visited coordinate and carries the i-th entity. Its resource is the classification of the i-th draw. |
| Board.SetupBoard | src/board.rs:46-91 | After `setup_board`, the map is the old map with every enumerated coordinate inserted in loop order. The spawned tiles are the enumeration paired with the draws and entities. |
| Board.SetupColumn | src/board.rs:57-89 | One pass of the outer loop extends the map and the spawn list from the columns before q to the columns up to q. |
| Board.SetupTile | src/board.rs:60-88 | One pass of the inner loop appends the tile at (q, r) to the spawn list and binds (q, r, -q-r) to its entity, continuing whatever prefix of coordinates was visited before. |
| Board.SetupBoardFromEmpty | src/board.rs:56-88 | From the empty default board, the map has 3R²+3R+1 keys. A key is present iff it is an in-bounds cube, and the i-th visited coordinate maps to the i-th entity. |
| Board.DefaultBoardTileCount | src/board.rs:18 | The default radius-5 board has 91 tiles. |
| HexGrid.RoundHalfAway | src/hex_grid.rs:120-122 | The result is within 1/2 of x. An exact half rounds away from zero. |
| HexGrid.RoundHalfAwayNearest | src/hex_grid.rs:120-122 | An integer closer than 1/2 to x is exactly what x rounds to. |
| HexGrid.CorrectLargest | src/hex_grid.rs:128-134 | After the correction the components sum to zero in every branch, and two of the three keep their rounded values. |
| HexGrid.CorrectLargestTiePolicy | src/hex_grid.rs:124-134 | Tie policy. q is recomputed only when its error is strictly the largest. r is recomputed only when its error is at least q's and above s's. s is recomputed only when its error is at least both others. Roundings that already sum to zero are kept. |
| HexGrid.CubeRound | src/hex_grid.rs:119-134 | The rounded hex is a cube, and two of its components equal the independent roundings. |
| HexGrid.CorrectLargestCloseness | src/hex_grid.rs:124-134 | For roundings within 1/2 of a point on the cube plane, every corrected component stays within 2/3 of the point. |
| HexGrid.CubeRoundCloseness | src/hex_grid.rs:119-134 | Every component of the rounded hex lies within 2/3 of a point on the cube plane. |
| HexGrid.CubeRoundFindsCloseCube | src/hex_grid.rs:119-134 | If a cube lies closer than 1/2 to the point in every component, rounding finds exactly that cube. |
| HexGrid.CubeRoundExact | src/hex_grid.rs:119-134 | A point that is already a cube rounds to itself. |
| HexGrid.Centered | src/hex_grid.rs:113-114 | The centred position is the origin iff the cursor is at the window's midpoint (both directions). |
| HexGrid.Fractional | src/hex_grid.rs:115-117 | The fractional coordinates lie on the cube plane: they sum to zero. |
| HexGrid.PickRounded | src/hex_grid.rs:136-149 | A hex that survives the bounds check is a cube within the board radius. |
| HexGrid.Pick | src/hex_grid.rs:112-149 | A picked hex is always a cube within the board radius. |
| HexGrid.PickSomeIffInBounds | src/hex_grid.rs:142-149 | Picking yields `Some(h)` iff the rounded hex h has \|q\|,\|r\|,\|s\| <= radius, and `None` otherwise. |
| HexGrid.FractionalAtOrigin | src/hex_grid.rs:115-117 | A centred position of (0, 0) has fractional coordinates (0, 0, 0) for any tile size. |
| HexGrid.CubeRoundAtOrigin | src/hex_grid.rs:119-134 | The origin of fractional space rounds to the default hex (0, 0, 0). |
| HexGrid.PickRoundedAtOrigin | src/hex_grid.rs:136-146 | For any radius >= 0, the origin survives the bounds check as the centre hex. |
| HexGrid.PickAtCentre | src/hex_grid.rs:113-146 | A cursor whose centred position is the origin picks the centre hex, for any tile size > 0 and radius >= 0. |
| HexGrid.PickAtWindowCentre | src/hex_grid.rs:113-146 | A cursor exactly at the window centre picks `Some(HexCoord{0,0,0})`. |
| HexGrid.FractionalInvertsToScreenCoords | src/hex_grid.rs:31-35 | Fractional conversion inverts `to_screen_coords` on cubes, with the y axis flipped and sqrt3² = 3. |
| HexGrid.PickInvertsToScreenCoords | src/hex_grid.rs:31-35 | Round trip: a cursor at (W/2 + x, H/2 - y), where (x, y) = `to_screen_coords(h)` for an in-bounds cube h, picks `Some(h)`. |
| HexGrid.HoveredTile.constructor | src/hex_grid.rs:75-79 | The hover slot starts empty. |
| HexGrid.HoverIndicator.constructor | src/hex_grid.rs:60-67 | The indicator starts hidden at (0, 0, 0). |
| HexGrid.RoundToCube | src/hex_grid.rs:120-134 | The mutable q/r/s rounding and correction returns components that sum to zero and equal `CubeRound` of the fractional point. |
| HexGrid.CheckHexHoverPosition | src/hex_grid.rs:101-151 | With no cursor the slot is unchanged. With a cursor the slot becomes `Pick` of it, so it is `Some(h)` iff the rounded hex is in bounds. The slot never holds anything but on-board cubes. |
| HexGrid.UpdateHoverIndicator | src/hex_grid.rs:84-99 | The indicator is visible iff a hex is hovered. Its coordinate becomes that hex, and is unchanged when nothing is hovered. |
| Game.SettlerPiece | src/main.rs:40-52 | The settler spawns unselected on a cube with the default move range. |
| Game.SettlerStartsOnBoard | src/main.rs:41-47 | The settler's start (-1, -1, 2) is a cube on the default radius-5 board, and its move range equals the `MoveRange` default of 1. |
| Game.World.SpawnSettler | src/main.rs:40-52 | `spawn_settler` adds exactly the settler bundle to the pieces. |
| Game.SelectAt | src/main.rs:30-35 | A click neither adds nor removes pieces. |
| Game.SelectAtElement | src/main.rs:30-34 | After a click on h, a piece is selected iff it was selected before or stands on h. Kind, coordinate and move range never change. |
| Game.SelectAtIdempotent | src/main.rs:32 | Clicking the same hex twice equals clicking it once. |
| Game.SelectAtCommutes | src/main.rs:28-37 | Two clicks on different hexes commute. |
| Game.SelectAtGrowsSelection | src/main.rs:30-34 | The selected set after a click is the set before, plus the pieces on the clicked hex. Nothing is deselected. |
| Game.SelectionAccumulates | src/main.rs:30-34 | Clicking one piece, then another on a different hex, leaves both selected. |
| Game.PieceSelectionSystem | src/main.rs:22-38 | Without a fresh left click, or with nothing hovered, no piece changes. Otherwise the pieces become `SelectAt` of the hovered hex. |

## Left out

- Floating point: `f32` rounding error, the value of `3_f32.sqrt()`, NaN and infinities, and the `as i32` casts are not modelled. Components are unbounded integers, so `i32` overflow is not modelled either.
- HexGrid.Pick: requires `tile_size > 0`, and so does HexGrid.CheckHexHoverPosition. The source divides by it unchecked, and a zero tile size would give NaN or infinite fractions in `f32`.
- HexGrid.PickInvertsToScreenCoords: holds for exact reals. A hex centre maps to integer fractional coordinates, 1/2 away from every rounding boundary. With `f32`, error accumulated on very large coordinates and the `as i32` casts are what the model does not capture.
- Bevy plumbing is left out: plugin `build`, system registration and chaining, `Commands` spawning, meshes, materials, `get_color`, the camera, the sprite asset, the `Transform` and `println!`.
- Deferred `Commands` are modelled as immediate updates. These are the spawned tile, settler and indicator components, and the `Selected` insert of `src/main.rs:32`. `add_tile` (`src/board.rs:88`) changes the `Board` resource directly in the source too.
- `sync_transform_with_hex_coords` and `setup_hover_indicator`'s mesh only write engine transforms and meshes. `src/grid_system.rs` is not part of this model: it is an older duplicate not declared as a module.
- The second `HexCoord` in `src/board.rs:97-116` flips the y sign of `to_screen_coords`. The model uses one `HexCoord` type with the `src/hex_grid.rs` convention.
- `rand::thread_rng` sampling is left out. The i-th draw is the parameter `draw(i)`, and the i-th spawned entity id is `spawn(i)`.
- `Resource::default()` (Wheat) is left out, because every tile gets a drawn resource.
- Board.SetupBoard: its inner loop body and one outer pass are separate methods, `SetupTile` and `SetupColumn`. Their bodies are the source's statements in the same order.
- HexGrid.RoundToCube: the rounding and correction part of `check_hex_hover_position` is a separate method with the same mutable `q/r/s` steps.
- The code has no deselection, no reachable-hex calculation and no piece movement. Nothing reads `MoveRange`, which `spawn_settler` spawns as `MoveRange(1)` (`src/main.rs:47`) and which the model carries as `GamePiece.moveRange`. `MoveRangeIndicator` (`src/main.rs:57-58`) is never used. Selection only accumulates (see `Game.SelectionAccumulates`).
