# Sokoban backend core, modelled in Dafny

This project models the deterministic machinery of a Sokoban (box-pushing)
puzzle backend written in Python: the level-text parsers of its two
level-verification scripts, the push-space A* solver script, and the helpers
the web backend (`backend/app/main.py`) runs around its external ASP solver.
The rules are the classic ones: the player walks on free cells, pushes one
box at a time one cell forward, never into a wall or another box, and the
puzzle is solved when every box stands on a goal.

What is modelled, module by module:

- `LevelText`: `parse_levels` (identical in both verification scripts),
  splitting a level collection into `Level N` blocks with optional quoted
  titles and trimmed grid lines, sorted by id.
- `VoidFill`, `LevelGrid`, `OfficialLevels`, `ClingoFacts`:
  - padding ragged rows to a rectangle;
  - the worklist flood fill that marks exterior blanks as void, with the pop
    order (FIFO `q.pop(0)` or LIFO `q.pop()`) as a parameter;
  - the row-major entity scan;
  - `parse_level_to_state` (grid, player, boxes, goals);
  - `parse_level_to_facts` (`cell`, `initial_player`, `initial_box` facts).
- `AstarLevel`, `Assignment`, `AstarSearch`: the solver script:
  - `parse_level`, `manhattan` and `flood_reachable`;
  - `is_solved`, `canonical_state` and `successors`;
  - the two assignment heuristics (bitmask DP and permutations);
  - `astar_solve` with an expansion budget in place of its clock;
  - `render`.
- `Rules`, `Walks`, `WalkSearch`, `Reconstruct`: the board as the web
  backend sees it:
  - the breadth-first walk search;
  - turning push and slide macros into unit moves;
  - the first hint step;
  - trimming a move list at the first solved state.
- `Deadlocks`: corner deadlocks and static dead squares (reverse-push
  reachability from the goals).
- `Facts`: `game_state_to_facts`.
- `PushHeuristic`, `Masks`, `Symmetry`: pieces of the push-space fallback
  search:
  - the push-distance heuristic with its `dp`/`ndp` layers;
  - the dihedral symmetry filter;
  - symmetry-canonical keys.
- `AppRules`: `validate_solution`, the starting horizon and the horizon
  escalation of the auto loop.

Imperative source code is modelled by methods with loops and invariants.
Each method is proved against a specification function or predicate, and the
properties the source promises are proved about that specification. The
`is_void` matrix is an `array2<bool>` filled in place.

## Model

| member | source | states |
|---|---|---|
| LevelText.ParseLevels | backend/verify_official_levels.py:32-79 | the line loop returns exactly the fold `LevelsOf` of `Step` over the classified lines, then flushes and sorts by id |
| LevelText.ReadLine | backend/verify_official_levels.py:51-75 | one loop iteration is one `Step`: a header flushes and opens a level; before a header lines are ignored; a quoted title is taken only before the first grid line; leading blank lines are skipped; otherwise the line is appended |
| LevelText.FlushLevel | backend/verify_official_levels.py:40-49 | `flush` appends the open level with its grid trimmed, and does nothing when no level is open |
| LevelText.TrimGrid | backend/verify_official_levels.py:45-48 | the two pop loops return `TrimBlank(grid)`, which neither starts nor ends with a whitespace-only line |
| LevelText.DropLeadingBlank | backend/verify_official_levels.py:45-46 | the `pop(0)` loop removes exactly the maximal prefix of blank lines |
| LevelText.DropTrailingBlank | backend/verify_official_levels.py:47-48 | the `pop()` loop removes exactly the maximal suffix of blank lines |
| LevelText.DropLeadingOnlyBlank | backend/verify_official_levels.py:45-46 | every line the leading trim drops is blank |
| LevelText.DropTrailingOnlyBlank | backend/verify_official_levels.py:47-48 | every line the trailing trim drops is blank |
| LevelText.TrimsEnds | backend/verify_official_levels.py:45-48 | after both trims the grid is empty or starts and ends with a non-blank line |
| LevelText.TrimBlankTrims | backend/verify_official_levels.py:45-48 | the trimmed grid neither starts nor ends with a blank line |
| LevelText.LStrip | backend/verify_official_levels.py:52 | `str.lstrip()`: a suffix of the input that does not start with whitespace, where everything dropped is whitespace |
| LevelText.BlankIffAllSpace | backend/verify_official_levels.py:72 | `line.strip() == ""` holds exactly when every character of the line is whitespace |
| LevelText.ClassifyBlank | backend/verify_official_levels.py:72 | a line is classified blank exactly when it strips to the empty string, and its text is kept |
| LevelText.InsertById | backend/verify_official_levels.py:78 | inserting a level adds exactly that level to the multiset of levels |
| LevelText.InsertSorted | backend/verify_official_levels.py:78 | inserting into a list sorted by id keeps it sorted |
| LevelText.SortById | backend/verify_official_levels.py:78 | `levels.sort(key=id)` returns a permutation of its input |
| LevelText.SortByIdSorted | backend/verify_official_levels.py:78 | the sorted list is ordered by id |
| LevelText.LevelsSortedAndTrimmed | backend/verify_official_levels.py:44-78 | the parsed levels are sorted by id, and no level's grid starts or ends with a blank line |
| LevelText.FoldTrimmed | backend/verify_official_levels.py:44-49 | every level flushed during the loop has a trimmed grid |
| LevelText.PermutationKeepsTrimmed | backend/verify_official_levels.py:78 | sorting does not change which grids are trimmed |
| LevelText.PreambleIgnored | backend/verify_official_levels.py:60-61 | lines before the first `Level N` header do not change the result |
| LevelText.PreambleSkipped | backend/verify_official_levels.py:60-61 | with no level open, non-header lines leave the parser state unchanged |
| LevelText.TitleOnlyBeforeGrid | backend/verify_official_levels.py:63-75 | once a grid line is read, every later non-header line, even a quoted one, is appended to the grid |
| LevelText.GridStartsNonBlank | backend/verify_official_levels.py:71-73 | the open level's grid never starts with a blank line |
| LevelText.OneLevelPerHeader | backend/verify_official_levels.py:51-77 | the levels flushed so far plus the open one number exactly the headers read |
| LevelText.LevelCount | backend/verify_official_levels.py:51-77 | `parse_levels` returns exactly one level per header line |
| LevelText.FoldAppend | backend/verify_official_levels.py:51-75 | processing `a + b` is processing `a`, then `b` |
| VoidFill.Width | backend/verify_official_levels.py:90 | `max(len(r), default=0)`: no line is longer, and some line reaches it when there is a line |
| VoidFill.Padded | backend/verify_official_levels.py:93-96 | the padded grid is a `width` by `height` rectangle |
| VoidFill.PadRows | backend/verify_official_levels.py:93-96 | the padding loop returns `Padded(lines)` |
| VoidFill.PaddedShape | backend/verify_official_levels.py:93-96 | the padded grid has `height` rows of `width` characters, keeps every original character and fills the rest with spaces |
| VoidFill.BlanksMember | backend/verify_official_levels.py:107 | a cell is a blank exactly when it is inside the rectangle and holds a space |
| VoidFill.VoidIsBlank | backend/verify_official_levels.py:102-110 | a void cell is a space inside the rectangle, so non-blank characters never become void |
| VoidFill.VoidSeed | backend/verify_official_levels.py:112-117 | every blank on the border is void |
| VoidFill.VoidStep | backend/verify_official_levels.py:119-124 | a blank next to a void cell is void |
| VoidFill.VoidsMember | backend/verify_official_levels.py:98-124 | the void set holds exactly the blanks joined through blanks to a blank on the border |
| VoidFill.VoidsSpread | backend/verify_official_levels.py:112-124 | the void set contains the border blanks and is closed under blank neighbours |
| VoidFill.Enqueue | backend/verify_official_levels.py:102-110 | `enqueue` marks and queues the cell exactly when it is an unmarked space inside the rectangle |
| VoidFill.SeedBorder | backend/verify_official_levels.py:112-117 | after the two seeding loops every border blank is marked, and everything marked is void |
| VoidFill.Drain | backend/verify_official_levels.py:119-124 | the worklist loop empties the queue, keeping marked cells void and closing the marked set under blank neighbours |
| VoidFill.FillVoid | backend/verify_official_levels.py:98-124 | for either pop order, `is_void[y][x]` holds exactly when `(x, y)` is a blank joined through blanks to a blank on the border |
| LevelGrid.RowCellsSpec | backend/verify_official_levels.py:133-157 | the cells one row scan collects are exactly that row's cells holding the entity, in increasing `x` |
| LevelGrid.GridCellsSpec | backend/verify_official_levels.py:131-159 | the scan collects exactly the grid's cells holding the entity, each once, in row-major order |
| LevelGrid.LastPlayer | backend/verify_official_levels.py:143-155 | the player the scan ends with is `None` exactly when no cell holds `@` or `+`; otherwise it is such a cell with no later one in row-major order |
| LevelGrid.PaddedEntities | backend/verify_official_levels.py:95 | a padded cell holds an entity exactly when the original line has that character there |
| LevelGrid.PaddedCells | backend/verify_official_levels.py:126-159 | scanning the padded grid lists exactly the original cells holding the entity, in row-major order |
| LevelGrid.PaddedPlayer | backend/verify_official_levels.py:143-162 | the scanned player is `None` exactly when no line holds `@` or `+`, otherwise the last such cell |
| LevelGrid.RowFoundStep | backend/verify_official_levels.py:143-156 | one more cell updates the player, the boxes and the goals exactly as that cell's character says |
| LevelGrid.NatTextValue | backend/verify_official_levels.py:162 | the decimal text of the level id reads back as the id |
| LevelGrid.NatText | backend/verify_official_levels.py:162 | `str(n)`: a non-empty digit string with no leading zero, `"0"` for zero |
| LevelGrid.MissingPlayer | backend/verify_official_levels.py:162 | the error message is `Level <id>: missing player '@'`, with the id as decimal digits without leading zeros |
| OfficialLevels.ParseLevelToState | backend/verify_official_levels.py:82-164 | padding, FIFO void fill and decoding return exactly `StateOf(lines, id)` |
| OfficialLevels.Decoded | backend/verify_official_levels.py:134-158 | a cell decodes to `x` iff it is a void space; to `#` iff it is `#`; to `.` iff it holds a goal (`.`, `*`, `+`); otherwise to a space |
| OfficialLevels.DecodeRows | backend/verify_official_levels.py:131-159 | the row loop returns the decoded grid, the last player cell, and the box and goal cells in row-major order |
| OfficialLevels.DecodeRow | backend/verify_official_levels.py:132-159 | one row loop appends the decoded row and that row's player, box and goal cells |
| OfficialLevels.StateOfFails | backend/verify_official_levels.py:161-162 | the result is an error exactly when no line holds `@` or `+`, with the level's id in the message |
| OfficialLevels.StateOfGrid | backend/verify_official_levels.py:93-159 | the grid has exactly `height` rows of `width` characters, each the padded character decoded with the void-ness of its cell |
| OfficialLevels.VoidGrid | backend/verify_official_levels.py:135-137 | a cell of the decoded grid is `x` exactly when it is a space joined to the border through spaces |
| OfficialLevels.StateOfEntities | backend/verify_official_levels.py:138-157 | boxes are exactly the `$`/`*` cells, goals exactly the `.`/`*`/`+` cells, both in row-major order; the player is the last `@`/`+` cell |
| OfficialLevels.RowsScanStep | backend/verify_official_levels.py:131-159 | one more row extends the scanned grid and the entity lists by that row's part |
| OfficialLevels.DecodedPrefix | backend/verify_official_levels.py:133-158 | the decoded row grows by exactly one decoded cell per column |
| ClingoFacts.ParseLevelToFacts | backend/verify_first30_clingo.py:83-162 | padding, LIFO void fill and the fact loop return exactly `FactsOf(lines, id)` |
| ClingoFacts.KindOf | backend/verify_first30_clingo.py:131-153 | a cell is `wall` iff it is `#` or a void space, `goal` iff it holds `.`, `*` or `+`, and `floor` otherwise, including unknown characters |
| ClingoFacts.FactRows | backend/verify_first30_clingo.py:129-153 | the nested loops emit the cell facts row by row and find the last player and the boxes in row-major order |
| ClingoFacts.FactRow | backend/verify_first30_clingo.py:130-153 | one row loop emits that row's `w` cell facts and its player and box cells |
| ClingoFacts.CellRowPrefix | backend/verify_first30_clingo.py:130-153 | a row of cell facts grows by exactly the next cell's fact |
| ClingoFacts.FactsOfFails | backend/verify_first30_clingo.py:155-156 | the result is an error exactly when no line holds `@` or `+`, with the level's id in the message |
| ClingoFacts.FactsOfLayout | backend/verify_first30_clingo.py:129-162 | there are `w·h` cell facts, then the player fact, then `n_boxes` box facts; nothing after the first `w·h` facts is a cell fact, and only facts after the player fact are box facts |
| ClingoFacts.FactsOfCells | backend/verify_first30_clingo.py:129-153 | fact `y·w + x` is the cell fact of `(x, y)`, with a void space as `wall` |
| ClingoFacts.FactsOfTail | backend/verify_first30_clingo.py:158-162 | after the cell facts come the player's fact and one `initial_box` per box, in scan order; `n_boxes` is the number of box facts |
| ClingoFacts.RowStartIs | backend/verify_first30_clingo.py:129-130 | the facts of row `y` start at `y·w` |
| Facts.GameStateToFacts | backend/app/main.py:107-128 | the facts are the grid's cell facts, then the player fact, then one box fact per box |
| Facts.AllGridFacts | backend/app/main.py:110-119 | the nested loops emit `GridFacts(grid, 0)` |
| Facts.AppendRowFacts | backend/app/main.py:112-119 | one row's loop appends exactly that row's cell facts |
| Facts.AppendBoxFacts | backend/app/main.py:125-126 | one `initial_box` fact is appended per box, in list order |
| Facts.RowFactsExact | backend/app/main.py:112-119 | a fact is among a row's facts exactly when it describes a cell of the row by its character class |
| Facts.GridFactsExact | backend/app/main.py:111-119 | a fact is among the grid facts exactly when it describes a cell: `#`/`x` wall, space/`@`/`$` floor, `.`/`*`/`+` goal, other characters nothing |
| Facts.BoxFactsAt | backend/app/main.py:125-126 | the box facts are the boxes' facts in list order, and all are `initial_box` |
| Facts.FactsDescribeState | backend/app/main.py:107-128 | the cell facts describe exactly the grid's cells, the only player fact is the player's, and the `i`-th box fact is the `i`-th box |
| Rules.Free | backend/app/main.py:627-633 | a cell is free exactly when `is_wall` rejects it and no box stands on it |
| Rules.TryMoveInvariants | backend/app/main.py:652-668 | a legal move puts the player one step on, off the walls, keeps the number of boxes, and keeps boxes off walls |
| Rules.ParseDir | backend/app/main.py:635-656 | a known direction name maps back to its direction |
| Rules.ParseDirName | backend/app/main.py:635-640 | every direction's name parses back to it |
| Rules.WalkReplaysFrom | backend/app/main.py:387-397 | a walk over free cells replays move by move, moving only the player and pushing nothing |
| Rules.ReplayFromAppend | backend/app/main.py:652-673 | replaying `a + b` is replaying `a`, then `b` |
| Walks.Opposite | backend/app/main.py:329-334 | the opposite direction has the negated delta |
| Walks.DirFromDelta | backend/app/main.py:323-328 | `dir_from_delta` is defined exactly on the four unit deltas, and the direction has that delta |
| Walks.WalkConcat | backend/app/main.py:339-372 | a concatenated walk is valid exactly when both parts are, and it ends where the second part ends |
| Walks.ReachableTrans | backend/app/main.py:339-372 | reachability through free cells is transitive |
| Walks.SameComponent | backend/astar_level36.py:183-193 | two cells in one free component reach the same cells |
| Walks.RetraceWalk | backend/astar_level36.py:183-193 | a walk from a free cell can be walked back |
| Walks.ClosedContainsReachable | backend/app/main.py:345-360 | a set closed under free neighbours contains every cell reachable from its members |
| Walks.MinCell | backend/astar_level36.py:192 | `min(reachable)`: a member no larger, in `(x, y)` order, than any other |
| Walks.SortCells | backend/app/main.py:880 | `tuple(sorted(set))`: strictly increasing and holding exactly the set's cells |
| WalkSearch.Explore | backend/app/main.py:339-360 | the BFS builds a search tree of walkable cells, and a goal not in it is unreachable |
| WalkSearch.VisitNeighbours | backend/app/main.py:347-360 | visiting the four neighbours keeps the tree valid; a found goal clears the queue |
| WalkSearch.TreeGrows | backend/app/main.py:355-356 | recording a free neighbour's `prev` and `prev_dir` keeps a tree whose links are steps |
| WalkSearch.WalkPath | backend/app/main.py:339-372 | `None` iff the goal is unreachable avoiding walls and boxes; otherwise a valid walk ending at the goal; `[]` when start equals goal |
| WalkSearch.FirstMoveTowardsPush | backend/app/main.py:416-491 | the push direction when the player already stands at the push position; otherwise `None` iff it is unreachable, else a step onto a free cell from which it is reachable |
| Reconstruct.ReconstructMovesFromPushes | backend/app/main.py:304-413 | `None` exactly when some push fails; otherwise each push emits a walk to the push position and one push move; with boxes off walls the moves replay to the pushes' outcome with one push per action |
| Reconstruct.ApplyPush | backend/app/main.py:377-411 | one push action appends a walk and the push direction, `None` exactly when the delta, the walk, the box or the destination fails |
| Reconstruct.PushApplied | backend/app/main.py:399-411 | a walk to the push position then one push has the push shape and replays with one more push |
| Reconstruct.PushOnceSucceeds | backend/app/main.py:379-411 | with a unit delta, a reachable push position, a box in front and a free destination, the push succeeds and moves that box one cell |
| Reconstruct.PushesKeepBoxCount | backend/app/main.py:407-408 | successful pushes keep the number of boxes |
| Reconstruct.PushAppendReplays | backend/app/main.py:399-411 | a push move replays as one push when the destination is free |
| Reconstruct.WalkAppendReplays | backend/app/main.py:383-397 | appending a walk replays as pure walking |
| Reconstruct.WalkTo | backend/app/main.py:383-397 | the walk step: `None` iff unreachable; otherwise the moves grow by a valid walk to the target |
| Reconstruct.WalkThenPushesOf | backend/app/main.py:587-612 | a walk followed by `n` copies of the direction has the walk-then-pushes shape |
| Reconstruct.PushesSoFarDone | backend/app/main.py:376-413 | after the loop, the moves are the concatenated segments and replay to the outcome of all pushes |
| Reconstruct.PushesStuck | backend/app/main.py:380-406 | a failing push makes the whole reconstruction `None` |
| Reconstruct.ReconstructMovesFromSlides | backend/app/main.py:494-614 | `None` exactly when some slide fails; otherwise each slide emits a walk behind the box and exactly `length` copies of its direction; with boxes off walls the moves replay to the slides' outcome with `length` pushes per slide |
| Reconstruct.ApplySlide | backend/app/main.py:565-612 | one slide appends a walk then `length` pushes, `None` exactly when the delta, a length ≤ 0, the walk or a unit push fails |
| Reconstruct.NextSlide | backend/app/main.py:564-612 | one loop iteration extends the partial reconstruction or shows the whole result is `None` |
| Reconstruct.PushAlong | backend/app/main.py:600-612 | the unit-push loop appends `length` copies of the direction, `None` exactly when a unit push meets a missing box, a wall or a box |
| Reconstruct.AlongDone | backend/app/main.py:600-612 | after `length` unit pushes the moves are the start plus `length` copies of the direction |
| Reconstruct.AlongStuck | backend/app/main.py:602-606 | a blocked unit push makes the slide fail |
| Reconstruct.SlideOnceFrom | backend/app/main.py:583-586 | the walk target is the cell behind the box; an unreachable one makes the slide fail |
| Reconstruct.SlideShapeOf | backend/app/main.py:582-612 | a successful slide's moves are the walk followed by `length` pushes |
| Reconstruct.SlidesSoFarDone | backend/app/main.py:564-614 | after the loop the moves replay to the outcome of all slides, with the sum of the slide lengths as pushes |
| Reconstruct.SlidesStuck | backend/app/main.py:569-606 | a failing slide makes the whole reconstruction `None` |
| Reconstruct.TrimSolutionToFirstFinish | backend/app/main.py:617-673 | `[]` on a solved start; otherwise a prefix of the moves: up to the first move that solves, or all of them on an unknown or illegal move or when none solves |
| Reconstruct.SimulateMove | backend/app/main.py:653-668 | one loop step is the replay rule for the named direction |
| Reconstruct.TrimStep | backend/app/main.py:652-671 | the prefix through move `i` replays to that step's state, and finishes exactly when that state is solved |
| Reconstruct.NoLaterFinish | backend/app/main.py:653-663 | once a move fails, no longer prefix finishes |
| Reconstruct.FinishesHere | backend/app/main.py:670-671 | the first solving move ends the returned prefix |
| Reconstruct.NeverFinishes | backend/app/main.py:673 | when no prefix finishes, the whole list is returned |
| Reconstruct.ReplayNamesOfDirs | backend/app/main.py:652-668 | replaying direction names is replaying the directions |
| Reconstruct.WalkEnd | backend/app/main.py:390-397 | the player update loop ends at the walk's end |
| Deadlocks.ComputeStaticDeadSquares | backend/app/main.py:135-190 | a cell is dead iff it is not a wall, not a goal and no reverse push chain reaches it from a goal |
| Deadlocks.SafeSquares | backend/app/main.py:156-178 | the reverse-push BFS collects exactly the non-wall cells from which pushes can bring a box to a goal |
| Deadlocks.CollectGoals | backend/app/main.py:156-160 | the goal list holds exactly the cells showing `.`, `*` or `+` |
| Deadlocks.ExpandReverse | backend/app/main.py:169-178 | expanding one cell adds the walkable cells a box can be pushed from, with room for the player behind |
| Deadlocks.GoalIsSafe | backend/app/main.py:162 | every goal cell is safe |
| Deadlocks.SafeBack | backend/app/main.py:170-177 | a cell from which a box can be pushed onto a safe cell is safe |
| Deadlocks.PushesToGoalInClosed | backend/app/main.py:167-178 | a set closed under reverse pushes contains every cell with a push chain to a goal |
| Deadlocks.CheckDeadlocks | backend/app/main.py:193-229 | true exactly when some box off the goals is blocked vertically and horizontally, or sits on a dead square |
| Deadlocks.DeadSquareStaysDead | backend/app/main.py:135-190 | pushing a box from a dead square lands it on a dead square |
| Deadlocks.CorneredBoxStays | backend/app/main.py:208-218 | a cornered box is never moved by later moves |
| Deadlocks.DeadBoxStays | backend/app/main.py:220-227 | some box stays on a dead square through any legal moves |
| Deadlocks.DeadlockIsPermanent | backend/app/main.py:193-229 | a flagged state can never be solved by any legal move sequence |
| AstarLevel.ParseLevel | backend/astar_level36.py:42-86 | an error exactly for no lines, no player, or unequal box and goal counts; otherwise the level characterised by `IsParseOf` |
| AstarLevel.ScanRow | backend/astar_level36.py:51-72 | one row loop adds that row's walls, goals and boxes and keeps the last player |
| AstarLevel.ScanCell | backend/astar_level36.py:55-72 | one cell adds exactly its marks: padding or `#` as wall, `.` goal, `$` box, `*` box and goal, `@` player, `+` player and goal |
| AstarLevel.MaxWidth | backend/astar_level36.py:44 | `max(len(r))` over a non-empty list of lines |
| AstarLevel.ParsedPaddingIsWall | backend/astar_level36.py:55-57 | every cell beyond the end of a short row is a wall |
| AstarLevel.ParsedStarAndPlus | backend/astar_level36.py:67-72 | `*` puts a box and a goal on its cell, and `+` puts a goal there |
| AstarLevel.ParsedPlayerOffWalls | backend/astar_level36.py:42-86 | the player stands in the rectangle off the walls, and every wall, goal and box is in the rectangle |
| AstarLevel.PlayerFound | backend/astar_level36.py:74-75 | the scanned player is `None` exactly when no cell holds `@` or `+` |
| AstarLevel.Manhattan | backend/astar_level36.py:89-90 | the distance is zero exactly between equal cells |
| AstarLevel.ManhattanFacts | backend/astar_level36.py:89-90 | it is symmetric, obeys the triangle inequality, and one step changes it by at most one |
| AstarLevel.LevelFree | backend/astar_level36.py:144-157 | the free cells are the in-bounds cells that are neither walls nor boxes |
| AstarLevel.FloodReachable | backend/astar_level36.py:143-160 | the seen set is exactly the cells reachable from the player through in-bounds, wall-free, box-free cells |
| AstarLevel.FloodNeighbours | backend/astar_level36.py:149-159 | one cell's expansion keeps every seen cell reachable and the queue covering unexplored neighbours |
| AstarLevel.FloodMembers | backend/astar_level36.py:143-160 | every reached cell other than the start is in bounds, not a wall and not a box |
| AstarLevel.SolvedIffAllOnGoals | backend/astar_level36.py:179-180 | with as many boxes as goals, the box set equals the goal set exactly when every box is on a goal |
| AstarLevel.CanonicalState | backend/astar_level36.py:183-193 | the boxes are unchanged and the player becomes the lexicographically least cell reachable from it |
| AstarLevel.CanonicalAgrees | backend/astar_level36.py:183-193 | two players in the same reachable component get the same canonical position |
| AstarLevel.Successors | backend/astar_level36.py:196-227 | every entry is a legal one-box push to its canonical state, and every legal push is offered |
| AstarLevel.PushesOf | backend/astar_level36.py:202-227 | one box's four directions are offered exactly as legal pushes, keeping earlier entries |
| AstarLevel.SuccessorMovesOneBox | backend/astar_level36.py:196-227 | a successor moves exactly one box one cell to an in-bounds non-wall cell, keeping the box count |
| AstarLevel.CellCharDecodes | backend/astar_level36.py:303-313 | a drawn cell is `#` iff a wall, `@`/`+` iff the player, `$`/`*` iff a box not under the player, goal characters iff a goal, space otherwise |
| AstarLevel.RStrip | backend/astar_level36.py:314 | `str.rstrip()`: a prefix that does not end in whitespace, where everything dropped is whitespace |
| AstarLevel.DrawRow | backend/astar_level36.py:301-313 | the row loop draws each cell's character |
| AstarLevel.Render | backend/astar_level36.py:296-315 | the text is the right-stripped drawn rows joined by newlines |
| AstarLevel.RenderedLines | backend/astar_level36.py:314-315 | splitting the rendered text at newlines gives back one line per row |
| AstarLevel.RenderedCells | backend/astar_level36.py:300-314 | each rendered line shows its cells' characters, and cells cut off by the strip are spaces |
| AstarLevel.SplitJoin | backend/astar_level36.py:315 | newline-free rows joined with newlines split back into the same rows |
| Assignment.MinAssignmentCost | backend/astar_level36.py:112-140 | an error exactly on a size mismatch; otherwise the minimum total Manhattan cost over all box-to-goal bijections |
| Assignment.RelaxFrom | backend/astar_level36.py:125-139 | relaxing one mask offers every free goal to the next box, only lowers entries, and leaves lower masks unchanged |
| Assignment.Offer | backend/astar_level36.py:135-139 | one offer stores the cheaper of the old entry and the new cost, backed by a real partial assignment |
| Assignment.RelaxedIsOptimal | backend/astar_level36.py:123-139 | once every mask is relaxed, each partial assignment costs at least its mask's entry |
| Assignment.FullEntryIsMin | backend/astar_level36.py:140 | the full mask's entry is the minimum cost over all bijections |
| Assignment.MinCostUnique | backend/astar_level36.py:112-140 | the minimum cost is unique |
| Assignment.MaskOfInjection | backend/astar_level36.py:121-122 | a partial assignment's goal mask has one bit per assigned box |
| Assignment.AssignmentHeuristic | backend/astar_level36.py:93-109 | the running best over itertools-ordered goal permutations, with the early cut-off, equals the least zip cost capped at 10^9 |
| Assignment.BoundedZipCost | backend/astar_level36.py:102-106 | the cut-off sum is below `best` exactly when the full zip cost is, and then equals it |
| Assignment.HeuristicsAgree | backend/astar_level36.py:93-140 | for equal sizes the permutation heuristic equals the DP minimum capped at 10^9 |
| Assignment.PermsOfRange | backend/astar_level36.py:101 | the permutations of `0..n-1` are exactly the injections of length `n` |
| Assignment.PermsSound | backend/astar_level36.py:101 | every listed permutation is an arrangement of distinct input elements |
| Assignment.PermsComplete | backend/astar_level36.py:101 | every arrangement of distinct input elements is listed |
| Assignment.MinOverIsLeast | backend/astar_level36.py:100-109 | the running minimum is at most the start value and every zip cost, and is one of them |
| Assignment.ManhattanMatrix | backend/astar_level36.py:136 | entry `(i, j)` is the Manhattan distance from box `i` to goal `j` |
| AstarSearch.AstarSolve | backend/astar_level36.py:230-293 | `[]` with no work on a solved start; a returned plan is a sequence of legal pushes from the canonical start to a solved state |
| AstarSearch.Expand | backend/astar_level36.py:278-291 | every state whose `g` changes is a successor of `cur` that now has `g[cur] + 1`, strictly better than before, with `cur` and the push as its `came_from`, an open-set entry and a heap entry with `f = g + h`; every other state keeps its `g` and `came_from`; the heap is only appended to; unless the heuristic fails, every legal push from `cur` leads to a state with `g` at most `g[cur] + 1`; the search links stay valid |
| AstarSearch.Relax | backend/astar_level36.py:280-291 | one successor: kept as it is when `g[cur] + 1` does not beat its `g`, otherwise recorded, so afterwards every successor handled so far has `g` at most `g[cur] + 1` |
| AstarSearch.RecordSuccessor | backend/astar_level36.py:285-291 | storing `g`, `came_from`, the open-set entry and the heap entry of an improving successor keeps the expansion's bookkeeping and sets exactly that state's `g` |
| AstarSearch.RecordNextKeeps | backend/astar_level36.py:285-291 | recording a strictly better successor keeps the links valid, keeps every other state's entries, and appends only its heap entry |
| AstarSearch.LinkedUpdate | backend/astar_level36.py:282-286 | storing a strictly better `g` and its predecessor keeps every recorded state linked back to the start |
| AstarSearch.Reconstruct | backend/astar_level36.py:268-276 | following `came_from` back gives a legal push plan from the start to the state |
| AstarSearch.PopMin | backend/astar_level36.py:261 | `heappop` removes an entry no larger than any other in `(f, h, tie)` order |
| AstarSearch.BoxHeuristic | backend/astar_level36.py:237-240 | boxes are sorted, and the value is an error on a size mismatch, otherwise the minimum assignment cost |
| AstarSearch.PlanKeepsBoxCount | backend/astar_level36.py:222-224 | a plan keeps the number of boxes |
| PushHeuristic.Heuristic | backend/app/main.py:757-793 | 0 with no boxes; 999·m with no goals or more boxes than goals; the nearest-goal sum above 15 goals; otherwise the minimum-cost assignment over push distances |
| PushHeuristic.NextLayer | backend/app/main.py:780-792 | one box's layer builds `ndp` from `dp` by offering every free goal to that box |
| PushHeuristic.OfferGoals | backend/app/main.py:786-791 | one mask offers the box to each goal not yet in it |
| PushHeuristic.Offer | backend/app/main.py:789-791 | `ndp[nm]` becomes the smaller of itself and `base + cost`, backed by a partial assignment |
| PushHeuristic.LastLayerIsMin | backend/app/main.py:793 | `min(dp)` after the last box is the minimum assignment cost |
| PushHeuristic.NextLayerBelow | backend/app/main.py:780-792 | every partial assignment of one more box costs at least the new layer's entry |
| PushHeuristic.FirstLayer | backend/app/main.py:777-779 | `dp = [INF]*2^n` with `dp[0] = 0` is the layer for zero boxes |
| PushHeuristic.NearestGoalSum | backend/app/main.py:768-775 | the loop sums each box's least distance over the goals, with 999 when none is known |
| PushHeuristic.NearestFallbackAdmissible | backend/app/main.py:768-775 | the nearest-goal sum is at most the cost of any box-to-goal assignment |
| PushHeuristic.SeqMin | backend/app/main.py:793 | `min(dp)` is a member no larger than any other |
| PushHeuristic.DistMatrix | backend/app/main.py:789 | entry `(i, j)` of the cost matrix is the push distance of box `i` to goal `j`, 999 when unknown |
| PushHeuristic.CappedMatrix | backend/app/main.py:789 | under the 999 cap on distances, no matrix entry exceeds 999 |
| PushHeuristic.CostAtMost | backend/app/main.py:789 | with every distance at most 999, an assignment of `k` boxes costs at most 999·k |
| Symmetry.Width | backend/app/main.py:814 | `max(len(r), default=0)`: no row is longer, 0 for no rows, and some row reaches it otherwise |
| Symmetry.WallCells | backend/app/main.py:815-819 | the wall cells are exactly the cells of the `width` by `height` rectangle that `is_wall` reports |
| Symmetry.DetectSymmetries | backend/app/main.py:812-864 | the width is the longest row, and the kept transforms are the candidates, in source order, that map the wall cells and the goal cells onto themselves |
| Symmetry.CollectWalls | backend/app/main.py:814-819 | the wall set holds exactly the in-rectangle cells `is_wall` reports |
| Symmetry.FilterSymmetries | backend/app/main.py:861-864 | the loop keeps exactly the candidates preserving walls and goals, in order |
| Symmetry.Candidates | backend/app/main.py:838-859 | identity first; the four rotations and diagonals only on a non-empty square |
| Symmetry.ApplyCompose | backend/app/main.py:823-857 | composing two transforms applies them one after the other |
| Symmetry.ApplyInverse | backend/app/main.py:823-857 | each transform has an inverse among the eight |
| Symmetry.IdentityIsSymmetry | backend/app/main.py:838 | the identity always survives the filter |
| Symmetry.ComposeIsSymmetry | backend/app/main.py:861-864 | the kept transforms are closed under composition |
| Symmetry.InverseIsSymmetry | backend/app/main.py:861-864 | the kept transforms are closed under inverse |
| Symmetry.CanonKey | backend/app/main.py:866-877 | the state's own key with at most one symmetry, otherwise the least image key over all symmetries |
| Symmetry.CanonKeyInvariant | backend/app/main.py:866-877 | states related by a kept symmetry get the same canonical key |
| Symmetry.ShortcutIsLeast | backend/app/main.py:867-868 | with at most one symmetry, the shortcut key is the least key |
| Symmetry.LeastKeyUnique | backend/app/main.py:869-877 | the least key is unique |
| Symmetry.KeyLeTotal | backend/app/main.py:874 | tuple comparison of keys is total |
| Symmetry.KeyLeTransitive | backend/app/main.py:874 | tuple comparison of keys is transitive |
| Symmetry.KeyLeAntisymmetric | backend/app/main.py:874 | tuple comparison of keys is antisymmetric |
| Symmetry.SortedUnique | backend/app/main.py:872 | `sorted` of a set of cells is unique |
| AppRules.ValidateSolution | backend/app/main.py:1434-1448 | solved iff there is a box and every box is on a goal; `boxesOnGoals` is the length of the `boxes_on_goals` list (at most the box count, and equal to it when solved); `totalGoals` is the goal count |
| AppRules.BoxesOnGoals | backend/app/main.py:1438-1441 | each cell occurs in the list as often as in `boxes` when it is a goal and not at all otherwise, so its length counts box entries on goals, duplicates included; it has every box exactly when all boxes are on goals |
| AppRules.ValidateAgreesWithSolved | backend/app/main.py:1442 | `validate_solution`'s verdict is the solved test the move simulation uses |
| AppRules.StartSteps | backend/app/main.py:1049-1051 | `max(1, maxSteps)` when given, otherwise 10/15 in auto mode and 25/35 otherwise, the larger when deep |
| AppRules.NextHorizon | backend/app/main.py:1214-1219 | +5 below 50, +10 below 100, otherwise `⌊1.25·steps⌋ + 1`; always at least 5 more |
| AppRules.HorizonIncreases | backend/app/main.py:1214-1219 | the horizons of the loop strictly increase, by at least 5 per round |
| Masks.SetBit | backend/astar_level36.py:135 | adding a clear bit's power of two sets exactly that bit and raises the population count by one |
| Masks.FullMask | backend/astar_level36.py:140 | `(1 << n) - 1` has exactly bits `0..n-1` |
| Masks.OnlyFullMask | backend/astar_level36.py:128-140 | the only mask below `2^n` with `n` bits set is the full mask |

## Left out

- LevelText.ParseLevels takes the list of lines. `raw.splitlines()` is not modelled, including its splitting on `\r`, `\v`, `\f`, `\x1c`–`\x1e`, `\x85`, `\u2028` and `\u2029`.
- LevelText.HeaderId reads a header's digits as ASCII `0`–`9` only. Python's `\d` and `int()` also accept other Unicode decimal digits, so a header such as "Level ٣" opens level 3 in the source, while the model treats it as a grid line.
- AstarSearch.AstarSolve replaces the `time.perf_counter()` limit with an expansion budget (`fuel`). Only soundness is proved: a returned plan is legal and solves the level. `NotFound` after an exhausted heap is not shown to mean that no plan exists, and plans are not shown to be shortest. The source's `None` is split into `NotFound` and `OutOfFuel`.
- AstarSearch.Expand computes a successor's heuristic before storing its `g` and `came_from`. The source stores them first and then raises when the heuristic fails, so the two differ only in the frontier left behind by an error that ends the search.
- AstarLevel.Successors leaves the order of the box set's iteration open. The contract covers which successors are offered, but not their order, which decides the plan A* returns among several with equal `f`.
- PushHeuristic.Heuristic takes `dist_to_goal` as a parameter. Its construction is not modelled: a reverse-push BFS from each goal, cut at depth 200 (backend/app/main.py:729-752). The only assumption about it is `Capped`: no distance exceeds 999.
- Reconstruct.ReconstructMovesFromPushes and Reconstruct.ReconstructMovesFromSlides guarantee the replay only when no box starts on a wall (`BoxesOffWalls`). The source does not check this. A box on a wall cell is never pushed by the replay rules, but the reconstruction's `boxes` set lets it move.
- WalkSearch.WalkPath and WalkSearch.FirstMoveTowardsPush do not prove that the walk is a shortest one, although the breadth-first search finds one. The contract is validity, reachability, and the `None` case.
- AstarLevel.CanonicalAgrees requires the first player to stand on a free cell. The start cell is reachable from itself even when it is blocked.
- Symmetry.CanonKey reads the box tuple as a set when it compares images. The source's box tuples hold distinct cells, and the transforms are bijections.
- Assignment.MinAssignmentCost writes `mask | (1 << gi)` as `mask + Pow2(gi)`. The two are equal because the bit is clear.
- AppRules.NextHorizon computes `int(steps * 1.25) + 1` exactly over integers as `5·steps/4 + 1`. Float rounding for very large horizons is not modelled.
- ClingoFacts.ParseLevelToFacts returns the facts as values. It does not return the `"\n".join` program text.
- ClingoFacts.ParseLevelToFacts, OfficialLevels.ParseLevelToState and AstarLevel.ParseLevel model raised exceptions (`RuntimeError`, `ValueError`, `max()` of an empty list) as `Err` results.
- ClingoFacts.FactsOfCells states the void cells through the set `Voids`. The meaning of that set comes from `VoidFill.VoidsMember`.
- Facts.GameStateToFacts produces the facts as a datatype. It does not build clingo `Predicate` objects.
- The clingo calls are left out because the solver is a foreign library and its ASP programs are not part of this model: `run_clingo`, `_run_clingo_with_fixed_do_push` (backend/app/main.py:233-301, 959-1016) and `run_clingo_once` (backend/verify_first30_clingo.py:165-199).
- The FastAPI application, its endpoints, pydantic models and response dictionaries are HTTP plumbing and are not modelled. `validate_solution`'s rule is modelled as `AppRules.ValidateSolution`.
- Timers, thread pools, cancellation, and the float timeouts are concurrency and clock code and are not modelled: `_timeout_for_steps`, `per_timeout` and the time limit of `_solve_push_astar`.
- The search loop of `_solve_push_astar` (backend/app/main.py:879-956) is not modelled. It uses a clock and the same A* scheme as `astar_solve`, which is modelled. Its heuristic, canonical keys and symmetry filter are modelled. So is its reachability, by the walk search.
- The `safe` fixpoint of `_solve_push_astar` (backend/app/main.py:710-727) is not modelled. The static dead squares of `_compute_static_dead_squares` are.
- `lru_cache` memoisation is left out. The cached functions are modelled as pure.
- File reading, regex extraction of the level template, printing and the `main` functions of the scripts are I/O and are not modelled.
- The heap of `astar_solve` is a sequence scanned for a least entry (`PopMin`). It is not a binary heap.
