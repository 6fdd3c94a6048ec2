# Game of Life wallpaper engine: a Dafny model

GoL-Wallpaper runs Conway's Game of Life and turns each generation into a
desktop wallpaper. This project models its core in Dafny and proves
properties of that model:

- **neighbour counting**: the per-cell wrapped count of `GoL_tools_mac.py`,
  the wrapped convolution of `GoL_tools.py` and the clipped count of
  `GoL.py`;
- **the transition rule and step**: birth on 3, survival on 2 or 3, and the
  nested loops that fill `new_grid`;
- **grid initialisation**: random, glider, and the platform branches of
  `GoL_tools.py`;
- **painting**: `create_image`, including the Windows branch that paints
  every cell's rectangle one pixel too large;
- **the macOS application** `GameOfLife_MAC.py`: its simulation thread,
  the upload, start and stop buttons, and the close event;
- **the Windows script** `GoL_win.py`: cell size 20, a stored snapshot or
  a random grid, the generation loop that deletes the previous image, and
  the cleanup on interrupt;
- **the terminal script** `GoL.py`: a glider on a 10 x 10 board;
- **patterns** the rule is known for: the block (a still life), the
  blinker (period 2) and the glider, followed on the engine's boards.

Modules, one per part of the program:

| module | file | what it holds |
|---|---|---|
| `Common` | `common.dfy` | the `Option` and `Result` types, the platform, and the Python exceptions that can occur |
| `GridModel` | `grid.dfy` | grids as `seq<seq<int>>`, shape predicates, the zero grid, single-cell assignment, live counts |
| `Neighbours` | `neighbours.dfy` | wrap and clip counting, the eight-neighbour reference sum, the convolution |
| `Rules` | `rules.dfy` | the per-cell rule, `Step`, `Evolve`, and the imperative step on an `array2` |
| `Initialization` | `init.dfy` | `initialize_grid` in both helper files |
| `Raster` | `raster.dfy` | `create_image` on an `array2` of colours |
| `MacApp` | `mac_app.dfy` | `SimulationThread` and the directory it writes |
| `MacWindow` | `mac_window.dfy` | `MainWindow` |
| `WinScript` | `win_script.dfy` | `GoL_win.py` |
| `Console` | `console.dfy` | `GoL.py` |
| `Patterns` | `patterns.dfy` | the block, the blinker and the glider under both policies; the wrapped rule's invariance under a diagonal move |

How the environment is modelled:

- Cells are arbitrary integers, because a pickled grid may hold anything.
  Being a 0/1 grid is a predicate, `IsBinary`.
- A grid the loops can read is `Covers(g, rows, cols)`: exactly `rows` rows,
  each with at least `cols` cells. Python ignores longer rows and raises
  IndexError on shorter ones.
- `random.choice([0, 1])` is an oracle `coin(i, j)`.
- The screen resolution is a parameter.
- The stop flag and the keyboard interrupt become `stop`: the number of
  generations that complete before the stop is seen.
- A directory is a `MacApp.Directory`: the set of image indices `k` of
  `game_of_life_<k>.png` plus an optional grid snapshot.

Boundary policy: each file is modelled as its code behaves.

- `GoL_tools_mac.py`, `GoL_tools.py` (via `boundary='wrap'`) and
  `GoL_win.py` count with wrap-around.
- Only `GoL.py` clips.

Both policies are modelled, and `Neighbours.InteriorAgree` proves they
agree away from the border.

The macOS thread calls a counting function with the wrong arguments (see
"## Findings"). The thread's functions and methods therefore take a `call`
parameter, `AsWritten` or `Corrected`, and every contract holds for both.

## Model

| member | source | states |
|---|---|---|
| Neighbours.WrapIndex | GoL_tools_mac.py:25-26 | Python's `(x + d) % n` for an offset in [-1, 1] is always a valid index: it is n - 1 just before 0, 0 just past n - 1, and x + d otherwise |
| Neighbours.CountNeighborsWrap | GoL_tools_mac.py:19-28 | the nested `di`/`dj` loop with the centre skipped returns exactly the sum of the eight toroidal Moore neighbours |
| Neighbours.CountNeighborsClip | GoL.py:30-39 | the clipped loop returns exactly the sum of the in-grid Moore neighbours, with off-grid neighbours counting 0 |
| Neighbours.CountIsMooreSum | GoL_tools_mac.py:20-28 | the row-major 3 x 3 walk adds every one of the eight neighbours once and never the cell itself, under either policy |
| Neighbours.CountBounds | GoL_tools_mac.py:19-28 | on a 0/1 grid the count lies in [0, 8] under either policy |
| Neighbours.WrapSeesOppositeCorner | GoL_tools_mac.py:25-26 | under wrap-around, the up-left neighbour of cell (0, 0) is the opposite corner (rows - 1, cols - 1) |
| Neighbours.ClipCountBound | GoL.py:36-38 | under clipping the count is at most the number of in-grid neighbours, (row span x column span) - 1 |
| Neighbours.ClipCornerAndEdge | GoL.py:31-39 | under clipping a corner cell has at most 3 live neighbours and a border cell at most 5 |
| Neighbours.InteriorAgree | GoL.py:36-38 | away from the border, the wrapped and clipped counts are equal |
| Neighbours.ConvAtIsMooreSum | GoL_tools.py:33-36 | an entry of the wrapped `convolve2d` with the ring kernel equals the eight-neighbour sum |
| Neighbours.ConvolveWrap | GoL_tools.py:32-37 | for a rectangular grid of `rows >= 1` rows and `cols` columns, the convolution field has the grid's shape, and each entry is that cell's toroidal neighbour count |
| Rules.NextCell | GoL.py:50-55 | the next value is 0 or 1, and it is 1 exactly when the count is 3, or when the cell is live and the count is 2 |
| Rules.Step | GoL.py:46-56 | the next generation is a `rows x cols` grid, whatever the old grid's row lengths beyond `cols` (its cells: `Rules.StepRule`) |
| Rules.StepRowsAt | GoL.py:46-56 | once the outer loop has filled k rows, each of their cells is the rule applied to the old cell value and its neighbour count |
| Rules.StepRule | GoL.py:46-56 | every cell of the next generation is the rule applied to the old cell value and its eight-neighbour sum |
| Rules.StepBinary | GameOfLife_MAC.py:51-60 | the next generation holds only 0s and 1s, whatever values the old grid held |
| Rules.ComputeNextGeneration | GameOfLife_MAC.py:51-60 | filling a zero `rows x cols` array cell by cell gives exactly the functional step |
| Rules.FillRow | GoL.py:48-55 | the inner loop sets each cell of row i to the rule's value and leaves every other row unchanged |
| Rules.StepDeaths | GoL_win.py:58-63 | a live cell dies with fewer than 2 or more than 3 neighbours; a dead cell is born only on exactly 3 |
| Rules.EvolveBinary | GoL.py:41-57 | after one or more generations the grid is a 0/1 grid |
| Rules.Evolve | GoL.py:41-57 | zero generations leave the grid as it is; one or more give a `rows x cols` grid |
| Rules.EvolveShift | GoL.py:41-57 | one step followed by n generations is n + 1 generations |
| Initialization.RandomGrid | GoL_tools_mac.py:46 | a `rows x cols` 0/1 grid whose cell (i, j) is live exactly when the draw for (i, j) says so |
| Initialization.GliderGrid | GoL_tools_mac.py:47-55 | the glider preset is a `rows x cols` 0/1 grid; at 3 x 3 or larger its live cells are exactly (1,0), (2,1), (0,2), (1,2), (2,2); below that it is all dead |
| Initialization.GliderLiveCount | GoL_tools_mac.py:49-54 | at 3 x 3 or larger the glider preset has exactly five live cells |
| Initialization.InitializeMac | GoL_tools_mac.py:44-57 | ValueError exactly for a mode other than 'random' and 'glider'; otherwise the random grid or the glider preset of the right shape |
| Initialization.InitializeTools | GoL_tools.py:61-83 | on macOS, the same as the GoL_tools_mac.py version; on Windows, always a grid (random in 'random' mode, all dead in any other mode); on another platform, None; in 'random' mode on macOS and Windows, the same random grid |
| GridModel.LiveCountBinary | GameOfLife_MAC.py:64 | the live count of a 0/1 grid is non-negative, and it is 0 exactly when no cell is live |
| GridModel.LiveCountSetCell | GoL.py:9-13 | assigning one cell changes the live count by the new value minus the old one |
| Raster.BlockColour | GoL_tools_mac.py:38-40 | every pixel of the `cs x cs` block of cell (i, j) takes that cell's colour |
| Raster.FillRect | GoL_tools.py:58 | `draw.rectangle` paints exactly the clipped inclusive rectangle and leaves every other pixel unchanged |
| Raster.PaintExactBlock | GoL_tools.py:47-51 | painting cell (i, j) on macOS extends the picture by one cell: every pixel whose owner comes before the next cell has its owner's colour, every later pixel is still black |
| Raster.PaintExactBlocks | GoL_tools.py:45-51 | starting from black, painting the live cells' exact blocks gives every pixel the colour of the cell that owns it |
| Raster.OverlapOwner | GoL_tools.py:55-56 | a rectangle one pixel too large still contains its own block; any pixel it covers whose owner was painted earlier belongs to this cell |
| Raster.PaintOverlappingBlock | GoL_tools.py:55-58 | painting cell (i, j)'s oversized rectangle on Windows keeps every pixel owned by a cell up to and including (i, j) in its owner's colour |
| Raster.PaintOverlappingBlocks | GoL_tools.py:53-58 | painting every cell's oversized rectangle in row-major order still gives each pixel its owner's colour, because later cells overwrite the one-pixel overlap |
| Raster.CreateImageMac | GoL_tools_mac.py:30-42 | a black `cols*cs x rows*cs` image in which a pixel is white exactly when the cell owning it is live |
| Raster.CreateImageTools | GoL_tools.py:39-59 | macOS and Windows produce the same picture; on another platform the image stays black |
| MacApp.GridSize | GameOfLife_MAC.py:23-24 | rows and cols are the largest whole numbers of cells that fit the screen height and width |
| MacApp.DimensionsMatch | GameOfLife_MAC.py:29 | a grid is kept exactly when it has `rows > 0` rows and a first row of `cols` cells; IndexError exactly when it and `rows` are both empty |
| MacApp.ChooseStart | GameOfLife_MAC.py:27-38 | a matching import is kept; a mismatched one warns and is re-initialised; with no import, a stored snapshot gets the same check without the warning; with neither, the grid is initialised; IndexError on an empty grid |
| MacApp.ImageError | GoL_tools.py:39-58 | `create_image` raises exactly when its platform branch reads a grid that is missing or too short |
| MacApp.NextGrid | GameOfLife_MAC.py:51-60 | as written, the step raises TypeError whenever there is a cell to visit; with the corrected call it is the wrapped step |
| MacApp.CorrectedGeneration | GameOfLife_MAC.py:42-60 | with the corrected call, a readable grid always yields a generation, and that generation is the wrapped step |
| MacApp.Loop | GameOfLife_MAC.py:40-65 | with either call, the loop emits at most `stop - gen` statuses; status k reports generation gen + k + 1 unless it is the last one and an error; if any generation is due, it emits something and ends at `stop` or on an error |
| MacApp.RunStatuses | GameOfLife_MAC.py:20-69 | with either call, the first status is the dimension warning exactly when an imported grid does not match the screen, no later status is that warning, and a run with `stop > 0` emits at least one status |
| MacApp.ImagesAfter | GameOfLife_MAC.py:43-50 | after n generations, image n exists, images 1 to n - 1 are gone, every other image that was there is still there, and nothing else was added |
| MacApp.ImagesAfterStep | GoL_win.py:38-51 | each generation adds its own image and removes the previous one |
| MacApp.CorrectedLoopFolder | GameOfLife_MAC.py:40-63 | from a readable grid, n corrected generations leave only the loop's last image among its own, and the snapshot of the grid evolved n wrapped steps |
| MacApp.CorrectedRunLeavesLastGeneration | GameOfLife_MAC.py:20-63 | the corrected thread on a matching imported grid leaves, before the final cleanup, the folder's other images, the image of generation `stop` and the snapshot of generation `stop` |
| MacApp.ReportsMeaning | GameOfLife_MAC.py:64-65 | n successful generations emit n reports; report k names generation gen + k + 1 and the live count after k + 1 wrapped steps |
| MacApp.ReportsFromStart | GameOfLife_MAC.py:64-65 | from generation 0, report k names generation k + 1 and the live count after k + 1 wrapped steps |
| MacApp.CorrectedLoopTrace | GameOfLife_MAC.py:40-65 | from a readable grid the corrected loop never fails, and it emits exactly the reports of generations gen + 1 to stop |
| MacApp.AsWrittenNeverReportsAGeneration | GameOfLife_MAC.py:54 | as written, on any screen at least one cell wide and tall, no "Generation" status is ever emitted |
| MacApp.MatchingImportIsKept | GameOfLife_MAC.py:27-29 | an imported grid with the screen's dimensions is used as is, with no warning |
| MacApp.CorrectedRunIsReports | GameOfLife_MAC.py:20-65 | the corrected thread on a matching imported grid emits no warning and exactly the reports of generations 1 to stop |
| MacApp.CorrectedRunReportsEveryGeneration | GameOfLife_MAC.py:20-69 | the corrected thread, started on a matching grid, emits exactly `stop` statuses; status k reports generation k + 1 and its live count |
| MacApp.Directory.Clear | GoL_tools.py:95-114 | on macOS and Windows every image and the snapshot go; on any other platform nothing is removed |
| MacApp.Directory.constructor | GameOfLife_MAC.py:132-139 | a chosen folder holding the given images and snapshot, not yet cleared |
| MacApp.SimulationThread.constructor | GameOfLife_MAC.py:12-18 | stores the cell size, the mode and the initial grid; nothing has been emitted yet |
| MacApp.SimulationThread.Generation | GameOfLife_MAC.py:42-63 | with either call, returns the generation's outcome; saves image gen and deletes image gen - 1 only when drawing succeeded; the snapshot is replaced only when the step succeeded |
| MacApp.SimulationThread.Advance | GameOfLife_MAC.py:42-65 | with either call, one loop turn emits the generation's status and changes the folder as that generation does; the statuses and folder changes still owed are the rest of the loop's, or nothing once an exception is reported |
| MacApp.SimulationThread.RunLoop | GameOfLife_MAC.py:40-65 | with either call, appends exactly the loop's statuses, and leaves the images and the snapshot as the loop's generations change them, never clearing |
| MacApp.SimulationThread.Run | GameOfLife_MAC.py:20-69 | with either call, appends exactly the run's statuses (warning, reports, or error), then clears the folder exactly once; on macOS and Windows the folder ends empty; on another platform it keeps the images and snapshot the run left |
| MacWindow.UploadDecision | GameOfLife_MAC.py:141-157 | a cancelled dialog only sets "No file selected"; a picked grid is kept exactly when its dimensions match the screen at the current cell size; IndexError exactly for an empty grid on a screen shorter than one cell |
| MacWindow.StartDecision | GameOfLife_MAC.py:159-178 | a thread starts exactly when a directory is chosen, none is running, and import mode has an uploaded grid; each failed guard gives its own message; only import mode passes the grid on |
| MacWindow.UploadedGridIsSimulated | GameOfLife_MAC.py:151-155 | an accepted upload, started in import mode, is the grid the thread starts from, with no warning |
| MacWindow.StaleImportFailsOnMac | GameOfLife_MAC.py:27-31 | an uploaded grid that no longer fits makes the macOS thread warn and then report ValueError instead of any generation |
| MacWindow.MainWindow.constructor | GameOfLife_MAC.py:120-123 | starts with no directory, no grid, no thread and an "Idle" status; uploading is disabled |
| MacWindow.MainWindow.UpdateUploadButton | GameOfLife_MAC.py:128-130 | uploading is enabled exactly in import mode, and nothing else changes |
| MacWindow.MainWindow.SelectDirectory | GameOfLife_MAC.py:132-139 | stores the dialog's answer and reports whether a directory was chosen |
| MacWindow.MainWindow.UploadFile | GameOfLife_MAC.py:141-157 | follows `UploadDecision`: the grid changes only when the upload is accepted, and an exception changes nothing |
| MacWindow.MainWindow.StartSimulation | GameOfLife_MAC.py:159-178 | follows `StartDecision`: a successful start records the thread's configuration (folder, cell size, mode, and the grid in import mode), marks it running and sets "Simulation started."; a refusal only sets the status |
| MacWindow.MainWindow.StopSimulation | GameOfLife_MAC.py:180-187 | afterwards nothing is running; the status is "Simulation stopped." exactly when something was running |
| MacWindow.MainWindow.Close | GameOfLife_MAC.py:204-207 | closing stops a running simulation and otherwise changes nothing |
| WinScript.StartGrid | GoL_win.py:24-33 | a matching snapshot is kept; no snapshot, or a mismatched one, gives a random grid; IndexError exactly for an empty snapshot with no whole row on screen |
| WinScript.RunEnd | GoL_win.py:79-86 | where the cleanup stops: the first index from i onwards with no file, every index before it having one |
| WinScript.CleanupConsecutive | GoL_win.py:79-86 | removes exactly the unbroken run of images numbered 1, 2, ... and stops at the first gap |
| WinScript.CleanupEveryGeneration | GoL_win.py:78 | removes every image numbered 1 to gen and nothing else |
| WinScript.ConsecutiveCleanupLeavesLastImage | GoL_win.py:79-86 | after two or more generations, the cleanup as written removes nothing and leaves the last image |
| WinScript.EveryGenerationCleanupRemovesRun | GoL_win.py:78 | the corrected cleanup leaves the folder as it was before the run, minus any image numbered 1 to n |
| WinScript.ScriptGeneration | GoL_win.py:38-69 | one generation: image gen is added, image gen - 1 is removed, and the snapshot is the wrapped step |
| WinScript.RunGenerations | GoL_win.py:36-72 | after `stop` generations the grid has evolved `stop` wrapped steps, only the last image is left, and the snapshot holds the current grid |
| WinScript.RunScript | GoL_win.py:10-86 | an unreadable snapshot or grid crashes with the folder untouched; otherwise the interrupt deletes the snapshot, and the images left are those the chosen cleanup leaves |
| Console.StartGrid | GoL.py:4-13 | the start board is a 10 x 10 0/1 grid whose live cells are exactly (0,1), (1,2), (2,0), (2,1), (2,2) |
| Console.StartLiveCount | GoL.py:8-13 | the start board has five live cells |
| Console.StartIsTransposedPreset | GoL.py:9-13 | the script's glider is the `initialize_grid` glider preset transposed |
| Console.TrajectoryAt | GoL.py:42-57 | frame k of the first n printed frames is the start board evolved k clipped steps |
| Console.Generations | GoL.py:41-57 | after n turns the loop has printed frames 0 to n - 1 in order, gen is n, and the board has evolved n clipped steps |
| Console.Simulate | GoL.py:41-59 | the script's own run from its glider board, under the clipped rule |
| Patterns.PlaneStep | GoL.py:50-55 | on the unbounded plane the rule takes the block to itself, each blinker to the other orientation, and glider phase k to phase k + 1 |
| Patterns.GliderPlane | GoL.py:50-55 | on the unbounded plane, for every k, the rule turns glider phase k into phase k + 1, so the glider never stops moving |
| Patterns.ClearTorusSteps | GoL_tools_mac.py:19-28 | a pattern clear of the outer ring sees the same wrapped neighbours as on the plane, so it evolves on the torus as on the plane |
| Patterns.BoardStep | GoL.py:46-56 | one engine generation turns the board of a pattern into the board of its next phase: under clipping when it fits, under wrapping when its torus counts give the next phase |
| Patterns.BlockIsStill | GoL.py:46-56 | under either policy, on any board of at least 4 x 4, the block is unchanged by a generation |
| Patterns.BlinkerTurns | GoL.py:46-56 | under either policy, on any board of at least 5 x 5, a generation turns the blinker to the other orientation |
| Patterns.BlinkerOscillates | GoL.py:46-56 | the blinker has period exactly 2: one generation changes the board, two restore it |
| Patterns.GliderFits | GoL.py:35-37 | on a board of at least k / 4 + 4 rows and columns, every live cell of glider phase k is on the board, so the clipped count's bounds check drops none of them |
| Patterns.ClippedGliderGlides | GoL.py:30-56 | under clipping, n generations take either glider from phase 0 to phase n while every earlier phase fits on the board |
| Patterns.GliderMovesOn | GoL.py:46-56 | the board of glider phase k + 4 is the board of phase k moved one row down and one column right |
| Patterns.StartIsGlider | GoL.py:8-13 | the start board of the script is phase 0 of the transposed glider |
| Patterns.StartGliderGlides | GoL.py:41-57 | for the first 28 generations, every four clipped generations move the script's glider one row down and one column right |
| Patterns.GliderUndisturbedWrapped | GoL_tools_mac.py:19-28 | on a wrapped board of at least 5 x 5, the first four glider phases each step to the next, although phase 0 touches the border |
| Patterns.PresetIsGlider | GoL_tools_mac.py:47-55 | the glider preset of `initialize_grid` on a board of at least 3 x 3 is phase 0 of the glider |
| Patterns.StepDiagonal | GoL_tools_mac.py:19-28 | under wrapping, stepping a grid moved one row down and one column right (wrapping round) is moving the stepped grid |
| Patterns.EvolveDiagonal | GameOfLife_MAC.py:40-63 | the same holds for any number of wrapped generations |
| Patterns.EvolveAdd | GoL.py:41-57 | m generations followed by n more are m + n generations |
| Patterns.PresetFourGenerations | GoL_tools_mac.py:47-55 | on a wrapped board of at least 5 x 5, four generations move the glider preset one row down and one column right |
| Patterns.PresetGlides | GameOfLife_MAC.py:40-63 | on a wrapped board of at least 5 x 5 the glider preset glides for ever: generation n + 4 is generation n moved diagonally by one cell |
| Patterns.DiagonalLiveCount | GameOfLife_MAC.py:64 | moving a grid one row down and one column right round the board keeps its live count |
| Patterns.PresetLiveCount | GameOfLife_MAC.py:40-64 | on a wrapped board of at least 5 x 5, every fourth generation of the glider preset has exactly five live cells, the count the thread reports |

## Left out

- Screen resolution (`get_screen_resolution`): the width and height are parameters.
- Setting the wallpaper (`set_wallpaper`): an operating-system call that changes the desktop, which the model does not represent.
- Pickle files and `image.save`: the directory records which images exist and the snapshot grid, not file contents. A pickled grid enters as a value.
- `time.sleep` and all printing, including `print_grid` and the ANSI colours: printed boards are returned as frames.
- Qt widgets, signals, `suppress_stderr` and the `status_update` connection: emitted statuses are a sequence, and dialog answers are parameters.
- `QThread` concurrency: the stop flag becomes the number of generations finished before it is seen. A stop that lands inside a generation is not modelled.
- MacWindow.MainWindow.StartSimulation: `running` stays true until `stop_simulation` or the close event. The thread finishing by itself after an error is not modelled.
- The keyboard interrupt in both scripts is taken to arrive between generations, never inside one.
- `random.choice`: replaced by an arbitrary oracle, so every statement holds for every draw.
- numpy arrays versus lists: the Windows `initialize_grid` and the convolution are modelled on sequences.
- A directory that is `None` and one that is `""` are the same empty string, because the window only tests it for truth.
- MacApp.Directory.Clear: the removal of subdirectories on Windows and the "does not exist" message are not modelled. Only the images and the snapshot are tracked.
- `set_blank_wallpaper` (GameOfLife_MAC.py:189-199), run when a directory is chosen (line 139) and when a running simulation is stopped (line 184), saves an all-dead picture as `blank_grid.png` in the chosen folder. The folder model tracks only the generation images and the snapshot, so this file is not represented.
- MacWindow.MainWindow.StartSimulation: starting the thread is recorded, not performed. The thread's run is `MacApp.SimulationThread.Run`, which the window model does not call.
- Neighbours.ConvolveWrap: asks for a rectangular grid with at least one row. A ragged list, or the empty list, does not become a 2-D numpy array, so `convolve2d` raises on it; that error is outside the model.
- Patterns.StartGliderGlides: stops at generation 28. After that the clipped glider reaches the far corner, and its fate there is not followed.
- Patterns.BlockIsStill, Patterns.BlinkerTurns: the block and the blinker are placed at one position, one cell in from the corner. Under wrapping, `Patterns.EvolveDiagonal` shows that the rule commutes with a diagonal move, so the results also hold one or more cells further down the diagonal. Other positions, under either policy, are not covered.
- Patterns.PresetLiveCount: the count of five is proved for every fourth generation. The three phases between are five-cell gliders too, but their counts are not proved.
- Patterns.PresetGlides: covers boards of at least 5 x 5. On a smaller wrapped board the glider overlaps its own wrapped image and is not followed.

## Findings

| source | as written | input that shows it | evidently intended | confidence | as-written member | corrected member |
|---|---|---|---|---|---|---|
| GameOfLife_MAC.py:54 | `count_neighbors(rows, cols, grid, i, j)` calls the one-argument `count_neighbors(grid)` imported from GoL_tools.py, which raises TypeError on the first cell | any screen at least one cell wide and tall, e.g. 1920 x 1080 with cell size 5; the thread emits "Error: ..." and never a generation | the per-cell wrapped count of GoL_tools_mac.py, which equals entry (i, j) of the GoL_tools.py convolution | high (not executed) | MacApp.AsWrittenNeverReportsAGeneration | MacApp.CorrectedRunReportsEveryGeneration |
| GoL_win.py:79-86 | the cleanup deletes `game_of_life_1.png`, `game_of_life_2.png`, ... and stops at the first missing file, but the main loop has already deleted image 1 by generation 2 | an interrupt after generation 2 or later; image 1 is missing, so the loop stops at once and image `stop` is left behind | the comment at line 78: remove all generated image files | high (not executed) | WinScript.ConsecutiveCleanupLeavesLastImage | WinScript.EveryGenerationCleanupRemovesRun |
