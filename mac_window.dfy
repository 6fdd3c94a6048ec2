/** `MainWindow` of GameOfLife_MAC.py: the buttons that pick a directory,
    upload a grid, and start or stop the simulation thread. The file
    dialogs, the spin box, the combo box and the screen are outside the
    model: what they return is passed in. An unset directory (`None`) and a
    cancelled dialog (`""`) are both the empty string, since the window only
    ever tests the directory for truth. */
module MacWindow {
  import opened Common
  import opened GridModel
  import opened Initialization
  import opened MacApp
  import Raster

  /** The texts the window puts on its status label. */
  datatype StatusText =
    | Idle                        // "Status: Idle"
    | NoDirectorySelected         // "No directory selected."
    | DirectorySelected(path: string)
    | NoFileSelected              // "No file selected."
    | GridLoaded(file: string)    // "Grid loaded from {pkl_file}"
    | LoadedGridMismatch          // "Loaded grid dimensions do not match."
    | SelectDirectoryFirst        // "Please select a directory first."
    | AlreadyRunning              // "Simulation already running."
    | UploadGridFirst             // "Please upload a grid file for import mode."
    | Started                     // "Simulation started."
    | Stopped                     // "Simulation stopped."
    | NoSimulationRunning         // "No simulation running."

  /** What `upload_file` decides: the grid to keep (if any) and the status. */
  datatype Upload = Upload(kept: Option<Grid>, status: StatusText)

  /** GameOfLife_MAC.py:141-157: a cancelled dialog changes nothing but the
      status; a picked file's grid is kept exactly when its row count and
      first row's length match the screen at the current cell size; an
      empty grid on a screen with no whole row raises IndexError. */
  function UploadDecision(file: string, contents: Grid, width: nat, height: nat, cs: nat): (r: Result<Upload, PyError>)
    requires cs >= 1
    ensures file == "" ==> r == Success(Upload(None, NoFileSelected))
    ensures file != "" ==> (r.Failure? <==> |contents| == 0 && height < cs)
    ensures r.Failure? ==> r.error == IndexError
    ensures r.Success? && r.value.kept.Some? ==> r.value.kept.value == contents && r.value.status == GridLoaded(file)
    ensures file != "" && r.Success? ==>
      (r.value.kept.Some? <==> |contents| == height / cs > 0 && |contents[0]| == width / cs)
    ensures file != "" && r.Success? && r.value.kept.None? ==> r.value.status == LoadedGridMismatch
  {
    if file == "" then Success(Upload(None, NoFileSelected))
    else
      var (rows, cols) := GridSize(width, height, cs);
      Raster.DivBound(height, cs, 1);
      assert rows == 0 <==> height < cs;
      match DimensionsMatch(contents, rows, cols)
      case Failure(e) => Failure(e)
      case Success(ok) =>
        if ok then Success(Upload(Some(contents), GridLoaded(file)))
        else Success(Upload(None, LoadedGridMismatch))
  }

  /** The arguments `start_simulation` gives a new `SimulationThread`. */
  datatype Config = Config(directory: string, cellSize: nat, mode: string, initialGrid: Option<Grid>)

  /** GameOfLife_MAC.py:159-178: three guards, in this order: a directory
      must be chosen, no thread may be running, and import mode needs an
      uploaded grid. Past them a thread is configured; only import mode
      hands it the uploaded grid. */
  function StartDecision(directory: string, running: bool, mode: string, grid: Option<Grid>, cs: nat): (r: Result<Config, StatusText>)
    ensures r.Success? <==> directory != "" && !running && (mode == "import" ==> grid.Some?)
    ensures directory == "" ==> r == Failure(SelectDirectoryFirst)
    ensures directory != "" && running ==> r == Failure(AlreadyRunning)
    ensures directory != "" && !running && mode == "import" && grid.None? ==> r == Failure(UploadGridFirst)
    ensures r.Success? ==> r.value.directory == directory && r.value.cellSize == cs && r.value.mode == mode
    ensures r.Success? ==> r.value.initialGrid == if mode == "import" then grid else None
  {
    if directory == "" then Failure(SelectDirectoryFirst)
    else if running then Failure(AlreadyRunning)
    else if mode == "import" then
      match grid
      case None => Failure(UploadGridFirst)
      case Some(g) => Success(Config(directory, cs, mode, Some(g)))
    else Success(Config(directory, cs, mode, None))
  }

  /** A grid accepted by `upload_file` and started in import mode with the
      same cell size and screen is the grid the thread begins with: no
      warning, no re-initialisation. */
  lemma UploadedGridIsSimulated(file: string, contents: Grid, width: nat, height: nat, cs: nat,
                                directory: string, platform: Platform, stored: Option<Grid>, coin: Coin)
    requires cs >= 1
    requires UploadDecision(file, contents, width, height, cs) == Success(Upload(Some(contents), GridLoaded(file)))
    requires StartDecision(directory, false, "import", Some(contents), cs).Success?
    ensures var c := StartDecision(directory, false, "import", Some(contents), cs).value;
      var (rows, cols) := GridSize(width, height, c.cellSize);
      ChooseStart(platform, c.initialGrid, stored, rows, cols, c.mode, coin) == Setup(false, Success(Some(contents)))
  {
    var (rows, cols) := GridSize(width, height, cs);
    assert DimensionsMatch(contents, rows, cols) == Success(true);
  }

  /** An uploaded grid that no longer fits when the thread starts (the cell
      size was changed after the upload) is replaced by `initialize_grid`
      with mode 'import', which on macOS raises ValueError: the thread
      warns and then reports the error instead of any generation. */
  lemma StaleImportFailsOnMac(g: Grid, width: nat, height: nat, cs: nat, stored: Option<Grid>, coin: Coin, stop: nat)
    requires cs >= 1
    requires DimensionsMatch(g, height / cs, width / cs) == Success(false)
    ensures RunStatuses(Corrected, Darwin, Some(g), stored, width, height, cs, "import", coin, stop)
      == [DimensionMismatch, Error(ValueError)]
  {
    var (rows, cols) := GridSize(width, height, cs);
    var s := ChooseStart(Darwin, Some(g), stored, rows, cols, "import", coin);
    assert InitializeTools(Darwin, rows, cols, "import", coin) == Raised(ValueError);
    assert s == Setup(true, Failure(ValueError));
  }

  /** The window: the chosen directory, the uploaded grid, whether a thread
      is running, the thread last configured, and the status label. */
  class MainWindow {
    var directory: string
    var grid: Option<Grid>
    var running: bool
    var thread: Option<Config>
    var status: StatusText
    var uploadEnabled: bool

    /** The initial state: nothing chosen, nothing running, 'random' mode
        selected so the upload button is disabled. */
    constructor ()
      ensures directory == "" && grid == None && !running && thread == None && status == Idle && !uploadEnabled
    {
      directory := "";
      grid := None;
      running := false;
      thread := None;
      status := Idle;
      uploadEnabled := false;
    }

    /** `update_upload_button`: uploading is possible in import mode only. */
    method UpdateUploadButton(mode: string)
      modifies this
      ensures uploadEnabled == (mode == "import")
      ensures directory == old(directory) && grid == old(grid) && running == old(running)
      ensures thread == old(thread) && status == old(status)
    {
      uploadEnabled := mode == "import";
    }

    /** `select_directory` with the dialog's answer `chosen` (`""` when
        cancelled); the blank wallpaper it then sets is not modelled. */
    method SelectDirectory(chosen: string)
      modifies this
      ensures directory == chosen
      ensures status == if chosen == "" then NoDirectorySelected else DirectorySelected(chosen)
      ensures grid == old(grid) && running == old(running) && thread == old(thread)
      ensures uploadEnabled == old(uploadEnabled)
    {
      directory := chosen;
      if directory == "" {
        status := NoDirectorySelected;
      } else {
        status := DirectorySelected(directory);
      }
    }

    /** `upload_file` with the dialog's answer `file` and the grid unpickled
        from it; on IndexError the handler is left with nothing changed. */
    method UploadFile(file: string, contents: Grid, width: nat, height: nat, cs: nat) returns (raised: Option<PyError>)
      requires cs >= 1
      modifies this
      ensures var d := UploadDecision(file, contents, width, height, cs);
        (d.Failure? ==> raised == Some(d.error) && grid == old(grid) && status == old(status)) &&
        (d.Success? ==> raised == None && status == d.value.status &&
                        grid == if d.value.kept.Some? then d.value.kept else old(grid))
      ensures directory == old(directory) && running == old(running) && thread == old(thread)
      ensures uploadEnabled == old(uploadEnabled)
    {
      var d := UploadDecision(file, contents, width, height, cs);
      match d {
        case Failure(e) =>
          raised := Some(e);
        case Success(u) =>
          raised := None;
          if u.kept.Some? {
            grid := u.kept;
          }
          status := u.status;
      }
    }

    /** `start_simulation`: past the three guards a thread is configured and
        marked running; otherwise only the status changes. */
    method StartSimulation(mode: string, cs: nat)
      modifies this
      ensures var d := StartDecision(old(directory), old(running), mode, old(grid), cs);
        (d.Failure? ==> status == d.error && running == old(running) && thread == old(thread)) &&
        (d.Success? ==> status == Started && running && thread == Some(d.value))
      ensures directory == old(directory) && grid == old(grid) && uploadEnabled == old(uploadEnabled)
    {
      var d := StartDecision(directory, running, mode, grid, cs);
      match d {
        case Failure(l) =>
          status := l;
        case Success(c) =>
          thread := Some(c);
          running := true;
          status := Started;
      }
    }

    /** `stop_simulation`: a running thread is told to stop and waited for;
        otherwise only the status changes. */
    method StopSimulation()
      modifies this
      ensures status == if old(running) then Stopped else NoSimulationRunning
      ensures !running
      ensures directory == old(directory) && grid == old(grid) && thread == old(thread)
      ensures uploadEnabled == old(uploadEnabled)
    {
      if running {
        running := false;
        status := Stopped;
      } else {
        status := NoSimulationRunning;
      }
    }

    /** `closeEvent`: closing the window stops a running simulation first. */
    method Close()
      modifies this
      ensures !running
      ensures status == if old(running) then Stopped else old(status)
      ensures directory == old(directory) && grid == old(grid) && thread == old(thread)
      ensures uploadEnabled == old(uploadEnabled)
    {
      if running {
        StopSimulation();
      }
    }
  }
}
