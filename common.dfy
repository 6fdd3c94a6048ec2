/** Small shared vocabulary: optional values, results, the host platform
    and the Python exceptions the engine can raise. */
module Common {

  datatype Option<+T> = None | Some(value: T)

  datatype Result<+R, +E> = Success(value: R) | Failure(error: E)

  /** What `platform.system()` reports; everything that is neither macOS
      nor Windows falls into `Other`. */
  datatype Platform = Darwin | Windows | Other

  /** The exceptions the core can raise. The macOS thread catches and
      reports them; the Windows script lets them end the run. */
  datatype PyError =
    | IndexError   // `grid[0]` on an empty grid, a row shorter than `cols`
    | ValueError   // `initialize_grid` with an unknown mode (macOS branch)
    | TypeError    // a call with the wrong number of arguments, indexing `None`
}
