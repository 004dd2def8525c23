/**
 * What a dispatcher reports about a line: `FiState` (an int code and the
 * input) for `FiCLI`, the `FiParserState` enum for `FiInputParser`, a boolean
 * for `InputParser`; and how a nested menu loop ends.
 */
module States {
  import opened Dispatch

  /** The codes of `FiState`. */
  const VALID: int := 0
  const INVALID: int := 1
  const EXIT: int := 2
  const BACK: int := 3

  /** `FiState`: the code and the line that was dispatched. */
  datatype FiState = FiState(state: int, input: string)

  /** `FiParserState`. */
  datatype FiParserState = Valid | Invalid | Exit | Back

  /** The `FiState` code of a resolution: listing and running a command are both VALID. */
  function StateCode(r: Resolution): (code: int)
    ensures code == VALID <==> r == Listed || r.Ran?
    ensures code == INVALID <==> r == NoMatch
    ensures code == EXIT <==> r == ExitSignal
    ensures code == BACK <==> r == BackSignal
  {
    match r
    case Listed => VALID
    case Ran(_) => VALID
    case ExitSignal => EXIT
    case BackSignal => BACK
    case NoMatch => INVALID
  }

  /** The `FiParserState` of a resolution. */
  function ParserState(r: Resolution): (s: FiParserState)
    ensures s == Valid <==> r == Listed || r.Ran?
    ensures s == Invalid <==> r == NoMatch
    ensures s == Exit <==> r == ExitSignal
    ensures s == Back <==> r == BackSignal
  {
    match r
    case Listed => Valid
    case Ran(_) => Valid
    case ExitSignal => Exit
    case BackSignal => Back
    case NoMatch => Invalid
  }

  /**
   * How a nested menu loop ends: it returns to its caller on BACK, or
   * `System.exit` ends the whole session on EXIT; a finite input can also run
   * out before either, where the program would wait for more.
   */
  datatype MenuOutcome = Returned | SessionExit | InputExhausted
}
