/** The logging handlers: `ProgressorLogHandler` (in both
    `terminal_utils/progressor.py` and `terminal_utils/log_handlers.py`) and
    `ColoredProgressorLogHandler` of `terminal_utils/log_handlers.py`. A
    record is classified by a pure function; the handlers' `Emit` methods
    then drive the `Progressor`. */
module LogHandlers {
  import opened Results
  import opened Progress
  import Colors

  /** The standard library's level numbers. */
  const CRITICAL: int := 50
  const ERROR: int := 40
  const WARNING: int := 30
  const INFO: int := 20
  const DEBUG: int := 10

  /** `record.msg`: an instance of the `ProgressStatus` class of the
      handler's own module, or any other message, of which the model keeps
      what `self.format(record)` makes of the record. A status object of the
      other module's `ProgressStatus` class is an `OtherMessage` here: the
      handler's `isinstance` test refuses it, so it is refused or printed as
      its formatted text. */
  datatype LogMessage =
    | StatusMessage(status: ProgressStatus)
    | OtherMessage(formatted: string)

  /** A log record: its level number and its message. */
  datatype LogRecord = LogRecord(levelno: int, msg: LogMessage)

  const NotProgressStatusError: Exception :=
    ValueError("The log message is not of the progress status type.")

  function UnknownLevelError(levelno: int): Exception
  {
    ValueError("Unknown log level: levelno=" + Strings.IntToDecimal(levelno))
  }

  /** `ProgressorLogHandler.emit`'s check: the record's progress status, or
      the `ValueError` for any other message. */
  function ProgressStatusOf(record: LogRecord): (r: Result<ProgressStatus>)
    ensures r.Ok? <==> record.msg.StatusMessage?
    ensures r.Ok? ==> r.value == record.msg.status
    ensures r.Err? ==> r.exception == NotProgressStatusError
  {
    match record.msg
    case StatusMessage(status) => Ok(status)
    case OtherMessage(_) => Err(NotProgressStatusError)
  }

  /** The colour `ColoredProgressorLogHandler` prints a level in, if the
      level is one it knows. */
  function LevelColor(levelno: int): Option<Colors.PrintColor>
  {
    if levelno == CRITICAL || levelno == ERROR then Some(Colors.Red)
    else if levelno == WARNING then Some(Colors.Yellow)
    else if levelno == INFO then Some(Colors.Green)
    else if levelno == DEBUG then Some(Colors.White)
    else None
  }

  /** The five standard levels get their colours, and no other level gets any. */
  lemma LevelColorTable(levelno: int)
    ensures LevelColor(CRITICAL) == Some(Colors.Red) && LevelColor(ERROR) == Some(Colors.Red)
    ensures LevelColor(WARNING) == Some(Colors.Yellow)
    ensures LevelColor(INFO) == Some(Colors.Green)
    ensures LevelColor(DEBUG) == Some(Colors.White)
    ensures LevelColor(levelno).Some? <==> levelno in {CRITICAL, ERROR, WARNING, INFO, DEBUG}
  {
  }

  /** What `ColoredProgressorLogHandler.emit` does with a record. */
  datatype Action =
    | DrawProgress(status: ProgressStatus)
    | PrintColored(color: Colors.PrintColor, text: string)

  /** `ColoredProgressorLogHandler.emit`'s dispatch: progress statuses go to
      the progress bar uncoloured, other messages are printed in their level's
      colour, and an unknown level is a `ValueError`. */
  function ColoredAction(record: LogRecord): (r: Result<Action>)
    ensures record.msg.StatusMessage? ==> r == Ok(DrawProgress(record.msg.status))
    ensures record.msg.OtherMessage? && LevelColor(record.levelno).Some? ==>
              r == Ok(PrintColored(LevelColor(record.levelno).value, record.msg.formatted))
    ensures record.msg.OtherMessage? && LevelColor(record.levelno).None? ==>
              r == Err(UnknownLevelError(record.levelno))
  {
    match record.msg
    case StatusMessage(_) =>
      (match ProgressStatusOf(record)
       case Ok(status) => Ok(DrawProgress(status))
       case Err(e) => Err(e))
    case OtherMessage(formatted) =>
      match LevelColor(record.levelno)
      case Some(color) => Ok(PrintColored(color, formatted))
      case None => Err(UnknownLevelError(record.levelno))
  }

  /** A record is refused exactly when it is a plain message of an unknown
      level; progress records are drawn whatever their level. */
  lemma ColoredActionRefuses(record: LogRecord)
    ensures ColoredAction(record).Err? <==>
              record.msg.OtherMessage? && record.levelno !in {CRITICAL, ERROR, WARNING, INFO, DEBUG}
  {
    LevelColorTable(record.levelno);
  }

  /** A green INFO line of 75 visible characters is 84 characters long once
      wrapped, and that length becomes the last message length. The next
      80-character progress line then gets 4 blanks of padding, so between
      its carriage returns it writes 84 columns and wraps on an 80-column
      terminal. */
  lemma ColouredLineWrapsNextBar(text: string, line: string)
    requires |text| == 75 && |line| == 80
    ensures |Colors.ColoredOutput(true).MakeColorOutput(Colors.Green, text)| == 84
    ensures |RenderedLine(line, 84, "\r")| == 86
  {
    assert Strings.NatToDecimal(32) == "32";
  }

  /** `ProgressorLogHandler`: forwards progress records to its progressor. */
  class ProgressorLogHandler {
    const progressor: Progressor

    constructor (progressor: Progressor)
      ensures this.progressor == progressor
    {
      this.progressor := progressor;
    }

    /** `emit(record)` on a terminal `columns` wide. */
    method Emit(record: LogRecord, columns: nat) returns (outcome: Outcome)
      modifies progressor
      ensures match ProgressStatusOf(record)
              case Err(e) => outcome == Raised(e) && unchanged(progressor)
              case Ok(s) => progressor.DrewProgress(s.iteration, s.total, s.prefix, columns, outcome)
    {
      match ProgressStatusOf(record)
      case Err(e) =>
        outcome := Raised(e);
      case Ok(status) =>
        outcome := progressor.PrintProgress(status.iteration, status.total, status.prefix, columns);
    }
  }

  /** `ColoredProgressorLogHandler`: progress records as above, other
      records printed as permanent lines in their level's colour. */
  class ColoredProgressorLogHandler {
    const progressor: Progressor
    var coloredOutput: Colors.ColoredOutput

    constructor (progressor: Progressor)
      ensures this.progressor == progressor
      ensures coloredOutput == Colors.NewColoredOutput()
    {
      this.progressor := progressor;
      coloredOutput := Colors.NewColoredOutput();
    }

    /** `emit(record)` on a terminal `columns` wide. A plain message goes to
        stdout with a newline through `print_message`, so it updates the same
        last length that progress lines use. */
    method Emit(record: LogRecord, columns: nat) returns (outcome: Outcome)
      modifies progressor
      ensures coloredOutput == old(coloredOutput)
      ensures match ColoredAction(record)
              case Err(e) => outcome == Raised(e) && unchanged(progressor)
              case Ok(DrawProgress(s)) => progressor.DrewProgress(s.iteration, s.total, s.prefix, columns, outcome)
              case Ok(PrintColored(color, text)) =>
                outcome == Done && progressor.Wrote(coloredOutput.MakeColorOutput(color, text), "\n", Stdout)
    {
      match ColoredAction(record)
      case Err(e) =>
        outcome := Raised(e);
      case Ok(DrawProgress(status)) =>
        outcome := progressor.PrintProgress(status.iteration, status.total, status.prefix, columns);
      case Ok(PrintColored(color, text)) =>
        progressor.PrintMessage(coloredOutput.MakeColorOutput(color, text), "\n", Stdout);
        outcome := Done;
    }
  }
}
