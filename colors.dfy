/** The colour table and `ColoredOutput.make_color_output` of
    `terminal_utils/colored_output.py`. */
module Colors {
  import opened Strings
  import opened Results
  import Ansi

  /** `PrintColor`, an `IntEnum` of SGR foreground codes. */
  datatype PrintColor =
    | DefaultForegroundColor | Black | Red | Green | Yellow | Blue | Magenta | Cyan | LightGray
    | DarkGray | LightRed | LightGreen | LightYellow | LightBlue | LightMagenta | LightCyan | White
  {
    /** `print_color.value` */
    function Value(): nat
    {
      match this
      case DefaultForegroundColor => 39
      case Black => 30
      case Red => 31
      case Green => 32
      case Yellow => 33
      case Blue => 34
      case Magenta => 35
      case Cyan => 36
      case LightGray => 37
      case DarkGray => 90
      case LightRed => 91
      case LightGreen => 92
      case LightYellow => 93
      case LightBlue => 94
      case LightMagenta => 95
      case LightCyan => 96
      case White => 97
    }
  }

  /** No two colours of the table share a code, so every code names one colour. */
  lemma ValuesDistinct(a: PrintColor, b: PrintColor)
    ensures a.Value() == b.Value() ==> a == b
  {
  }

  /** Every code is a standard (30-39) or bright (90-97) foreground code. */
  lemma ValuesAreForegroundCodes(c: PrintColor)
    ensures 30 <= c.Value() <= 39 || 90 <= c.Value() <= 97
  {
  }

  /** `ColoredOutput`: its one attribute says whether colour is emitted. */
  datatype ColoredOutput = ColoredOutput(enabled: bool)
  {
    /** `make_color_output`: the message wrapped in the colour's escape
        sequence, or the message unchanged when colour is disabled. */
    function MakeColorOutput(printColor: PrintColor, message: string): (r: string)
      ensures !enabled ==> r == message
      ensures enabled ==> Ansi.Unwrap(r) == Some((printColor.Value(), message))
      ensures enabled ==> |r| == |message| + |NatToDecimal(printColor.Value())| + 7
    {
      if enabled then
        Ansi.UnwrapWrap(printColor.Value(), message);
        Ansi.WrapShape(printColor.Value(), message);
        Ansi.Wrap(printColor.Value(), message)
      else message
    }
  }

  /** `ColoredOutput()`: colour starts enabled. */
  function NewColoredOutput(): (o: ColoredOutput)
    ensures o.enabled
  {
    ColoredOutput(true)
  }

  /** With colour enabled the output starts with `ESC [ <code> m`, ends with
      the reset sequence and holds the message between the two. */
  lemma MakeColorOutputShape(printColor: PrintColor, message: string)
    ensures var code := NatToDecimal(printColor.Value());
            var r := ColoredOutput(true).MakeColorOutput(printColor, message);
            && r[..|code| + 3] == Ansi.Csi + code + "m"
            && r[|r| - 4..] == Ansi.Reset
            && r[|code| + 3..|r| - 4] == message
  {
  }

  lemma RedFail()
    ensures ColoredOutput(true).MakeColorOutput(Red, "fail") == "\U{1B}[31mfail\U{1B}[0m"
  {
  }
}
