/** The older three-colour `ColoredOutput.py`: the colour wrappers are
    closures built once at construction, and RED is the bright code 91. */
module LegacyColors {
  import opened Results
  import Ansi
  import Colors

  /** `PrintColor` of the older file. */
  datatype PrintColor = Green | Yellow | Red
  {
    function Value(): nat
    {
      match this
      case Green => 32
      case Yellow => 33
      case Red => 91
    }
  }

  /** `get_color_wrapper(color_code)`: the function that wraps a string in
      the escape sequence for `color_code`. */
  function GetColorWrapper(colorCode: int): (wrapper: string -> string)
    ensures forall s :: wrapper(s) == Ansi.Wrap(colorCode, s)
  {
    s => Ansi.Wrap(colorCode, s)
  }

  /** A wrapper for a non-negative code can always be read back: the
      wrapped string gives the code and the original string. */
  lemma GetColorWrapperInverse(colorCode: nat, s: string)
    ensures Ansi.Unwrap(GetColorWrapper(colorCode)(s)) == Some((colorCode, s))
  {
    Ansi.UnwrapWrap(colorCode, s);
  }

  /** An instance: the public `enabled` flag and the three wrappers. */
  datatype ColoredOutput = ColoredOutput(
    enabled: bool,
    yellowColorWrapper: string -> string,
    greenColorWrapper: string -> string,
    redColorWrapper: string -> string)
  {
    function PrintYellow(message: string): (r: string)
      ensures !enabled ==> r == message
    {
      if enabled then yellowColorWrapper(message) else message
    }

    function PrintGreen(message: string): (r: string)
      ensures !enabled ==> r == message
    {
      if enabled then greenColorWrapper(message) else message
    }

    function PrintRed(message: string): (r: string)
      ensures !enabled ==> r == message
    {
      if enabled then redColorWrapper(message) else message
    }
  }

  /** `ColoredOutput()`: colour enabled, one wrapper per colour of the table. */
  function NewColoredOutput(): (o: ColoredOutput)
    ensures o.enabled
    ensures forall s :: o.yellowColorWrapper(s) == Ansi.Wrap(33, s)
    ensures forall s :: o.greenColorWrapper(s) == Ansi.Wrap(32, s)
    ensures forall s :: o.redColorWrapper(s) == Ansi.Wrap(91, s)
  {
    ColoredOutput(true, GetColorWrapper(Yellow.Value()), GetColorWrapper(Green.Value()),
                  GetColorWrapper(Red.Value()))
  }

  /** Whatever `enabled` is later set to, each method of a constructed
      instance depends on the message and the flag only: the message wrapped
      in the colour's fixed code (YELLOW 33, GREEN 32, and RED 91 in this
      file) when enabled, unchanged otherwise. */
  lemma ConstructedInstanceUsesTableCodes(enabled: bool, message: string)
    ensures var o := NewColoredOutput().(enabled := enabled);
            && o.PrintYellow(message) == (if enabled then Ansi.Wrap(33, message) else message)
            && o.PrintGreen(message) == (if enabled then Ansi.Wrap(32, message) else message)
            && o.PrintRed(message) == (if enabled then Ansi.Wrap(91, message) else message)
  {
  }

  /** The older RED is the newer table's LIGHT_RED, not its RED. */
  lemma RedIsNewerLightRed()
    ensures Red.Value() == Colors.PrintColor.LightRed.Value() && Red.Value() != Colors.PrintColor.Red.Value()
  {
  }
}
