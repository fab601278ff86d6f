/** ANSI "Select Graphic Rendition" wrapping, `\x1b[<code>m<text>\x1b[0m`,
    shared by both colour modules, and a parser that reads a wrapped string
    back into its code and text. */
module Ansi {
  import opened Strings
  import opened Results

  /** The control sequence introducer `ESC [`. */
  const Csi: string := "\U{1B}["
  /** The reset sequence `ESC [ 0 m`. */
  const Reset: string := "\U{1B}[0m"

  /** `f'\x1b[{code}m{text}\033[0m'` */
  function Wrap(code: int, text: string): string
  {
    Csi + IntToDecimal(code) + "m" + text + Reset
  }

  /** Where the parts of a wrapped text sit: the introducer, the code's
      numeral, `m`, the text and the reset, `|text| + |code| + 7` in all. */
  lemma WrapShape(code: int, text: string)
    ensures var r, d := Wrap(code, text), IntToDecimal(code);
            && |r| == |text| + |d| + 7
            && r[..2] == Csi && r[|r| - 4..] == Reset
            && r[2..2 + |d|] == d && r[2 + |d|] == 'm'
            && r[3 + |d|..|r| - 4] == text
  {
  }

  /** The number of decimal digits in `s` starting at index `i`. */
  function DigitRun(s: string, i: nat): (n: nat)
    requires i <= |s|
    ensures i + n <= |s|
    ensures forall k :: i <= k < i + n ==> IsDigit(s[k])
    ensures i + n < |s| ==> !IsDigit(s[i + n])
    decreases |s| - i
  {
    if i < |s| && IsDigit(s[i]) then 1 + DigitRun(s, i + 1) else 0
  }

  /** Reads `ESC [ digits m text ESC [ 0 m` back into the code and the text;
      `None` for a string of any other shape. */
  function Unwrap(s: string): Option<(nat, string)>
  {
    if |s| < 2 || s[..2] != Csi then None
    else
      var n := DigitRun(s, 2);
      if n == 0 || |s| < n + 7 || s[2 + n] != 'm' || s[|s| - 4..] != Reset then None
      else Some((DecimalValue(s[2..2 + n]), s[3 + n..|s| - 4]))
  }

  lemma {:induction false} DigitRunOfNumeral(s: string, i: nat, d: string)
    requires i + |d| < |s| && AllDigits(d) && !IsDigit(s[i + |d|])
    requires s[i..i + |d|] == d
    ensures DigitRun(s, i) == |d|
    decreases |d|
  {
    if d != [] {
      assert s[i] == d[0];
      assert s[i + 1..i + 1 + |d[1..]|] == d[1..];
      DigitRunOfNumeral(s, i + 1, d[1..]);
    }
  }

  /** Unwrapping a wrapped text gives back its code and the text unchanged,
      whatever the text holds (escape sequences included). */
  lemma UnwrapWrap(code: nat, text: string)
    ensures Unwrap(Wrap(code, text)) == Some((code, text))
  {
    var s := Wrap(code, text);
    var d := IntToDecimal(code);
    WrapShape(code, text);
    DigitRunOfNumeral(s, 2, d);
  }
}
