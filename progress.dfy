/** The single-line progress renderer `Progressor` of
    `terminal_utils/progressor.py` (its methods are the same, line for line,
    in `terminal_utils/Progressor.py`): the redraw state, the text each call
    writes, and the geometry of the progress bar. */
module Progress {
  import opened Strings
  import opened Results

  /** The two streams the renderer writes to. */
  datatype Stream = Stdout | Stderr

  function Other(file: Stream): Stream
  {
    match file
    case Stdout => Stderr
    case Stderr => Stdout
  }

  /** The payload of a progress log record: the `ProgressStatus` class of
      `terminal_utils/progressor.py`. `terminal_utils/log_handlers.py`
      declares a second class of the same name and fields; the model uses
      this one datatype for either, and each handler recognises only the
      class of its own module. */
  datatype ProgressStatus = ProgressStatus(iteration: int, total: int, prefix: string)

  // ---------------------------------------------------------------------------
  // What one `print_message` call writes, and what the terminal row then shows

  /** The text `print_message(message, end)` writes when the previous line
      was `lastLength` characters long: a carriage return, the message, blanks
      over what is left of the previous line, and `end`. */
  function RenderedLine(message: string, lastLength: nat, end: string): string
  {
    "\r" + message + Spaces(Max(0, lastLength - |message|)) + end
  }

  /** The part of a rendered line between the carriage return and `end` is
      the message followed only by blanks, and it is as long as the longer of
      the message and the previous line, so it covers all of the latter. */
  lemma RenderedLineErases(message: string, lastLength: nat, end: string)
    ensures var r := RenderedLine(message, lastLength, end);
            var body := r[1..|r| - |end|];
            && r[0] == '\r' && r[|r| - |end|..] == end
            && |body| == Max(lastLength, |message|)
            && body[..|message|] == message
            && BlankFrom(body, |message|)
  {
    var r := RenderedLine(message, lastLength, end);
    assert r[1..|r| - |end|] == message + Spaces(Max(0, lastLength - |message|));
  }

  /** A terminal row after the cursor returns to column 0 and `text` (free of
      control characters) is typed over `row`. */
  function Overstrike(row: string, text: string): (r: string)
    ensures |r| == Max(|row|, |text|)
  {
    if text == [] then row
    else [text[0]] + Overstrike(if row == [] then [] else row[1..], text[1..])
  }

  /** Text typed over a row keeps the part of the row beyond the text. */
  lemma {:induction false} OverstrikeKeepsTail(row: string, text: string)
    ensures |row| <= |text| ==> Overstrike(row, text) == text
    ensures |row| > |text| ==> Overstrike(row, text) == text + row[|text|..]
  {
    if text != [] && row == [] {
      OverstrikeKeepsTail([], text[1..]);
      assert Overstrike(row, text) == [text[0]] + text[1..];
    } else if text != [] {
      OverstrikeKeepsTail(row[1..], text[1..]);
      if |row| > |text| {
        assert row[1..][|text[1..]|..] == row[|text|..];
        assert Overstrike(row, text) == [text[0]] + (text[1..] + row[|text|..]);
      } else {
        assert Overstrike(row, text) == [text[0]] + text[1..];
      }
      assert [text[0]] + text[1..] == text;
    }
  }

  /** Erase correctness for printable messages on a row of unbounded
      width: if the row shows blanks from column `lastLength` on (as it does
      after a printable line of that length), then the part of the rendered
      line between its carriage return and `end`, typed over the row, leaves
      the new message followed only by blanks, and the same holds again from
      the new message's length on. A coloured line is not printable: its
      escape characters count in the length but take no column. A line wider
      than the terminal wraps, and its carriage return goes back only to the
      start of the last physical row; this row model has no width, so the
      lemma says nothing about such lines. */
  lemma PrintShowsOnlyMessage(row: string, message: string, lastLength: nat, end: string)
    requires Printable(message)
    requires BlankFrom(row, lastLength)
    ensures var r := RenderedLine(message, lastLength, end);
            var shown := Overstrike(row, r[1..|r| - |end|]);
            && |shown| >= |message|
            && shown[..|message|] == message
            && BlankFrom(shown, |message|)
  {
    var r := RenderedLine(message, lastLength, end);
    var typed := r[1..|r| - |end|];
    assert typed == message + Spaces(Max(0, lastLength - |message|));
    OverstrikeKeepsTail(row, typed);
    var shown := Overstrike(row, typed);
    forall k | |message| <= k < |shown|
      ensures shown[k] == ' '
    {
      if k >= |typed| {
        assert shown[k] == row[k];
      } else {
        assert shown[k] == typed[k];
      }
    }
  }

  /** Without the padding a shorter message leaves the previous line's last
      characters on screen. */
  lemma UnpaddedLeavesLeftovers(row: string, message: string)
    requires |message| < |row|
    ensures Overstrike(row, message) == message + row[|message|..]
  {
    OverstrikeKeepsTail(row, message);
  }

  // ---------------------------------------------------------------------------
  // The geometry of `print_progress`

  /** `int(a / b)` of the exact quotient: truncation toward zero. */
  function TruncDiv(a: int, b: int): (q: int)
    requires b != 0
    ensures a >= 0 && b > 0 ==> q == a / b
    ensures b > 0 && a <= 0 ==> q <= 0 && q * b >= a
  {
    if (a >= 0) == (b > 0) then Abs(a) / Abs(b) else -(Abs(a) / Abs(b))
  }

  /** `TruncDiv` truncates toward zero: the product with the divisor is no
      larger in magnitude than the dividend and less than one divisor short
      of it, and a non-zero quotient is negative exactly when the operands'
      signs differ. */
  lemma TruncDivTruncates(a: int, b: int)
    requires b != 0
    ensures var q := TruncDiv(a, b);
            && Abs(q * b) <= Abs(a) < Abs(q * b) + Abs(b)
            && (q != 0 ==> (q < 0) == ((a < 0) != (b < 0)))
  {
    var q := TruncDiv(a, b);
    DivBounds(Abs(a), Abs(b));
    SignedProduct(q, b);
    assert Abs(q) == Abs(a) / Abs(b);
  }

  /** The two properties of `TruncDivTruncates` determine the quotient. */
  lemma TruncDivUnique(a: int, b: int, q: int)
    requires b != 0
    requires Abs(q * b) <= Abs(a) < Abs(q * b) + Abs(b)
    requires q != 0 ==> (q < 0) == ((a < 0) != (b < 0))
    ensures q == TruncDiv(a, b)
  {
    SignedProduct(q, b);
    DivUnique(Abs(a), Abs(b), Abs(q));
  }

  /** A natural `m` with `m * d <= x < m * d + d` is the quotient `x / d`. */
  lemma DivUnique(x: nat, d: int, m: nat)
    requires d > 0 && m * d <= x < m * d + d
    ensures m == x / d
  {
    DivBounds(x, d);
    var n := x / d;
    if m < n {
      MulMonotone(m + 1, n, d);
      assert false;
    }
    if n < m {
      MulMonotone(n + 1, m, d);
      assert false;
    }
  }

  /** The magnitude of a product is the product of the magnitudes. */
  lemma SignedProduct(q: int, b: int)
    ensures Abs(q * b) == Abs(q) * Abs(b)
  {
    if q < 0 && b < 0 {
      assert q * b == (-q) * (-b);
    } else if q < 0 {
      assert q * b == -((-q) * b);
    } else if b < 0 {
      assert q * b == -(q * (-b));
    }
  }

  /** Euclidean division of naturals leaves a remainder below the divisor. */
  lemma DivBounds(x: nat, d: int)
    requires d > 0
    ensures (x / d) * d <= x < (x / d) * d + d
  {
    assert x == (x / d) * d + x % d;
  }

  function Abs(x: int): nat { if x < 0 then -x else x }

  /** `filled_length = int((iteration / total) * bar_length)`, on exact
      rationals. */
  function FilledLength(iteration: int, total: int, barLength: int): int
    requires total != 0
  {
    TruncDiv(iteration * barLength, total)
  }

  /** `f'{fill * filled}{"-" * (bar_length - filled)}'` */
  function Bar(fillCharacter: string, filledLength: int, barLength: int): string
  {
    Repeat(fillCharacter, filledLength) + Repeat("-", barLength - filledLength)
  }

  /** `n / d` rounded to a nearest whole number, ties to even. */
  function RoundHalfEven(n: int, d: int): (r: int)
    requires d != 0
    ensures 2 * Abs(n - r * d) <= Abs(d)
    ensures 2 * Abs(n - r * d) == Abs(d) ==> r % 2 == 0
    decreases if d < 0 then 1 else 0
  {
    if d < 0 then
      var r := RoundHalfEven(-n, -d);
      NegatedDistance(n, d, r);
      r
    else
      var q, rem := n / d, n % d;
      Remainders(n, d);
      if 2 * rem < d then q
      else if 2 * rem > d then q + 1
      else if q % 2 == 0 then q
      else q + 1
  }

  /** Negating both `n` and `d` keeps the distance from `n` to `r * d`. */
  lemma NegatedDistance(n: int, d: int, r: int)
    ensures Abs(-n - r * -d) == Abs(n - r * d)
  {
    assert -n - r * -d == -(n - r * d);
  }

  /** The distances from `n` to the multiples of `d` just below and above it. */
  lemma Remainders(n: int, d: int)
    requires d > 0
    ensures Abs(n - (n / d) * d) == n % d
    ensures Abs(n - (n / d + 1) * d) == d - n % d
  {
    assert n - (n / d) * d == n % d;
    assert n - (n / d + 1) * d == n % d - d;
  }

  /** `f'{100 * (iteration / float(total)): 5.1f}'` computed on exact
      rationals: the percentage rounded half to even to one decimal, a blank
      (or a minus) for the sign, right-justified to five characters. */
  function PercentText(iteration: int, total: int): (r: string)
    requires total != 0
    ensures |r| >= 5
    ensures r[|r| - 2] == '.' && IsDigit(r[|r| - 1])
  {
    var tenths := RoundHalfEven(1000 * iteration, total);
    var magnitude := Abs(tenths);
    var body := (if tenths < 0 then "-" else " ")
                + NatToDecimal(magnitude / 10) + "." + [DigitChar(magnitude % 10)];
    Spaces(5 - |body|) + body
  }

  /** For `0 <= iteration <= total` the percentage rounds into 0.0 ... 100.0,
      so the field is exactly five characters wide, or six for 100.0. */
  lemma PercentTextWidth(iteration: int, total: int)
    requires 0 <= iteration <= total && total > 0
    ensures var tenths := RoundHalfEven(1000 * iteration, total);
            && 0 <= tenths <= 1000
            && |PercentText(iteration, total)| == if tenths == 1000 then 6 else 5
  {
    var n := 1000 * iteration;
    var tenths := RoundHalfEven(n, total);
    MulMonotone(iteration, total, 1000);
    if tenths < 0 {
      MulMonotone(tenths, -1, total);
      assert false;
    }
    if tenths > 1000 {
      MulMonotone(1001, tenths, total);
      assert false;
    }
    var whole := tenths / 10;
    assert whole <= 100;
    if whole >= 10 {
      assert |NatToDecimal(whole / 10)| == if whole == 100 then 2 else 1;
    }
    assert |NatToDecimal(whole)| == if whole == 100 then 3 else if whole >= 10 then 2 else 1;
  }

  /** The counter field `f'{iteration:0{len(str(total))}}/{total}'`. */
  function Counter(iteration: int, total: int): string
  {
    ZeroPadded(iteration, |IntToDecimal(total)|) + "/" + IntToDecimal(total)
  }

  /** `gen_msg(bar)`: prefix, counter in brackets, the bar between `|`s, percent. */
  function GenMsg(prefix: string, iteration: int, total: int, percent: string, bar: string): string
  {
    (prefix + "[" + Counter(iteration, total) + "] |") + bar + ("| " + percent + "%")
  }

  /** `bar_length`: the terminal width less the header measured with an empty bar. */
  function BarLength(prefix: string, iteration: int, total: int, columns: nat): int
    requires total != 0
  {
    columns - |GenMsg(prefix, iteration, total, PercentText(iteration, total), "")|
  }

  /** The message `print_progress` passes to `print_progress_message`. */
  function ProgressLine(prefix: string, iteration: int, total: int, fillCharacter: string, columns: nat): string
    requires total != 0
  {
    var barLength := BarLength(prefix, iteration, total, columns);
    GenMsg(prefix, iteration, total, PercentText(iteration, total),
           Bar(fillCharacter, FilledLength(iteration, total, barLength), barLength))
  }

  lemma {:induction false} DivMonotone(a: int, b: int, d: int)
    requires a <= b && d > 0
    ensures a / d <= b / d
  {
    var qa, qb := a / d, b / d;
    if qa > qb {
      MulMonotone(qb + 1, qa, d);
      assert false;
    }
  }

  lemma MulDivCancel(x: int, d: int)
    requires d > 0
    ensures (x * d) / d == x
  {
    var q, r := (x * d) / d, (x * d) % d;
    assert (x - q) * d == r;
    if x - q >= 1 {
      MulMonotone(1, x - q, d);
    }
    if x - q <= -1 {
      MulMonotone(x - q, -1, d);
    }
  }

  lemma {:induction false} MulMonotone(i: int, j: int, b: int)
    requires i <= j && b >= 0
    ensures i * b <= j * b
  {
    assert j * b - i * b == (j - i) * b;
  }

  /** For `0 <= iteration <= total` and a bar that fits, the filled part
      lies within the bar, is empty at the start and full at the end. */
  lemma FilledLengthBounds(iteration: int, total: int, barLength: int)
    requires 0 <= iteration <= total && total > 0 && barLength >= 0
    ensures 0 <= FilledLength(iteration, total, barLength) <= barLength
    ensures iteration == 0 ==> FilledLength(iteration, total, barLength) == 0
    ensures iteration == total ==> FilledLength(iteration, total, barLength) == barLength
  {
    MulMonotone(0, iteration, barLength);
    MulMonotone(iteration, total, barLength);
    DivMonotone(0, iteration * barLength, total);
    DivMonotone(iteration * barLength, total * barLength, total);
    MulDivCancel(barLength, total);
    assert FilledLength(iteration, total, barLength) == (iteration * barLength) / total;
  }

  /** The filled part never shrinks as the iteration advances. */
  lemma FilledLengthMonotone(i: int, j: int, total: int, barLength: int)
    requires 0 <= i <= j && total > 0 && barLength >= 0
    ensures FilledLength(i, total, barLength) <= FilledLength(j, total, barLength)
  {
    MulMonotone(0, i, barLength);
    MulMonotone(i, j, barLength);
    DivMonotone(i * barLength, j * barLength, total);
  }

  /** At a fixed terminal width the bar length changes only with the width
      of the percent field: while that stays the same, the bar keeps its
      length and its filled part never shrinks as the iteration advances. */
  lemma FixedWidthBarMonotone(prefix: string, i: int, j: int, total: int, columns: nat)
    requires 0 <= i <= j <= total && total > 0
    requires |PercentText(i, total)| == |PercentText(j, total)|
    requires BarLength(prefix, i, total, columns) >= 0
    ensures BarLength(prefix, i, total, columns) == BarLength(prefix, j, total, columns)
    ensures FilledLength(i, total, BarLength(prefix, i, total, columns))
            <= FilledLength(j, total, BarLength(prefix, j, total, columns))
  {
    CounterLength(i, total);
    CounterLength(j, total);
    SameHeaderWidth(prefix, i, j, total);
    FilledLengthMonotone(i, j, total, BarLength(prefix, i, total, columns));
  }

  /** For `0 <= iteration <= total` the counter is as wide as two numerals
      of the total and a slash. */
  lemma CounterLength(iteration: int, total: int)
    requires 0 <= iteration <= total
    ensures |Counter(iteration, total)| == 2 * |IntToDecimal(total)| + 1
  {
    CounterWidth(iteration, total);
  }

  /** Two iterations whose counters and percent fields have the same widths
      leave the same room for the bar. */
  lemma SameHeaderWidth(prefix: string, i: int, j: int, total: int)
    requires total != 0
    requires |Counter(i, total)| == |Counter(j, total)|
    requires |PercentText(i, total)| == |PercentText(j, total)|
    ensures forall columns: nat :: BarLength(prefix, i, total, columns) == BarLength(prefix, j, total, columns)
  {
    HeaderWidth(prefix, i, total, PercentText(i, total));
    HeaderWidth(prefix, j, total, PercentText(j, total));
  }

  /** The width of the header with an empty bar, field by field. */
  lemma HeaderWidth(prefix: string, iteration: int, total: int, percent: string)
    ensures |GenMsg(prefix, iteration, total, percent, "")|
            == |prefix| + |Counter(iteration, total)| + |percent| + 7
  {
  }

  /** The total's numeral in the shrinking example has five digits. */
  lemma TenThousandDigits()
    ensures |IntToDecimal(10000)| == 5
  {
    assert NatToDecimal(10) == "10";
    assert NatToDecimal(100) == "100";
    assert NatToDecimal(1000) == "1000";
  }

  /** Iteration 9994 of 10000 on 123 columns: the percent field is `" 99.9"`,
      the bar 100 wide and 99 of it filled. */
  lemma ShrinkExampleBefore()
    ensures BarLength("", 9994, 10000, 123) == 100
    ensures FilledLength(9994, 10000, 100) == 99
  {
    assert RoundHalfEven(9994000, 10000) == 999;
    assert NatToDecimal(99) == "99";
    assert |PercentText(9994, 10000)| == 5;
    TenThousandDigits();
    CounterWidth(9994, 10000);
    assert TruncDiv(999400, 10000) == 99;
  }

  /** Iteration 9996 of 10000 on 123 columns: the percent field rounds up to
      `"100.0"` and widens to six characters, so the bar is only 99 wide and
      98 of it filled. */
  lemma ShrinkExampleAfter()
    ensures BarLength("", 9996, 10000, 123) == 99
    ensures FilledLength(9996, 10000, 99) == 98
  {
    assert RoundHalfEven(9996000, 10000) == 1000;
    assert NatToDecimal(100) == "100";
    assert |PercentText(9996, 10000)| == 6;
    TenThousandDigits();
    CounterWidth(9996, 10000);
    assert TruncDiv(989604, 10000) == 98;
  }

  /** At a fixed terminal width the filled part can shrink as the iteration
      advances: when the percent field widens to `"100.0"` the bar loses a
      column and, with it, a fill character. */
  lemma FixedWidthBarCanShrink()
    ensures var before := BarLength("", 9994, 10000, 123);
            var after := BarLength("", 9996, 10000, 123);
            FilledLength(9996, 10000, after) < FilledLength(9994, 10000, before)
  {
    ShrinkExampleBefore();
    ShrinkExampleAfter();
  }

  /** On a terminal too narrow for the header the bar is empty: no fill
      characters and no dashes. */
  lemma NarrowTerminalEmptyBar(iteration: int, total: int, barLength: int, fillCharacter: string)
    requires 0 <= iteration <= total && total > 0 && barLength <= 0
    ensures Bar(fillCharacter, FilledLength(iteration, total, barLength), barLength) == ""
  {
    var f := FilledLength(iteration, total, barLength);
    var width := -barLength;
    MulMonotone(iteration, total, width);
    assert iteration * barLength == -(iteration * width);
    DivMonotone(iteration * width, total * width, total);
    MulDivCancel(width, total);
    assert f == -((iteration * width) / total);
  }

  /** Past the total the narrow-terminal bar is not empty: iteration 2 of 1
      on a bar length of -3 fills -6, which leaves three dashes. */
  lemma OverrunNarrowBar(fillCharacter: string)
    ensures Bar(fillCharacter, FilledLength(2, 1, -3), -3) == "---"
  {
    assert FilledLength(2, 1, -3) == -6;
    assert Repeat(fillCharacter, -6) == "";
    assert Repeat("-", 3) == "---";
  }

  /** The bar is `filled` fill characters followed by dashes, `barLength`
      characters in all when the fill character is one character long. */
  lemma BarContents(fillCharacter: string, filled: int, barLength: int)
    requires |fillCharacter| == 1 && 0 <= filled <= barLength
    ensures var bar := Bar(fillCharacter, filled, barLength);
            && |bar| == barLength
            && (forall k :: 0 <= k < filled ==> bar[k] == fillCharacter[0])
            && (forall k :: filled <= k < barLength ==> bar[k] == '-')
  {
    var bar := Bar(fillCharacter, filled, barLength);
    assert forall k :: filled <= k < barLength ==> bar[k] == Repeat("-", barLength - filled)[k - filled];
  }

  /** For `0 <= iteration <= total` the counter is the iteration written
      with exactly as many digits as `total`, leading zeros included. */
  lemma CounterWidth(iteration: int, total: int)
    requires 0 <= iteration <= total
    ensures var digits := ZeroPadded(iteration, |IntToDecimal(total)|);
            && |digits| == |IntToDecimal(total)|
            && AllDigits(digits) && DecimalValue(digits) == iteration
            && Counter(iteration, total) == digits + "/" + IntToDecimal(total)
  {
    DecimalLengthMonotone(iteration, total);
  }

  /** When the header fits the terminal, the iteration is within range and
      the fill character is one character long, the progress line is exactly
      as wide as the terminal. */
  lemma ProgressLineFitsTerminal(prefix: string, iteration: int, total: int, fillCharacter: string, columns: nat)
    requires 0 <= iteration <= total && total > 0
    requires BarLength(prefix, iteration, total, columns) >= 0
    requires |fillCharacter| == 1
    ensures |ProgressLine(prefix, iteration, total, fillCharacter, columns)| == columns
  {
    var barLength := BarLength(prefix, iteration, total, columns);
    var filled := FilledLength(iteration, total, barLength);
    FilledLengthBounds(iteration, total, barLength);
    BarContents(fillCharacter, filled, barLength);
  }

  /** Under the same conditions the bar, which starts after the prefix, the
      bracketed counter and `" |"`, is `FilledLength` fill characters followed
      by dashes up to the bar length. */
  lemma ProgressLineLayout(prefix: string, iteration: int, total: int, fillCharacter: string, columns: nat)
    requires 0 <= iteration <= total && total > 0
    requires BarLength(prefix, iteration, total, columns) >= 0
    requires |fillCharacter| == 1
    ensures var line := ProgressLine(prefix, iteration, total, fillCharacter, columns);
            var barLength := BarLength(prefix, iteration, total, columns);
            var filled := FilledLength(iteration, total, barLength);
            var start := |prefix| + |Counter(iteration, total)| + 4;
            && 0 <= filled <= barLength
            && (forall k :: start <= k < start + filled ==> line[k] == fillCharacter[0])
            && (forall k :: start + filled <= k < start + barLength ==> line[k] == '-')
  {
    var barLength := BarLength(prefix, iteration, total, columns);
    var filled := FilledLength(iteration, total, barLength);
    FilledLengthBounds(iteration, total, barLength);
    BarContents(fillCharacter, filled, barLength);
    BarBetween(ProgressLine(prefix, iteration, total, fillCharacter, columns),
               prefix + "[" + Counter(iteration, total) + "] |",
               Bar(fillCharacter, filled, barLength),
               "| " + PercentText(iteration, total) + "%",
               fillCharacter[0], filled);
  }

  /** Where a bar sits in a line made of a head, the bar and a tail. */
  lemma BarBetween(line: string, head: string, bar: string, tail: string, fill: char, filled: int)
    requires line == head + bar + tail
    requires 0 <= filled <= |bar|
    requires forall k :: 0 <= k < filled ==> bar[k] == fill
    requires forall k :: filled <= k < |bar| ==> bar[k] == '-'
    ensures line[..|head|] == head
    ensures forall k :: |head| <= k < |head| + filled ==> line[k] == fill
    ensures forall k :: |head| + filled <= k < |head| + |bar| ==> line[k] == '-'
    ensures line[|head| + |bar|..] == tail
  {
    assert forall k :: |head| <= k < |head| + |bar| ==> line[k] == bar[k - |head|];
  }

  /** The worked example, total 120 and iteration 45: the counter takes
      three digits. */
  lemma ExampleCounter()
    ensures Counter(45, 120) == "045/120"
  {
    assert NatToDecimal(12) == "12";
    assert IntToDecimal(120) == "120";
    assert NatToDecimal(45) == "45";
    assert Repeat("0", 1) == "0";
    assert ZeroPadded(45, 3) == "045";
  }

  /** The worked example's percent field: 37.5 to one decimal, blank-signed. */
  lemma ExamplePercent()
    ensures PercentText(45, 120) == " 37.5"
  {
    assert RoundHalfEven(45000, 120) == 375;
    assert NatToDecimal(37) == "37";
    assert DigitChar(5) == '5';
  }

  /** The worked example's header with an empty bar and no prefix. The
      percent field brings its own leading blank after `"| "`, so the header
      is 19 characters wide. */
  lemma ExampleHeader()
    ensures GenMsg("", 45, 120, PercentText(45, 120), "") == "[045/120] ||  37.5%"
  {
    ExampleCounter();
    ExamplePercent();
  }

  /** The worked example on 80 columns: the bar is 61 wide and 22 of it filled. */
  lemma ExampleBar()
    ensures BarLength("", 45, 120, 80) == 61
    ensures FilledLength(45, 120, BarLength("", 45, 120, 80)) == 22
  {
    ExampleHeader();
    assert BarLength("", 45, 120, 80) == 61;
    assert TruncDiv(2745, 120) == 2745 / 120 == 22;
    assert FilledLength(45, 120, 61) == TruncDiv(2745, 120);
  }

  // ---------------------------------------------------------------------------
  // The renderer

  /** `Progressor`: the fill character, the length of the last message, and
      what has been written to each stream. */
  class Progressor {
    var fillCharacter: string
    var lastMessageLength: nat
    ghost var stdout: seq<string>
    ghost var stderr: seq<string>

    ghost function Trace(file: Stream): seq<string>
      reads this
    {
      match file
      case Stdout => stdout
      case Stderr => stderr
    }

    /** `Progressor(fill_character)` */
    constructor (fillCharacter: string)
      ensures this.fillCharacter == fillCharacter && lastMessageLength == 0
      ensures stdout == [] && stderr == []
    {
      this.fillCharacter := fillCharacter;
      lastMessageLength := 0;
      stdout, stderr := [], [];
    }

    /** The effect of one `print_message(message, end, file)`: `file` gets the
        rendered line, the other stream nothing, the last length becomes the
        message's, and the fill character stays as it was. */
    twostate predicate Wrote(message: string, end: string, file: Stream)
      reads this
    {
      && lastMessageLength == |message|
      && fillCharacter == old(fillCharacter)
      && Trace(file) == old(Trace(file)) + [RenderedLine(message, old(lastMessageLength), end)]
      && Trace(Other(file)) == old(Trace(Other(file)))
    }

    /** The effect of `print_progress(iteration, total, prefix)` on a
        terminal `columns` wide: division by zero for `total == 0` before
        anything is written, otherwise one progress line on stderr. */
    twostate predicate DrewProgress(iteration: int, total: int, prefix: string, columns: nat, outcome: Outcome)
      reads this
    {
      if total == 0 then
        && outcome == Raised(ZeroDivisionError)
        && unchanged(this)
      else
        && outcome == Done
        && Wrote(ProgressLine(prefix, iteration, total, old(fillCharacter), columns), "\r", Stderr)
    }

    method PrintMessage(message: string, end: string, file: Stream)
      modifies this
      ensures Wrote(message, end, file)
    {
      var messageLen := |message|;
      var chunk := "\r" + message + Spaces(Max(0, lastMessageLength - messageLen)) + end;
      if file == Stdout {
        stdout := stdout + [chunk];
      } else {
        stderr := stderr + [chunk];
      }
      lastMessageLength := messageLen;
    }

    method PrintProgressMessage(message: string, prefix: string)
      modifies this
      ensures Wrote(prefix + message, "\r", Stderr)
    {
      PrintMessage(prefix + message, "\r", Stderr);
    }

    method PrintProgress(iteration: int, total: int, prefix: string, columns: nat) returns (outcome: Outcome)
      modifies this
      ensures DrewProgress(iteration, total, prefix, columns, outcome)
    {
      if total == 0 {
        return Raised(ZeroDivisionError);
      }
      var percent := PercentText(iteration, total);
      var barLength := BarLength(prefix, iteration, total, columns);
      var filledLength := FilledLength(iteration, total, barLength);
      var bar := Bar(fillCharacter, filledLength, barLength);
      var message := GenMsg(prefix, iteration, total, percent, bar);
      assert "" + message == message;
      PrintProgressMessage(message, "");
      outcome := Done;
    }

    /** `__exit__`: clears the progress line with an empty progress message,
        blanks as long as the last line between two carriage returns. */
    method Exit()
      modifies this
      ensures Wrote("", "\r", Stderr)
      ensures stderr == old(stderr) + ["\r" + Spaces(old(lastMessageLength)) + "\r"]
      ensures lastMessageLength == 0
    {
      assert RenderedLine("", lastMessageLength, "\r") == "\r" + Spaces(lastMessageLength) + "\r";
      PrintProgressMessage("", "");
    }
  }
}
