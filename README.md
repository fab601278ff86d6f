# terminal_utils in Dafny

A model of `terminal_utils`, a small Python helper library for terminal
output. It covers four pieces:

- **The single-line redraw renderer `Progressor`**. Every line it writes
  starts with a carriage return. Then come the message and as many blanks
  as the previous message had characters beyond the new one's length. For
  lines of printable characters that fit the terminal, that hides the rest
  of a previous, longer line; the padding ignores the terminal's width. It
  keeps one number between
  calls: the length of the last message. It also draws a progress bar as
  wide as the terminal.
- **Colour wrapping.** A message is wrapped in an ANSI SGR escape,
  `ESC[<code>m … ESC[0m`. When colour is disabled the message is left as it is.
- **The older three-colour variant** in `ColoredOutput.py`.
- **The logging handlers.** They send progress records to the bar. They
  print other records as coloured permanent lines.

`terminal_utils/Progressor.py` holds the same `Progressor` as
`terminal_utils/progressor.py`, method for method (its lines are those of
`progressor.py` less two). Both are modelled by the one class
`Progress.Progressor`. `ProgressorLogHandler` occurs in both
`terminal_utils/progressor.py` and `terminal_utils/log_handlers.py`, and is
modelled once as `LogHandlers.ProgressorLogHandler`.

Each of those two files also declares its own `ProgressStatus` class, with
the same fields (`terminal_utils/progressor.py:70-74`,
`terminal_utils/log_handlers.py:9-13`). `log_handlers.py` imports only
`Progressor`, so its `isinstance` tests see only its own class. The model
has one datatype `Progress.ProgressStatus` for both. A record's
`StatusMessage` means an instance of the class of the handler's own
module. A status object of the other module's class is an `OtherMessage`:
`ProgressorLogHandler` raises `ValueError` on it, and
`ColoredProgressorLogHandler` prints its formatted text as a coloured line.

Modules, one per component:

- `Results`: `Option`, `Result`, the raised exceptions, and the `Outcome` of a call that returns `None`.
- `Strings`: Python's `s * n`, `str(int)`, and the zero-padded format `f'{i:0{w}}'`, with a digit-string reference (`DecimalValue`) to check them against.
- `Ansi`: the escape wrapping shared by both colour files, and a parser (`Unwrap`) that is its inverse.
- `Colors`: `terminal_utils/colored_output.py`.
- `LegacyColors`: `ColoredOutput.py`.
- `Progress`: the geometry of the progress line as pure functions, the printed-line functions, and the class `Progressor`. The class has the real fields `fillCharacter` and `lastMessageLength`. It also has ghost traces `stdout` and `stderr`: each `print` call appends one string to one of them.
- `Progress` also holds a reference model of a terminal row, `Overstrike`: what a row shows after a carriage return and typed text, one character per column, on a row of unbounded width. The erase lemmas use it, and so hold for printable text on lines that fit the terminal only.
- `LogHandlers`: the record classifiers as pure functions, and the two handler classes whose `Emit` drives a `Progressor`.

Four behaviours of the code that a reader might expect otherwise:

- `print_progress` with `total == 0` raises `ZeroDivisionError` before anything is written. It does not fall back to an empty bar. `PrintProgress` returns `Raised(ZeroDivisionError)` and changes nothing.
- A negative `bar_length` is not clamped. For `0 <= iteration <= total`, `NarrowTerminalEmptyBar` shows the bar comes out empty all the same. Beyond that range it need not: iteration 2, total 1 and bar length -3 give the bar `"---"` (`OverrunNarrowBar`).
- For total 120, iteration 45 and no prefix, the header with an empty bar is `"[045/120] ||  37.5%"`, 19 characters. The percent field brings its own leading blank after `"| "`. So on 80 columns the bar is 61 wide, not 62, and 22 of it is filled (`ExampleHeader`, `ExampleBar`).
- The bar does not only grow. `bar_length` is recomputed from the header on every call, and the percent field widens from five to six characters when it rounds to `100.0`. So at a fixed terminal width the filled part can shrink as the iteration advances: on 123 columns with total 10000, iteration 9994 fills 99 of a 100-wide bar and iteration 9996 fills 98 of a 99-wide bar (`FixedWidthBarCanShrink`). While the percent field keeps its width, the bar keeps its length and its filled part never shrinks (`FixedWidthBarMonotone`).

## Model

| member | source | states |
|---|---|---|
| `Progress.Progressor.constructor` | terminal_utils/progressor.py:10-12 | the fill character is the one given, the last message length starts at 0, nothing has been written |
| `Progress.Progressor.PrintMessage` | terminal_utils/progressor.py:20-34 | `file`'s trace gains exactly `"\r" + message + " " * max(0, last - len(message)) + end`; the other stream gains nothing; the last length becomes `len(message)`; the fill character is unchanged |
| `Progress.RenderedLineErases` | terminal_utils/progressor.py:32 | between the carriage return and `end` a rendered line holds the message followed only by blanks, `max(last, len(message))` characters in all |
| `Progress.OverstrikeKeepsTail` | terminal_utils/progressor.py:32 | reference terminal row: typing text over a row after a carriage return shows the text and whatever of the row lies beyond it |
| `Progress.RenderedLine` | terminal_utils/progressor.py:32 | the text `print_message` writes; `RenderedLineErases` and `PrintShowsOnlyMessage` state what it holds and what it leaves on screen |
| `Progress.PrintShowsOnlyMessage` | terminal_utils/progressor.py:30-34 | for a message of printable characters on an unbounded row: if the row is blank from column `last` on, then the part of `RenderedLine(message, last, end)` between its carriage return and `end`, typed over the row, shows the new message followed only by blanks, and the row is blank from the new length on (the invariant the next call needs) |
| `Progress.UnpaddedLeavesLeftovers` | terminal_utils/progressor.py:32 | without the padding, a shorter message leaves the tail of the previous line on screen |
| `Progress.Progressor.PrintProgressMessage` | terminal_utils/progressor.py:36-45 | has the effect of `print_message(prefix + message, end="\r", file=stderr)` |
| `Progress.Progressor.Exit` | terminal_utils/progressor.py:17-18 | one empty progress message: stderr gains `"\r"`, blanks as long as the last line and `"\r"`; the last length becomes 0 |
| `Progress.Progressor.PrintProgress` | terminal_utils/progressor.py:47-67 | `total == 0` raises `ZeroDivisionError` and writes nothing; otherwise stderr gains the rendered `ProgressLine` for the current fill character and terminal width |
| `Progress.ProgressLineFitsTerminal` | terminal_utils/progressor.py:59-67 | when `0 <= iteration <= total`, `total > 0`, the header fits and the fill character is one character long, the progress line is exactly `columns` wide |
| `Progress.ProgressLineLayout` | terminal_utils/progressor.py:59-67 | under the same conditions the bar starts after the prefix, the bracketed counter, a blank and a vertical bar, and holds `filled_length` fill characters, `0 <= filled_length <= bar_length`, then dashes up to `bar_length` |
| `Progress.Counter` | terminal_utils/progressor.py:60 | the counter field; `CounterWidth`, `CounterLength` and `ExampleCounter` state its digits and width |
| `Progress.GenMsg` | terminal_utils/progressor.py:59-60 | `gen_msg(bar)`; `HeaderWidth` gives its width with an empty bar, `ProgressLineLayout` where the bar sits, `ExampleHeader` a worked value |
| `Progress.BarLength` | terminal_utils/progressor.py:62 | the width less the empty-bar header; `ProgressLineFitsTerminal`, `FixedWidthBarMonotone` and `FixedWidthBarCanShrink` state what follows from it |
| `Progress.FilledLength` | terminal_utils/progressor.py:64 | `int((iteration / total) * bar_length)` as a truncated quotient; `FilledLengthBounds`, `FilledLengthMonotone` and `NarrowTerminalEmptyBar` state its range and growth |
| `Progress.Bar` | terminal_utils/progressor.py:65 | the bar string; `BarContents` states its characters and width, `OverrunNarrowBar` a case past the total |
| `Progress.ProgressLine` | terminal_utils/progressor.py:67 | the message passed to `print_progress_message`; `ProgressLineFitsTerminal` and `ProgressLineLayout` state its width and layout |
| `Progress.CounterWidth` | terminal_utils/progressor.py:60 | for `0 <= iteration <= total` the counter is the iteration as exactly `len(str(total))` digits, leading zeros included and its value kept, then `"/" + str(total)` |
| `Progress.FilledLengthBounds` | terminal_utils/progressor.py:64 | for `total > 0`, `0 <= iteration <= total` and a bar length `>= 0`, the filled length lies in `[0, bar_length]`, is 0 at iteration 0 and `bar_length` at `total` |
| `Progress.FilledLengthMonotone` | terminal_utils/Progressor.py:62 | the filled length never decreases as the iteration grows, for fixed `total > 0` and bar length `>= 0` |
| `Progress.FixedWidthBarMonotone` | terminal_utils/progressor.py:57-64 | at a fixed width, for `0 <= i <= j <= total` whose percent fields have the same width and a bar that fits, both iterations get the same bar length and the filled length does not decrease |
| `Progress.FixedWidthBarCanShrink` | terminal_utils/progressor.py:57-64 | on 123 columns with total 10000 the filled length at iteration 9996 is smaller than at 9994, because the percent field widens to `100.0` and the bar loses a column |
| `Progress.ShrinkExampleBefore` | terminal_utils/progressor.py:57-64 | iteration 9994 of 10000 on 123 columns: bar length 100, 99 filled |
| `Progress.ShrinkExampleAfter` | terminal_utils/progressor.py:57-64 | iteration 9996 of 10000 on 123 columns: bar length 99, 98 filled |
| `Progress.CounterLength` | terminal_utils/progressor.py:60 | for `0 <= iteration <= total` the counter is `2 * len(str(total)) + 1` characters wide |
| `Progress.NarrowTerminalEmptyBar` | terminal_utils/progressor.py:62-65 | when the bar length is `<= 0` and `0 <= iteration <= total`, the bar has no fill characters and no dashes |
| `Progress.OverrunNarrowBar` | terminal_utils/progressor.py:62-65 | past the total the narrow-terminal bar need not be empty: iteration 2 of 1 on bar length -3 gives `"---"` |
| `Progress.BarContents` | terminal_utils/Progressor.py:63 | with a one-character fill and `0 <= filled <= bar_length`, the bar is `filled` fill characters then dashes, `bar_length` characters in all |
| `Progress.TruncDiv` | terminal_utils/progressor.py:64 | the floor quotient for a non-negative numerator and positive divisor; non-positive with `q * b >= a` for a non-positive numerator; `TruncDivTruncates` and `TruncDivUnique` pin it for all operands |
| `Progress.TruncDivTruncates` | terminal_utils/progressor.py:64 | `int()` of the exact quotient truncates toward zero: `abs(q * b) <= abs(a) < abs(q * b) + abs(b)`, and a non-zero quotient is negative exactly when the operands' signs differ |
| `Progress.TruncDivUnique` | terminal_utils/progressor.py:64 | those two properties single out the quotient: any `q` that has them equals the truncated quotient |
| `Progress.RoundHalfEven` | terminal_utils/progressor.py:57 | the rounded value is a nearest whole number to `n / d`, and an even one on a tie |
| `Progress.PercentText` | terminal_utils/progressor.py:57 | the percent field is at least five characters wide and ends with a point and one decimal digit |
| `Progress.PercentTextWidth` | terminal_utils/progressor.py:57 | for `0 <= iteration <= total` the percentage rounds into 0.0 to 100.0 and the field is exactly 5 characters wide, 6 for 100.0 |
| `Progress.ExampleCounter` | terminal_utils/progressor.py:60 | counter of iteration 45 of 120 is `"045/120"` |
| `Progress.ExamplePercent` | terminal_utils/progressor.py:57 | percent of 45 of 120 is `" 37.5"` |
| `Progress.ExampleHeader` | terminal_utils/progressor.py:59-60 | header of 45 of 120 with no prefix and an empty bar is the 19 characters of the counter in brackets, two bars and the percent field `" 37.5"` after a blank |
| `Progress.ExampleBar` | terminal_utils/Progressor.py:55-62 | on 80 columns the bar of 45 of 120 is 61 wide with 22 filled |
| `Progress.Overstrike` | terminal_utils/progressor.py:32 | the shown row is as long as the longer of the old row and the typed text |
| `Strings.Repeat` | terminal_utils/progressor.py:65 | `s * n` has `max(0, n) * len(s)` characters, all equal to `s` when `s` is one character |
| `Strings.NatToDecimal` | terminal_utils/progressor.py:60 | `str(n)` is a non-empty digit string that denotes `n` and starts with `0` only when it is `"0"` itself |
| `Strings.IntToDecimal` | terminal_utils/progressor.py:60 | `str(i)` is a digit string denoting `i` for `i >= 0`, and `-` followed by a digit string denoting `-i` for a negative `i`, one character longer than the numeral of `abs(i)` |
| `Strings.ZeroPadded` | terminal_utils/progressor.py:60 | `f'{i:0{w}}'` is `max(w, len(str(i)))` wide; for `i >= 0` it is all digits denoting `i`; for a negative `i` it is `-` followed by digits (zeros included) denoting `-i` |
| `Ansi.Wrap` | terminal_utils/colored_output.py:30 | the f-string shared with `ColoredOutput.py:30`; `WrapShape` states its layout and `UnwrapWrap` that `Unwrap` inverts it |
| `Ansi.WrapShape` | terminal_utils/colored_output.py:30 | a wrapped text starts with `ESC[`, then the code's numeral and `m`, holds the text, ends with `ESC[0m`, and is `len(text) + len(str(code)) + 7` long |
| `Ansi.UnwrapWrap` | terminal_utils/colored_output.py:30 | parsing a wrapped text gives back its code and the text unchanged, whatever the text contains |
| `Colors.MakeColorOutput` | terminal_utils/colored_output.py:29-30 | disabled: the message unchanged; enabled: a text that parses back to the colour's code and the message, `len(message) + len(str(code)) + 7` long |
| `Colors.NewColoredOutput` | terminal_utils/colored_output.py:26-27 | colour starts enabled |
| `Colors.MakeColorOutputShape` | terminal_utils/colored_output.py:30 | enabled output starts with `ESC[<code>m`, ends with `ESC[0m`, and has the message as its middle slice |
| `Colors.PrintColor.Value` | terminal_utils/colored_output.py:5-22 | the enum's codes; `ValuesDistinct` and `ValuesAreForegroundCodes` state them distinct foreground codes, `RedFail` uses RED's 31 |
| `Colors.ValuesDistinct` | terminal_utils/colored_output.py:5-22 | the 17 codes are pairwise distinct |
| `Colors.ValuesAreForegroundCodes` | terminal_utils/colored_output.py:5-22 | every code lies in 30-39 or 90-97 |
| `Colors.RedFail` | terminal_utils/colored_output.py:8-30 | RED with `"fail"` gives `"\x1b[31mfail\x1b[0m"` |
| `LegacyColors.GetColorWrapper` | ColoredOutput.py:28-30 | the wrapper maps every string to its escape-wrapped form for the given code |
| `LegacyColors.GetColorWrapperInverse` | ColoredOutput.py:29-30 | a wrapper's output parses back to its code and the original string |
| `LegacyColors.ColoredOutput.PrintYellow` | ColoredOutput.py:19-20 | with colour disabled the message is returned unchanged |
| `LegacyColors.ColoredOutput.PrintGreen` | ColoredOutput.py:22-23 | with colour disabled the message is returned unchanged |
| `LegacyColors.ColoredOutput.PrintRed` | ColoredOutput.py:25-26 | with colour disabled the message is returned unchanged |
| `LegacyColors.NewColoredOutput` | ColoredOutput.py:12-17 | colour starts enabled; the three wrappers are those of codes 33, 32 and 91 |
| `LegacyColors.ConstructedInstanceUsesTableCodes` | ColoredOutput.py:5-26 | whatever `enabled` is set to later, each method of a constructed instance depends only on the message and the flag: the message wrapped with code 33, 32 or 91 when enabled, and unchanged otherwise |
| `LegacyColors.PrintColor.Value` | ColoredOutput.py:5-8 | GREEN 32, YELLOW 33, RED 91; `ConstructedInstanceUsesTableCodes` and `RedIsNewerLightRed` state what follows from them |
| `LegacyColors.RedIsNewerLightRed` | ColoredOutput.py:8 | this file's RED (91) is the newer table's LIGHT_RED, not its RED (31) |
| `LogHandlers.ProgressStatusOf` | terminal_utils/log_handlers.py:22-24 | a record is accepted exactly when its message is a progress status of the handler's own module, which is passed on unchanged; otherwise the `ValueError` |
| `LogHandlers.ProgressorLogHandler.constructor` | terminal_utils/log_handlers.py:18-20 | the handler drives the progressor it is given |
| `LogHandlers.ProgressorLogHandler.Emit` | terminal_utils/progressor.py:83-91 | a non-progress record raises `ValueError` and writes nothing; otherwise the progressor does exactly what `print_progress` does with the status's iteration, total and prefix |
| `LogHandlers.LevelColor` | terminal_utils/log_handlers.py:46-63 | the level-to-colour branches of `emit`; `LevelColorTable` states the whole table |
| `LogHandlers.ColouredLineWrapsNextBar` | terminal_utils/log_handlers.py:54-57 | a green 75-character line is 84 characters once wrapped, and the next 80-character progress line is rendered 86 long, 84 columns between its carriage returns |
| `LogHandlers.LevelColorTable` | terminal_utils/log_handlers.py:46-63 | CRITICAL and ERROR map to RED, WARNING to YELLOW, INFO to GREEN, DEBUG to WHITE, and exactly those five levels have a colour |
| `LogHandlers.ColoredAction` | terminal_utils/log_handlers.py:39-63 | a progress record goes to the bar uncoloured, whatever its level; another record is printed in its level's colour; an unknown level is a `ValueError` |
| `LogHandlers.ColoredActionRefuses` | terminal_utils/log_handlers.py:62-63 | a record is refused exactly when it is a plain message whose level is not one of the five |
| `LogHandlers.ColoredProgressorLogHandler.constructor` | terminal_utils/log_handlers.py:35-37 | the handler drives the given progressor, with colour enabled |
| `LogHandlers.ColoredProgressorLogHandler.Emit` | terminal_utils/log_handlers.py:39-63 | a progress record has exactly the effect of `print_progress`; a plain message is printed coloured through `print_message` with `"\n"` to stdout, which also updates the last message length; an unknown level raises and writes nothing; the colour flag is unchanged |

## Left out

- Real output: `print`, `sys.stdout` and `sys.stderr` become ghost traces with one string per `print` call; interleaving of the two streams on one terminal is not modelled.
- `shutil.get_terminal_size`: the width is a parameter `columns` of each call, so it is fresh every time; the library's non-terminal fallback is not part of this model.
- PercentText: computes `100 * (iteration / float(total))` on exact rationals, rounded half to even to one decimal; binary floating point can round a tie differently, prints `-0.0` for tiny negative values, and loses precision for huge integers. Its contract states the field's width and its final `.d`, not every character; the exact text is shown for the worked example.
- PrintShowsOnlyMessage: holds for printable messages only. A coloured line counts its escape characters (`len(code) + 7` of them) in `_last_message_length` although they take no column. So a coloured line after a longer one leaves up to that many columns of the old line on screen: a coloured `WARNING` line `"hello"` (14 characters) after an 80-character progress line gets 66 blanks and covers 71 columns. Wide and combining characters also break the one-column-per-character row model. The row model also has no width, and the padding at `terminal_utils/progressor.py:32` ignores `columns`: a line wider than the terminal wraps, and `"\r"` goes back only to the start of its last physical row. So a progress line made 100 wide by a long prefix on 80 columns leaves its first 80 characters on the row above when the next, shorter line overwrites only the second row. The padding can also make a line wrap by itself: a green INFO line of 75 visible characters sets the last length to 84, the next 80-character progress line gets 4 blanks and writes 84 columns, so it wraps, every later bar is drawn a row lower and a stale bar stays above (`ColouredLineWrapsNextBar`). A plain log line longer than the terminal does the same. The lemma holds only while the old line and the padded new line fit within `columns`.
- PrintProgress: an iteration or total too large for a float makes `iteration / float(total)` raise `OverflowError` (`terminal_utils/progressor.py:57`), and near that limit `int()` of an infinite product raises at line 64. Well inside float range a filled length or dash count beyond `sys.maxsize` makes the string repetitions at line 65 raise `OverflowError` (iteration `10**19` of 1 on 80 columns asks for about `2.6e20` fill characters), and a smaller but still huge one raises `MemoryError`. The model computes on exact rationals with unbounded strings and writes an ordinary line in all these cases.
- FilledLength: `int((iteration / total) * bar_length)` is taken as the exact rational product truncated toward zero; floating-point rounding can differ by one just below a whole number. The boundary and monotonicity lemmas hold for both.
- The `None` defaults of `end`, `file` and `ProgressStatus.prefix`: `end` and `file` are always given explicitly, and a `None` prefix (which the f-string prints as `"None"`) is not modelled; the prefix is a string.
- The default `fill_character`: it is shown mis-decoded in the source text, so the constructor always takes the fill character as an argument.
- `__enter__` (returns the instance) and the `with` statement's guarantee that `__exit__` runs on every exit path are Python semantics: a caller of the model calls `Exit` itself; the exception arguments of `__exit__` are ignored and it never suppresses an exception.
- The logging framework: the `Handler` base class, `handler_options`, level filtering and `self.format(record)`; the formatted text is part of the record and the level numbers are the standard 50/40/30/20/10.
- Exceptions are modelled as an `Outcome`; only the exceptions the modelled code raises itself (`ValueError`, `ZeroDivisionError`) appear.
- `setup.py` is packaging metadata; there is no concurrency in the library.
