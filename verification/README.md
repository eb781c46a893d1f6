# Caption-file parser and timestamp converter

This project models the text-processing core of a speech-to-text transcript
viewer. The viewer reads a WebVTT-like caption file and turns it into
`(text, start, end)` entries. Later it converts an entry's start stamp into a
playback offset in whole seconds.

- `parse_vtt` exists in two copies. `parser.py` takes an `audio_path` argument
  that it never uses; `src/parser.py` takes only the path. Both read the lines
  of the file. A line whose stripped form *starts with* the cue-header pattern
  `(\d{2}:\d{2}\.\d{3})\s*-->\s*(\d{2}:\d{2}\.\d{3})` opens a cue. The cue's body
  is the run of following lines that are neither blank nor headers once
  stripped. The stripped body lines are joined with single spaces, and the
  entry is kept only when that text is not empty. Every other line is skipped.
- `timestamp_to_seconds` splits `MM:SS.mmm` at the colon and then at the dot.
  It returns `int(m) * 60 + int(s) + int(ms) // 1000`, and raises when a split
  does not give exactly two pieces or a field is not an integer literal.

The Dafny modules follow that structure:

- `Text`: the string primitives. These are Python's whitespace set,
  trimming by a set of characters, `str.strip()`, `sep.join` and `str.split`.
- `Results`: optional values, and reading a sequence of them as the list of
  values present.
- `CueHeader`: the header pattern, stepped through character by character the
  way `re.match` applies it. `MatchIff` proves this equal to the pattern's
  declarative reading.
- `SrcParser`: the one-argument `parse_vtt`. It is a recursive scan over the
  classified lines (`Scan`). A second, independent reading (`Contributions`)
  says what each line contributes. The lemmas connect the two readings and
  derive the ordering, membership, body and text properties.
- `Parser`: the two-argument `parse_vtt`, written as the two nested `while`
  loops of the source. Its contract proves it equal to `SrcParser.ParseVtt` for
  every input and every `audioPath`.
- `Utils`: `timestamp_to_seconds`, with CPython's `int()` for base-10 literals.
  `int()` skips fewer characters than `str.strip()`: the separators U+001C to
  U+001F are not skipped. It converts at most 4300 digits, CPython's default
  bound. A raised `ValueError` becomes an `Err` value that names the failing
  step.
- `Examples`: small caption files with their stamps and texts left as
  parameters, and the entries they give.

The file is given as the list of lines `readlines()` returns. Each line keeps
its line terminator, which stripping removes.

## Model

| member | source | states |
|---|---|---|
| CueHeader.Match | src/parser.py:6 | A reported match has two groups, each of the shape two digits, colon, two digits, dot, three digits |
| CueHeader.MatchIff | parser.py:6 | The matcher reports groups `(a, b)` exactly when the line is `a`, any run of whitespace, `-->`, any run of whitespace and `b`, followed by anything at all |
| CueHeader.MatchAnchoredAtStart | parser.py:13 | Matching is anchored at the start only: text after a matched header changes neither the outcome nor the captures |
| Text.Strip | src/parser.py:13 | A stripped line has no whitespace at either end |
| Text.StripUnique | src/parser.py:13 | Stripping whitespace + core + whitespace, where the core has no whitespace at its edges, gives exactly the core |
| Text.TrimUnique | utils.py:4 | Trimming a set of characters from core + edges, where the edges are all in the set and the core has none at its ends, gives exactly the core |
| Text.StripParts | src/parser.py:19 | The stripped line is a slice of the line, with only whitespace cut away on either side |
| Text.JoinEmptyIff | parser.py:25-26 | Joining non-empty lines gives the empty string exactly when there are no lines |
| Text.SplitCount | utils.py:2 | `split(sep)` gives one more piece than there are separators |
| Text.JoinSplit | utils.py:2 | Joining the pieces of a split with the separator gives back the original string |
| SrcParser.ClassifyMeaning | parser.py:13-21 | A line counts as a header with groups `(a, b)` exactly when its stripped form starts with such a header. It counts as body text exactly when its stripped form is non-empty and starts with no header |
| SrcParser.BodyEnd | parser.py:18-22 | The body loop stops at the end of the file, at a blank line or at a header line |
| SrcParser.BodyEndRun | parser.py:18-24 | Every line the body loop passes over is a body line |
| SrcParser.HeaderCountSkipsBody | src/parser.py:18 | A body never holds a header line |
| SrcParser.BodyText | parser.py:25-26 | A cue's text is empty exactly when its body is, and it never has whitespace at either end |
| SrcParser.BodyTextIsJoin | parser.py:25 | The text is `" ".join(text_lines)` of the collected stripped lines |
| SrcParser.CueAt | parser.py:14-27 | A line yields an entry exactly when it is a header followed by at least one body line. The entry is well formed and carries that header's two groups |
| SrcParser.Scan | src/parser.py:11-25 | From any index, the scan gives no more entries than there are header lines, and every entry is well formed |
| SrcParser.ParseVtt | src/parser.py:4-27 | `parse_vtt` gives at most one entry per header line, and each entry has non-empty text without edge whitespace and two `MM:SS.mmm` stamps |
| SrcParser.ScanIsPerLine | src/parser.py:11-25 | The scan equals the per-line reading: skipping a body loses no entry, because a body holds no header line and a header right after a body starts its own cue |
| SrcParser.ParseInFileOrder | src/parser.py:11-27 | The k-th entry is the one yielded by the k-th header line that yields one, and those lines strictly increase: entries come in file order |
| SrcParser.ParseMembership | parser.py:11-29 | An entry is in the result exactly when some line yields it |
| SrcParser.CueFromHeaderLine | parser.py:13-15 | Every entry comes from a line whose stripped form starts with the header pattern, and its start and end are the pattern's two groups |
| SrcParser.BodyFromLines | parser.py:16-24 | A body is the maximal run of lines after the header that are non-blank and not headers once stripped; it ends at the end of the file, a blank line or a header |
| SrcParser.TextFromLines | parser.py:18-25 | An entry's text is the body lines, each stripped, joined with single spaces |
| SrcParser.ParseIgnoresHeaderlessPrefix | parser.py:28-29 | Lines in front of the file that do not start with a header, such as `WEBVTT`, leave the result unchanged |
| SrcParser.ParseConcat | src/parser.py:11-25 | The part of a file up to and including a blank line is parsed independently of the rest: the two results are concatenated |
| Parser.CollectBody | parser.py:16-24 | The inner loop stops where the body ends and returns the stripped body lines in order |
| Parser.ParseVtt | parser.py:4-31 | The two-argument `parse_vtt` returns what the one-argument one returns, for every list of lines and every `audio_path` |
| Utils.ColonCountError | utils.py:2 | The conversion fails at the first unpacking exactly when the string does not hold exactly one colon, and then reports one piece more than there are colons |
| Utils.TimestampFields | utils.py:3 | For `m:s` with a single colon, the second unpacking fails exactly when `s` does not hold exactly one dot |
| Utils.TimestampValue | utils.py:2-4 | For `m:s.ms`, the conversion succeeds exactly when `int()` accepts all three fields. The value is then `int(m) * 60 + int(s) + int(ms) // 1000`, and otherwise the first field `int()` rejects is the error reported |
| Utils.TimestampOfDigits | utils.py:2-4 | Fields of at most 4300 ASCII digits convert to the numbers they spell: minutes * 60 + seconds + milliseconds // 1000 |
| Utils.TimestampOfGroup | utils.py:2-4 | A captured `MM:SS.mmm` group converts without error to minutes * 60 + seconds, which lies between 0 and 99 * 60 + 99 |
| Utils.Format | parser.py:6 | Two-digit minutes and seconds and three-digit milliseconds, written out, have the shape of a captured group |
| Utils.FormatCovers | parser.py:6 | Every captured group is the written-out form of the numbers its digits spell |
| Utils.FormatRoundTrip | utils.py:4 | A written-out timestamp converts back to its minutes * 60 + seconds; the milliseconds are lost to the floor division |
| Utils.ExampleHalfSecondDropped | utils.py:4 | `"01:02.500"` converts to 62 |
| Utils.ParsedStampsConvert | utils.py:1-4 | Every start and end stamp that `parse_vtt` captures converts without error |
| Utils.IntOfShow | utils.py:4 | `int(str(n)) == n` for every integer `n` of at most 4300 digits |
| Utils.IntIgnoresSpaces | utils.py:4 | `int()` skips, around the literal, ASCII tab to carriage return, space and every non-ASCII whitespace character |
| Utils.SeparatorRejected | utils.py:4 | A string starting with one of U+001C to U+001F is rejected by `int()`, although `str.isspace()` counts that character as whitespace |
| Utils.IntOfDigits | utils.py:4 | `int()` of a non-empty run of at most 4300 ASCII digits, leading zeros included, is the number they spell |
| Utils.TooManyDigits | utils.py:4 | `int()` rejects a run of more than 4300 digits |
| Utils.SeparatorBeforeMinutes | utils.py:2-4 | A timestamp whose minutes field starts with one of U+001C to U+001F fails at `int(m)` |
| Utils.LongMinutesRejected | utils.py:2-4 | A timestamp whose minutes field has more than 4300 digits fails at `int(m)` |
| Examples.OneLineCue | parser.py:11-31 | A header, one text line and a blank line give the single entry of that text and those stamps |
| Examples.TwoLineCue | parser.py:18-27 | Two text lines under one header are joined with one space |
| Examples.TwoCues | src/parser.py:4-27 | A one-line cue, a blank line and a two-line cue give the two entries in file order |
| Examples.EmptyBody | parser.py:25-27 | A header directly followed by a blank line gives no entry |
| Examples.AdjacentHeaders | parser.py:18-21 | A header right after a body line, with no blank line between, ends that body and opens a cue of its own. A body may run to the end of the file |
| Examples.WebvttPreamble | parser.py:28-29 | A leading `WEBVTT` line and a blank line do not change the result |

## Left out

- Segment line ranges and in-place editing of cue text: `parse_vtt` returns only `(text, start, end)` (parser.py:5, src/parser.py:5), and the code has no edit function.
- Opening the file, UTF-8 decoding and universal-newline translation (parser.py:8-9). The model takes the list of lines `readlines()` would return.
- Unicode decimal digits. Python's `\d` and `int()` also accept non-ASCII digits, but the model accepts ASCII `0`–`9` only. Whitespace is Python's full `str.isspace()` set, so `strip()` and `\s` are exact.
- `int()` beyond base-10 literals: the model reads surrounding whitespace, one optional sign and digit groups separated by single underscores.
- Utils.MaxStrDigits: the 4300-digit bound is CPython's default since 3.10.7. A program can change it (`sys.set_int_max_str_digits`, `PYTHONINTMAXSTRDIGITS`), and 3.10.0 to 3.10.6 have no bound; the model fixes the default.
- Utils.IntOfShow: requires `n` to have at most 4300 digits, because beyond the bound `str(n)` itself raises in CPython, and that conversion is not modelled.
- The text of the `ValueError` message is not modelled; the `Err` value names the failing step and field instead.
- Utils.TimestampToSeconds: carries no contract of its own. Its behaviour is stated by the lemmas `ColonCountError`, `TimestampFields`, `TimestampValue`, `TimestampOfDigits` and `TimestampOfGroup`.
- Examples.TwoCues: the stamps and texts are parameters. The instance with `00:00.000`, `00:02.500`, `00:05.000`, `Hello world`, `Second line` and `continued` is one choice of those parameters and is not stated separately.
- The user-interface modules (`main.py`, `app_gui.py`, `app.py`, `test_picker.py`), the Whisper wrapper (`transcribe.py`) and the environment setup (`ffmpeg_setup.py`, `src/Transcriber.py`). They are glue around a GUI toolkit and third-party code, with no parsing logic of their own.
