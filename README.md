# ruterm terminal control, modelled in Dafny

ruterm is a small Rust library for driving a text terminal. This project models
the three parts of it that hold logic and proves what they do:

- **Cursor control** (`src/cursor.rs`, module `Cursor` in `cursor.dfy`). These
  are the ECMA-48 control sequences the library writes:
  - CUP (`set`);
  - CUU, CUD, CUF and CUB (`move_`);
  - ED 2 (`start`);
  - DEC private mode 25 reset and set (`hide`, `show`);
  - the DSR 6 query of `get`, and `get`'s parse of the cursor position
    report (CPR) the terminal sends back.

  The escape sequences are byte strings. A reader for control sequences
  (`ReadControl`) is the independent reference they are proved against. The
  parse of `get` is modelled as written: it slices the reply from index 3,
  splits on `;`, parses every field with `parse::<u16>().unwrap()`, and
  indexes fields 0 and 1. Panics become the `Panic` error value.
- **Line rendering** (`src/render.rs`, module `Render` in `render.dfy`).
  - `render_to` writes each line of `text.lines()` to its output `to`, then
    moves the cursor one row down and back left by `line.len() as u16` on
    standard output. That cast is modelled as the length modulo 65536, which
    is exact for every length.
  - `render` is `render_to` with standard output as `to`.
  - The method keeps the loop. Its contract ties the sinks' final state to a
    specification of the write sequence, `Emission`, and of how far the
    writes get before the first failure, `Run` and `Accepted`. This covers
    both separate sinks and the case where `to` is standard output itself.
- **Raw mode** (`src/raw.rs`, module `Raw` in `raw.dfy`).
  - A `Termios` object holds two in-memory copies of standard input's
    termios settings, `original` and `raw`, and the terminal `device`.
  - `raw()` edits the `raw` copy in place (flag words masked, two control
    character slots stored) and installs it with `tcsetattr(…, TCSAFLUSH, …)`.
  - `original()` installs the `original` copy.
  - Flag values and the structure layout are Linux's.

Supporting modules:
- `errors.dfy`: the library's error string and the `Result` type.
- `text.dfy`: decimal formatting, `str::parse::<u16>`, `str::split` on one
  byte, and `str::lines`, all on bytes.
- `io.dfy`: `io::write_to` / `io::write` on an output sink.

Whether a write, a settings read or a settings install fails is decided
outside the program. The model takes it as part of the device's state: a
count of further calls that succeed (`Sink.budget`, `Terminal.getsLeft`,
`Terminal.setsLeft`).

What the code does, where a reader might expect otherwise:
- `raw()` leaves ISIG as it was: ISIG is imported but not in the mask, and a
  comment says it is off for testing. It does not force 8-bit characters.
- The raw copy is made raw inside `raw()`, not when the object is created.
- `get` parses every `;`-separated field, so a third field is accepted only
  if it is a number. It does not require exactly two fields.
- `get` returns `(row, column)` in reply order. `set(x, y)` takes the
  column first and writes the row first.
- `render_to` has no token stream. Its left shift is the raw byte length of
  the line, escape bytes included, not a visible width.
- No destructor restores the terminal. `RawSession` shows what the
  documented usage leaves behind on each failure.

## Model

| member | source | states |
|---|---|---|
| Text.ParseU16 | src/cursor.rs:41 | `parse::<u16>` refuses empty text and a lone `+`, and accepts only digits after an optional leading `+`; its value is exact (see Text.DecimalParses) |
| Text.Decimal | src/cursor.rs:59 | `format!("{}", n)` yields digits without a leading zero whose value is `n` |
| Text.Split | src/cursor.rs:40 | `split(';')` yields at least one field, no field holds `;`, and joining the fields with `;` gives the input back |
| Text.SplitJoin | src/cursor.rs:40 | splitting undoes joining for fields without the separator |
| Text.DecimalParses | src/cursor.rs:41 | `parse::<u16>` of a formatted number gives it back exactly when it is below 65536, with or without a leading `+`, and refuses anything larger |
| Text.ValueDropFirst | src/cursor.rs:39 | dropping the first digit of a number leaves its value modulo the next lower power of ten |
| Text.Lines | src/render.rs:17 | `lines()` yields pieces without line feeds, and none at all exactly for empty text |
| Text.LinesCrLf | src/render.rs:17 | a carriage return directly before a line feed ends the line with it: `lines()` of `l` CR LF `r` is `l` followed by the lines of `r` |
| Text.LinesFinalLineFeed | src/render.rs:17 | a final line feed opens no empty line: text not ending in one has the same lines with one appended, except that a carriage return at its very end is then taken off the last line |
| Text.NoFinalLineFeed | src/render.rs:17 | text that ends in neither a line feed nor a carriage return has the same lines with a line feed appended |
| Text.LinesUnlines | src/render.rs:17 | `lines()` recovers the lines of line-feed-terminated text when no line holds a line feed or ends in a carriage return |
| Io.WriteTo | src/io.rs:22-25 | a write appends the whole content and returns its length, or changes nothing and returns "failed to write" once the output refuses |
| Cursor.Letter | src/cursor.rs:71-83 | `Direction::to_string` gives a letter that reads back as the same direction |
| Cursor.LetterInverse | src/cursor.rs:71-83 | Left, Down, Up and Right map to D, B, A and C; the map has an inverse, so no two directions share a letter |
| Cursor.FixedSequencesRead | src/cursor.rs:104-119 | the query, `start`, `hide` and `show` bytes read as DSR 6, ED 2, and private-mode 25 reset and set |
| Cursor.SetSequence | src/cursor.rs:59 | the bytes of `set` start with CSI, end in `H` and are at least six long; what they read as is Cursor.SetSequenceReads |
| Cursor.MoveSequence | src/cursor.rs:100 | the bytes of `move_` start with CSI, are at least four long and end in a letter that reads back as the direction; what they read as is Cursor.MoveSequenceReads |
| Cursor.SetSequenceReads | src/cursor.rs:57-60 | `set(x, y)` writes one CUP whose parameters are `y` then `x` |
| Cursor.MoveSequenceReads | src/cursor.rs:98-101 | `move_(d, n)` writes one sequence with parameter `n` and the direction's letter as final byte |
| Cursor.ReadFormat | src/cursor.rs:59-60 | reading a formatted control sequence gives back its marker, all its parameters and its final byte |
| Cursor.ReportReads | src/cursor.rs:39-43 | a cursor position report names the row first, then the column |
| Cursor.ParseAll | src/cursor.rs:41-42 | the collected parse succeeds exactly when every field parses, and then holds each field's value in order |
| Cursor.Pick | src/cursor.rs:43 | a reply is refused by `unwrap` when any field fails to parse and by indexing when fewer than two fields parse; otherwise fields 0 and 1 are returned |
| Cursor.Coordinates | src/cursor.rs:39-43 | the parse of `get` from a given slice start fails only by panicking (a slice off a character boundary, `unwrap` on a bad field, or `position[1]` past the end) |
| Cursor.Decode | src/cursor.rs:17-22 | a reply shorter than 6 bytes is refused with "invalid terminal response" and only then; every other failure is a panic |
| Cursor.Response | src/cursor.rs:10-23 | writes exactly the DSR 6 query, then fails on the write, on the read, or on a reply shorter than 6 bytes, in that order, and otherwise returns the reply |
| Cursor.Get | src/cursor.rs:36-44 | writes the query, reports the write and read errors, and otherwise returns the parse of the reply from index 3 |
| Cursor.Set | src/cursor.rs:57-60 | one write of `ESC [ y ; x H` |
| Cursor.Move | src/cursor.rs:98-101 | one write of `ESC [ n` followed by the direction's letter |
| Cursor.Start | src/cursor.rs:104-107 | one write of `ESC [ 2 J` |
| Cursor.Hide | src/cursor.rs:110-113 | one write of `ESC [ ? 2 5 l` |
| Cursor.Show | src/cursor.rs:116-119 | one write of `ESC [ ? 2 5 h` |
| Cursor.CoordinatesOfJoin | src/cursor.rs:39-42 | when the slice starts right after the head, the reply is parsed field by field |
| Cursor.GetKeepsReplyOrder | src/cursor.rs:39-43 | with a 3-byte head and two or more numeric fields, `get` returns fields 0 and 1 in reply order and ignores the rest |
| Cursor.GetPanicsOnBadField | src/cursor.rs:41 | a field anywhere in the reply that is not a 16-bit number makes `get` panic in `unwrap` |
| Cursor.GetPanicsOnOneField | src/cursor.rs:43 | a reply with one numeric field makes `get` panic on `position[1]` |
| Cursor.GetOnShortRow | src/cursor.rs:39 | for a one-digit row the slice starts at `;`, so `get` panics on the empty first field |
| Cursor.GetDropsLeadingRowDigit | src/cursor.rs:39-43 | for a row of two or more digits `get` returns the row without its first digit, and the column intact |
| Cursor.GetOnLongRow | src/cursor.rs:39-43 | for every report with row at least 10, `get` returns the row modulo the next lower power of ten, and the column |
| Cursor.GetExample | src/cursor.rs:39-43 | the reply `ESC [ 1 2 ; 3 4 R` gives (2, 34) |
| Cursor.DecodeCorrected | src/cursor.rs:17-22 | the corrected parse keeps the length check: "invalid terminal response" exactly for replies shorter than 6 bytes |
| Cursor.DecodeCorrectedDigits | src/cursor.rs:39 | a parse that slices from index 2 returns both numeric fields of a reply exactly |
| Cursor.DecodeCorrectedReport | src/cursor.rs:39 | a parse that slices from index 2 returns (row, column) for every report |
| Render.Shift | src/render.rs:20 | `line.len() as u16` is at most the length, and equals it for every line shorter than 65536 bytes |
| Render.LeftBy | src/render.rs:20 | the move back is one CSI sequence ending in `D` (CUB), at least four bytes long; what it reads as is Render.MovesRead |
| Render.Emission | src/render.rs:17-21 | the loop makes three writes per line |
| Render.RunDelivers | src/render.rs:18-20 | the writes that complete are exactly the first `Accepted` ones; each sink holds its own share of them in order and has spent one unit per write |
| Render.RenderTo | src/render.rs:15-23 | `render_to` succeeds exactly when all writes complete, so empty text writes nothing and succeeds; otherwise it returns the first write error, and both sinks hold exactly the writes before it |
| Render.RenderLine | src/render.rs:18-20 | one pass of the loop: when all three writes complete, the run of the remaining writes continues from the new state three writes on; otherwise it returns "failed to write" and the run ends in the state the sinks are left in, after fewer than three writes |
| Render.Render | src/render.rs:25-28 | on standard output alone, `render` writes the first `min(3·lines, budget)` writes of the emission, and fails exactly when that is short of all of them |
| Render.SharedAccepted | src/render.rs:27 | on one shared sink the writes stop exactly when its budget runs out |
| Render.AcceptedThree | src/render.rs:18-20 | one line's three writes stop at the text when `to` refuses, and at the first or second move when standard output refuses |
| Render.LinesCompleted | src/render.rs:17-21 | on separate sinks the lines fully written number the minimum of the line count, `to`'s budget, and half of standard output's budget |
| Render.TargetReceivesLines | src/render.rs:18 | `to` receives one write per line and, concatenated, exactly the lines in order |
| Render.StdoutReceivesMoves | src/render.rs:19-20 | standard output receives exactly two writes per line: down by one, then left by the line's shift |
| Render.MovesRead | src/render.rs:19-20 | those writes read as CUD 1 and as CUB with the line's byte length modulo 65536 |
| Raw.MakeRaw | src/raw.rs:63-68 | ECHO, ICANON and IEXTEN are cleared in the local flags, IXON and ICRNL in the input flags, and OPOST in the output flags; every other bit is unchanged; VTIME becomes 1 and VMIN 0; the other control characters and fields are unchanged |
| Raw.MakeRawKeepsSignals | src/raw.rs:63-64 | ISIG keeps its value |
| Raw.RawFixedPoints | src/raw.rs:64-68 | the result is raw, and raw settings are exactly those the edit leaves unchanged |
| Raw.MakeRawIdempotent | src/raw.rs:64-68 | a second `raw()` edit of the stored copy changes nothing |
| Raw.TermiosStruct.SwitchToRaw | src/raw.rs:64-68 | the in-place masking and array stores turn the copy into `MakeRaw` of what it held |
| Raw.GetAttributes | src/raw.rs:20-24 | yields a fresh copy of the settings in force, or "failed to get termios from stdin" exactly when the read fails |
| Raw.SetAttributes | src/raw.rs:69 | on success the settings are in force and unread input is discarded (TCSAFLUSH); on failure the reported error is returned and the terminal is unchanged |
| Raw.Termios.New | src/raw.rs:53-59 | both copies equal the settings in force, in separate structures; the call fails exactly when either of the two reads fails |
| Raw.Termios.Raw | src/raw.rs:61-71 | the raw copy becomes `MakeRaw` of itself even when installing fails; the original copy is untouched; the outcome of installing it is reported with "failed to set raw termios settings" |
| Raw.Termios.Original | src/raw.rs:73-77 | installs the original copy; a failure is reported with "failed to restore original termios settings" |
| Raw.RawSession | src/raw.rs:33-40 | capture, raw, restore: when every call succeeds the terminal is raw in between and ends with the settings it had; a failed raw switch leaves it unchanged; a failed restore leaves it raw |
| Raw.CaptureAndRestore | src/raw.rs:73-77 | `original()` without `raw()` leaves the settings as they were |

## Findings

| source | as written | input that shows it | evidently intended | confidence | as-written member | corrected member |
|---|---|---|---|---|---|---|
| src/cursor.rs:39 | the reply is sliced from index 3, but CSI occupies only indices 0 and 1, so the first digit of the row is skipped | the reply `ESC [ 1 2 ; 3 4 R` gives (2, 34); a one-digit row such as `ESC [ 5 ; 7 R` panics on the empty first field | slice from index 2, so that both numbers of the reply come back whole, in the order the code returns them (12 and 34; 5 and 7) | not executed | Cursor.GetOnLongRow, Cursor.GetOnShortRow, Cursor.GetExample | Cursor.DecodeCorrectedReport |

`Cursor.Get` keeps the slice from index 3, as the code does. `Cursor.DecodeCorrected` is the corrected parse, and `Cursor.DecodeCorrectedReport` proves it returns every report exactly.

## Left out

- Partial writes: `Write::write` may accept a prefix of its buffer. The model's sinks take each write whole or refuse it, and `Ok` carries the full length.
- Cursor.Response: standard output is line-buffered, and the query holds no line feed and is not flushed before `read_line`. The model treats a completed write as sent, and the reply is an input not tied to the query.
- Reading: `read_line` blocks on standard input under whatever timeout the terminal has. The reply is a given input (`None` when reading fails). The model does not say how the raw-mode timeout shapes what is read.
- `Cursor.Get` and `Cursor.Response`: a reply that is not valid UTF-8 makes `read_line` fail. The model accepts any bytes, and checks character boundaries only at the two slice ends.
- Unicode: `IsCharBoundary` checks UTF-8 continuation bytes. No other Unicode property is modelled.
- Flushing, `read_from`/`read` and `flush_to`/`flush` of src/io.rs: none of the modelled operations calls them.
- Terminal size (src/size.rs), styles (src/style.rs, src/view.rs), module wiring (src/lib.rs) and the example programs: not part of this model.
- The `in_raw!` macro and any destructor-based restore: src/raw.rs has none, and the macro is not part of this model.
- The terminal's own reaction to settings (echo, line discipline, timing of VMIN/VTIME reads) is not modelled. The terminal is the settings in force plus its unread input.
- Raw.RawSession: the documented usage calls `unwrap()`. The model returns the error instead of panicking.
- macOS and other platforms: flag values and the `termios` layout are Linux's. Errors in src/raw.rs use a different error type from src/error.rs, and the model gives them the same `Failure` shape with the source's messages.
