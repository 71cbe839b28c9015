/** src/cursor.rs: the ECMA-48 control sequences the library writes to move,
    hide and show the cursor, and `get`, which asks the terminal for the
    cursor position (DSR, section 8.3.35 of ECMA-48) and parses the cursor
    position report (CPR, section 8.3.14) it sends back. */
module Cursor {
  import opened Errors
  import opened Text
  import opened Io

  const MIN_RESPONSE_LEN := 6
  const READ_FAILED := "failed to read terminal response"
  const INVALID_RESPONSE := "invalid terminal response"
  const UNWRAP_PANIC := "called `Result::unwrap()` on an `Err` value"
  const INDEX_PANIC := "index out of bounds"
  const BOUNDARY_PANIC := "byte index is not a char boundary"

  /** Control Sequence Introducer, ESC '['. */
  const CSI: Bytes := [ESC, LEFT_BRACKET]

  /** DSR 6: "report the active position". */
  const QUERY: Bytes := CSI + ['6' as int, 'n' as int]
  /** ED 2: erase the whole page. */
  const START: Bytes := CSI + ['2' as int, 'J' as int]
  /** DEC private mode 25 (text cursor) reset and set. */
  const HIDE: Bytes := CSI + [QUESTION_MARK, '2' as int, '5' as int, 'l' as int]
  const SHOW: Bytes := CSI + [QUESTION_MARK, '2' as int, '5' as int, 'h' as int]

  const FINAL_CUP: Byte := 'H' as int
  const FINAL_CPR: Byte := 'R' as int

  datatype Direction = Left | Down | Up | Right

  /** `Direction::to_string`: the final byte of CUB, CUD, CUU and CUF. */
  function Letter(d: Direction): (b: Byte)
    ensures DirectionOf(b) == Some(d)
  {
    match d
    case Left => 'D' as int
    case Down => 'B' as int
    case Up => 'A' as int
    case Right => 'C' as int
  }

  function DirectionOf(b: Byte): Option<Direction> {
    if b == 'D' as int then Some(Left)
    else if b == 'B' as int then Some(Down)
    else if b == 'A' as int then Some(Up)
    else if b == 'C' as int then Some(Right)
    else None
  }

  /** The letter map is invertible, hence injective: no two directions
      share a final byte. */
  lemma LetterInverse(d: Direction, b: Byte)
    ensures DirectionOf(Letter(d)) == Some(d)
    ensures DirectionOf(b) == Some(d) ==> Letter(d) == b
  {
  }

  /** `set(x, y)`: CUP with the row `y` first, then the column `x`. */
  function SetSequence(x: U16, y: U16): (r: Bytes)
    ensures |r| >= 6 && r[..2] == CSI && r[|r| - 1] == FINAL_CUP
  {
    CSI + Decimal(y) + [SEMICOLON] + Decimal(x) + [FINAL_CUP]
  }

  /** `move_(direction, distance)`. */
  function MoveSequence(d: Direction, distance: U16): (r: Bytes)
    ensures |r| >= 4 && r[..2] == CSI && DirectionOf(r[|r| - 1]) == Some(d)
  {
    CSI + Decimal(distance) + [Letter(d)]
  }

  /** The reply a terminal sends for the cursor at `row`, `col`. */
  function Report(row: U16, col: U16): Bytes {
    CSI + Decimal(row) + [SEMICOLON] + Decimal(col) + [FINAL_CPR]
  }

  // ---------------------------------------------------------------------
  // A reader for the control sequences above: CSI, an optional private
  // marker '?', decimal parameters separated by ';', one final byte
  // (section 5.4 of ECMA-48, without default parameters or intermediates).

  datatype ControlSequence = ControlSequence(private: bool, parameters: seq<nat>, final: Byte)

  predicate IsFinal(b: Byte) {
    0x40 <= b <= 0x7E
  }

  function Numbers(fields: seq<Bytes>): (r: Option<seq<nat>>)
    ensures r.Some? ==> |r.value| == |fields|
  {
    if fields == [] then Some([])
    else if fields[0] == [] || !AllDigits(fields[0]) then None
    else
      match Numbers(fields[1..])
      case None => None
      case Some(rest) => Some([Value(fields[0])] + rest)
  }

  function ReadControl(s: Bytes): Option<ControlSequence> {
    if |s| < 3 || s[..2] != CSI || !IsFinal(s[|s| - 1]) then None
    else
      var body := s[2..|s| - 1];
      var private := body != [] && body[0] == QUESTION_MARK;
      var parameters := if private then body[1..] else body;
      match Numbers(Split(parameters, SEMICOLON))
      case None => None
      case Some(ns) => Some(ControlSequence(private, ns, s[|s| - 1]))
  }

  function Decimals(ns: seq<nat>): (r: seq<Bytes>)
    ensures |r| == |ns|
    ensures forall i :: 0 <= i < |ns| ==> r[i] == Decimal(ns[i])
  {
    if ns == [] then [] else [Decimal(ns[0])] + Decimals(ns[1..])
  }

  /** The bytes of a control sequence, parameters in decimal. */
  function Format(c: ControlSequence): Bytes {
    CSI + (if c.private then [QUESTION_MARK] else []) + Join(Decimals(c.parameters), SEMICOLON) + [c.final]
  }

  lemma {:induction false} NumbersOfDecimals(ns: seq<nat>)
    ensures Numbers(Decimals(ns)) == Some(ns)
  {
    if ns != [] {
      var ds := Decimals(ns);
      assert ds[0] == Decimal(ns[0]) && ds[1..] == Decimals(ns[1..]);
      NumbersOfDecimals(ns[1..]);
      assert [ns[0]] + ns[1..] == ns;
    }
  }

  lemma DigitsHoldNoMarks(s: Bytes)
    requires AllDigits(s)
    ensures SEMICOLON !in s && QUESTION_MARK !in s
  {
  }

  lemma JoinStartsWithFirst(fields: seq<Bytes>, sep: Byte)
    requires |fields| >= 1
    ensures |Join(fields, sep)| >= |fields[0]|
    ensures Join(fields, sep)[..|fields[0]|] == fields[0]
  {
  }

  /** How the reader takes apart CSI, a marker, parameters and a final byte. */
  lemma ReadParts(marker: Bytes, parameters: Bytes, final: Byte)
    requires marker == [] || marker == [QUESTION_MARK]
    requires parameters != [] && parameters[0] != QUESTION_MARK && IsFinal(final)
    ensures ReadControl(CSI + marker + parameters + [final])
         == match Numbers(Split(parameters, SEMICOLON))
            case None => None
            case Some(ns) => Some(ControlSequence(marker != [], ns, final))
  {
    var s := CSI + marker + parameters + [final];
    assert s[..2] == CSI && s[|s| - 1] == final;
    var body := s[2..|s| - 1];
    assert body == marker + parameters;
    if marker != [] {
      assert body[1..] == parameters;
    } else {
      assert body[0] == parameters[0];
    }
  }

  /** Reading undoes formatting for every sequence with a parameter. */
  lemma ReadFormat(c: ControlSequence)
    requires |c.parameters| >= 1 && IsFinal(c.final)
    ensures ReadControl(Format(c)) == Some(c)
  {
    var ds := Decimals(c.parameters);
    var j := Join(ds, SEMICOLON);
    var marker: Bytes := if c.private then [QUESTION_MARK] else [];
    JoinStartsWithFirst(ds, SEMICOLON);
    assert j[0] == ds[0][0];
    DigitsHoldNoMarks(ds[0]);
    forall i | 0 <= i < |ds|
      ensures SEMICOLON !in ds[i]
    {
      DigitsHoldNoMarks(ds[i]);
    }
    SplitJoin(ds, SEMICOLON);
    NumbersOfDecimals(c.parameters);
    ReadParts(marker, j, c.final);
    assert Format(c) == CSI + marker + j + [c.final];
  }

  lemma JoinPair(a: Bytes, b: Bytes, sep: Byte)
    ensures Join([a, b], sep) == a + [sep] + b
  {
    assert [a, b][1..] == [b];
  }

  /** What `set` emits is CUP with parameters row `y`, column `x`. */
  lemma SetSequenceReads(x: U16, y: U16)
    ensures ReadControl(SetSequence(x, y)) == Some(ControlSequence(false, [y, x], FINAL_CUP))
  {
    var c := ControlSequence(false, [y, x], FINAL_CUP);
    assert Decimals([y, x]) == [Decimal(y), Decimal(x)];
    JoinPair(Decimal(y), Decimal(x), SEMICOLON);
    assert SetSequence(x, y) == Format(c);
    ReadFormat(c);
  }

  /** What `move_` emits is one cursor move with the distance as parameter
      and the direction's letter as final byte. */
  lemma MoveSequenceReads(d: Direction, distance: U16)
    ensures ReadControl(MoveSequence(d, distance)) == Some(ControlSequence(false, [distance], Letter(d)))
  {
    var c := ControlSequence(false, [distance], Letter(d));
    assert Decimals([distance]) == [Decimal(distance)];
    assert MoveSequence(d, distance) == Format(c);
    ReadFormat(c);
  }

  /** The fixed sequences are DSR 6, ED 2 and DEC private mode 25 reset/set. */
  lemma FixedSequencesRead()
    ensures ReadControl(QUERY) == Some(ControlSequence(false, [6], 'n' as int))
    ensures ReadControl(START) == Some(ControlSequence(false, [2], 'J' as int))
    ensures ReadControl(HIDE) == Some(ControlSequence(true, [25], 'l' as int))
    ensures ReadControl(SHOW) == Some(ControlSequence(true, [25], 'h' as int))
  {
    var query := ControlSequence(false, [6], 'n' as int);
    var start := ControlSequence(false, [2], 'J' as int);
    var hidden := ControlSequence(true, [25], 'l' as int);
    var shown := ControlSequence(true, [25], 'h' as int);
    assert Decimal(25) == ['2' as int, '5' as int];
    assert Format(query) == QUERY;
    assert Format(start) == START;
    assert Format(hidden) == HIDE;
    assert Format(shown) == SHOW;
    ReadFormat(query);
    ReadFormat(start);
    ReadFormat(hidden);
    ReadFormat(shown);
  }

  /** A report names the row first, then the column. */
  lemma ReportReads(row: U16, col: U16)
    ensures ReadControl(Report(row, col)) == Some(ControlSequence(false, [row, col], FINAL_CPR))
  {
    var c := ControlSequence(false, [row, col], FINAL_CPR);
    assert Decimals([row, col]) == [Decimal(row), Decimal(col)];
    JoinPair(Decimal(row), Decimal(col), SEMICOLON);
    assert Report(row, col) == Format(c);
    ReadFormat(c);
  }

  // ---------------------------------------------------------------------
  // Parsing the reply.

  /** Rust's `str::is_char_boundary` on the bytes of a string. */
  predicate IsCharBoundary(s: Bytes, i: nat)
    requires i <= |s|
  {
    i == |s| || !(0x80 <= s[i] < 0xC0)
  }

  /** `.map(|s| s.parse::<u16>().unwrap()).collect()`: every field parsed
      in order, or None when one of them does not parse. */
  function ParseAll(fields: seq<Bytes>): (r: Option<seq<U16>>)
    ensures r.Some? <==> forall i :: 0 <= i < |fields| ==> ParseU16(fields[i]).Some?
    ensures r.Some? ==> |r.value| == |fields|
    ensures r.Some? ==> forall i :: 0 <= i < |fields| ==> r.value[i] == ParseU16(fields[i]).value
  {
    if fields == [] then Some([])
    else
      match ParseU16(fields[0])
      case None => None
      case Some(v) =>
        match ParseAll(fields[1..])
        case None =>
          assert forall i :: 1 <= i < |fields| ==> fields[1..][i - 1] == fields[i];
          None
        case Some(rest) => Some([v] + rest)
  }

  /** `Ok((position[0], position[1]))` after the collect: a panic when a field
      does not parse, another when fewer than two fields exist, and
      otherwise the first two fields in the order they came. */
  function Pick(fields: seq<Bytes>): (r: Result<(U16, U16)>)
    ensures r.Ok? <==> |fields| >= 2 && forall i :: 0 <= i < |fields| ==> ParseU16(fields[i]).Some?
    ensures r.Ok? ==> r.value == (ParseU16(fields[0]).value, ParseU16(fields[1]).value)
    ensures r.Err? ==> r.error == if ParseAll(fields).Some? then Panic(INDEX_PANIC) else Panic(UNWRAP_PANIC)
  {
    match ParseAll(fields)
    case None => Err(Panic(UNWRAP_PANIC))
    case Some(values) => if |values| < 2 then Err(Panic(INDEX_PANIC)) else Ok((values[0], values[1]))
  }

  /** The parse of `get`, for a reply whose bytes from index `first` up to,
      not including, the last byte hold the coordinates (`get` passes 3). */
  function Coordinates(response: Bytes, first: nat): (r: Result<(U16, U16)>)
    requires first < |response|
    ensures r.Err? ==> r.error.Panic?
  {
    if !IsCharBoundary(response, first) || !IsCharBoundary(response, |response| - 1) then
      Err(Panic(BOUNDARY_PANIC))
    else
      Pick(Split(response[first..|response| - 1], SEMICOLON))
  }

  /** What `get` makes of the line `read_line` produced: the length check of
      `response`, then the parse starting at index 3, as written. */
  function Decode(response: Bytes): (r: Result<(U16, U16)>)
    ensures r == Err(Failure(INVALID_RESPONSE)) <==> |response| < MIN_RESPONSE_LEN
    ensures r.Err? && |response| >= MIN_RESPONSE_LEN ==> r.error.Panic?
  {
    if |response| < MIN_RESPONSE_LEN then Err(Failure(INVALID_RESPONSE)) else Coordinates(response, 3)
  }

  /** The parse with the slice starting at index 2, just after CSI. */
  function DecodeCorrected(response: Bytes): (r: Result<(U16, U16)>)
    ensures r == Err(Failure(INVALID_RESPONSE)) <==> |response| < MIN_RESPONSE_LEN
  {
    if |response| < MIN_RESPONSE_LEN then Err(Failure(INVALID_RESPONSE)) else Coordinates(response, 2)
  }

  /** A reply made of `head`, then fields joined by ';', then one ASCII byte,
      is parsed field by field when the slice starts right after `head`. */
  lemma CoordinatesOfJoin(head: Bytes, fields: seq<Bytes>, last: Byte)
    requires |fields| >= 1 && forall i :: 0 <= i < |fields| ==> SEMICOLON !in fields[i]
    requires last < 0x80
    requires IsCharBoundary(head + Join(fields, SEMICOLON) + [last], |head|)
    ensures Coordinates(head + Join(fields, SEMICOLON) + [last], |head|) == Pick(fields)
  {
    var j := Join(fields, SEMICOLON);
    MiddleSlice(head, j, last);
    CoordinatesOf(head + j + [last], |head|, j);
    SplitJoin(fields, SEMICOLON);
  }

  /** The parse of a reply whose bytes from `first` up to the last are
      `middle`. */
  lemma CoordinatesOf(reply: Bytes, first: nat, middle: Bytes)
    requires first < |reply| && reply[first..|reply| - 1] == middle
    requires IsCharBoundary(reply, first) && reply[|reply| - 1] < 0x80
    ensures Coordinates(reply, first) == Pick(Split(middle, SEMICOLON))
  {
  }

  lemma MiddleSlice(head: Bytes, middle: Bytes, last: Byte)
    ensures var s := head + middle + [last];
            s[|head|..|s| - 1] == middle && s[|s| - 1] == last
  {
  }

  /** Fields that parse hold only digits and '+'. */
  lemma ParsedFieldShape(f: Bytes)
    requires ParseU16(f).Some?
    ensures f != [] && SEMICOLON !in f && f[0] < 0x80
  {
  }

  /** A reply of a 3-byte head, two or more nonempty fields and a last byte
      is long enough for `get`, and its byte 3 starts the first field. */
  lemma ReplyShape(head: Bytes, fields: seq<Bytes>, last: Byte)
    requires |head| == 3 && |fields| >= 2 && fields[0] != [] && fields[1] != []
    ensures |head + Join(fields, SEMICOLON) + [last]| >= MIN_RESPONSE_LEN
    ensures (head + Join(fields, SEMICOLON) + [last])[3] == fields[0][0]
  {
    var j := Join(fields, SEMICOLON);
    JoinStartsWithFirst(fields[1..], SEMICOLON);
    assert j == fields[0] + [SEMICOLON] + Join(fields[1..], SEMICOLON);
    assert j[0] == fields[0][0];
  }

  /** Fields that all parse hold no ';'. */
  lemma ParsedFieldsShape(fields: seq<Bytes>)
    requires forall i :: 0 <= i < |fields| ==> ParseU16(fields[i]).Some?
    ensures forall i :: 0 <= i < |fields| ==> SEMICOLON !in fields[i]
  {
    forall i | 0 <= i < |fields|
      ensures SEMICOLON !in fields[i]
    {
      ParsedFieldShape(fields[i]);
    }
  }

  /** Two or more fields that all parse give the first two values. */
  lemma PickParsed(fields: seq<Bytes>)
    requires |fields| >= 2 && forall i :: 0 <= i < |fields| ==> ParseU16(fields[i]).Some?
    ensures Pick(fields) == Ok((ParseU16(fields[0]).value, ParseU16(fields[1]).value))
  {
  }

  /** `get` returns the first two fields in the order the reply holds them,
      without swapping, and ignores further fields provided they parse. */
  lemma GetKeepsReplyOrder(head: Bytes, fields: seq<Bytes>, last: Byte)
    requires |head| == 3 && |fields| >= 2 && last < 0x80
    requires forall i :: 0 <= i < |fields| ==> ParseU16(fields[i]).Some?
    ensures Decode(head + Join(fields, SEMICOLON) + [last])
         == Ok((ParseU16(fields[0]).value, ParseU16(fields[1]).value))
  {
    ParsedFieldsShape(fields);
    ParsedFieldShape(fields[0]);
    ParsedFieldShape(fields[1]);
    ReplyShape(head, fields, last);
    CoordinatesOfJoin(head, fields, last);
    PickParsed(fields);
  }

  /** Every field is parsed: a field that is not a 16-bit number makes `get`
      panic, wherever it stands. */
  lemma GetPanicsOnBadField(head: Bytes, fields: seq<Bytes>, last: Byte, k: nat)
    requires |head| == 3 && last < 0x80
    requires |fields| >= 1 && forall i :: 0 <= i < |fields| ==> SEMICOLON !in fields[i]
    requires k < |fields| && ParseU16(fields[k]).None?
    requires |head + Join(fields, SEMICOLON) + [last]| >= MIN_RESPONSE_LEN
    requires IsCharBoundary(head + Join(fields, SEMICOLON) + [last], 3)
    ensures Decode(head + Join(fields, SEMICOLON) + [last]) == Err(Panic(UNWRAP_PANIC))
  {
    CoordinatesOfJoin(head, fields, last);
  }

  /** A reply with a single numeric field makes `get` index past the end. */
  lemma GetPanicsOnOneField(head: Bytes, field: Bytes, last: Byte)
    requires |head| == 3 && last < 0x80 && |field| >= 2
    requires ParseU16(field).Some?
    ensures Decode(head + field + [last]) == Err(Panic(INDEX_PANIC))
  {
    ParsedFieldShape(field);
    assert Join([field], SEMICOLON) == field;
    CoordinatesOfJoin(head, [field], last);
  }

  /** For a one-digit row the slice starts at the ';', so the first field
      is empty and `get` panics on its parse. */
  lemma GetOnShortRow(row: U16, col: U16)
    requires row < 10
    ensures Decode(Report(row, col)) == Err(Panic(UNWRAP_PANIC))
  {
    var dr, dc := Decimal(row), Decimal(col);
    var head := CSI + dr;
    var fields: seq<Bytes> := [[], dc];
    var reply := head + Join(fields, SEMICOLON) + [FINAL_CPR];
    assert dr == [ZERO + row];
    assert Report(row, col) == reply && reply[3] == SEMICOLON by {
      JoinPair([], dc, SEMICOLON);
    }
    assert SEMICOLON !in dc by {
      DigitsHoldNoMarks(dc);
    }
    GetPanicsOnBadField(head, fields, FINAL_CPR, 0);
  }

  lemma ParseWithoutLeadingDigit(s: Bytes)
    requires |s| >= 2 && AllDigits(s) && Value(s) < 0x1_0000
    ensures ParseU16(s[1..]) == Some(Value(s) % Pow10(|s| - 1))
  {
    var t := s[1..];
    var p := Pow10(|s| - 1);
    assert Value(t) == Value(s) % p && Value(t) < 0x1_0000 by {
      ValueDropFirst(s);
      ModAtMost(Value(s), p);
    }
    assert t != [] && AllDigits(t) && t[0] != PLUS;
  }

  /** A reply whose row has two or more digits loses the row's leading
      digit in `get`; the column comes through. */
  lemma GetDropsLeadingRowDigit(dr: Bytes, dc: Bytes)
    requires |dr| >= 2 && AllDigits(dr) && Value(dr) < 0x1_0000
    requires dc != [] && AllDigits(dc) && Value(dc) < 0x1_0000
    ensures Decode(CSI + dr + [SEMICOLON] + dc + [FINAL_CPR])
         == Ok((Value(dr) % Pow10(|dr| - 1), Value(dc)))
  {
    var fields: seq<Bytes> := [dr[1..], dc];
    ParseWithoutLeadingDigit(dr);
    ParseDigits(dc);
    RegroupReply(dr, dc);
    GetKeepsReplyOrder(CSI + [dr[0]], fields, FINAL_CPR);
  }

  /** The same reply, with the row's first digit counted in the head. */
  lemma RegroupReply(dr: Bytes, dc: Bytes)
    requires dr != []
    ensures CSI + dr + [SEMICOLON] + dc + [FINAL_CPR]
         == (CSI + [dr[0]]) + Join([dr[1..], dc], SEMICOLON) + [FINAL_CPR]
  {
    JoinPair(dr[1..], dc, SEMICOLON);
    assert dr == [dr[0]] + dr[1..];
  }

  /** For a row of two or more digits `get` as written returns the row
      without its leading digit, and the column unchanged. */
  lemma GetOnLongRow(row: U16, col: U16)
    requires row >= 10
    ensures Decode(Report(row, col)) == Ok((row % Pow10(|Decimal(row)| - 1), col))
  {
    var dr, dc := Decimal(row), Decimal(col);
    assert |dr| >= 2 by {
      assert Pow10(1) == 10;
    }
    GetDropsLeadingRowDigit(dr, dc);
  }

  /** The reply ESC [ 1 2 ; 3 4 R gives (2, 34). */
  lemma GetExample()
    ensures Decode(Report(12, 34)) == Ok((2, 34))
  {
    GetOnLongRow(12, 34);
    assert Decimal(12) == ['1' as int, '2' as int];
  }

  /** A reply of two digit fields, seen as CSI, the joined fields and the
      final byte: long enough, and its byte 2 starts a character. */
  lemma CorrectedReplyShape(dr: Bytes, dc: Bytes)
    requires dr != [] && AllDigits(dr) && dc != []
    ensures var reply := CSI + Join([dr, dc], SEMICOLON) + [FINAL_CPR];
            && reply == CSI + dr + [SEMICOLON] + dc + [FINAL_CPR]
            && |reply| >= MIN_RESPONSE_LEN && IsCharBoundary(reply, 2)
  {
    var reply := CSI + Join([dr, dc], SEMICOLON) + [FINAL_CPR];
    JoinPair(dr, dc, SEMICOLON);
    assert reply[2] == dr[0];
  }

  /** Slicing from index 2 recovers both fields of a reply exactly. */
  lemma DecodeCorrectedDigits(dr: Bytes, dc: Bytes)
    requires dr != [] && AllDigits(dr) && Value(dr) < 0x1_0000
    requires dc != [] && AllDigits(dc) && Value(dc) < 0x1_0000
    ensures DecodeCorrected(CSI + dr + [SEMICOLON] + dc + [FINAL_CPR]) == Ok((Value(dr), Value(dc)))
  {
    var fields: seq<Bytes> := [dr, dc];
    ParseDigits(dr);
    ParseDigits(dc);
    CorrectedReplyShape(dr, dc);
    ParsedFieldsShape(fields);
    CoordinatesOfJoin(CSI, fields, FINAL_CPR);
    PickParsed(fields);
  }

  /** Slicing from index 2 recovers every report exactly, row first. */
  lemma DecodeCorrectedReport(row: U16, col: U16)
    ensures DecodeCorrected(Report(row, col)) == Ok((row, col))
  {
    DecodeCorrectedDigits(Decimal(row), Decimal(col));
  }

  // ---------------------------------------------------------------------
  // The operations, writing to the standard-output sink.

  /** `response()`: write the query, take the line read back (`input` is
      None when reading fails) and refuse one shorter than six bytes. */
  method Response(stdout: Sink, input: Option<Bytes>) returns (r: Result<Bytes>)
    modifies stdout
    ensures Sent(stdout, QUERY)
    ensures r == if old(stdout.budget) == 0 then Err(Failure(WRITE_FAILED))
                 else if input.None? then Err(Failure(READ_FAILED))
                 else if |input.value| < MIN_RESPONSE_LEN then Err(Failure(INVALID_RESPONSE))
                 else Ok(input.value)
  {
    var _ :- WriteTo(stdout, QUERY);
    if input.None? {
      return Err(Failure(READ_FAILED));
    }
    var response := input.value;
    if |response| < MIN_RESPONSE_LEN {
      r := Err(Failure(INVALID_RESPONSE));
    } else {
      r := Ok(response);
    }
  }

  /** `get()`. */
  method Get(stdout: Sink, input: Option<Bytes>) returns (r: Result<(U16, U16)>)
    modifies stdout
    ensures Sent(stdout, QUERY)
    ensures r == if old(stdout.budget) == 0 then Err(Failure(WRITE_FAILED))
                 else if input.None? then Err(Failure(READ_FAILED))
                 else Decode(input.value)
  {
    var response :- Response(stdout, input);
    r := Coordinates(response, 3);
  }

  /** `set(x, y)`. */
  method Set(stdout: Sink, x: U16, y: U16) returns (r: Result<nat>)
    modifies stdout
    ensures Wrote(stdout, SetSequence(x, y), r)
  {
    r := WriteTo(stdout, SetSequence(x, y));
  }

  /** `move_(direction, distance)`. */
  method Move(stdout: Sink, d: Direction, distance: U16) returns (r: Result<nat>)
    modifies stdout
    ensures Wrote(stdout, MoveSequence(d, distance), r)
  {
    r := WriteTo(stdout, MoveSequence(d, distance));
  }

  /** `start()`. */
  method Start(stdout: Sink) returns (r: Result<nat>)
    modifies stdout
    ensures Wrote(stdout, START, r)
  {
    r := WriteTo(stdout, START);
  }

  /** `hide()`. */
  method Hide(stdout: Sink) returns (r: Result<nat>)
    modifies stdout
    ensures Wrote(stdout, HIDE, r)
  {
    r := WriteTo(stdout, HIDE);
  }

  /** `show()`. */
  method Show(stdout: Sink) returns (r: Result<nat>)
    modifies stdout
    ensures Wrote(stdout, SHOW, r)
  {
    r := WriteTo(stdout, SHOW);
  }
}
