/** src/render.rs: `render_to` writes each line of a text to an output and,
    after each line, moves the cursor one row down and back left by the
    line's length in bytes, so the next line starts under the first. */
module Render {
  import opened Errors
  import opened Text
  import opened Io
  import Cursor

  /** Where a write goes: the caller's output `to`, or standard output,
      which `cursor::move_` always uses. */
  datatype Dest = Target | Stdout

  /** One write of the loop: its destination and the bytes written. */
  datatype Write = Write(dest: Dest, content: Bytes)

  function Min(a: int, b: int): int {
    if a <= b then a else b
  }

  /** `line.len() as u16`: the byte length, escape sequences included,
      truncated to 16 bits. */
  function Shift(line: Bytes): (r: U16)
    ensures r <= |line| && (|line| < 0x1_0000 ==> r == |line|)
  {
    |line| % 0x1_0000
  }

  const DOWN_ONE: Bytes := Cursor.MoveSequence(Cursor.Down, 1)

  /** The move back to the line's first column. */
  function LeftBy(line: Bytes): (r: Bytes)
    ensures |r| >= 4 && r[..2] == Cursor.CSI && r[|r| - 1] == Cursor.Letter(Cursor.Left)
  {
    Cursor.MoveSequence(Cursor.Left, Shift(line))
  }

  /** The three writes one iteration of the loop makes. */
  function LineWrites(line: Bytes): seq<Write> {
    [Write(Target, line), Write(Stdout, DOWN_ONE), Write(Stdout, LeftBy(line))]
  }

  /** Every write of the loop over `lines`, in order. */
  function Emission(lines: seq<Bytes>): (ws: seq<Write>)
    ensures |ws| == 3 * |lines|
  {
    if lines == [] then [] else Emission(lines[..|lines| - 1]) + LineWrites(lines[|lines| - 1])
  }

  /** The bytes of a run of writes, concatenated. */
  function Flat(ws: seq<Write>): Bytes {
    if ws == [] then [] else ws[0].content + Flat(ws[1..])
  }

  /** The writes that go to `d`, in order. */
  function Filter(ws: seq<Write>, d: Dest): (r: seq<Write>)
    ensures |r| <= |ws|
  {
    if ws == [] then []
    else (if ws[0].dest == d then [ws[0]] else []) + Filter(ws[1..], d)
  }

  /** What the output and standard output hold, and how many write calls
      each still completes. */
  datatype Outputs = Outputs(target: Bytes, targetBudget: nat, stdout: Bytes, stdoutBudget: nat)

  function Snapshot(to: Sink, stdout: Sink): Outputs
    reads to, stdout
  {
    Outputs(to.data, to.budget, stdout.data, stdout.budget)
  }

  /** One write: `None` when its sink refuses it, else the new outputs.
      When `shared`, the output is standard output itself: both halves of
      `Outputs` describe that one sink and every write spends its budget. */
  function Deliver(now: Outputs, w: Write, shared: bool): Option<Outputs> {
    if shared then
      if now.targetBudget == 0 then None
      else
        var data := now.target + w.content;
        Some(Outputs(data, now.targetBudget - 1, data, now.targetBudget - 1))
    else if w.dest == Target then
      if now.targetBudget == 0 then None
      else Some(now.(target := now.target + w.content, targetBudget := now.targetBudget - 1))
    else
      if now.stdoutBudget == 0 then None
      else Some(now.(stdout := now.stdout + w.content, stdoutBudget := now.stdoutBudget - 1))
  }

  /** The outputs after the writes `ws`, which stop at the first refusal. */
  function Run(ws: seq<Write>, now: Outputs, shared: bool): Outputs {
    if ws == [] then now
    else match Deliver(now, ws[0], shared)
      case None => now
      case Some(next) => Run(ws[1..], next, shared)
  }

  /** How many of `ws` complete before the first refusal. */
  function Accepted(ws: seq<Write>, now: Outputs, shared: bool): (k: nat)
    ensures k <= |ws|
  {
    if ws == [] then 0
    else match Deliver(now, ws[0], shared)
      case None => 0
      case Some(next) => 1 + Accepted(ws[1..], next, shared)
  }

  /** The outputs `now` are `start` followed by the writes `done`, each sink
      receiving its own writes in order and spending one unit per write. */
  ghost predicate Delivered(start: Outputs, done: seq<Write>, now: Outputs, shared: bool) {
    if shared then
      now.target == start.target + Flat(done) && now.targetBudget == start.targetBudget - |done|
    else
      && now.target == start.target + Flat(Filter(done, Target))
      && now.targetBudget == start.targetBudget - |Filter(done, Target)|
      && now.stdout == start.stdout + Flat(Filter(done, Stdout))
      && now.stdoutBudget == start.stdoutBudget - |Filter(done, Stdout)|
  }

  /** The writes that complete are exactly the first `Accepted` ones. */
  lemma {:induction false} RunDelivers(ws: seq<Write>, start: Outputs, shared: bool)
    ensures Delivered(start, ws[..Accepted(ws, start, shared)], Run(ws, start, shared), shared)
  {
    if ws != [] && Deliver(start, ws[0], shared).Some? {
      var next := Deliver(start, ws[0], shared).value;
      var k := Accepted(ws[1..], next, shared);
      RunDelivers(ws[1..], next, shared);
      var done := ws[..1 + k];
      assert done == [ws[0]] + ws[1..][..k];
      DeliveredCons(start, next, ws[0], ws[1..][..k], Run(ws, start, shared), shared);
    } else {
      assert ws[..0] == [];
    }
  }

  lemma Assoc<T>(a: seq<T>, b: seq<T>, c: seq<T>)
    ensures (a + b) + c == a + (b + c)
  {
  }

  lemma FlatCons(w: Write, rest: seq<Write>)
    ensures Flat([w] + rest) == w.content + Flat(rest)
  {
    assert ([w] + rest)[0] == w && ([w] + rest)[1..] == rest;
  }

  lemma FilterCons(w: Write, rest: seq<Write>, d: Dest)
    ensures Filter([w] + rest, d) == (if w.dest == d then [w] else []) + Filter(rest, d)
  {
    assert ([w] + rest)[0] == w && ([w] + rest)[1..] == rest;
  }

  /** What a leading write adds to the writes for `d`. */
  lemma FlatFilterCons(w: Write, rest: seq<Write>, d: Dest)
    ensures w.dest == d ==> Flat(Filter([w] + rest, d)) == w.content + Flat(Filter(rest, d))
    ensures w.dest == d ==> |Filter([w] + rest, d)| == 1 + |Filter(rest, d)|
    ensures w.dest != d ==> Filter([w] + rest, d) == Filter(rest, d)
  {
    FilterCons(w, rest, d);
    if w.dest == d {
      FlatCons(w, Filter(rest, d));
    } else {
      assert [] + Filter(rest, d) == Filter(rest, d);
    }
  }

  /** A write that completes, followed by writes that complete. */
  lemma DeliveredCons(start: Outputs, next: Outputs, w: Write, rest: seq<Write>, now: Outputs, shared: bool)
    requires Deliver(start, w, shared) == Some(next)
    requires Delivered(next, rest, now, shared)
    ensures Delivered(start, [w] + rest, now, shared)
  {
    if shared {
      FlatCons(w, rest);
      Assoc(start.target, w.content, Flat(rest));
    } else if w.dest == Target {
      DeliveredConsTarget(start, next, w, rest, now);
    } else {
      DeliveredConsStdout(start, next, w, rest, now);
    }
  }

  lemma DeliveredConsTarget(start: Outputs, next: Outputs, w: Write, rest: seq<Write>, now: Outputs)
    requires w.dest == Target && start.targetBudget > 0
    requires next == start.(target := start.target + w.content, targetBudget := start.targetBudget - 1)
    requires Delivered(next, rest, now, false)
    ensures Delivered(start, [w] + rest, now, false)
  {
    FlatFilterCons(w, rest, Target);
    FlatFilterCons(w, rest, Stdout);
    Assoc(start.target, w.content, Flat(Filter(rest, Target)));
  }

  lemma DeliveredConsStdout(start: Outputs, next: Outputs, w: Write, rest: seq<Write>, now: Outputs)
    requires w.dest == Stdout && start.stdoutBudget > 0
    requires next == start.(stdout := start.stdout + w.content, stdoutBudget := start.stdoutBudget - 1)
    requires Delivered(next, rest, now, false)
    ensures Delivered(start, [w] + rest, now, false)
  {
    FlatFilterCons(w, rest, Target);
    FlatFilterCons(w, rest, Stdout);
    Assoc(start.stdout, w.content, Flat(Filter(rest, Stdout)));
  }

  /** A write that its sink accepted, seen on the outputs. */
  lemma Delivers(now: Outputs, w: Write, shared: bool, after: Outputs)
    requires shared ==> now.target == now.stdout && now.targetBudget == now.stdoutBudget
    requires shared ==> after.target == after.stdout && after.targetBudget == after.stdoutBudget
    requires w.dest == Target || shared ==>
               && now.targetBudget > 0
               && after.target == now.target + w.content && after.targetBudget == now.targetBudget - 1
               && (!shared ==> after.stdout == now.stdout && after.stdoutBudget == now.stdoutBudget)
    requires w.dest == Stdout && !shared ==>
               && now.stdoutBudget > 0
               && after.stdout == now.stdout + w.content && after.stdoutBudget == now.stdoutBudget - 1
               && after.target == now.target && after.targetBudget == now.targetBudget
    ensures Deliver(now, w, shared) == Some(after)
  {
  }

  /** The budget a write spends: that of the sink it goes to. */
  function BudgetFor(now: Outputs, w: Write, shared: bool): nat {
    if shared || w.dest == Target then now.targetBudget else now.stdoutBudget
  }

  /** A write whose sink has no budget left ends the run where it is. */
  lemma Halt(ws: seq<Write>, j: nat, now: Outputs, shared: bool)
    requires j < |ws| && BudgetFor(now, ws[j], shared) == 0
    ensures Run(ws[j..], now, shared) == now && Accepted(ws[j..], now, shared) == 0
  {
    RunStep(ws, j, now, shared);
  }

  /** A write that completes moves the run one write on. */
  lemma Advance(ws: seq<Write>, j: nat, now: Outputs, after: Outputs, shared: bool)
    requires j < |ws| && Deliver(now, ws[j], shared) == Some(after)
    ensures Run(ws[j..], now, shared) == Run(ws[j + 1..], after, shared)
    ensures Accepted(ws[j..], now, shared) == 1 + Accepted(ws[j + 1..], after, shared)
  {
    RunStep(ws, j, now, shared);
  }

  lemma RunStep(ws: seq<Write>, j: nat, now: Outputs, shared: bool)
    requires j < |ws|
    ensures Run(ws[j..], now, shared) == match Deliver(now, ws[j], shared)
              case None => now
              case Some(next) => Run(ws[j + 1..], next, shared)
    ensures Accepted(ws[j..], now, shared) == match Deliver(now, ws[j], shared)
              case None => 0
              case Some(next) => 1 + Accepted(ws[j + 1..], next, shared)
  {
    assert ws[j..][0] == ws[j] && ws[j..][1..] == ws[j + 1..];
  }

  lemma {:induction false} EmissionCons(line: Bytes, rest: seq<Bytes>)
    ensures Emission([line] + rest) == LineWrites(line) + Emission(rest)
    decreases |rest|
  {
    var lines := [line] + rest;
    if rest != [] {
      assert lines[..|lines| - 1] == [line] + rest[..|rest| - 1];
      EmissionCons(line, rest[..|rest| - 1]);
    } else {
      assert lines[..|lines| - 1] == [];
    }
  }

  /** The writes for the lines from `i` on: those of line `i`, then the
      rest. */
  lemma EmissionFront(lines: seq<Bytes>, i: nat)
    requires i < |lines|
    ensures |Emission(lines[i..])| >= 3
    ensures Emission(lines[i..])[0] == Write(Target, lines[i])
    ensures Emission(lines[i..])[1] == Write(Stdout, DOWN_ONE)
    ensures Emission(lines[i..])[2] == Write(Stdout, LeftBy(lines[i]))
    ensures Emission(lines[i..])[3..] == Emission(lines[i + 1..])
  {
    assert lines[i..] == [lines[i]] + lines[i + 1..];
    EmissionCons(lines[i], lines[i + 1..]);
  }

  lemma LineWritesFiltered(line: Bytes)
    ensures Filter(LineWrites(line), Target) == [Write(Target, line)]
    ensures Filter(LineWrites(line), Stdout)
         == [Write(Stdout, DOWN_ONE), Write(Stdout, LeftBy(line))]
  {
    var lw := LineWrites(line);
    var t1, t2 := lw[1..], lw[2..];
    assert t1 == [lw[1], lw[2]] && t1[1..] == t2 && t2 == [lw[2]] && t2[1..] == [];
    assert Filter(t2, Target) == [] && Filter(t1, Target) == [];
    assert Filter(t2, Stdout) == [lw[2]] && Filter(t1, Stdout) == [lw[1], lw[2]];
  }

  /** `render_to(to, text)`. Every write completes until the first refusal,
      which ends the call with the write error; the sinks then hold exactly
      the writes that completed. */
  method RenderTo(to: Sink, stdout: Sink, text: Bytes) returns (r: Result<()>)
    modifies to, stdout
    ensures var ws := Emission(Lines(text));
            var k := Accepted(ws, old(Snapshot(to, stdout)), to == stdout);
            && r == (if k == |ws| then Ok(()) else Err(Failure(WRITE_FAILED)))
            && Delivered(old(Snapshot(to, stdout)), ws[..k], Snapshot(to, stdout), to == stdout)
  {
    var lines := Lines(text);
    ghost var ws := Emission(lines);
    ghost var shared := to == stdout;
    ghost var start := Snapshot(to, stdout);
    ghost var final := Run(ws, start, shared);
    ghost var k := Accepted(ws, start, shared);
    RunDelivers(ws, start, shared);
    assert lines[0..] == lines;
    var i := 0;
    while i < |lines|
      invariant 0 <= i <= |lines|
      invariant final == Run(Emission(lines[i..]), Snapshot(to, stdout), shared)
      invariant k == 3 * i + Accepted(Emission(lines[i..]), Snapshot(to, stdout), shared)
    {
      ghost var rest := Emission(lines[i..]);
      EmissionFront(lines, i);
      r := RenderLine(to, stdout, lines[i], rest);
      if r.Err? {
        return;
      }
      i := i + 1;
    }
    assert ws[..|ws|] == ws;
    r := Ok(());
  }

  /** One pass of `render_to`'s loop over `rest`, the writes still due,
      whose first three are those of `line`: the line, one row down, back
      left. It stops at the first refusal with the write error. */
  method RenderLine(to: Sink, stdout: Sink, line: Bytes, ghost rest: seq<Write>) returns (r: Result<()>)
    modifies to, stdout
    requires |rest| >= 3 && rest[0] == Write(Target, line)
    requires rest[1] == Write(Stdout, DOWN_ONE) && rest[2] == Write(Stdout, LeftBy(line))
    ensures var start, now, shared := old(Snapshot(to, stdout)), Snapshot(to, stdout), to == stdout;
            if r.Ok? then
              && Run(rest, start, shared) == Run(rest[3..], now, shared)
              && Accepted(rest, start, shared) == 3 + Accepted(rest[3..], now, shared)
            else
              && r == Err(Failure(WRITE_FAILED))
              && Run(rest, start, shared) == now
              && Accepted(rest, start, shared) < 3
  {
    ghost var shared := to == stdout;
    assert rest[0..] == rest;

    ghost var s0 := Snapshot(to, stdout);
    var written := WriteTo(to, line);
    if written.Err? {
      Halt(rest, 0, s0, shared);
      return Err(written.error);
    }
    Delivers(s0, rest[0], shared, Snapshot(to, stdout));
    Advance(rest, 0, s0, Snapshot(to, stdout), shared);

    ghost var s1 := Snapshot(to, stdout);
    var down := Cursor.Move(stdout, Cursor.Down, 1);
    if down.Err? {
      Halt(rest, 1, s1, shared);
      return Err(down.error);
    }
    Delivers(s1, rest[1], shared, Snapshot(to, stdout));
    Advance(rest, 1, s1, Snapshot(to, stdout), shared);

    ghost var s2 := Snapshot(to, stdout);
    var left := Cursor.Move(stdout, Cursor.Left, Shift(line));
    if left.Err? {
      Halt(rest, 2, s2, shared);
      return Err(left.error);
    }
    Delivers(s2, rest[2], shared, Snapshot(to, stdout));
    Advance(rest, 2, s2, Snapshot(to, stdout), shared);
    r := Ok(());
  }

  /** `render(text)`: `render_to` with standard output as the output, so
      text and moves interleave in one stream, which stops when its budget
      runs out. */
  method Render(stdout: Sink, text: Bytes) returns (r: Result<()>)
    modifies stdout
    ensures var ws := Emission(Lines(text));
            var k := Min(|ws|, old(stdout.budget));
            && r == (if k == |ws| then Ok(()) else Err(Failure(WRITE_FAILED)))
            && stdout.data == old(stdout.data) + Flat(ws[..k])
            && stdout.budget == old(stdout.budget) - k
  {
    SharedAccepted(Emission(Lines(text)), Snapshot(stdout, stdout));
    r := RenderTo(stdout, stdout, text);
  }

  // ---------------------------------------------------------------------
  // What the writes amount to.

  /** On one shared sink the writes stop exactly when its budget runs out. */
  lemma {:induction false} SharedAccepted(ws: seq<Write>, now: Outputs)
    ensures Accepted(ws, now, true) == Min(|ws|, now.targetBudget)
  {
    if ws != [] && now.targetBudget > 0 {
      SharedAccepted(ws[1..], Deliver(now, ws[0], true).value);
    }
  }

  /** With separate sinks, the number of lines fully emitted (text, down,
      left) is bounded by the text, by the output's budget, and by half of
      standard output's budget, two moves per line. */
  lemma {:induction false} LinesCompleted(lines: seq<Bytes>, now: Outputs)
    ensures Accepted(Emission(lines), now, false) / 3
         == Min(|lines|, Min(now.targetBudget, now.stdoutBudget / 2))
  {
    if lines != [] {
      var rest := lines[1..];
      assert lines == [lines[0]] + rest;
      EmissionCons(lines[0], rest);
      var lw := LineWrites(lines[0]);
      AcceptedThree(lw[0], lw[1], lw[2], Emission(rest), now);
      assert lw == [lw[0], lw[1], lw[2]];
      if now.targetBudget > 0 && now.stdoutBudget >= 2 {
        var n3 := After(now, lw[0], lw[1], lw[2]);
        var k' := Accepted(Emission(rest), n3, false);
        LinesCompleted(rest, n3);
        assert (3 + k') / 3 == 1 + k' / 3;
        assert (now.stdoutBudget - 2) / 2 == now.stdoutBudget / 2 - 1;
      }
    }
  }

  /** The outputs after one line's three writes have all completed. */
  function After(now: Outputs, text: Write, down: Write, left: Write): Outputs
    requires now.targetBudget > 0 && now.stdoutBudget >= 2
  {
    Outputs(now.target + text.content, now.targetBudget - 1,
            now.stdout + down.content + left.content, now.stdoutBudget - 2)
  }

  /** How far one line's writes get on separate sinks. */
  lemma AcceptedThree(text: Write, down: Write, left: Write, rest: seq<Write>, now: Outputs)
    requires text.dest == Target && down.dest == Stdout && left.dest == Stdout
    ensures var k := Accepted([text, down, left] + rest, now, false);
            && (now.targetBudget == 0 ==> k == 0)
            && (now.targetBudget > 0 && now.stdoutBudget == 0 ==> k == 1)
            && (now.targetBudget > 0 && now.stdoutBudget == 1 ==> k == 2)
            && (now.targetBudget > 0 && now.stdoutBudget >= 2 ==>
                  k == 3 + Accepted(rest, After(now, text, down, left), false))
  {
    var ws := [text, down, left] + rest;
    assert ws[0] == text && ws[1] == down && ws[2] == left && ws[3..] == rest && ws[0..] == ws;
    RunStep(ws, 0, now, false);
    if now.targetBudget > 0 {
      var n1 := Deliver(now, text, false).value;
      RunStep(ws, 1, n1, false);
      if now.stdoutBudget > 0 {
        var n2 := Deliver(n1, down, false).value;
        RunStep(ws, 2, n2, false);
      }
    }
  }

  lemma {:induction false} FlatAppend(a: seq<Write>, b: seq<Write>)
    ensures Flat(a + b) == Flat(a) + Flat(b)
  {
    if a != [] {
      assert a == [a[0]] + a[1..];
      assert a + b == [a[0]] + (a[1..] + b);
      FlatCons(a[0], a[1..] + b);
      FlatAppend(a[1..], b);
      Assoc(a[0].content, Flat(a[1..]), Flat(b));
    } else {
      assert a + b == b;
    }
  }

  lemma {:induction false} FilterAppend(a: seq<Write>, b: seq<Write>, d: Dest)
    ensures Filter(a + b, d) == Filter(a, d) + Filter(b, d)
  {
    if a != [] {
      var h: seq<Write> := if a[0].dest == d then [a[0]] else [];
      assert a == [a[0]] + a[1..];
      assert a + b == [a[0]] + (a[1..] + b);
      FilterCons(a[0], a[1..] + b, d);
      FilterAppend(a[1..], b, d);
      Assoc(h, Filter(a[1..], d), Filter(b, d));
    } else {
      assert a + b == b;
    }
  }

  /** All lines, in order and unchanged. */
  function Concat(lines: seq<Bytes>): Bytes {
    if lines == [] then [] else lines[0] + Concat(lines[1..])
  }

  /** The output receives the lines and nothing else, one write per line. */
  lemma {:induction false} TargetReceivesLines(lines: seq<Bytes>)
    ensures |Filter(Emission(lines), Target)| == |lines|
    ensures Flat(Filter(Emission(lines), Target)) == Concat(lines)
  {
    if lines != [] {
      var rest := lines[1..];
      assert lines == [lines[0]] + rest;
      EmissionCons(lines[0], rest);
      TargetReceivesLines(rest);
      FilterAppend(LineWrites(lines[0]), Emission(rest), Target);
      LineWritesFiltered(lines[0]);
      var head := Filter(LineWrites(lines[0]), Target);
      FlatAppend(head, Filter(Emission(rest), Target));
    }
  }

  /** The two moves after each line, in order. */
  function MoveWrites(lines: seq<Bytes>): seq<Write> {
    if lines == [] then []
    else [Write(Stdout, DOWN_ONE), Write(Stdout, LeftBy(lines[0]))] + MoveWrites(lines[1..])
  }

  lemma {:induction false} StdoutIsMoves(lines: seq<Bytes>)
    ensures Filter(Emission(lines), Stdout) == MoveWrites(lines)
  {
    if lines != [] {
      StdoutFront(lines);
      StdoutIsMoves(lines[1..]);
    }
  }

  lemma {:induction false} MoveWritesAt(lines: seq<Bytes>, i: nat)
    requires i < |lines|
    ensures |MoveWrites(lines)| == 2 * |lines|
    ensures MoveWrites(lines)[2 * i] == Write(Stdout, DOWN_ONE)
    ensures MoveWrites(lines)[2 * i + 1] == Write(Stdout, LeftBy(lines[i]))
  {
    var rest := lines[1..];
    var m := MoveWrites(lines);
    assert m == [Write(Stdout, DOWN_ONE), Write(Stdout, LeftBy(lines[0]))] + MoveWrites(rest);
    MoveWritesLength(lines);
    if i > 0 {
      MoveWritesAt(rest, i - 1);
      assert lines[i] == rest[i - 1];
      assert m[2 * i] == MoveWrites(rest)[2 * (i - 1)];
      assert m[2 * i + 1] == MoveWrites(rest)[2 * (i - 1) + 1];
    }
  }

  lemma {:induction false} MoveWritesLength(lines: seq<Bytes>)
    ensures |MoveWrites(lines)| == 2 * |lines|
  {
    if lines != [] {
      MoveWritesLength(lines[1..]);
    }
  }

  /** Standard output receives exactly two writes per line: a move down by
      one, then a move left by the line's shift. */
  lemma StdoutReceivesMoves(lines: seq<Bytes>)
    ensures |Filter(Emission(lines), Stdout)| == 2 * |lines|
    ensures forall i :: 0 <= i < |lines| ==>
              && Filter(Emission(lines), Stdout)[2 * i] == Write(Stdout, DOWN_ONE)
              && Filter(Emission(lines), Stdout)[2 * i + 1] == Write(Stdout, LeftBy(lines[i]))
  {
    StdoutIsMoves(lines);
    MoveWritesLength(lines);
    forall i | 0 <= i < |lines|
      ensures MoveWrites(lines)[2 * i] == Write(Stdout, DOWN_ONE)
      ensures MoveWrites(lines)[2 * i + 1] == Write(Stdout, LeftBy(lines[i]))
    {
      MoveWritesAt(lines, i);
    }
  }

  lemma StdoutFront(lines: seq<Bytes>)
    requires lines != []
    ensures Filter(Emission(lines), Stdout)
         == [Write(Stdout, DOWN_ONE), Write(Stdout, LeftBy(lines[0]))] + Filter(Emission(lines[1..]), Stdout)
  {
    assert lines == [lines[0]] + lines[1..];
    EmissionCons(lines[0], lines[1..]);
    FilterAppend(LineWrites(lines[0]), Emission(lines[1..]), Stdout);
    LineWritesFiltered(lines[0]);
  }

  /** Each move standard output receives reads back as a cursor-down by one
      (CUD 1) or a cursor-left by the line's byte length modulo 2^16 (CUB). */
  lemma MovesRead(lines: seq<Bytes>, i: nat)
    requires i < |lines|
    ensures |Filter(Emission(lines), Stdout)| == 2 * |lines|
    ensures Cursor.ReadControl(Filter(Emission(lines), Stdout)[2 * i].content)
         == Some(Cursor.ControlSequence(false, [1], 'B' as int))
    ensures Cursor.ReadControl(Filter(Emission(lines), Stdout)[2 * i + 1].content)
         == Some(Cursor.ControlSequence(false, [|lines[i]| % 0x1_0000], 'D' as int))
  {
    StdoutReceivesMoves(lines);
    Cursor.MoveSequenceReads(Cursor.Down, 1);
    Cursor.MoveSequenceReads(Cursor.Left, Shift(lines[i]));
  }
}
