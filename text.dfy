/** Byte strings and the pieces of Rust's standard library the core relies on:
    decimal formatting of unsigned integers (`format!("{}", n)`), parsing with
    `str::parse::<u16>`, `str::split` on one byte and `str::lines`.
    Every string is handled as its UTF-8 bytes; line feeds, carriage returns,
    semicolons and digits are ASCII, so splitting byte-wise agrees with
    splitting on characters. */
module Text {
  import opened Errors

  type Byte = b: int | 0 <= b < 0x100
  type Bytes = seq<Byte>
  type U16 = n: int | 0 <= n < 0x1_0000

  const LF: Byte := 0x0A
  const CR: Byte := 0x0D
  const ESC: Byte := 0x1B
  const PLUS: Byte := 0x2B
  const ZERO: Byte := 0x30
  const SEMICOLON: Byte := 0x3B
  const QUESTION_MARK: Byte := 0x3F
  const LEFT_BRACKET: Byte := 0x5B

  predicate IsDigit(b: Byte) {
    ZERO <= b < ZERO + 10
  }

  predicate AllDigits(s: Bytes) {
    forall i :: 0 <= i < |s| ==> IsDigit(s[i])
  }

  function Pow10(k: nat): (p: nat)
    ensures p >= 1
  {
    if k == 0 then 1 else 10 * Pow10(k - 1)
  }

  /** The number a string of decimal digits denotes, most significant first. */
  function Value(s: Bytes): (v: nat)
    requires AllDigits(s)
    ensures v < Pow10(|s|)
  {
    if s == [] then 0 else Value(s[..|s| - 1]) * 10 + (s[|s| - 1] - ZERO)
  }

  /** `format!("{}", n)`: decimal digits without leading zeros. */
  function Decimal(n: nat): (r: Bytes)
    ensures r != [] && AllDigits(r)
    ensures r[0] == ZERO ==> n == 0
    ensures Value(r) == n
  {
    if n < 10 then [ZERO + n]
    else
      var prefix := Decimal(n / 10);
      var r := prefix + [ZERO + n % 10];
      assert r[..|r| - 1] == prefix;
      r
  }

  /** `str::parse::<u16>`: an optional leading '+', then one or more
      decimal digits (leading zeros allowed) whose value fits in 16 bits. */
  function ParseU16(s: Bytes): (r: Option<U16>)
    ensures s == [] || s == [PLUS] ==> r == None
    ensures r.Some? ==> forall i :: 0 <= i < |s| ==> IsDigit(s[i]) || (i == 0 && s[i] == PLUS)
  {
    var digits := if |s| > 0 && s[0] == PLUS then s[1..] else s;
    if digits != [] && AllDigits(digits) && Value(digits) < 0x1_0000 then Some(Value(digits)) else None
  }

  /** Formatting and parsing agree on every 16-bit value, and values of
      17 bits or more are refused. */
  lemma DecimalParses(n: nat)
    ensures ParseU16(Decimal(n)) == if n < 0x1_0000 then Some(n) else None
    ensures n < 0x1_0000 ==> ParseU16([PLUS] + Decimal(n)) == Some(n)
  {
    assert ([PLUS] + Decimal(n))[1..] == Decimal(n);
  }

  /** A string of digits denoting a 16-bit value parses as that value. */
  lemma ParseDigits(s: Bytes)
    requires s != [] && AllDigits(s) && Value(s) < 0x1_0000
    ensures ParseU16(s) == Some(Value(s))
  {
    assert s[0] != PLUS;
  }

  lemma ModUnique(x: int, n: int, q: int, r: int)
    requires 0 <= r < n && x == q * n + r
    ensures x % n == r
  {
    var k := x / n - q;
    assert k * n == r - x % n;
  }

  lemma ModAtMost(x: nat, p: nat)
    requires p >= 1
    ensures x % p <= x
  {
    if x < p {
      ModUnique(x, p, 0, x);
    }
  }

  lemma ScaleByTen(a: int, q: int, p: int, m: int)
    requires a == q * p + m
    ensures a * 10 == q * (10 * p) + 10 * m
  {
  }

  /** Appending a digit commutes with reducing modulo a power of ten. */
  lemma AppendDigitMod(a: nat, d: nat, p: nat)
    requires p >= 1 && d < 10
    ensures (a * 10 + d) % (10 * p) == (a % p) * 10 + d
  {
    var q, m := a / p, a % p;
    ScaleByTen(a, q, p, m);
    ModUnique(a * 10 + d, 10 * p, q, 10 * m + d);
  }

  /** Dropping the leading digit keeps the value modulo the next lower power of ten. */
  lemma {:induction false} ValueDropFirst(s: Bytes)
    requires s != [] && AllDigits(s)
    ensures Value(s[1..]) == Value(s) % Pow10(|s| - 1)
  {
    if |s| > 1 {
      var t := s[..|s| - 1];
      var d := s[|s| - 1] - ZERO;
      assert s[1..][..|s[1..]| - 1] == t[1..];
      assert Value(s[1..]) == Value(t[1..]) * 10 + d;
      assert Value(s) == Value(t) * 10 + d;
      ValueDropFirst(t);
      AppendDigitMod(Value(t), d, Pow10(|t| - 1));
    }
  }

  /** Joins fields with one separator byte between neighbours. */
  function Join(fields: seq<Bytes>, sep: Byte): Bytes {
    if |fields| == 0 then []
    else if |fields| == 1 then fields[0]
    else fields[0] + [sep] + Join(fields[1..], sep)
  }

  /** `str::split` on a one-byte pattern: at least one field, no field holds
      the separator, and joining the fields gives the input back. */
  function Split(s: Bytes, sep: Byte): (r: seq<Bytes>)
    ensures |r| >= 1
    ensures forall i :: 0 <= i < |r| ==> sep !in r[i]
    ensures Join(r, sep) == s
  {
    if s == [] then [[]]
    else
      var rest := Split(s[1..], sep);
      if s[0] == sep then
        assert ([[]] + rest)[1..] == rest;
        [[]] + rest
      else
        var r := [[s[0]] + rest[0]] + rest[1..];
        assert |rest| > 1 ==> Join(rest, sep) == rest[0] + [sep] + Join(rest[1..], sep);
        assert |rest| > 1 ==> r[1..] == rest[1..];
        r
  }

  lemma {:induction false} SplitWithoutSeparator(s: Bytes, sep: Byte)
    requires sep !in s
    ensures Split(s, sep) == [s]
  {
    if s != [] {
      SplitWithoutSeparator(s[1..], sep);
    }
  }

  lemma {:induction false} SplitAfterField(a: Bytes, b: Bytes, sep: Byte)
    requires sep !in a
    ensures Split(a + [sep] + b, sep) == [a] + Split(b, sep)
  {
    if a == [] {
      assert (a + [sep] + b)[1..] == b;
    } else {
      var s := a + [sep] + b;
      assert s[0] == a[0] && s[1..] == a[1..] + [sep] + b;
      SplitAfterField(a[1..], b, sep);
      var rest := Split(s[1..], sep);
      assert rest[0] == a[1..] && rest[1..] == Split(b, sep);
      assert [a[0]] + a[1..] == a;
    }
  }

  /** Splitting undoes joining fields that do not hold the separator. */
  lemma {:induction false} SplitJoin(fields: seq<Bytes>, sep: Byte)
    requires |fields| >= 1
    requires forall i :: 0 <= i < |fields| ==> sep !in fields[i]
    ensures Split(Join(fields, sep), sep) == fields
  {
    if |fields| == 1 {
      SplitWithoutSeparator(fields[0], sep);
    } else {
      SplitJoin(fields[1..], sep);
      SplitAfterField(fields[0], Join(fields[1..], sep), sep);
    }
  }

  function IndexOf(s: Bytes, b: Byte): (i: nat)
    requires b in s
    ensures i < |s| && s[i] == b && b !in s[..i]
  {
    if s[0] == b then 0
    else
      var i := 1 + IndexOf(s[1..], b);
      assert s[..i] == [s[0]] + s[1..][..i - 1];
      i
  }

  predicate EndsWithCr(line: Bytes) {
    |line| > 0 && line[|line| - 1] == CR
  }

  function StripCr(line: Bytes): (r: Bytes)
    ensures r == line || (EndsWithCr(line) && r == line[..|line| - 1])
  {
    if EndsWithCr(line) then line[..|line| - 1] else line
  }

  /** `str::lines`: the pieces between line feeds, in order. A carriage
      return directly before a line feed goes with it; a final line feed
      does not open an empty last line; empty text has no lines. */
  function Lines(s: Bytes): (r: seq<Bytes>)
    ensures forall i :: 0 <= i < |r| ==> LF !in r[i]
    ensures r == [] <==> s == []
    decreases |s|
  {
    if s == [] then []
    else if LF !in s then [s]
    else
      var i := IndexOf(s, LF);
      var line := StripCr(s[..i]);
      assert forall b :: b in line ==> b in s[..i];
      [line] + Lines(s[i + 1..])
  }

  /** Each line followed by a line feed. */
  function Unlines(lines: seq<Bytes>): Bytes {
    if lines == [] then [] else lines[0] + [LF] + Unlines(lines[1..])
  }

  /** The first line feed of `l + [LF] + r` is the one after `l`. */
  lemma FirstLineFeed(l: Bytes, r: Bytes)
    requires LF !in l
    ensures LF in l + [LF] + r
    ensures IndexOf(l + [LF] + r, LF) == |l|
  {
    var s := l + [LF] + r;
    assert s[|l|] == LF;
    var i := IndexOf(s, LF);
    assert forall j :: 0 <= j < |l| ==> s[j] == l[j];
  }

  /** `str::lines` recovers the lines of line-feed-terminated text, provided
      no line holds a line feed or ends in a carriage return. */
  lemma {:induction false} LinesUnlines(lines: seq<Bytes>)
    requires forall i :: 0 <= i < |lines| ==> LF !in lines[i] && !EndsWithCr(lines[i])
    ensures Lines(Unlines(lines)) == lines
  {
    if lines != [] {
      var l := lines[0];
      var r := Unlines(lines[1..]);
      var s := Unlines(lines);
      assert s == l + [LF] + r;
      FirstLineFeed(l, r);
      assert s[..|l|] == l && s[|l| + 1..] == r;
      LinesUnlines(lines[1..]);
    }
  }

  /** A carriage return directly before a line feed ends the line with it. */
  lemma LinesCrLf(l: Bytes, r: Bytes)
    requires LF !in l
    ensures Lines(l + [CR, LF] + r) == [l] + Lines(r)
  {
    var s := l + [CR, LF] + r;
    assert s == (l + [CR]) + [LF] + r;
    FirstLineFeed(l + [CR], r);
    assert s[..|l| + 1] == l + [CR] && s[|l| + 2..] == r;
  }

  /** The first line feed of `s` is still the first once more bytes follow. */
  lemma IndexOfAppend(s: Bytes, t: Bytes, b: Byte)
    requires b in s
    ensures b in s + t && IndexOf(s + t, b) == IndexOf(s, b)
  {
    var i := IndexOf(s, b);
    assert (s + t)[i] == b;
    var j := IndexOf(s + t, b);
    assert forall k :: 0 <= k < i ==> (s + t)[k] == s[k];
  }

  /** The lines with the carriage return taken off the last one. */
  function StripLast(lines: seq<Bytes>): (r: seq<Bytes>)
    requires lines != []
    ensures |r| == |lines| && r[..|r| - 1] == lines[..|lines| - 1]
  {
    lines[..|lines| - 1] + [StripCr(lines[|lines| - 1])]
  }

  /** `str::lines` takes the text up to the first line feed as a line. */
  lemma LinesAt(s: Bytes, i: nat)
    requires LF in s && i == IndexOf(s, LF)
    ensures Lines(s) == [StripCr(s[..i])] + Lines(s[i + 1..])
  {
  }

  /** A final line feed opens no further line: text without one has the same
      lines as with one, except that a carriage return ending the text stays
      in its last line unless the line feed follows it. */
  lemma {:induction false} LinesFinalLineFeed(s: Bytes)
    requires s != [] && s[|s| - 1] != LF
    ensures Lines(s) != [] && Lines(s + [LF]) == StripLast(Lines(s))
    decreases |s|
  {
    var t := s + [LF];
    if LF !in s {
      FirstLineFeed(s, []);
      assert t == s + [LF] + [];
      LinesAt(t, |s|);
      assert t[..|s|] == s && t[|s| + 1..] == [];
      assert Lines(s) == [s];
    } else {
      var i := IndexOf(s, LF);
      IndexOfAppend(s, [LF], LF);
      assert i < |s| - 1;
      var rest := s[i + 1..];
      assert t[..i] == s[..i] && t[i + 1..] == rest + [LF];
      LinesAt(s, i);
      LinesAt(t, i);
      LinesFinalLineFeed(rest);
      StripLastOfCons(StripCr(s[..i]), Lines(rest));
    }
  }

  /** Stripping the last line of `[line] + lines` strips that of `lines`. */
  lemma StripLastOfCons(line: Bytes, lines: seq<Bytes>)
    requires lines != []
    ensures StripLast([line] + lines) == [line] + StripLast(lines)
  {
    var a := [line] + lines;
    assert a[..|a| - 1] == [line] + lines[..|lines| - 1];
  }

  /** Stripping a last line that ends in no carriage return changes nothing. */
  lemma StripLastWithoutCr(lines: seq<Bytes>)
    requires lines != [] && !EndsWithCr(lines[|lines| - 1])
    ensures StripLast(lines) == lines
  {
    assert lines[..|lines| - 1] + [lines[|lines| - 1]] == lines;
  }

  /** In particular, unless the text ends in a carriage return, a final line
      feed changes nothing. */
  lemma NoFinalLineFeed(s: Bytes)
    requires s != [] && s[|s| - 1] != LF && s[|s| - 1] != CR
    ensures Lines(s + [LF]) == Lines(s)
  {
    LinesFinalLineFeed(s);
    LastLineEnds(s);
    StripLastWithoutCr(Lines(s));
  }

  /** The last line of a text that does not end in a line feed ends where
      the text ends. */
  lemma {:induction false} LastLineEnds(s: Bytes)
    requires s != [] && s[|s| - 1] != LF
    ensures Lines(s) != []
    ensures EndsWithCr(Lines(s)[|Lines(s)| - 1]) <==> s[|s| - 1] == CR
    decreases |s|
  {
    if LF !in s {
      assert Lines(s) == [s];
    } else {
      var i := IndexOf(s, LF);
      assert i < |s| - 1;
      var rest := s[i + 1..];
      var line := StripCr(s[..i]);
      LinesAt(s, i);
      LastLineEnds(rest);
      LastOfCons(line, Lines(rest), Lines(s));
      assert s[|s| - 1] == rest[|rest| - 1];
    }
  }

  lemma LastOfCons(line: Bytes, lines: seq<Bytes>, a: seq<Bytes>)
    requires lines != [] && a == [line] + lines
    ensures a != [] && a[|a| - 1] == lines[|lines| - 1]
  {
  }
}
