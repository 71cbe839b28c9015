/** Raw mode (src/raw.rs): a `Termios` keeps two copies of standard input's
    termios settings taken when it is created, `original` and `raw`; `raw()`
    turns the second copy into raw settings in place and installs it,
    `original()` installs the first copy again. Flag values and the layout of
    the settings are Linux's. */
module Raw {
  import opened Errors
  import opened Text

  const GET_FAILED := "failed to get termios from stdin"
  const RAW_FAILED := "failed to set raw termios settings"
  const RESTORE_FAILED := "failed to restore original termios settings"

  // Local flags (`c_lflag`).
  const ISIG: bv32 := 0x1
  const ICANON: bv32 := 0x2
  const ECHO: bv32 := 0x8
  const IEXTEN: bv32 := 0x8000
  // Input flags (`c_iflag`).
  const ICRNL: bv32 := 0x100
  const IXON: bv32 := 0x400
  // Output flags (`c_oflag`).
  const OPOST: bv32 := 0x1
  // Control characters (`c_cc`).
  const NCCS := 32
  const VTIME := 5
  const VMIN := 6

  /** The bits `raw()` clears in each flag word. */
  const LOCAL_OFF: bv32 := ECHO | ICANON | IEXTEN
  const INPUT_OFF: bv32 := IXON | ICRNL
  const OUTPUT_OFF: bv32 := OPOST

  /** The value of one `termios` structure. */
  datatype Settings = Settings(
    iflag: bv32, oflag: bv32, cflag: bv32, lflag: bv32,
    line: bv8, cc: seq<bv8>, ispeed: bv32, ospeed: bv32)

  /** Settings with the fixed-size control-character table. */
  type Attributes = s: Settings | |s.cc| == NCCS
    witness Settings(0, 0, 0, 0, 0, seq(NCCS, _ => 0), 0, 0)

  /** What `raw()` makes of a copy of the settings: echo, canonical input and
      extended input processing off (signals stay on), no software flow
      control, no carriage-return translation on input, no output
      post-processing, and reads that return after a tenth of a second
      with whatever arrived, possibly nothing. */
  function MakeRaw(a: Attributes): (r: Attributes)
    ensures r.lflag & LOCAL_OFF == 0 && r.lflag & !LOCAL_OFF == a.lflag & !LOCAL_OFF
    ensures r.iflag & INPUT_OFF == 0 && r.iflag & !INPUT_OFF == a.iflag & !INPUT_OFF
    ensures r.oflag & OUTPUT_OFF == 0 && r.oflag & !OUTPUT_OFF == a.oflag & !OUTPUT_OFF
    ensures r.cc[VTIME] == 1 && r.cc[VMIN] == 0
    ensures forall i :: 0 <= i < NCCS && i != VTIME && i != VMIN ==> r.cc[i] == a.cc[i]
    ensures r.cflag == a.cflag && r.line == a.line && r.ispeed == a.ispeed && r.ospeed == a.ospeed
  {
    a.(lflag := a.lflag & !LOCAL_OFF,
       iflag := a.iflag & !INPUT_OFF,
       oflag := a.oflag & !OUTPUT_OFF,
       cc := a.cc[VTIME := 1][VMIN := 0])
  }

  /** Settings that are already raw in the sense of `MakeRaw`. */
  predicate IsRaw(a: Attributes) {
    && a.lflag & LOCAL_OFF == 0
    && a.iflag & INPUT_OFF == 0
    && a.oflag & OUTPUT_OFF == 0
    && a.cc[VTIME] == 1 && a.cc[VMIN] == 0
  }

  lemma ClearedBitsStayClear(x: bv32, m: bv32)
    requires x & m == 0
    ensures x & !m == x
  {
  }

  /** `MakeRaw` yields raw settings, and raw settings are exactly the ones it
      leaves alone. */
  lemma RawFixedPoints(a: Attributes)
    ensures IsRaw(MakeRaw(a))
    ensures IsRaw(a) <==> MakeRaw(a) == a
  {
    if IsRaw(a) {
      ClearedBitsStayClear(a.lflag, LOCAL_OFF);
      ClearedBitsStayClear(a.iflag, INPUT_OFF);
      ClearedBitsStayClear(a.oflag, OUTPUT_OFF);
      assert a.cc[VTIME := 1][VMIN := 0] == a.cc;
    }
  }

  /** Calling `raw()` again on the stored copy changes nothing more. */
  lemma MakeRawIdempotent(a: Attributes)
    ensures MakeRaw(MakeRaw(a)) == MakeRaw(a)
  {
    RawFixedPoints(a);
    RawFixedPoints(MakeRaw(a));
  }

  /** Signal generation is left as it was: Ctrl-C still interrupts. */
  lemma MakeRawKeepsSignals(a: Attributes)
    ensures MakeRaw(a).lflag & ISIG == a.lflag & ISIG
  {
    var r := MakeRaw(a);
    assert ISIG & LOCAL_OFF == 0;
    assert r.lflag & ISIG == (r.lflag & !LOCAL_OFF) & ISIG;
    assert a.lflag & ISIG == (a.lflag & !LOCAL_OFF) & ISIG;
  }

  /** Standard input's terminal. `attributes` are the settings in force and
      `input` the bytes received but not yet read. Whether a call that reads
      or installs settings fails is decided outside the program; `getsLeft` and
      `setsLeft` stand for that decision: the number of further calls of each
      kind that succeed, after which every such call fails. */
  class Terminal {
    var attributes: Attributes
    var input: Bytes
    var getsLeft: nat
    var setsLeft: nat

    constructor (attributes: Attributes, input: Bytes, getsLeft: nat, setsLeft: nat)
      ensures this.attributes == attributes && this.input == input
      ensures this.getsLeft == getsLeft && this.setsLeft == setsLeft
    {
      this.attributes := attributes;
      this.input := input;
      this.getsLeft := getsLeft;
      this.setsLeft := setsLeft;
    }
  }

  /** A `termios` structure in memory, updated field by field; `cc` is its
      fixed-size control-character array. */
  class TermiosStruct {
    var iflag: bv32
    var oflag: bv32
    var cflag: bv32
    var lflag: bv32
    var line: bv8
    const cc: array<bv8>
    var ispeed: bv32
    var ospeed: bv32

    ghost predicate Valid()
      reads this
    {
      cc.Length == NCCS
    }

    function Value(): Attributes
      requires Valid()
      reads this, cc
    {
      Settings(iflag, oflag, cflag, lflag, line, cc[..], ispeed, ospeed)
    }

    constructor (a: Attributes)
      ensures Valid() && fresh(cc) && Value() == a
    {
      iflag, oflag, cflag, lflag := a.iflag, a.oflag, a.cflag, a.lflag;
      line, ispeed, ospeed := a.line, a.ispeed, a.ospeed;
      var table := new bv8[NCCS];
      forall i | 0 <= i < NCCS {
        table[i] := a.cc[i];
      }
      cc := table;
      new;
      assert cc[..] == a.cc;
    }

    /** The edits `raw()` makes to its copy: the bits of each flag word
        cleared with a mask, and the two timing slots of the control table
        overwritten. */
    method SwitchToRaw()
      requires Valid()
      modifies this, cc
      ensures Valid() && Value() == MakeRaw(old(Value()))
    {
      ghost var before := Value();
      lflag := lflag & !(ECHO | ICANON | IEXTEN);
      iflag := iflag & !(IXON | ICRNL);
      oflag := oflag & !OPOST;
      cc[VTIME] := 1;
      cc[VMIN] := 0;
      assert cc[..] == before.cc[VTIME := 1][VMIN := 0];
    }
  }

  /** `termios_()`: a fresh copy of standard input's settings, or the error
      when they cannot be read. Only the count of successful reads left
      changes. */
  method GetAttributes(device: Terminal) returns (r: Result<TermiosStruct>)
    modifies device
    ensures r.Err? <==> old(device.getsLeft) == 0
    ensures r.Err? ==> r.error == Failure(GET_FAILED) && device.getsLeft == 0
    ensures r.Ok? ==> device.getsLeft == old(device.getsLeft) - 1
    ensures r.Ok? ==> fresh(r.value) && fresh(r.value.cc) && r.value.Valid()
    ensures r.Ok? ==> r.value.Value() == device.attributes
    ensures device.attributes == old(device.attributes) && device.input == old(device.input)
    ensures device.setsLeft == old(device.setsLeft)
  {
    if device.getsLeft == 0 {
      return Err(Failure(GET_FAILED));
    }
    device.getsLeft := device.getsLeft - 1;
    var copy := new TermiosStruct(device.attributes);
    r := Ok(copy);
  }

  /** What `tcsetattr(STDIN_FILENO, TCSAFLUSH, …)` with settings `a` did,
      reported with `message` on failure: on success the settings are in
      force and input received but not read is discarded; on failure
      nothing changed. */
  twostate predicate Installed(device: Terminal, a: Attributes, message: string, new r: Result<()>)
    reads device
  {
    && device.getsLeft == old(device.getsLeft)
    && if old(device.setsLeft) == 0 then
         && r == Err(Failure(message))
         && device.setsLeft == 0
         && device.attributes == old(device.attributes)
         && device.input == old(device.input)
       else
         && r == Ok(())
         && device.setsLeft == old(device.setsLeft) - 1
         && device.attributes == a
         && device.input == []
  }

  method SetAttributes(device: Terminal, settings: TermiosStruct, message: string) returns (r: Result<()>)
    requires settings.Valid()
    modifies device
    ensures Installed(device, settings.Value(), message, r)
  {
    if device.setsLeft == 0 {
      return Err(Failure(message));
    }
    device.setsLeft := device.setsLeft - 1;
    device.attributes := settings.Value();
    device.input := [];
    r := Ok(());
  }

  /** The `Termios` of src/raw.rs, bound to the terminal it reads from. */
  class Termios {
    const device: Terminal
    const original: TermiosStruct
    const raw: TermiosStruct

    /** The two copies are separate structures with separate tables. */
    ghost predicate Valid()
      reads this, original, raw
    {
      && original != raw && original.cc != raw.cc
      && original.Valid() && raw.Valid()
    }

    constructor (device: Terminal, original: TermiosStruct, raw: TermiosStruct)
      requires original != raw && original.cc != raw.cc && original.Valid() && raw.Valid()
      ensures this.device == device && this.original == original && this.raw == raw
      ensures Valid()
    {
      this.device := device;
      this.original := original;
      this.raw := raw;
    }

    /** `Termios::new()`: both copies hold the settings in force, each read
        separately; either read failing fails the whole call. */
    static method New(device: Terminal) returns (r: Result<Termios>)
      modifies device
      ensures r.Err? <==> old(device.getsLeft) < 2
      ensures r.Err? ==> r.error == Failure(GET_FAILED) && device.getsLeft == 0
      ensures r.Ok? ==> device.getsLeft == old(device.getsLeft) - 2
      ensures r.Ok? ==> var t := r.value;
        && fresh(t) && fresh(t.original) && fresh(t.raw) && fresh(t.original.cc) && fresh(t.raw.cc)
        && t.Valid() && t.device == device
        && t.original.Value() == device.attributes && t.raw.Value() == device.attributes
      ensures device.attributes == old(device.attributes) && device.input == old(device.input)
      ensures device.setsLeft == old(device.setsLeft)
    {
      var original :- GetAttributes(device);
      var raw :- GetAttributes(device);
      var t := new Termios(device, original, raw);
      r := Ok(t);
    }

    /** `raw()`: the stored raw copy is made raw even when installing it
        fails; the original copy is untouched. */
    method Raw() returns (r: Result<()>)
      requires Valid()
      modifies raw, raw.cc, device
      ensures Valid()
      ensures raw.Value() == MakeRaw(old(raw.Value()))
      ensures original.Value() == old(original.Value())
      ensures Installed(device, raw.Value(), RAW_FAILED, r)
    {
      raw.SwitchToRaw();
      r := SetAttributes(device, raw, RAW_FAILED);
    }

    /** `original()`: installs the settings captured at creation. */
    method Original() returns (r: Result<()>)
      requires Valid()
      modifies device
      ensures Installed(device, original.Value(), RESTORE_FAILED, r)
    {
      r := SetAttributes(device, original, RESTORE_FAILED);
    }
  }

  /** The documented use of `Termios`: capture, switch to raw mode, work,
      switch back; `during` is what the terminal was set to in between. When
      every call succeeds, the terminal ends as it began and was raw in
      between; when switching back is what fails, it is left raw. */
  method RawSession(device: Terminal) returns (r: Result<()>, during: Attributes)
    modifies device
    ensures old(device.getsLeft) < 2 ==>
      r == Err(Failure(GET_FAILED)) && device.attributes == old(device.attributes)
    ensures old(device.getsLeft) >= 2 && old(device.setsLeft) == 0 ==>
      r == Err(Failure(RAW_FAILED)) && device.attributes == old(device.attributes)
    ensures old(device.getsLeft) >= 2 && old(device.setsLeft) == 1 ==>
      r == Err(Failure(RESTORE_FAILED)) && device.attributes == MakeRaw(old(device.attributes))
    ensures old(device.getsLeft) >= 2 && old(device.setsLeft) >= 2 ==>
      && r == Ok(())
      && during == MakeRaw(old(device.attributes))
      && device.attributes == old(device.attributes)
  {
    during := device.attributes;
    var termios :- Termios.New(device);
    var _ :- termios.Raw();
    during := device.attributes;
    r := termios.Original();
  }

  /** `original()` without `raw()` first: when the calls succeed the
      terminal keeps the settings it had, and only its unread input is
      discarded. */
  method CaptureAndRestore(device: Terminal) returns (r: Result<()>)
    modifies device
    ensures old(device.getsLeft) < 2 ==> r == Err(Failure(GET_FAILED))
    ensures old(device.getsLeft) >= 2 && old(device.setsLeft) == 0 ==> r == Err(Failure(RESTORE_FAILED))
    ensures old(device.getsLeft) >= 2 && old(device.setsLeft) >= 1 ==> r == Ok(()) && device.input == []
    ensures device.attributes == old(device.attributes)
  {
    var termios :- Termios.New(device);
    r := termios.Original();
  }
}
