/** The byte channel of src/io.rs: `write_to` hands bytes to an output and
    maps a failure to the library's "failed to write" error; `write` does
    the same on standard output. */
module Io {
  import opened Errors
  import opened Text

  const WRITE_FAILED := "failed to write"

  /** An output the library writes to (standard output or any `dyn Write`).
      `data` is everything it has accepted so far. Whether a write fails is
      decided outside the program; `budget` stands for that decision: the
      number of further write calls the output completes, after which every
      write fails. */
  class Sink {
    var data: Bytes
    var budget: nat

    constructor (budget: nat)
      ensures data == [] && this.budget == budget
    {
      data := [];
      this.budget := budget;
    }
  }

  /** What one write call does to `output`'s state: with budget left, the
      content is appended whole and one unit of budget spent; otherwise
      nothing changes. */
  twostate predicate Sent(output: Sink, content: Bytes)
    reads output
  {
    if old(output.budget) == 0 then
      output.data == old(output.data) && output.budget == 0
    else
      output.data == old(output.data) + content && output.budget == old(output.budget) - 1
  }

  /** One write call, with its result: the length written, or the error. */
  twostate predicate Wrote(output: Sink, content: Bytes, new r: Result<nat>)
    reads output
  {
    && Sent(output, content)
    && r == if old(output.budget) == 0 then Err(Failure(WRITE_FAILED)) else Ok(|content|)
  }

  /** `write_to(output, content)`; `write(content)` is this call on the
      standard-output sink. */
  method WriteTo(output: Sink, content: Bytes) returns (r: Result<nat>)
    modifies output
    ensures Wrote(output, content, r)
  {
    if output.budget == 0 {
      return Err(Failure(WRITE_FAILED));
    }
    output.data := output.data + content;
    output.budget := output.budget - 1;
    r := Ok(|content|);
  }
}
