/**
 * `filter`: one forward pass over the input lines. Headers are written at
 * once; records are gathered into the open group (`read` and `lineBuf`),
 * which is flushed through `write_filter` when a record with another QNAME
 * arrives and once more at the end of the input.
 *
 * `Step`, `Process` and `Run` give the pass as a function of the lines read
 * so far; the method `Filter` is the loop itself, proved equal to `Run`.
 * The properties of `Run` are proved in module ScanProperties.
 */
module Scan {
  import opened Wrappers
  import opened Fields
  import opened Lines
  import opened Acceptance

  /**
   * The state between two lines: the open group, its buffered lines, what
   * was written, and (for the proofs) every group handed to `write_filter`.
   */
  datatype State = State(read: Read, lineBuf: seq<string>, sinks: Sinks, flushed: seq<Group>)

  /** Either the pass goes on, or a line made it stop (a panic in the source). */
  datatype Progress = Going(st: State) | Stopped(at: nat, error: LineError, sinks: Sinks)

  /** The end of a pass: finished, or stopped at line `at` with what had been written by then. */
  datatype Outcome = Done(sinks: Sinks) | Aborted(at: nat, error: LineError, sinks: Sinks)

  const Start: State := State(NoGroup, [], NoOutput, [])

  /** Hand the open group to `write_filter`. */
  function Flush(param: FilterParam, st: State): State {
    var g := Group(st.read, st.lineBuf);
    st.(sinks := Commit(param, st.sinks, g), flushed := st.flushed + [g])
  }

  /** One iteration of the loop, on the line at index `at`. */
  function Step(param: FilterParam, st: State, line: string, at: nat): Progress {
    var field := Split(line);
    var name := field[0];
    if |name| == 0 then Stopped(at, EmptyName, st.sinks)
    else if name[0] == '@' then Going(st.(sinks := st.sinks.(output := st.sinks.output + [line])))
    else if |field| < 2 then Stopped(at, MissingFlag, st.sinks)
    else if ParseU16(field[1]).None? then Stopped(at, InvalidFlag, st.sinks)
    else if st.read.qname == name then
      var flag := ParseU16(field[1]).value;
      var supplementary := st.read.hasSupplementary || IsSupplementaryFlag(flag);
      Going(st.(read := st.read.(hasSupplementary := supplementary), lineBuf := st.lineBuf + [line]))
    else
      var st' := if st.read.qname != "" then Flush(param, st) else st;
      if |field| < 10 then Stopped(at, MissingSequence, st'.sinks)
      else Going(st'.(read := Read(name, false, TruncateU32(|field[9]|)), lineBuf := [line]))
  }

  /** The pass over a prefix of the input. */
  function Process(param: FilterParam, lines: seq<string>): Progress
    decreases |lines|
  {
    if lines == [] then Going(Start)
    else
      match Process(param, lines[..|lines| - 1])
      case Stopped(at, e, s) => Stopped(at, e, s)
      case Going(st) => Step(param, st, lines[|lines| - 1], |lines| - 1)
  }

  /** The flush after the loop, when a record was ever seen. */
  function Finish(param: FilterParam, st: State): State {
    if st.read.qname != "" then Flush(param, st) else st
  }

  /** The whole pass: the loop, then the final flush. */
  function Run(param: FilterParam, lines: seq<string>): Outcome {
    match Process(param, lines)
    case Stopped(at, e, s) => Aborted(at, e, s)
    case Going(st) => Done(Finish(param, st).sinks)
  }

  /** The groups handed to `write_filter` over a whole pass that did not stop. */
  function FlushLog(param: FilterParam, lines: seq<string>): seq<Group>
    requires Process(param, lines).Going?
  {
    Finish(param, Process(param, lines).st).flushed
  }

  /** Once a line stops the pass, later lines change nothing. */
  lemma {:induction false} StoppedPersists(param: FilterParam, lines: seq<string>, j: nat, k: nat)
    requires j <= k <= |lines|
    requires Process(param, lines[..j]).Stopped?
    ensures Process(param, lines[..k]) == Process(param, lines[..j])
    decreases k
  {
    if k > j {
      StoppedPersists(param, lines, j, k - 1);
      assert lines[..k][..k - 1] == lines[..k - 1];
    }
  }

  /** The pass over one more line is one more step. */
  lemma ProcessNext(param: FilterParam, lines: seq<string>, i: nat)
    requires i < |lines| && Process(param, lines[..i]).Going?
    ensures Process(param, lines[..i + 1]) == Step(param, Process(param, lines[..i]).st, lines[i], i)
  {
    assert lines[..i + 1][..i] == lines[..i];
  }

  /** A line that stops the pass decides its outcome. */
  lemma AbortAt(param: FilterParam, lines: seq<string>, i: nat)
    requires i < |lines| && Process(param, lines[..i + 1]).Stopped?
    ensures var p := Process(param, lines[..i + 1]); Run(param, lines) == Aborted(p.at, p.error, p.sinks)
  {
    StoppedPersists(param, lines, i + 1, |lines|);
    assert lines[..|lines|] == lines;
  }

  /**
   * The loop of `filter`. The sinks start empty; `flushed` records, for the
   * proofs only, each group passed to `write_filter`.
   */
  method Filter(lines: seq<string>, param: FilterParam) returns (outcome: Outcome, ghost flushed: seq<Group>)
    ensures outcome == Run(param, lines)
    ensures outcome.Done? ==> flushed == FlushLog(param, lines)
  {
    var lineBuf: seq<string> := [];
    var read := NoGroup;
    var sinks := NoOutput;
    flushed := [];
    var i := 0;
    while i < |lines|
      invariant 0 <= i <= |lines|
      invariant Process(param, lines[..i]) == Going(State(read, lineBuf, sinks, flushed))
    {
      var line := lines[i];
      ProcessNext(param, lines, i);
      var field := Split(line);
      var name := field[0];
      if |name| == 0 {
        outcome := Aborted(i, EmptyName, sinks);
        AbortAt(param, lines, i);
        return;
      }
      if name[0] == '@' {
        sinks := sinks.(output := sinks.output + [line]);
        assert Process(param, lines[..i + 1]) == Going(State(read, lineBuf, sinks, flushed));
      } else {
        if |field| < 2 {
          outcome := Aborted(i, MissingFlag, sinks);
          AbortAt(param, lines, i);
          return;
        }
        var parsed := ParseU16(field[1]);
        if parsed.None? {
          outcome := Aborted(i, InvalidFlag, sinks);
          AbortAt(param, lines, i);
          return;
        }
        var flag := parsed.value;
        if read.qname == name {
          if IsSupplementaryFlag(flag) {
            read := read.(hasSupplementary := true);
          }
          lineBuf := lineBuf + [line];
          assert Process(param, lines[..i + 1]) == Going(State(read, lineBuf, sinks, flushed));
        } else {
          if read.qname != "" {
            sinks := WriteFilter(lineBuf, read, param, sinks);
            flushed := flushed + [Group(read, lineBuf)];
          }
          read := read.(qname := name);
          read := read.(hasSupplementary := false);
          if |field| < 10 {
            outcome := Aborted(i, MissingSequence, sinks);
            AbortAt(param, lines, i);
            return;
          }
          read := read.(len := TruncateU32(|field[9]|));
          lineBuf := [line];
          assert Process(param, lines[..i + 1]) == Going(State(read, lineBuf, sinks, flushed));
        }
      }
      i := i + 1;
    }
    assert lines[..|lines|] == lines;
    if read.qname != "" {
      sinks := WriteFilter(lineBuf, read, param, sinks);
      flushed := flushed + [Group(read, lineBuf)];
    }
    outcome := Done(sinks);
  }
}
