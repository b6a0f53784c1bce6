/**
 * When the pass stops. Each stop is a panicking `unwrap` or out-of-range
 * index in the source; here the failing line is characterised from the
 * input alone: an empty QNAME on any line, a missing or non-u16 FLAG on any
 * record, and a missing SEQ field only on a record that opens a group.
 */
module Faults {
  import opened Wrappers
  import opened Fields
  import opened Lines
  import opened Acceptance
  import opened Grouping
  import opened Scan
  import opened ScanProperties

  /** Whether `line`, read after `before`, starts a new group: no record yet, or another QNAME. */
  predicate OpensGroup(before: seq<string>, line: string) {
    var recs := Records(before);
    recs == [] || Name(Last(recs)) != Name(line)
  }

  /** The fault, if any, of `line` read after `before`. */
  function LineFault(before: seq<string>, line: string): Option<LineError> {
    var field := Split(line);
    if Name(line) == "" then Some(EmptyName)
    else if IsHeader(line) then None
    else if |field| < 2 then Some(MissingFlag)
    else if ParseU16(field[1]).None? then Some(InvalidFlag)
    else if OpensGroup(before, line) && |field| < 10 then Some(MissingSequence)
    else None
  }

  /** No line before index `n` has a fault. */
  predicate NoFaultBefore(lines: seq<string>, n: nat)
    requires n <= |lines|
  {
    forall i :: 0 <= i < n ==> LineFault(lines[..i], lines[i]).None?
  }

  /** The open group's QNAME is that of the last record read, or empty if there was none. */
  lemma OpenNameIsLastRecordName(lines: seq<string>, st: State)
    requires GroupTracked(lines, st)
    ensures st.read.qname == if Records(lines) == [] then "" else Name(Last(Records(lines)))
  {
    var recs := Records(lines);
    var runs := Runs(recs);
    RunsDecompose(recs);
    if runs != [] {
      LastRunFacts(runs, recs);
      LastRecord(runs, recs);
    } else {
      assert recs == Flatten(runs);
    }
  }

  /** One step stops exactly when the line has a fault, and with that fault. */
  lemma StepFault(param: FilterParam, lines: seq<string>, st: State, x: string)
    requires GroupTracked(lines, st)
    ensures var p := Step(param, st, x, |lines|);
      && (p.Going? <==> LineFault(lines, x).None?)
      && (p.Stopped? ==> p.at == |lines| && p.error == LineFault(lines, x).value)
  {
    OpenNameIsLastRecordName(lines, st);
  }

  lemma NoFaultPrefix(lines: seq<string>, n: nat)
    requires n <= |lines|
    ensures NoFaultBefore(lines, n) <==> NoFaultBefore(lines[..n], n)
  {
    assert forall i :: 0 <= i < n ==> lines[..n][..i] == lines[..i] && lines[..n][i] == lines[i];
  }

  /** A pass over a prefix goes on exactly when no line of it has a fault. */
  lemma {:induction false} ProcessGoingIff(param: FilterParam, lines: seq<string>)
    ensures Process(param, lines).Going? <==> NoFaultBefore(lines, |lines|)
    decreases |lines|
  {
    if lines != [] {
      var n := |lines| - 1;
      var front := lines[..n];
      ProcessGoingIff(param, front);
      NoFaultPrefix(lines, n);
      assert NoFaultBefore(lines, |lines|) <==> NoFaultBefore(lines, n) && LineFault(front, lines[n]).None?;
      if Process(param, front).Going? {
        ProcessConsistent(param, front);
        StepFault(param, front, Process(param, front).st, lines[n]);
      }
    }
  }

  /** Where a stopped pass stopped: the prefix before was fine and that line's step stopped it. */
  lemma {:induction false} StoppedAt(param: FilterParam, lines: seq<string>)
    requires Process(param, lines).Stopped?
    ensures var p := Process(param, lines);
      && p.at < |lines|
      && Process(param, lines[..p.at]).Going?
      && Step(param, Process(param, lines[..p.at]).st, lines[p.at], p.at) == p
    decreases |lines|
  {
    var n := |lines| - 1;
    var front := lines[..n];
    if Process(param, front).Stopped? {
      StoppedAt(param, front);
      var at := Process(param, front).at;
      assert front[..at] == lines[..at];
    } else {
      ProcessConsistent(param, front);
      StepFault(param, front, Process(param, front).st, lines[n]);
    }
  }

  /** The pass completes exactly when no line has a fault; the configuration plays no part. */
  lemma RunDoneIff(param: FilterParam, lines: seq<string>)
    ensures Run(param, lines).Done? <==> NoFaultBefore(lines, |lines|)
  {
    ProcessGoingIff(param, lines);
  }

  /**
   * A pass that aborts does so at the first faulty line, with its fault.
   * What was written by then is what the lines before it wrote, plus, for a
   * missing SEQ field, the flush of the open group, which the source performs
   * before it reads field 9.
   */
  lemma RunAbortsAtFirstFault(param: FilterParam, lines: seq<string>)
    requires Run(param, lines).Aborted?
    ensures var r := Run(param, lines);
      && r.at < |lines|
      && NoFaultBefore(lines, r.at)
      && LineFault(lines[..r.at], lines[r.at]) == Some(r.error)
      && Process(param, lines[..r.at]).Going?
      && var st := Process(param, lines[..r.at]).st;
         r.sinks == if r.error == MissingSequence then Finish(param, st).sinks else st.sinks
  {
    StoppedAt(param, lines);
    var at := Process(param, lines).at;
    var before := lines[..at];
    ProcessGoingIff(param, before);
    NoFaultPrefix(lines, at);
    ProcessConsistent(param, before);
    StepFault(param, before, Process(param, before).st, lines[at]);
  }
}
