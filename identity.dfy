/**
 * Where headers land in the output, and when the filter copies its input
 * unchanged. A header is written the moment it is read, so a header that
 * follows records overtakes the group still being buffered; only when every
 * header precedes every record is the output in input order.
 */
module Identity {
  import opened Wrappers
  import opened Fields
  import opened Lines
  import opened Acceptance
  import opened Grouping
  import opened Scan
  import opened ScanProperties

  /** No header comes after a record. */
  predicate HeadersFirst(lines: seq<string>) {
    forall i, j :: 0 <= i < j < |lines| && IsHeader(lines[j]) ==> IsHeader(lines[i])
  }

  /** The same condition read left to right: each header arrives before any record. */
  predicate HeadersLead(lines: seq<string>)
    decreases |lines|
  {
    lines == []
    || (var front := lines[..|lines| - 1];
        HeadersLead(front) && (IsHeader(Last(lines)) ==> Records(front) == []))
  }

  lemma {:induction false} AllHeadersNoRecords(lines: seq<string>)
    requires forall i :: 0 <= i < |lines| ==> IsHeader(lines[i])
    ensures Records(lines) == []
    decreases |lines|
  {
    if lines != [] {
      AllHeadersNoRecords(lines[..|lines| - 1]);
    }
  }

  /** Input with its headers first is its headers followed by its records. */
  lemma {:induction false} HeadersFirstSplit(lines: seq<string>)
    requires HeadersLead(lines)
    ensures lines == Headers(lines) + Records(lines)
    decreases |lines|
  {
    if lines != [] {
      var front := lines[..|lines| - 1];
      var x := Last(lines);
      assert lines == front + [x];
      HeadersFirstSplit(front);
      if IsHeader(x) {
        NoRecordsAllHeaders(front);
      }
    }
  }

  lemma {:induction false} HeadersFirstLead(lines: seq<string>)
    requires HeadersFirst(lines)
    ensures HeadersLead(lines)
    decreases |lines|
  {
    if lines != [] {
      var front := lines[..|lines| - 1];
      assert forall i :: 0 <= i < |front| ==> front[i] == lines[i];
      assert HeadersFirst(front);
      HeadersFirstLead(front);
      if IsHeader(Last(lines)) {
        assert forall i :: 0 <= i < |front| ==> IsHeader(front[i]) by {
          forall i | 0 <= i < |front| ensures IsHeader(front[i]) {
            assert front[i] == lines[i] && IsHeader(lines[|lines| - 1]);
          }
        }
        AllHeadersNoRecords(front);
      }
    }
  }

  /** Writing a flushed group keeps "headers, then records" when the headers come first. */
  lemma FlushKeepsHeadersLead(param: FilterParam, hs: seq<string>, st: State)
    requires st.sinks.output == hs + Records(st.sinks.output)
    requires forall j :: 0 <= j < |st.lineBuf| ==> !IsHeader(st.lineBuf[j])
    ensures var out := Flush(param, st).sinks.output; out == hs + Records(out)
  {
    var out := st.sinks.output;
    if Accepts(param, st.read) {
      FiltersAppend(out, st.lineBuf);
      FiltersOfRecords(st.lineBuf);
      assert Flush(param, st).sinks.output == out + st.lineBuf;
    }
  }

  /** One step keeps "headers, then records" in the output while the headers come first. */
  lemma HeadersLeadStep(param: FilterParam, front: seq<string>, st: State, x: string)
    requires st.sinks.output == Headers(front) + Records(st.sinks.output)
    requires forall j :: 0 <= j < |st.lineBuf| ==> !IsHeader(st.lineBuf[j])
    requires Records(front) == [] ==> Records(st.sinks.output) == []
    requires IsHeader(x) ==> Records(front) == []
    ensures var out' := (
        if IsHeader(x) then st.sinks.(output := st.sinks.output + [x])
        else if st.read.qname != Name(x) && st.read.qname != "" then Flush(param, st).sinks
        else st.sinks).output;
      out' == Headers(front + [x]) + Records(out')
  {
    var out := st.sinks.output;
    RecordsSnoc(front, x);
    if IsHeader(x) {
      RecordsSnoc(out, x);
    } else if st.read.qname != Name(x) && st.read.qname != "" {
      FlushKeepsHeadersLead(param, Headers(front), st);
    }
  }

  /** While the headers come first, the output so far is the headers read, then committed records. */
  lemma {:induction false} HeadersLeadOutput(param: FilterParam, lines: seq<string>)
    requires Process(param, lines).Going? && HeadersLead(lines)
    ensures var out := Process(param, lines).st.sinks.output;
      out == Headers(lines) + Records(out)
    decreases |lines|
  {
    if lines != [] {
      var front := lines[..|lines| - 1];
      var x := Last(lines);
      assert lines == front + [x];
      ProcessSnoc(param, lines);
      HeadersLeadOutput(param, front);
      ProcessBasics(param, front);
      var st := Process(param, front).st;
      StepSinks(param, st, x, |front|);
      HeadersLeadStep(param, front, st, x);
    }
  }

  /** The same for a whole pass, final flush included. */
  lemma RunHeadersLead(param: FilterParam, lines: seq<string>)
    requires Run(param, lines).Done? && HeadersLead(lines)
    ensures var out := Run(param, lines).sinks.output;
      out == Headers(lines) + Records(out)
  {
    HeadersLeadOutput(param, lines);
    ProcessBasics(param, lines);
    var st := Process(param, lines).st;
    if st.read.qname != "" {
      FlushKeepsHeadersLead(param, Headers(lines), st);
    }
  }

  /** A prefix of a prefix is a prefix. */
  lemma PrefixTransitive(a: seq<string>, b: seq<string>, c: seq<string>)
    requires a <= b && b <= c
    ensures a <= c
  {
    assert b == c[..|b|];
    assert a == b[..|a|];
    assert b[..|a|] == c[..|a|];
  }

  /** One step only appends to what was written. */
  lemma StepGrows(param: FilterParam, st: State, x: string, at: nat)
    requires Step(param, st, x, at).Going?
    ensures var after := Step(param, st, x, at).st.sinks;
      st.sinks.output <= after.output && st.sinks.qnames <= after.qnames
  {
    StepSinks(param, st, x, at);
  }

  /** The final flush only appends to what was written. */
  lemma FinishGrows(param: FilterParam, st: State)
    ensures var after := Finish(param, st).sinks;
      st.sinks.output <= after.output && st.sinks.qnames <= after.qnames
  {
  }

  /** Nothing written is ever taken back: what a prefix wrote begins what the longer input writes. */
  lemma {:induction false} OutputGrows(param: FilterParam, lines: seq<string>, j: nat)
    requires j <= |lines| && Process(param, lines).Going?
    ensures Process(param, lines[..j]).Going?
    ensures var early := Process(param, lines[..j]).st.sinks;
      var late := Process(param, lines).st.sinks;
      early.output <= late.output && early.qnames <= late.qnames
    decreases |lines|
  {
    if j == |lines| {
      assert lines[..j] == lines;
    } else {
      var front := lines[..|lines| - 1];
      ProcessSnoc(param, lines);
      OutputGrows(param, front, j);
      assert front[..j] == lines[..j];
      var st := Process(param, front).st;
      StepGrows(param, st, Last(lines), |front|);
      var early := Process(param, lines[..j]).st.sinks;
      PrefixTransitive(early.output, st.sinks.output, Process(param, lines).st.sinks.output);
      PrefixTransitive(early.qnames, st.sinks.qnames, Process(param, lines).st.sinks.qnames);
    }
  }

  /** What a header's own step writes: the header, after everything written before it. */
  lemma HeaderStepWrites(param: FilterParam, lines: seq<string>, i: nat)
    requires i < |lines| && Process(param, lines[..i]).Going? && IsHeader(lines[i])
    ensures Process(param, lines[..i + 1]).Going?
    ensures Process(param, lines[..i + 1]).st.sinks.output == Process(param, lines[..i]).st.sinks.output + [lines[i]]
  {
    ProcessNext(param, lines, i);
    StepSinks(param, Process(param, lines[..i]).st, lines[i], i);
  }

  /**
   * Where a header lands in a completed pass: right after the headers read
   * before it and the lines of the accepted runs already closed before it.
   * The run still open when it is read (the last run of the records before
   * it) is held back, so the header overtakes it.
   */
  lemma HeaderPlacement(param: FilterParam, lines: seq<string>, i: nat)
    requires Run(param, lines).Done? && i < |lines| && IsHeader(lines[i])
    ensures Process(param, lines[..i]).Going?
    ensures var st := Process(param, lines[..i]).st;
      var runs := Runs(Records(lines[..i]));
      && Headers(st.sinks.output) == Headers(lines[..i])
      && Records(st.sinks.output) == (if runs == [] then [] else Committed(param, Groups(runs[..|runs| - 1])))
      && (runs != [] ==> st.lineBuf == Last(runs))
      && st.sinks.output + [lines[i]] <= Run(param, lines).sinks.output
  {
    OutputGrows(param, lines, i);
    HeaderStepWrites(param, lines, i);
    OutputGrows(param, lines, i + 1);
    var st := Process(param, lines[..i]).st;
    ProcessConsistent(param, lines[..i]);
    var runs := Runs(Records(lines[..i]));
    if runs == [] {
      assert st.flushed == [];
    }
    var fin := Process(param, lines).st;
    FinishGrows(param, fin);
    PrefixTransitive(st.sinks.output + [lines[i]], fin.sinks.output, Run(param, lines).sinks.output);
  }

  /**
   * With every option at its default, every group's length strictly between
   * 0 and `u32::MAX`, and the headers first, the output is the input.
   */
  lemma DefaultsCopyInput(qnameOutput: bool, lines: seq<string>)
    requires Run(DefaultParam(qnameOutput), lines).Done?
    requires LengthsWithinDefaults(Runs(Records(lines)))
    requires HeadersFirst(lines)
    ensures Run(DefaultParam(qnameOutput), lines).sinks.output == lines
  {
    DefaultsKeepEverything(qnameOutput, lines);
    HeadersFirstLead(lines);
    RunHeadersLead(DefaultParam(qnameOutput), lines);
    HeadersFirstSplit(lines);
  }
}
