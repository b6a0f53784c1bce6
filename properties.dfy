/**
 * What the pass promises, proved about `Run`: headers pass through in
 * order, each maximal run of same-QNAME records is committed atomically
 * and in order, exactly one flush per run, and the pass stops exactly at
 * the first line that makes the source panic.
 */
module ScanProperties {
  import opened Wrappers
  import opened Fields
  import opened Lines
  import opened Acceptance
  import opened Grouping
  import opened Scan

  /** The open group and the flushed groups after reading `lines`, in terms of the maximal runs of their records. */
  ghost predicate GroupTracked(lines: seq<string>, st: State) {
    var runs := Runs(Records(lines));
    && (runs == [] ==> st.read == NoGroup && st.lineBuf == [] && st.flushed == [])
    && (runs != [] ==>
          && st.read == GroupOf(Last(runs)).read
          && st.read.qname != ""
          && st.lineBuf == Last(runs)
          && st.flushed == Groups(runs[..|runs| - 1]))
    && (forall j :: 0 <= j < |st.lineBuf| ==> !IsHeader(st.lineBuf[j]))
  }

  /** What was written after reading `lines`: all their headers, and the accepted flushed groups. */
  ghost predicate OutputTracked(param: FilterParam, lines: seq<string>, st: State) {
    && Headers(st.sinks.output) == Headers(lines)
    && Records(st.sinks.output) == Committed(param, st.flushed)
    && st.sinks.qnames == (if param.qnameOutput then CommittedNames(param, st.flushed) else [])
  }

  ghost predicate Consistent(param: FilterParam, lines: seq<string>, st: State) {
    GroupTracked(lines, st) && OutputTracked(param, lines, st)
  }

  lemma RecordsSnoc(lines: seq<string>, x: string)
    ensures Records(lines + [x]) == if IsHeader(x) then Records(lines) else Records(lines) + [x]
    ensures Headers(lines + [x]) == if IsHeader(x) then Headers(lines) + [x] else Headers(lines)
  {
    assert (lines + [x])[..|lines|] == lines;
  }

  lemma CommitSnoc(param: FilterParam, gs: seq<Group>, g: Group)
    ensures Committed(param, gs + [g]) == Committed(param, gs) + (if Accepts(param, g.read) then g.lines else [])
    ensures CommittedNames(param, gs + [g]) ==
      CommittedNames(param, gs) + (if Accepts(param, g.read) then [g.read.qname] else [])
  {
    assert (gs + [g])[..|gs|] == gs;
  }

  lemma GroupsSnoc(runs: seq<seq<string>>)
    requires runs != [] && forall k :: 0 <= k < |runs| ==> |runs[k]| > 0
    ensures Groups(runs) == Groups(runs[..|runs| - 1]) + [GroupOf(Last(runs))]
  {
  }

  /** The pass over a non-empty prefix that did not stop is one Step after the shorter prefix. */
  lemma ProcessSnoc(param: FilterParam, lines: seq<string>)
    requires lines != [] && Process(param, lines).Going?
    ensures Process(param, lines[..|lines| - 1]).Going?
    ensures Process(param, lines) ==
      Step(param, Process(param, lines[..|lines| - 1]).st, Last(lines), |lines| - 1)
  {
  }

  /** What one Step writes: the header itself, the flushed group, or nothing. */
  lemma StepSinks(param: FilterParam, st: State, x: string, at: nat)
    requires Step(param, st, x, at).Going?
    ensures Step(param, st, x, at).st.sinks ==
      if IsHeader(x) then st.sinks.(output := st.sinks.output + [x])
      else if st.read.qname != Name(x) && st.read.qname != "" then Flush(param, st).sinks
      else st.sinks
  {
  }

  /** A header is written at once and leaves the open group as it was. */
  lemma HeaderStep(param: FilterParam, lines: seq<string>, st: State, x: string)
    requires Consistent(param, lines, st) && IsHeader(x)
    ensures Consistent(param, lines + [x], st.(sinks := st.sinks.(output := st.sinks.output + [x])))
  {
    RecordsSnoc(lines, x);
    RecordsSnoc(st.sinks.output, x);
  }

  /** The runs after a record with the last run's QNAME: that run grows by one line. */
  lemma SameNameRuns(lines: seq<string>, x: string)
    requires !IsHeader(x)
    requires var runs := Runs(Records(lines)); runs != [] && Name(Last(runs)[0]) == Name(x)
    ensures var runs := Runs(Records(lines));
      var runs' := Runs(Records(lines + [x]));
      && runs' != []
      && runs'[..|runs'| - 1] == runs[..|runs| - 1]
      && Last(runs') == Last(runs) + [x]
  {
    RecordsSnoc(lines, x);
    RunsSnoc(Records(lines), x);
    var runs := Runs(Records(lines));
    var runs' := Runs(Records(lines + [x]));
    assert runs'[..|runs'| - 1] == runs[..|runs| - 1];
  }

  /** A record with the open group's QNAME joins it; only the supplementary state may change. */
  lemma SameNameStep(param: FilterParam, lines: seq<string>, st: State, x: string, flag: u16)
    requires Consistent(param, lines, st)
    requires !IsHeader(x) && Flag(x) == Some(flag) && st.read.qname == Name(x) && Name(x) != ""
    ensures Consistent(param, lines + [x],
      st.(read := st.read.(hasSupplementary := st.read.hasSupplementary || IsSupplementaryFlag(flag)),
          lineBuf := st.lineBuf + [x]))
  {
    var st' := st.(read := st.read.(hasSupplementary := st.read.hasSupplementary || IsSupplementaryFlag(flag)),
                   lineBuf := st.lineBuf + [x]);
    SameNameGroup(lines, st, x, flag);
    RecordsSnoc(lines, x);
    assert OutputTracked(param, lines + [x], st');
  }

  lemma SameNameGroup(lines: seq<string>, st: State, x: string, flag: u16)
    requires GroupTracked(lines, st)
    requires !IsHeader(x) && Flag(x) == Some(flag) && st.read.qname == Name(x) && Name(x) != ""
    ensures GroupTracked(lines + [x],
      st.(read := st.read.(hasSupplementary := st.read.hasSupplementary || IsSupplementaryFlag(flag)),
          lineBuf := st.lineBuf + [x]))
  {
    var runs := Runs(Records(lines));
    var runs' := Runs(Records(lines + [x]));
    SameNameRuns(lines, x);
    SameNameRead(Last(runs), st.read, x, flag);
    RecordAppended(st.lineBuf, x);
    assert st.flushed == Groups(runs'[..|runs'| - 1]);
  }

  /** The aggregated state of a run grown by a record of its QNAME. */
  lemma SameNameRead(run: seq<string>, read: Read, x: string, flag: u16)
    requires |run| > 0 && read == GroupOf(run).read && Flag(x) == Some(flag)
    ensures read.(hasSupplementary := read.hasSupplementary || IsSupplementaryFlag(flag)) == GroupOf(run + [x]).read
  {
    SupplementaryExtend(run, x);
    assert (run + [x])[0] == run[0];
  }

  /** Appending a record to a buffer of records leaves a buffer of records. */
  lemma RecordAppended(buf: seq<string>, x: string)
    requires !IsHeader(x) && forall j :: 0 <= j < |buf| ==> !IsHeader(buf[j])
    ensures forall j :: 0 <= j < |buf + [x]| ==> !IsHeader((buf + [x])[j])
  {
  }

  /** A record with another QNAME flushes the open group, if any, and opens a group of its own. */
  lemma NewNameStep(param: FilterParam, lines: seq<string>, st: State, x: string)
    requires Consistent(param, lines, st)
    requires !IsHeader(x) && st.read.qname != Name(x) && Name(x) != "" && |Split(x)| >= 10
    ensures var st' := if st.read.qname != "" then Flush(param, st) else st;
      Consistent(param, lines + [x],
        st'.(read := Read(Name(x), false, TruncateU32(|Split(x)[9]|)), lineBuf := [x]))
  {
    NewNameGroup(lines, st, x);
    RecordsSnoc(lines, x);
    if st.read.qname != "" {
      var g := Group(st.read, st.lineBuf);
      CommitSnoc(param, st.flushed, g);
      FiltersAppend(st.sinks.output, st.lineBuf);
      FiltersOfRecords(st.lineBuf);
    }
  }

  lemma NewNameGroup(lines: seq<string>, st: State, x: string)
    requires GroupTracked(lines, st)
    requires !IsHeader(x) && st.read.qname != Name(x) && Name(x) != "" && |Split(x)| >= 10
    ensures var st' := if st.read.qname != "" then st.(flushed := st.flushed + [Group(st.read, st.lineBuf)]) else st;
      GroupTracked(lines + [x], st'.(read := Read(Name(x), false, TruncateU32(|Split(x)[9]|)), lineBuf := [x]))
  {
    RecordsSnoc(lines, x);
    var runs := Runs(Records(lines));
    RunsSnoc(Records(lines), x);
    var runs' := Runs(Records(lines + [x]));
    assert runs' == runs + [[x]];
    assert runs'[..|runs'| - 1] == runs;
    assert !SupplementaryAfterFirst([x]);
    if st.read.qname != "" {
      assert Group(st.read, st.lineBuf) == GroupOf(Last(runs));
      GroupsSnoc(runs);
    }
  }

  /** The state after any prefix that did not stop is Consistent with that prefix. */
  lemma {:induction false} ProcessConsistent(param: FilterParam, lines: seq<string>)
    requires Process(param, lines).Going?
    ensures Consistent(param, lines, Process(param, lines).st)
    decreases |lines|
  {
    if lines == [] {
      assert Records(lines) == [];
    } else {
      var front := lines[..|lines| - 1];
      var x := Last(lines);
      assert lines == front + [x];
      ProcessConsistent(param, front);
      var st := Process(param, front).st;
      var field := Split(x);
      if field[0][0] == '@' {
        HeaderStep(param, front, st, x);
      } else if st.read.qname == field[0] {
        SameNameStep(param, front, st, x, ParseU16(field[1]).value);
      } else {
        NewNameStep(param, front, st, x);
      }
    }
  }

  /** Two consequences of Consistent: the buffer holds records only, and nothing but headers is written before the first record. */
  lemma ProcessBasics(param: FilterParam, lines: seq<string>)
    requires Process(param, lines).Going?
    ensures var st := Process(param, lines).st;
      && (forall j :: 0 <= j < |st.lineBuf| ==> !IsHeader(st.lineBuf[j]))
      && (Records(lines) == [] ==> Records(st.sinks.output) == [] && st.read.qname == "")
  {
    ProcessConsistent(param, lines);
  }

  /** The final flush hands over the last open group, if any. */
  lemma FinishConsistent(param: FilterParam, lines: seq<string>, st: State)
    requires Consistent(param, lines, st)
    ensures var fin := Finish(param, st);
      var gs := Groups(Runs(Records(lines)));
      && fin.flushed == gs
      && Headers(fin.sinks.output) == Headers(lines)
      && Records(fin.sinks.output) == Committed(param, gs)
      && fin.sinks.qnames == (if param.qnameOutput then CommittedNames(param, gs) else [])
  {
    var runs := Runs(Records(lines));
    if runs != [] {
      var g := Group(st.read, st.lineBuf);
      assert g == GroupOf(Last(runs));
      GroupsSnoc(runs);
      CommitSnoc(param, st.flushed, g);
      FiltersAppend(st.sinks.output, st.lineBuf);
      FiltersOfRecords(st.lineBuf);
    }
  }

  /**
   * The main theorem: a pass that does not stop writes every header, in
   * order, and its record part is the lines of the accepted maximal runs,
   * run after run (where the headers fall among them is stated by
   * `Identity.HeaderPlacement`); the QNAME file gets one name per accepted
   * run in the same order; and `write_filter` is called once per run, on
   * that run.
   */
  lemma RunCommitsAcceptedRuns(param: FilterParam, lines: seq<string>)
    requires Run(param, lines).Done?
    ensures var out := Run(param, lines).sinks;
      var gs := Groups(Runs(Records(lines)));
      && Headers(out.output) == Headers(lines)
      && Records(out.output) == Committed(param, gs)
      && out.qnames == (if param.qnameOutput then CommittedNames(param, gs) else [])
      && FlushLog(param, lines) == gs
      && |FlushLog(param, lines)| == |Runs(Records(lines))|
  {
    ProcessConsistent(param, lines);
    FinishConsistent(param, lines, Process(param, lines).st);
  }

  /** Input without records: nothing is flushed and exactly the headers are written. */
  lemma NoRecordsNoFlush(param: FilterParam, lines: seq<string>)
    requires Run(param, lines).Done? && Records(lines) == []
    ensures FlushLog(param, lines) == []
    ensures Run(param, lines).sinks == Sinks(lines, [])
  {
    RunCommitsAcceptedRuns(param, lines);
    HeadersRecordsPartition(lines);
    var out := Run(param, lines).sinks.output;
    NoRecordsAllHeaders(out);
    NoRecordsAllHeaders(lines);
  }

  /** A sequence with no record part is all headers. */
  lemma {:induction false} NoRecordsAllHeaders(lines: seq<string>)
    requires Records(lines) == []
    ensures Headers(lines) == lines
    decreases |lines|
  {
    if lines != [] {
      NoRecordsAllHeaders(lines[..|lines| - 1]);
    }
  }

  /** When every run is accepted, the committed lines are all the records and the names one per run. */
  lemma {:induction false} AllAcceptedCommitAll(param: FilterParam, runs: seq<seq<string>>)
    requires forall k :: 0 <= k < |runs| ==> |runs[k]| > 0
    requires forall k :: 0 <= k < |runs| ==> Accepts(param, GroupOf(runs[k]).read)
    ensures Committed(param, Groups(runs)) == Flatten(runs)
    ensures |CommittedNames(param, Groups(runs))| == |runs|
    decreases |runs|
  {
    if runs != [] {
      AllAcceptedCommitAll(param, runs[..|runs| - 1]);
      GroupsSnoc(runs);
      CommitSnoc(param, Groups(runs[..|runs| - 1]), GroupOf(Last(runs)));
    }
  }

  /** When no run is accepted, nothing but headers is written. */
  lemma {:induction false} NoneAcceptedCommitNothing(param: FilterParam, gs: seq<Group>)
    requires forall k :: 0 <= k < |gs| ==> !Accepts(param, gs[k].read)
    ensures Committed(param, gs) == [] && CommittedNames(param, gs) == []
    decreases |gs|
  {
    if gs != [] {
      NoneAcceptedCommitNothing(param, gs[..|gs| - 1]);
    }
  }

  /**
   * With every option at its default and every group's length strictly
   * between 0 and `u32::MAX`, all records and all headers are written; an
   * input without headers is copied exactly.
   */
  lemma DefaultsKeepEverything(qnameOutput: bool, lines: seq<string>)
    requires Run(DefaultParam(qnameOutput), lines).Done?
    requires LengthsWithinDefaults(Runs(Records(lines)))
    ensures var out := Run(DefaultParam(qnameOutput), lines).sinks.output;
      && Records(out) == Records(lines)
      && Headers(out) == Headers(lines)
      && (Headers(lines) == [] ==> out == lines)
  {
    var param := DefaultParam(qnameOutput);
    var runs := Runs(Records(lines));
    DefaultsAcceptAll(qnameOutput, runs);
    AllAcceptedCommitAll(param, runs);
    RunsDecompose(Records(lines));
    RunCommitsAcceptedRuns(param, lines);
    var out := Run(param, lines).sinks.output;
    assert Records(out) == Records(lines);
    if Headers(lines) == [] {
      NoHeadersAllRecords(out);
      NoHeadersAllRecords(lines);
    }
  }

  /** Every run's length (that of its first line) lies strictly between the default bounds. */
  predicate LengthsWithinDefaults(runs: seq<seq<string>>)
    requires forall k :: 0 <= k < |runs| ==> |runs[k]| > 0
  {
    forall k :: 0 <= k < |runs| ==> 0 < SeqLen(runs[k][0]) < U32_MAX
  }

  lemma DefaultsAcceptAll(qnameOutput: bool, runs: seq<seq<string>>)
    requires forall k :: 0 <= k < |runs| ==> |runs[k]| > 0
    requires LengthsWithinDefaults(runs)
    ensures forall k :: 0 <= k < |runs| ==> Accepts(DefaultParam(qnameOutput), GroupOf(runs[k]).read)
  {
    forall k | 0 <= k < |runs| ensures Accepts(DefaultParam(qnameOutput), GroupOf(runs[k]).read) {
      DefaultAccepts(qnameOutput, GroupOf(runs[k]).read);
    }
  }

  /** Equal length bounds reject every group: the output is exactly the headers, the QNAME file stays empty. */
  lemma EqualBoundsKeepHeadersOnly(param: FilterParam, lines: seq<string>)
    requires Run(param, lines).Done? && param.greaterLen == param.smallerLen
    ensures Run(param, lines).sinks == Sinks(Headers(lines), [])
  {
    var gs := Groups(Runs(Records(lines)));
    forall k | 0 <= k < |gs| ensures !Accepts(param, gs[k].read) {
      EqualBoundsRejectAll(param, gs[k].read);
    }
    NoneAcceptedCommitNothing(param, gs);
    RunCommitsAcceptedRuns(param, lines);
    NoRecordsAllHeaders(Run(param, lines).sinks.output);
  }
}
