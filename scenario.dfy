/**
 * Whole passes over small inputs of well-formed records, worked out from
 * the general theorems: the selection of a group by its supplementary
 * records, and the consequence of never testing a group's opening FLAG.
 */
module Scenario {
  import opened Wrappers
  import opened Fields
  import opened Lines
  import opened Acceptance
  import opened Modes
  import opened Grouping
  import opened Scan
  import opened ScanProperties
  import opened Faults
  import opened Identity

  /** A record the pass reads without stopping: a QNAME, a valid FLAG and all ten mandatory fields up to SEQ. */
  predicate WellFormedRecord(x: string) {
    Name(x) != "" && !IsHeader(x) && |Split(x)| >= 10 && Flag(x).Some?
  }

  /** `--supplementary sel` with every other option at its default. */
  function SelParam(qnameOutput: bool): FilterParam {
    DefaultParam(qnameOutput).(supplementary := Sel)
  }

  /** A well-formed record never stops the pass, whatever came before it. */
  lemma WellFormedNoFault(before: seq<string>, x: string)
    requires WellFormedRecord(x)
    ensures LineFault(before, x) == None
  {
  }

  /** Input made of well-formed records is read to the end. */
  lemma WellFormedDone(param: FilterParam, lines: seq<string>)
    requires forall i :: 0 <= i < |lines| ==> WellFormedRecord(lines[i])
    ensures Run(param, lines).Done?
  {
    forall i | 0 <= i < |lines|
      ensures LineFault(lines[..i], lines[i]).None?
    {
      WellFormedNoFault(lines[..i], lines[i]);
    }
    RunDoneIff(param, lines);
  }

  /** What a pass over records only writes: the committed runs, and no header. */
  lemma RecordsOnlyOutput(param: FilterParam, lines: seq<string>)
    requires forall i :: 0 <= i < |lines| ==> WellFormedRecord(lines[i])
    ensures Run(param, lines).Done?
    ensures var gs := Groups(Runs(lines));
      Run(param, lines).sinks ==
        Sinks(Committed(param, gs), if param.qnameOutput then CommittedNames(param, gs) else [])
  {
    WellFormedDone(param, lines);
    FiltersOfRecords(lines);
    RunCommitsAcceptedRuns(param, lines);
    NoHeadersAllRecords(Run(param, lines).sinks.output);
  }

  /** Two records of one read followed by a record of another form two runs. */
  lemma RunsOfThree(a1: string, a2: string, b: string)
    requires !IsHeader(a1) && !IsHeader(a2) && !IsHeader(b)
    requires Name(a1) == Name(a2) && Name(a2) != Name(b)
    ensures Runs([a1, a2, b]) == [[a1, a2], [b]]
  {
    RunsSnoc([], a1);
    assert [] + [a1] == [a1];
    RunsSnoc([a1], a2);
    assert [a1] + [a2] == [a1, a2];
    RunsSnoc([a1, a2], b);
    assert [a1, a2] + [b] == [a1, a2, b];
  }

  /** The groups of two runs, one after the other. */
  lemma GroupsOfTwo(r0: seq<string>, r1: seq<string>)
    requires |r0| > 0 && |r1| > 0
    ensures Groups([r0, r1]) == [GroupOf(r0), GroupOf(r1)]
  {
    GroupsSnoc([r0, r1]);
    assert [r0, r1][..1] == [r0];
    GroupsSnoc([r0]);
    assert [r0][..0] == [];
  }

  /** What two flushed groups commit: each one's lines and name when it is accepted. */
  lemma CommittedOfTwo(param: FilterParam, g0: Group, g1: Group)
    ensures Committed(param, [g0, g1]) ==
      (if Accepts(param, g0.read) then g0.lines else []) + (if Accepts(param, g1.read) then g1.lines else [])
    ensures CommittedNames(param, [g0, g1]) ==
      (if Accepts(param, g0.read) then [g0.read.qname] else []) + (if Accepts(param, g1.read) then [g1.read.qname] else [])
  {
    CommitSnoc(param, [g0], g1);
    assert [g0] + [g1] == [g0, g1];
    CommitSnoc(param, [], g0);
    assert [] + [g0] == [g0];
  }

  /**
   * Two records of one read, the second supplementary, then one record of
   * another read without the bit: under `sel` only the first read's lines
   * are written, and only its QNAME.
   */
  lemma SelKeepsFlaggedGroup(qnameOutput: bool, a1: string, a2: string, b: string)
    requires WellFormedRecord(a1) && WellFormedRecord(a2) && WellFormedRecord(b)
    requires Name(a1) == Name(a2) && Name(a2) != Name(b)
    requires IsSupplementaryLine(a2) && !IsSupplementaryLine(b)
    requires 0 < SeqLen(a1) < U32_MAX
    ensures Run(SelParam(qnameOutput), [a1, a2, b]) ==
      Done(Sinks([a1, a2], if qnameOutput then [Name(a1)] else []))
  {
    var lines := [a1, a2, b];
    assert forall i :: 0 <= i < |lines| ==> WellFormedRecord(lines[i]);
    RecordsOnlyOutput(SelParam(qnameOutput), lines);
    SelCommitsFlaggedGroup(qnameOutput, a1, a2, b);
  }

  /** The groups of the three records and what `sel` commits of them. */
  lemma SelCommitsFlaggedGroup(qnameOutput: bool, a1: string, a2: string, b: string)
    requires !IsHeader(a1) && !IsHeader(a2) && !IsHeader(b)
    requires Name(a1) == Name(a2) && Name(a2) != Name(b)
    requires IsSupplementaryLine(a2) && !IsSupplementaryLine(b)
    requires 0 < SeqLen(a1) < U32_MAX
    ensures var gs := Groups(Runs([a1, a2, b]));
      && Committed(SelParam(qnameOutput), gs) == [a1, a2]
      && CommittedNames(SelParam(qnameOutput), gs) == [Name(a1)]
  {
    var param := SelParam(qnameOutput);
    RunsOfThree(a1, a2, b);
    GroupsOfTwo([a1, a2], [b]);
    var g0 := GroupOf([a1, a2]);
    var g1 := GroupOf([b]);
    assert g0.read.hasSupplementary by {
      SupplementaryExtend([a1], a2);
    }
    assert Accepts(param, g0.read);
    assert !Accepts(param, g1.read) by {
      assert !SupplementaryAfterFirst([b]);
    }
    CommittedOfTwo(param, g0, g1);
  }

  /**
   * A read whose only record carries the supplementary bit is dropped under
   * `sel`: the bit on a group's opening record is never read.
   */
  lemma SelDropsOpeningFlagOnly(qnameOutput: bool, a: string)
    requires WellFormedRecord(a) && IsSupplementaryLine(a)
    ensures AnySupplementary([a])
    ensures Run(SelParam(qnameOutput), [a]) == Done(Sinks([], []))
  {
    assert [a][0] == a;
    RecordsOnlyOutput(SelParam(qnameOutput), [a]);
    SelCommitsNothing(qnameOutput, a);
  }

  /** The single group of one record, rejected under `sel`. */
  lemma SelCommitsNothing(qnameOutput: bool, a: string)
    requires !IsHeader(a)
    ensures var gs := Groups(Runs([a]));
      Committed(SelParam(qnameOutput), gs) == [] && CommittedNames(SelParam(qnameOutput), gs) == []
  {
    RunsSnoc([], a);
    assert [] + [a] == [a];
    GroupsSnoc([[a]]);
    assert [[a]][..0] == [];
    assert !SupplementaryAfterFirst([a]);
    CommitSnoc(SelParam(qnameOutput), [], GroupOf([a]));
    assert [] + [GroupOf([a])] == [GroupOf([a])];
  }

  /** A header read after a record overtakes that record's group, which is only written at the end. */
  lemma HeaderOvertakesGroup(qnameOutput: bool, r: string, h: string)
    requires WellFormedRecord(r) && IsHeader(h) && 0 < SeqLen(r) < U32_MAX
    ensures Run(DefaultParam(qnameOutput), [r, h]) ==
      Done(Sinks([h, r], if qnameOutput then [Name(r)] else []))
  {
    var param := DefaultParam(qnameOutput);
    var lines := [r, h];
    RecordThenHeaderDone(param, r, h);
    OneRecordThenHeader(r, h);
    OneRecordCommitted(param, r);
    RunCommitsAcceptedRuns(param, lines);
    HeaderFirstInOutput(param, r, h);
    HeaderThenRecord(Run(param, lines).sinks.output, h, r);
  }

  /** A well-formed record followed by a header is read to the end. */
  lemma RecordThenHeaderDone(param: FilterParam, r: string, h: string)
    requires WellFormedRecord(r) && IsHeader(h)
    ensures Run(param, [r, h]).Done?
  {
    var lines := [r, h];
    forall i | 0 <= i < |lines|
      ensures LineFault(lines[..i], lines[i]).None?
    {
      if i == 0 {
        WellFormedNoFault([], r);
      }
    }
    RunDoneIff(param, lines);
  }

  /** Nothing is written before the header: the record's group is still open when it is read. */
  lemma HeaderFirstInOutput(param: FilterParam, r: string, h: string)
    requires Run(param, [r, h]).Done? && !IsHeader(r) && IsHeader(h)
    ensures [h] <= Run(param, [r, h]).sinks.output
  {
    var lines := [r, h];
    HeaderPlacement(param, lines, 1);
    assert lines[..1] == [r];
    RecordsSnoc([], r);
    assert [] + [r] == [r];
    RunsSnoc([], r);
    assert Runs([r]) == [[r]];
    var pre := Process(param, [r]).st.sinks.output;
    assert Headers(pre) == [] && Records(pre) == [];
    NoRecordsAllHeaders(pre);
  }

  /** An output that starts with the header and whose parts are that header and that record is the two in that order. */
  lemma HeaderThenRecord(out: seq<string>, h: string, r: string)
    requires [h] <= out && Headers(out) == [h] && Records(out) == [r] && IsHeader(h)
    ensures out == [h, r]
  {
    var rest := out[1..];
    assert out == [h] + rest;
    FiltersAppend([h], rest);
    RecordsSnoc([], h);
    assert [] + [h] == [h];
    NoHeadersAllRecords(rest);
  }

  /** The header part and the record part of a record followed by a header. */
  lemma OneRecordThenHeader(r: string, h: string)
    requires !IsHeader(r) && IsHeader(h)
    ensures Headers([r, h]) == [h] && Records([r, h]) == [r]
  {
    RecordsSnoc([], r);
    assert [] + [r] == [r];
    RecordsSnoc([r], h);
    assert [r] + [h] == [r, h];
  }

  /** Under the defaults the single run of one record is accepted. */
  lemma OneRecordCommitted(param: FilterParam, r: string)
    requires param == DefaultParam(param.qnameOutput)
    requires !IsHeader(r) && 0 < SeqLen(r) < U32_MAX
    ensures Committed(param, Groups(Runs([r]))) == [r]
    ensures CommittedNames(param, Groups(Runs([r]))) == [Name(r)]
  {
    RunsSnoc([], r);
    assert [] + [r] == [r];
    GroupsSnoc([[r]]);
    assert [[r]][..0] == [];
    DefaultAccepts(param.qnameOutput, GroupOf([r]).read);
    CommitSnoc(param, [], GroupOf([r]));
    assert [] + [GroupOf([r])] == [GroupOf([r])];
  }

  // ---------------------------------------------------------------------
  // Concrete lines

  /** A record with the given QNAME, FLAG text and SEQ; the other mandatory fields are placeholders. */
  function RecordLine(name: string, flag: string, sequence: string): string {
    Join([name, flag, "*", "0", "0", "*", "*", "0", "0", sequence])
  }

  lemma ParseZero()
    ensures ParseU16("0") == Some(0)
  {
    assert "0"[..0] == "";
  }

  lemma ParseFlag2048()
    ensures ParseU16("2048") == Some(2048)
  {
    assert "2048"[..3] == "204";
    assert "204"[..2] == "20";
    assert "20"[..1] == "2";
    assert "2"[..0] == "";
    assert DigitsValue("2048") == 2048;
  }

  /** What the filter reads from such a record. */
  lemma RecordLineReads(name: string, flag: string, sequence: string, v: u16)
    requires TabFree(name) && TabFree(flag) && TabFree(sequence)
    requires name != "" && name[0] != '@' && ParseU16(flag) == Some(v) && |sequence| < U32_LIMIT
    ensures var line := RecordLine(name, flag, sequence);
      && WellFormedRecord(line)
      && Name(line) == name
      && Flag(line) == Some(v)
      && SeqLen(line) == |sequence|
  {
    var fields := [name, flag, "*", "0", "0", "*", "*", "0", "0", sequence];
    assert TabFree("*") && TabFree("0");
    SplitJoin(fields);
  }

  /** Concrete records: read A with FLAG 0 then 2048 and a 5-base SEQ, read B with FLAG 0 and a 3-base SEQ. */
  function ReadA1(): string { RecordLine("readA", "0", "ACGTA") }
  function ReadA2(): string { RecordLine("readA", "2048", "ACGTA") }
  function ReadB(): string { RecordLine("readB", "0", "ACG") }

  lemma ExampleReadA1()
    ensures WellFormedRecord(ReadA1()) && Name(ReadA1()) == "readA" && Flag(ReadA1()) == Some(0)
    ensures SeqLen(ReadA1()) == 5
  {
    ParseZero();
    assert TabFree("readA") && TabFree("0") && TabFree("ACGTA");
    RecordLineReads("readA", "0", "ACGTA", 0);
  }

  lemma ExampleReadA2()
    ensures WellFormedRecord(ReadA2()) && Name(ReadA2()) == "readA" && Flag(ReadA2()) == Some(2048)
  {
    ParseFlag2048();
    assert TabFree("readA") && TabFree("2048") && TabFree("ACGTA");
    RecordLineReads("readA", "2048", "ACGTA", 2048);
  }

  lemma ExampleReadB()
    ensures WellFormedRecord(ReadB()) && Name(ReadB()) == "readB" && Flag(ReadB()) == Some(0)
    ensures SeqLen(ReadB()) == 3
  {
    ParseZero();
    assert TabFree("readB") && TabFree("0") && TabFree("ACG");
    RecordLineReads("readB", "0", "ACG", 0);
  }

  /** FLAG 2048 is exactly the supplementary bit; FLAG 0 lacks it. */
  lemma ExampleFlags()
    ensures IsSupplementaryFlag(2048) && !IsSupplementaryFlag(0)
  {
  }

  /** Under `sel` the example keeps read A, whose second record is supplementary, and drops read B. */
  lemma SelExample(qnameOutput: bool)
    ensures Run(SelParam(qnameOutput), [ReadA1(), ReadA2(), ReadB()]) ==
      Done(Sinks([ReadA1(), ReadA2()], if qnameOutput then ["readA"] else []))
  {
    ExampleReadA1();
    ExampleReadA2();
    ExampleReadB();
    ExampleFlags();
    SelKeepsFlaggedGroup(qnameOutput, ReadA1(), ReadA2(), ReadB());
  }

  /** Read A's supplementary record alone is a read the code drops under `sel`. */
  lemma OpeningFlagExample(qnameOutput: bool)
    ensures AnySupplementary([ReadA2()])
    ensures Run(SelParam(qnameOutput), [ReadA2()]) == Done(Sinks([], []))
  {
    ExampleReadA2();
    ExampleFlags();
    SelDropsOpeningFlagOnly(qnameOutput, ReadA2());
  }

  /** A comment header after read B is written before read B's record. */
  lemma HeaderOvertakesExample(qnameOutput: bool)
    ensures Run(DefaultParam(qnameOutput), [ReadB(), "@CO"]) ==
      Done(Sinks(["@CO", ReadB()], if qnameOutput then ["readB"] else []))
  {
    ExampleReadB();
    assert TabFree("@CO");
    SplitTabFreePrefix("@CO", "");
    assert IsHeader("@CO");
    HeaderOvertakesGroup(qnameOutput, ReadB(), "@CO");
  }
}
