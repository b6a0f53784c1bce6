# samfilt filter core in Dafny

samfilt reads a SAM file line by line. Header lines (QNAME starting with `@`)
are written straight through. Records are gathered into groups, one group per
maximal run of consecutive records sharing a QNAME. Each finished group is kept
or dropped as a whole by four checks, always in the same order:

1. the QNAME allow-list (`--qname_input`);
2. the supplementary mode (`--supplementary sel|del`), which tests FLAG bit 0x800;
3. a strict lower length bound (`--greater_len`);
4. a strict upper length bound (`--smaller_len`).

A kept group's lines are written in order. Its QNAME is also written to the
QNAME file when one was given (`--qname_output`).

This project models that core: `filter`, `write_filter`, `write_sam`,
`Mode::from_str`, `FilterParam` and `Read`. For every input it proves three
things:

- whether the pass completes or aborts, and where;
- which lines a completed pass writes;
- the order in which it writes them.

The order is fixed by two facts. Records are written group after group
(`ScanProperties.RunCommitsAcceptedRuns`). Each header lands right after the
headers and the closed groups that precede it in the input
(`Identity.HeaderPlacement`).

Modules, in dependency order:

- `Wrappers` — `Option` and `Result`.
- `Fields` — the tab split (`str::split('\t')`) and its inverse. Also the
  `u16::from_str` parse of FLAG, the FLAG bit test, and the `as u32`
  truncation of the SEQ length.
- `Modes` — `Mode` and `Mode::from_str`.
- `Lines` — how a line is read: its QNAME, header or record, FLAG and SEQ
  length. Also the header and record parts of a line sequence.
- `Acceptance` — `FilterParam`, `Read` and the acceptance rule. It holds the
  method `WriteFilter`, which is the early-return checks with a linear search
  of the allow-list, and the method `WriteSam`, which is the write loop.
- `Grouping` — a declarative description of the groups: the maximal runs of
  same-QNAME records (`Runs`), proved to exist and to be unique. It also
  defines the aggregated `Read` of a run (`GroupOf`) and what the accepted
  runs commit.
- `Scan` — the pass as a function of the lines read so far (`Step`,
  `Process`, `Run`). Beside it is the loop itself, the method `Filter`,
  proved equal to `Run`.
- `ScanProperties` — the invariant of the pass, and the main theorem
  `RunCommitsAcceptedRuns` with its corollaries.
- `Faults` — when the pass stops. Each panicking `unwrap` or index in the
  source becomes an `Aborted` outcome carrying the line index, the kind of
  fault and what had been written by then.
- `Identity` — where headers land in the output, that output already
  written is never taken back, and when the output equals the input.
- `Scenario` — whole passes over small inputs. This includes a `sel` pass
  over three concrete ten-field lines.

The two output handles are modelled as the sequences of lines written to
them (`Sinks`), and the methods thread these sequences through.

### Where the code differs from what its options suggest

- **The opening record's FLAG is never read.** The `--supplementary`
  option selects "reads with supplementary alignments" (src/main.rs:20).
  In SAM, FLAG bit 0x800 marks a supplementary alignment, so a read has one
  when any of its records carries that bit: the OR of bit 0x800 over all
  its records.
  The code sets `has_supplementary = false` when a record opens a group
  (src/main.rs:242). Only the records after the first can set it
  (src/main.rs:233-236).
  - The model follows the code: the state is `SupplementaryAfterFirst`.
  - `Grouping.OpeningFlagIgnored` and `Grouping.AfterFirstVersusAny` relate
    this to the OR over all records.
  - `Scenario.SelDropsOpeningFlagOnly` and `Scenario.OpeningFlagExample`
    show the consequence: a read whose only record has FLAG 2048 is dropped
    under `sel`.
- **Output is not always the input.** One would expect default options,
  which constrain nothing, to keep everything and write the input
  unchanged. In the code this holds only under two conditions:
  - no header follows a record, because a header is written at once and
    overtakes the group still buffered (`Identity.HeaderPlacement`,
    `Scenario.HeaderOvertakesExample`);
  - no group's length is 0 or `u32::MAX`, because both default bounds are
    strict (src/main.rs:283-289).

  `Identity.DefaultsCopyInput` proves that these two conditions are enough
  for a pass in which no line has a fault. It does not prove that they are
  needed.
- **Malformed lines abort the pass; nothing is skipped.** The ways a line
  can abort the pass:
  - an empty QNAME aborts on any line (src/main.rs:226);
  - a missing or non-u16 FLAG aborts on any record (src/main.rs:232);
  - a missing SEQ field (field 9) aborts only on a record that opens a
    group (src/main.rs:243). That happens after the previous group was
    already flushed (src/main.rs:238-240).

  A record that joins an open group needs only two fields.

## Model

| member | source | states |
|---|---|---|
| Fields.Split | src/main.rs:224 | definition of `line.split('\t')`: the fields between tabs, at least one; characterised by `JoinSplit`, `SplitJoin` and `SplitFieldsTabFree` |
| Fields.ParseU16 | src/main.rs:232 | definition of `u16::from_str`: an optional `+`, then one or more digits whose value is below 65536; characterised by `ParseDecimal`, `ParsePlusSign`, `ParseSound` and `ParseRejects` |
| Fields.IsSupplementaryFlag | src/main.rs:234 | definition of the test `flag & 2048 != 0`, as a 16-bit AND; `Scenario.ExampleFlags` evaluates it on 2048 and 0 |
| Fields.JoinSplit | src/main.rs:224 | splitting a line on tabs loses nothing: joining the fields with tabs gives back the line |
| Fields.SplitJoin | src/main.rs:224 | splitting tab-free fields joined with tabs gives back exactly those fields |
| Fields.SplitFieldsTabFree | src/main.rs:224 | no field of a split line contains a tab |
| Fields.ParseDecimal | src/main.rs:232 | every 16-bit value written in decimal parses back to itself |
| Fields.ParsePlusSign | src/main.rs:232 | a leading `+` is accepted and leaves the value unchanged |
| Fields.ParseSound | src/main.rs:232 | a FLAG that parses is one or more digits, after at most a `+`, whose value is the result |
| Fields.ParseRejects | src/main.rs:232 | the empty field, a bare `+`, anything starting with `-`, and 65536 are rejected |
| Fields.TruncateU32 | src/main.rs:243 | `as u32` keeps a length below 2^32 and otherwise differs from it by a multiple of 2^32 |
| Modes.ModeOption | src/main.rs:65-71 | definition of `opt_get_default("supplementary", Mode::No)`: absent gives No, otherwise the parse; characterised by `NoOnlyWhenAbsent` |
| Modes.ParseMode | src/main.rs:183-191 | a parse never yields the unconstrained mode; a failure carries "unrecognized mode" |
| Modes.ParseModeAccepts | src/main.rs:183-191 | the parse succeeds exactly on "sel" and "del" and reads each back as its own mode |
| Modes.ParseModeName | src/main.rs:183-191 | naming Sel or Del and parsing the name is the identity |
| Modes.NoOnlyWhenAbsent | src/main.rs:65-71 | the unconstrained mode results exactly when the option is absent |
| Lines.Name | src/main.rs:225 | definition: QNAME is field 0 of the split line |
| Lines.IsHeader | src/main.rs:226 | definition: a header's field 0 has `@` as its first character |
| Lines.Flag | src/main.rs:232 | definition: FLAG is field 1 parsed as `u16`, absent when field 1 is missing or does not parse |
| Lines.SeqLen | src/main.rs:243 | definition: the length of field 9 truncated to 32 bits; `Scenario.ExampleReadA1` and `Scenario.ExampleReadB` evaluate it |
| Lines.HeadersRecordsPartition | src/main.rs:225-226 | the header part and the record part together have as many lines as the input |
| Lines.FiltersAppend | src/main.rs:226 | the header part and the record part of a concatenation are the concatenations of the parts |
| Acceptance.Accepts | src/main.rs:262-289 | definition of the acceptance rule as the conjunction of the four early-return checks of `write_filter`; characterised by `WriteFilter`, `AllowListExclusive`, `ModeDecides`, `EqualBoundsRejectAll` and `DefaultAccepts` |
| Acceptance.Commit | src/main.rs:262-291 | definition of a flush's effect on the two sinks; `WriteFilter` is proved equal to it, and `CommitAtomic` characterises it |
| Acceptance.WriteSam | src/main.rs:295-313 | the output gains the group's lines in order; the QNAME file gains the QNAME exactly when it is open |
| Acceptance.WriteFilter | src/main.rs:255-292 | the early-return checks with the allow-list search write the group exactly when the acceptance rule holds, all of its lines or none |
| Acceptance.CommitAtomic | src/main.rs:262-291 | a flush writes all of a group's lines and its name or nothing; a non-empty group changes the output iff it is accepted |
| Acceptance.AllowListExclusive | src/main.rs:262-273 | with an allow-list, a QNAME not on it is rejected whatever the other checks say |
| Acceptance.ModeDecides | src/main.rs:275-281 | under `sel` only supplementary groups pass, under `del` only the others; the unset mode constrains nothing |
| Acceptance.EqualBoundsRejectAll | src/main.rs:283-289 | equal length bounds reject every group |
| Acceptance.DefaultAccepts | src/main.rs:283-289 | under the default bounds a group is accepted iff its length is neither 0 nor `u32::MAX` |
| Grouping.RunsDecompose | src/main.rs:233-246 | the records are cut into non-empty runs, each of one QNAME, neighbours differing, which laid end to end give back the records |
| Grouping.RunsUnique | src/main.rs:233-246 | any cut with those properties is the one `Runs` builds |
| Grouping.SupplementaryExtend | src/main.rs:233-236 | a record joining a group sets the supplementary state iff it carries bit 0x800, and never clears it |
| Grouping.AfterFirstVersusAny | src/main.rs:241-242 | the state the code keeps implies the OR over all records, and equals it when the opening record lacks the bit |
| Grouping.OpeningFlagIgnored | src/main.rs:241-242 | a group's state is the OR over its later records only; the opening record's bit is invisible to it |
| Scan.Flush | src/main.rs:238-240 | definition: `write_filter` applied to the open group, which is logged as flushed |
| Scan.Step | src/main.rs:224-246 | definition of one loop iteration in the source's order of checks, with each panic as a stop; characterised by `Faults.StepFault`, `ScanProperties.HeaderStep`, `SameNameStep` and `NewNameStep` |
| Scan.Process | src/main.rs:216-248 | definition of the loop over a prefix of the input; characterised by `ScanProperties.ProcessConsistent` and `Faults.ProcessGoingIff` |
| Scan.Finish | src/main.rs:249-251 | definition of the final flush when a record was ever seen; characterised by `ScanProperties.FinishConsistent` |
| Scan.Run | src/main.rs:208-252 | definition of the whole pass; `Scan.Filter` is proved equal to it, and `RunCommitsAcceptedRuns`, `HeaderPlacement` and `RunAbortsAtFirstFault` characterise it |
| Scan.StoppedPersists | src/main.rs:226-232 | once a line aborts the pass, the later lines change nothing |
| Scan.Filter | src/main.rs:208-252 | the loop with its final flush computes `Run`; when it completes, the groups handed to `write_filter` are the `FlushLog` |
| ScanProperties.HeaderStep | src/main.rs:226-230 | a header is written at once and leaves the open group and the flushed groups as they were |
| ScanProperties.SameNameStep | src/main.rs:233-236 | a record with the open group's QNAME joins it, only the supplementary state may change, and nothing is written |
| ScanProperties.NewNameStep | src/main.rs:237-246 | a record with another QNAME flushes the open group, if any, and opens a group of its own with the new length |
| ScanProperties.ProcessConsistent | src/main.rs:216-248 | after any prefix, the open group is the last maximal run, and each flushed group is one of the earlier runs in order; the header part of the output is every header read, and its record part is the lines of the accepted flushed groups |
| ScanProperties.FinishConsistent | src/main.rs:249-251 | the final flush hands over the last run, if there is one |
| ScanProperties.RunCommitsAcceptedRuns | src/main.rs:208-252 | a completed pass writes every header in input order, and its record part is the lines of the accepted runs, run after run; one QNAME per accepted run; `write_filter` is called once per run (where headers fall among the records: `Identity.HeaderPlacement`) |
| ScanProperties.NoRecordsNoFlush | src/main.rs:249-251 | input without records calls `write_filter` never and is written unchanged |
| ScanProperties.AllAcceptedCommitAll | src/main.rs:255-292 | when every run is accepted, all records are committed and one QNAME per run |
| ScanProperties.NoneAcceptedCommitNothing | src/main.rs:255-292 | when no run is accepted, no record and no QNAME is committed |
| ScanProperties.DefaultsKeepEverything | src/main.rs:208-252 | under default options with lengths inside the bounds, every record and every header is written; input without headers is copied exactly |
| ScanProperties.EqualBoundsKeepHeadersOnly | src/main.rs:283-289 | with equal bounds the output is exactly the headers and the QNAME file stays empty |
| Faults.LineFault | src/main.rs:224-243 | definition of the fault a line has, from the input alone: empty QNAME, missing or invalid FLAG on a record, missing SEQ on a record opening a group; characterised by `StepFault`, `RunDoneIff` and `RunAbortsAtFirstFault` |
| Faults.StepFault | src/main.rs:224-243 | one step stops exactly when the line has a fault, at that line and with that fault |
| Faults.ProcessGoingIff | src/main.rs:216-248 | a pass over a prefix continues iff no line of it has a fault |
| Faults.StoppedAt | src/main.rs:216-248 | a stopped pass stopped at the step of a line that came after a prefix that did not stop |
| Faults.RunDoneIff | src/main.rs:216-248 | the pass completes iff no line has a fault, independently of the configuration |
| Faults.RunAbortsAtFirstFault | src/main.rs:238-243 | an aborted pass stops at the first faulty line, with its fault, having written what the earlier lines wrote plus, for a missing SEQ field, the flushed group |
| Identity.OutputGrows | src/main.rs:216-248 | nothing written is taken back: what a prefix of the input wrote, to the output and to the QNAME file, begins what the whole input writes |
| Identity.StepGrows | src/main.rs:224-246 | one iteration only appends to both sinks |
| Identity.FinishGrows | src/main.rs:249-251 | the final flush only appends to both sinks |
| Identity.HeaderStepWrites | src/main.rs:226-230 | reading a header appends exactly that header to the output |
| Identity.HeaderPlacement | src/main.rs:226-250 | in a completed pass each header is written right after the headers before it and the accepted runs closed before it; the run still open when it is read is held back, so the header precedes that run's lines |
| Identity.HeadersFirstSplit | src/main.rs:226-247 | input whose headers all come first is its headers followed by its records |
| Identity.HeadersFirstLead | src/main.rs:226-247 | "no header after a record" read pairwise implies the left-to-right reading |
| Identity.HeadersLeadOutput | src/main.rs:226-246 | while the headers come first, the output so far is the headers read followed by committed records |
| Identity.RunHeadersLead | src/main.rs:208-252 | the same holds for a whole pass, final flush included |
| Identity.DefaultsCopyInput | src/main.rs:208-252 | under default options, for a pass with no faulty line, with headers first and every length strictly inside the bounds, the output is the input |
| Scenario.WellFormedDone | src/main.rs:224-243 | input made of records with a QNAME, a valid FLAG and ten fields is read to the end |
| Scenario.RecordsOnlyOutput | src/main.rs:208-252 | a pass over well-formed records writes the committed runs and nothing else |
| Scenario.SelKeepsFlaggedGroup | src/main.rs:233-277 | two records of one read, the second supplementary, then a plain record of another read: under `sel` exactly the first read's two lines and its QNAME are written |
| Scenario.HeaderOvertakesGroup | src/main.rs:226-251 | under the defaults, a record followed by a header is written header first: the output is the header, then the record |
| Scenario.RecordLineReads | src/main.rs:224-243 | a line of ten tab-free fields is read as a well-formed record with that QNAME, FLAG and SEQ length |
| Scenario.ExampleReadA1 | src/main.rs:224-243 | the concrete record of read A with FLAG 0 and SEQ `ACGTA` is well-formed, with length 5 |
| Scenario.ExampleReadA2 | src/main.rs:224-243 | the concrete record of read A with FLAG 2048 is well-formed |
| Scenario.ExampleReadB | src/main.rs:224-243 | the concrete record of read B with FLAG 0 and SEQ `ACG` is well-formed, with length 3 |
| Scenario.ExampleFlags | src/main.rs:234 | FLAG 2048 has the supplementary bit and FLAG 0 does not |
| Scenario.SelExample | src/main.rs:208-292 | read A (FLAG 0 then 2048) and read B (FLAG 0) under `sel`: exactly read A's two lines are written, and `readA` is written to the QNAME file when it is open |
| Scenario.OpeningFlagExample | src/main.rs:241-277 | read A's supplementary record alone is dropped under `sel`, although it carries bit 0x800 |
| Scenario.HeaderOvertakesExample | src/main.rs:226-251 | the concrete input `[readB record, @CO]` is written as `[@CO, readB record]` |
| Scenario.SelDropsOpeningFlagOnly | src/main.rs:241-277 | a read whose only record has bit 0x800 has a supplementary alignment by the OR over its records, yet under `sel` nothing is written for it |

## Left out

- Command-line handling in `main` (getopts, `--help`, usage text, the
  `--greater_len` and `--smaller_len` integer parses, opening files) is not
  part of this model. The configuration is a `FilterParam` value.
  `Modes.ModeOption` is the one piece of `main` modelled.
- Reading the allow-list file line by line (src/main.rs:89-114) is left
  out; the allow-list is a `seq<string>`.
- File I/O is left out:
  - the input is a sequence of lines, already split by `BufReader::lines`,
    so the stripping of `\n` and `\r\n` and invalid UTF-8 are not modelled;
  - a read error from `reader.lines()` (src/main.rs:217-222) is not
    modelled, so every line is read;
  - write failures and their `eprintln!` plus `process::exit(1)`
    (src/main.rs:227-230, 302-311) are not modelled, so every write
    succeeds.
- The output writers are modelled as sequences of written lines; buffering,
  the `\n` terminator and the shared `dyn Write` object are not modelled.
- Lines.SeqLen: counts characters, taken to be bytes. `str::len` counts
  UTF-8 bytes, so this is exact only for ASCII text.
- A panic is modelled as an `Aborted` outcome carrying what was written
  before it. The process exit status and the message are not modelled.
- The `#[inline]` hints and the commented-out debug print in `write_filter`
  have no effect on behaviour and are not modelled.
