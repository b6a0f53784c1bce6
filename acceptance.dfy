/**
 * Committing a finished group: the configuration (`FilterParam`), the
 * aggregated group state (`Read`), the acceptance decision of `write_filter`
 * and the writes of `write_sam`.
 *
 * The two output handles are modelled as the sequences of lines written to
 * them: `output` for the SAM stream and `qnames` for the QNAME file, which
 * only receives lines when `qnameOutput` is set.
 */
module Acceptance {
  import opened Wrappers
  import opened Fields
  import opened Modes

  /** The filter configuration; `qnameInput` is the allow-list, when one was given. */
  datatype FilterParam = FilterParam(
    supplementary: Mode,
    greaterLen: u32,
    smallerLen: u32,
    qnameInput: Option<seq<string>>,
    qnameOutput: bool)

  /** The configuration with every option left at its default. */
  function DefaultParam(qnameOutput: bool): FilterParam {
    FilterParam(No, 0, U32_MAX, None, qnameOutput)
  }

  /** The aggregated state of the open group; the empty QNAME means no group is open. */
  datatype Read = Read(qname: string, hasSupplementary: bool, len: u32)

  const NoGroup: Read := Read("", false, 0)

  /** A group handed to `write_filter`: its aggregated state and its buffered lines. */
  datatype Group = Group(read: Read, lines: seq<string>)

  /** What has been written so far to the SAM output and to the QNAME file. */
  datatype Sinks = Sinks(output: seq<string>, qnames: seq<string>)

  const NoOutput: Sinks := Sinks([], [])

  /** The acceptance rule: every configured check passes; both length bounds are strict. */
  predicate Accepts(param: FilterParam, read: Read) {
    && (param.qnameInput.None? || read.qname in param.qnameInput.value)
    && !(param.supplementary == Sel && !read.hasSupplementary)
    && !(param.supplementary == Del && read.hasSupplementary)
    && param.greaterLen < read.len
    && read.len < param.smallerLen
  }

  /** The sinks after a group is flushed: all its lines and its name if accepted, nothing otherwise. */
  function Commit(param: FilterParam, sinks: Sinks, g: Group): Sinks {
    if Accepts(param, g.read) then
      Sinks(sinks.output + g.lines,
            if param.qnameOutput then sinks.qnames + [g.read.qname] else sinks.qnames)
    else sinks
  }

  /**
   * `write_sam`: write each buffered line in order, then the QNAME if the
   * QNAME file is open.
   */
  method WriteSam(lines: seq<string>, sinks: Sinks, qnameOutput: bool, qname: string)
    returns (written: Sinks)
    ensures written.output == sinks.output + lines
    ensures written.qnames == if qnameOutput then sinks.qnames + [qname] else sinks.qnames
  {
    var output := sinks.output;
    for i := 0 to |lines|
      invariant output == sinks.output + lines[..i]
    {
      output := output + [lines[i]];
    }
    assert lines[..|lines|] == lines;
    var qnames := sinks.qnames;
    if qnameOutput {
      qnames := qnames + [qname];
    }
    written := Sinks(output, qnames);
  }

  /**
   * `write_filter`: the checks in their fixed order, each returning early
   * on failure (the allow-list by linear search), then `write_sam`.
   */
  method WriteFilter(lines: seq<string>, read: Read, param: FilterParam, sinks: Sinks)
    returns (written: Sinks)
    ensures written == Commit(param, sinks, Group(read, lines))
  {
    written := sinks;
    if param.qnameInput.Some? {
      var qnameInput := param.qnameInput.value;
      var isPresent := false;
      var i := 0;
      while i < |qnameInput|
        invariant 0 <= i <= |qnameInput|
        invariant !isPresent
        invariant read.qname !in qnameInput[..i]
      {
        if read.qname == qnameInput[i] {
          isPresent := true;
          break;
        }
        i := i + 1;
      }
      assert isPresent <==> read.qname in qnameInput by {
        if !isPresent {
          assert qnameInput[..i] == qnameInput;
        }
      }
      if !isPresent {
        return;
      }
    }
    if param.supplementary == Sel && !read.hasSupplementary {
      return;
    }
    if param.supplementary == Del && read.hasSupplementary {
      return;
    }
    if param.greaterLen >= read.len {
      return;
    }
    if param.smallerLen <= read.len {
      return;
    }
    written := WriteSam(lines, sinks, param.qnameOutput, read.qname);
  }

  /** A flush is atomic: the output gains all of the group's lines or none, the QNAME file its name or nothing. */
  lemma CommitAtomic(param: FilterParam, sinks: Sinks, g: Group)
    ensures var after := Commit(param, sinks, g);
      || (after.output == sinks.output + g.lines
          && after.qnames == (if param.qnameOutput then sinks.qnames + [g.read.qname] else sinks.qnames))
      || after == sinks
    ensures g.lines != [] ==> (Commit(param, sinks, g).output != sinks.output <==> Accepts(param, g.read))
  {
    if g.lines != [] && Accepts(param, g.read) {
      assert |Commit(param, sinks, g).output| > |sinks.output|;
    }
  }

  /** With an allow-list, a name not on it is rejected whatever the other checks say. */
  lemma AllowListExclusive(param: FilterParam, read: Read)
    requires param.qnameInput.Some? && read.qname !in param.qnameInput.value
    ensures !Accepts(param, read)
  {
  }

  /** `sel` keeps exactly the flagged groups, `del` exactly the others, No constrains nothing. */
  lemma ModeDecides(param: FilterParam, read: Read)
    ensures param.supplementary == Sel && Accepts(param, read) ==> read.hasSupplementary
    ensures param.supplementary == Del && Accepts(param, read) ==> !read.hasSupplementary
    ensures param.supplementary == No ==>
      (Accepts(param, read) <==> Accepts(param, read.(hasSupplementary := !read.hasSupplementary)))
  {
  }

  /** Equal bounds leave no admissible length: every group is rejected. */
  lemma EqualBoundsRejectAll(param: FilterParam, read: Read)
    requires param.greaterLen == param.smallerLen
    ensures !Accepts(param, read)
  {
  }

  /** Under the defaults a group is accepted exactly when its length is neither 0 nor `u32::MAX`. */
  lemma DefaultAccepts(qnameOutput: bool, read: Read)
    ensures Accepts(DefaultParam(qnameOutput), read) <==> 0 < read.len < U32_MAX
  {
  }
}
