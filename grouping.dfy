/**
 * Groups, described without reference to the scan: the maximal runs of
 * consecutive records sharing a QNAME, and the aggregated state the filter
 * builds for each run.
 */
module Grouping {
  import opened Wrappers
  import opened Fields
  import opened Lines
  import opened Acceptance

  function Last<T>(s: seq<T>): T
    requires |s| > 0
  {
    s[|s| - 1]
  }

  /** A non-empty sequence is its front followed by its last element. */
  lemma FrontLast<T>(s: seq<T>)
    requires |s| > 0
    ensures s == s[..|s| - 1] + [Last(s)]
  {
  }

  /** The runs laid end to end. */
  function Flatten(runs: seq<seq<string>>): seq<string>
    decreases |runs|
  {
    if runs == [] then [] else Flatten(runs[..|runs| - 1]) + Last(runs)
  }

  /** Every run holds at least one record. */
  predicate NonEmptyRuns(runs: seq<seq<string>>) {
    forall k :: 0 <= k < |runs| ==> |runs[k]| > 0
  }

  /** All records of a run share the QNAME of its first record. */
  predicate UniformRuns(runs: seq<seq<string>>) {
    forall k, j :: 0 <= k < |runs| && 0 <= j < |runs[k]| ==> Name(runs[k][j]) == Name(runs[k][0])
  }

  /** Neighbouring runs have different QNAMEs. */
  predicate DistinctNeighbours(runs: seq<seq<string>>)
    requires NonEmptyRuns(runs)
  {
    forall k :: 0 < k < |runs| ==> Name(runs[k - 1][0]) != Name(runs[k][0])
  }

  /** `runs` cuts `recs` into non-empty runs of one QNAME each, neighbours having different QNAMEs. */
  predicate IsRunDecomposition(runs: seq<seq<string>>, recs: seq<string>) {
    && Flatten(runs) == recs
    && NonEmptyRuns(runs)
    && UniformRuns(runs)
    && DistinctNeighbours(runs)
  }

  /** A record with a new QNAME starts a run of its own. */
  lemma AppendNewRun(runs: seq<seq<string>>, recs: seq<string>, x: string)
    requires IsRunDecomposition(runs, recs)
    requires runs == [] || Name(Last(runs)[0]) != Name(x)
    ensures IsRunDecomposition(runs + [[x]], recs + [x])
  {
    var runs' := runs + [[x]];
    assert runs'[..|runs'| - 1] == runs;
    UniformAppend(runs, x);
    forall k | 0 < k < |runs'|
      ensures Name(runs'[k - 1][0]) != Name(runs'[k][0])
    {
      assert runs'[k - 1] == runs[k - 1];
      if k < |runs| {
        assert runs'[k] == runs[k];
      }
    }
  }

  /** A run of one record keeps the runs uniform. */
  lemma UniformAppend(runs: seq<seq<string>>, x: string)
    requires UniformRuns(runs)
    ensures UniformRuns(runs + [[x]])
  {
    var runs' := runs + [[x]];
    forall k, j | 0 <= k < |runs'| && 0 <= j < |runs'[k]|
      ensures Name(runs'[k][j]) == Name(runs'[k][0])
    {
      if k < |runs| {
        assert runs'[k] == runs[k];
      }
    }
  }

  /** Growing the last run by a record of its QNAME keeps the runs uniform. */
  lemma UniformExtend(runs: seq<seq<string>>, x: string)
    requires UniformRuns(runs) && runs != [] && |Last(runs)| > 0 && Name(Last(runs)[0]) == Name(x)
    ensures UniformRuns(runs[..|runs| - 1] + [Last(runs) + [x]])
  {
    var runs' := runs[..|runs| - 1] + [Last(runs) + [x]];
    forall k, j | 0 <= k < |runs'| && 0 <= j < |runs'[k]|
      ensures Name(runs'[k][j]) == Name(runs'[k][0])
    {
      if k < |runs| - 1 {
        assert runs'[k] == runs[k];
      } else if j < |Last(runs)| {
        assert runs'[k][j] == runs[k][j];
        assert runs'[k][0] == runs[k][0];
      }
    }
  }

  /** Replacing the last run by one with the same first record keeps neighbours distinct. */
  lemma NeighboursSameHeads(runs: seq<seq<string>>, runs': seq<seq<string>>)
    requires NonEmptyRuns(runs) && DistinctNeighbours(runs) && NonEmptyRuns(runs')
    requires |runs'| == |runs| > 0 && runs'[..|runs| - 1] == runs[..|runs| - 1]
    requires Last(runs')[0] == Last(runs)[0]
    ensures DistinctNeighbours(runs')
  {
    forall k | 0 < k < |runs'|
      ensures Name(runs'[k - 1][0]) != Name(runs'[k][0])
    {
      assert runs'[k - 1] == runs[k - 1];
      if k < |runs| - 1 {
        assert runs'[k] == runs[k];
      }
    }
  }

  /** A record with the last run's QNAME joins that run. */
  lemma ExtendLastRun(runs: seq<seq<string>>, recs: seq<string>, x: string)
    requires IsRunDecomposition(runs, recs)
    requires runs != [] && Name(Last(runs)[0]) == Name(x)
    ensures IsRunDecomposition(runs[..|runs| - 1] + [Last(runs) + [x]], recs + [x])
  {
    var front := runs[..|runs| - 1];
    var runs' := front + [Last(runs) + [x]];
    assert runs'[..|runs'| - 1] == front;
    assert runs == front + [Last(runs)];
    assert Flatten(runs) == Flatten(front) + Last(runs);
    UniformExtend(runs, x);
    NeighboursSameHeads(runs, runs');
  }

  /** The maximal runs of same-QNAME records, built left to right. */
  function Runs(recs: seq<string>): (runs: seq<seq<string>>)
    ensures forall k :: 0 <= k < |runs| ==> |runs[k]| > 0
    decreases |recs|
  {
    if recs == [] then []
    else
      var front := Runs(recs[..|recs| - 1]);
      var x := Last(recs);
      if front != [] && Name(Last(front)[0]) == Name(x) then
        var runs := front[..|front| - 1] + [Last(front) + [x]];
        assert runs[..|runs| - 1] == front[..|front| - 1];
        assert front == front[..|front| - 1] + [Last(front)];
        runs
      else
        var runs := front + [[x]];
        assert runs[..|runs| - 1] == front;
        runs
  }

  /** Runs is a decomposition into maximal runs. */
  lemma {:induction false} RunsDecompose(recs: seq<string>)
    ensures IsRunDecomposition(Runs(recs), recs)
    decreases |recs|
  {
    if recs != [] {
      var recs' := recs[..|recs| - 1];
      var front := Runs(recs');
      var x := Last(recs);
      assert recs == recs' + [x];
      RunsDecompose(recs');
      if front != [] && Name(Last(front)[0]) == Name(x) {
        ExtendLastRun(front, recs', x);
      } else {
        AppendNewRun(front, recs', x);
      }
    }
  }

  /** The last record is the last record of the last run. */
  lemma LastRecord(runs: seq<seq<string>>, recs: seq<string>)
    requires Flatten(runs) == recs && runs != [] && |Last(runs)| > 0
    ensures recs != [] && Last(recs) == Last(Last(runs))
  {
    assert Flatten(runs) == Flatten(runs[..|runs| - 1]) + Last(runs);
  }

  /** Removing a last run of one record leaves a decomposition of the records before it. */
  lemma DropSingletonRun(runs: seq<seq<string>>, recs: seq<string>)
    requires IsRunDecomposition(runs, recs) && runs != [] && |Last(runs)| == 1
    ensures recs != [] && IsRunDecomposition(runs[..|runs| - 1], recs[..|recs| - 1])
  {
    var front := runs[..|runs| - 1];
    assert runs == front + [Last(runs)];
    assert Flatten(runs) == Flatten(front) + Last(runs);
  }

  /** Removing the last record from a longer last run leaves a decomposition of the records before it. */
  lemma ShortenLastRun(runs: seq<seq<string>>, recs: seq<string>)
    requires IsRunDecomposition(runs, recs) && runs != [] && |Last(runs)| > 1
    ensures recs != []
    ensures IsRunDecomposition(runs[..|runs| - 1] + [Last(runs)[..|Last(runs)| - 1]], recs[..|recs| - 1])
  {
    var runs' := runs[..|runs| - 1] + [Last(runs)[..|Last(runs)| - 1]];
    FlattenShorten(runs, recs);
    UniformShorten(runs);
    NeighboursSameHeads(runs, runs');
  }

  /** Dropping the last record of a longer last run drops the last record of the flattening. */
  lemma FlattenShorten(runs: seq<seq<string>>, recs: seq<string>)
    requires Flatten(runs) == recs && runs != [] && |Last(runs)| > 1
    ensures recs != []
    ensures Flatten(runs[..|runs| - 1] + [Last(runs)[..|Last(runs)| - 1]]) == recs[..|recs| - 1]
  {
    var front := runs[..|runs| - 1];
    var last := Last(runs);
    var last' := last[..|last| - 1];
    var runs' := front + [last'];
    assert runs'[..|runs'| - 1] == front;
    FrontLast(last);
    assert recs == Flatten(front) + last' + [Last(last)];
  }

  /** Dropping the last record of a longer last run keeps the runs uniform. */
  lemma UniformShorten(runs: seq<seq<string>>)
    requires UniformRuns(runs) && runs != [] && |Last(runs)| > 1
    ensures UniformRuns(runs[..|runs| - 1] + [Last(runs)[..|Last(runs)| - 1]])
  {
    var runs' := runs[..|runs| - 1] + [Last(runs)[..|Last(runs)| - 1]];
    forall k, j | 0 <= k < |runs'| && 0 <= j < |runs'[k]|
      ensures Name(runs'[k][j]) == Name(runs'[k][0])
    {
      assert runs'[k][j] == runs[k][j];
      assert runs'[k][0] == runs[k][0];
    }
  }

  /** One more record either extends the last run or opens a new one. */
  lemma RunsSnoc(recs: seq<string>, x: string)
    ensures var front := Runs(recs);
      Runs(recs + [x]) ==
        if front != [] && Name(Last(front)[0]) == Name(x) then front[..|front| - 1] + [Last(front) + [x]]
        else front + [[x]]
  {
    assert (recs + [x])[..|recs|] == recs;
  }

  /** The quantifier-free facts about the last run that uniqueness needs. */
  lemma LastRunFacts(runs: seq<seq<string>>, recs: seq<string>)
    requires IsRunDecomposition(runs, recs) && runs != []
    ensures |Last(runs)| > 0
    ensures Name(Last(Last(runs))) == Name(Last(runs)[0])
    ensures |runs| > 1 ==> Name(Last(runs[..|runs| - 1])[0]) != Name(Last(runs)[0])
  {
    var k := |runs| - 1;
    assert Name(runs[k][|runs[k]| - 1]) == Name(runs[k][0]);
  }

  /** The decomposition into maximal runs is unique: any cut with its properties is Runs. */
  lemma {:induction false} RunsUnique(runs: seq<seq<string>>, recs: seq<string>)
    requires IsRunDecomposition(runs, recs)
    ensures runs == Runs(recs)
    decreases |recs|
  {
    if runs == [] {
      assert recs == [];
    } else {
      LastRunFacts(runs, recs);
      LastRecord(runs, recs);
      var front := runs[..|runs| - 1];
      var last := Last(runs);
      var x := Last(last);
      var recs' := recs[..|recs| - 1];
      assert recs == recs' + [x];
      assert runs == front + [last];
      RunsSnoc(recs', x);
      if |last| == 1 {
        DropSingletonRun(runs, recs);
        RunsUnique(front, recs');
        assert last == [x];
      } else {
        var last' := last[..|last| - 1];
        var runs' := front + [last'];
        ShortenLastRun(runs, recs);
        RunsUnique(runs', recs');
        assert Last(runs') == last';
        assert runs'[..|runs'| - 1] == front;
        FrontLast(last);
      }
    }
  }

  /** The supplementary state the filter keeps: a FLAG with bit 0x800 on any line AFTER the first. */
  predicate SupplementaryAfterFirst(run: seq<string>) {
    exists i :: 1 <= i < |run| && IsSupplementaryLine(run[i])
  }

  /** The OR over every line of the group: bit 0x800 on any of them. */
  predicate AnySupplementary(run: seq<string>) {
    exists i :: 0 <= i < |run| && IsSupplementaryLine(run[i])
  }

  /** The aggregated state of a run: its QNAME, the flag of its later lines, the length of its first line. */
  function GroupOf(run: seq<string>): (g: Group)
    requires |run| > 0
    ensures g.lines == run && g.read.qname == Name(run[0])
  {
    Group(Read(Name(run[0]), SupplementaryAfterFirst(run), SeqLen(run[0])), run)
  }

  function Groups(runs: seq<seq<string>>): (gs: seq<Group>)
    requires forall k :: 0 <= k < |runs| ==> |runs[k]| > 0
    ensures |gs| == |runs|
    ensures forall k :: 0 <= k < |runs| ==> gs[k] == GroupOf(runs[k])
    decreases |runs|
  {
    if runs == [] then [] else Groups(runs[..|runs| - 1]) + [GroupOf(Last(runs))]
  }

  /** The lines of the accepted groups, group after group. */
  function Committed(param: FilterParam, gs: seq<Group>): seq<string>
    decreases |gs|
  {
    if gs == [] then []
    else Committed(param, gs[..|gs| - 1]) + (if Accepts(param, Last(gs).read) then Last(gs).lines else [])
  }

  /** The QNAMEs of the accepted groups, group after group. */
  function CommittedNames(param: FilterParam, gs: seq<Group>): seq<string>
    decreases |gs|
  {
    if gs == [] then []
    else CommittedNames(param, gs[..|gs| - 1]) + (if Accepts(param, Last(gs).read) then [Last(gs).read.qname] else [])
  }

  /** One more line in a group can set the flag but never clear it. */
  lemma SupplementaryExtend(run: seq<string>, x: string)
    requires |run| > 0
    ensures SupplementaryAfterFirst(run + [x]) <==> SupplementaryAfterFirst(run) || IsSupplementaryLine(x)
  {
    var r := run + [x];
    if IsSupplementaryLine(x) {
      assert r[|run|] == x;
    }
    if SupplementaryAfterFirst(run) {
      var i :| 1 <= i < |run| && IsSupplementaryLine(run[i]);
      assert r[i] == run[i];
    }
    if SupplementaryAfterFirst(r) {
      var i :| 1 <= i < |r| && IsSupplementaryLine(r[i]);
      if i < |run| {
        assert r[i] == run[i];
      }
    }
  }

  /** The two notions agree exactly when the first line's own flag does not matter. */
  lemma AfterFirstVersusAny(run: seq<string>)
    requires |run| > 0
    ensures SupplementaryAfterFirst(run) ==> AnySupplementary(run)
    ensures !IsSupplementaryLine(run[0]) ==> (SupplementaryAfterFirst(run) <==> AnySupplementary(run))
  {
    if AnySupplementary(run) && !IsSupplementaryLine(run[0]) {
      var i :| 0 <= i < |run| && IsSupplementaryLine(run[i]);
      assert i != 0;
    }
    if SupplementaryAfterFirst(run) {
      var i :| 1 <= i < |run| && IsSupplementaryLine(run[i]);
      assert 0 <= i < |run|;
    }
  }

  /** The opening line's FLAG is never examined: the group's flag depends on the later lines only. */
  lemma OpeningFlagIgnored(first: string, later: seq<string>)
    ensures SupplementaryAfterFirst([first] + later) <==> AnySupplementary(later)
    ensures IsSupplementaryLine(first) ==> AnySupplementary([first] + later)
  {
    var run := [first] + later;
    assert forall i :: 1 <= i < |run| ==> run[i] == later[i - 1];
    if AnySupplementary(later) {
      var i :| 0 <= i < |later| && IsSupplementaryLine(later[i]);
      assert run[i + 1] == later[i];
    }
    if IsSupplementaryLine(first) {
      assert run[0] == first;
    }
  }
}
