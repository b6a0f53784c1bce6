/**
 * How the filter reads one input line: QNAME is field 0, a line whose QNAME
 * starts with `@` is a header, FLAG is field 1 and SEQ is field 9.
 * Characters stand for bytes (the text is taken to be ASCII).
 */
module Lines {
  import opened Wrappers
  import opened Fields

  /** Why the scan stops on a line: each is a panicking `unwrap` or index in the source. */
  datatype LineError =
    | EmptyName        // field 0 has no first character
    | MissingFlag      // there is no field 1
    | InvalidFlag      // field 1 is not a u16
    | MissingSequence  // a line opening a group has no field 9

  /** QNAME: the first field of the line. */
  function Name(line: string): string {
    Split(line)[0]
  }

  /** A header: its first field starts with `@`. */
  predicate IsHeader(line: string) {
    Name(line) != [] && Name(line)[0] == '@'
  }

  /** FLAG, when field 1 exists and parses. */
  function Flag(line: string): Option<u16> {
    var fields := Split(line);
    if |fields| < 2 then None else ParseU16(fields[1])
  }

  /** Whether the line's FLAG carries the supplementary bit (false when it has no valid FLAG). */
  predicate IsSupplementaryLine(line: string) {
    Flag(line).Some? && IsSupplementaryFlag(Flag(line).value)
  }

  /** The group length a line would give when it opens a group: `field[9].len() as u32`. */
  function SeqLen(line: string): u32 {
    var fields := Split(line);
    if |fields| < 10 then 0 else TruncateU32(|fields[9]|)
  }

  /** The headers of a line sequence, in order. */
  function Headers(lines: seq<string>): seq<string>
    decreases |lines|
  {
    if lines == [] then []
    else
      var front := Headers(lines[..|lines| - 1]);
      var last := lines[|lines| - 1];
      if IsHeader(last) then front + [last] else front
  }

  /** The other lines of a line sequence (the records), in order. */
  function Records(lines: seq<string>): seq<string>
    decreases |lines|
  {
    if lines == [] then []
    else
      var front := Records(lines[..|lines| - 1]);
      var last := lines[|lines| - 1];
      if IsHeader(last) then front else front + [last]
  }

  /** The header part and the record part together have as many lines as the input. */
  lemma {:induction false} HeadersRecordsPartition(lines: seq<string>)
    ensures |Headers(lines)| + |Records(lines)| == |lines|
    decreases |lines|
  {
    if lines != [] {
      HeadersRecordsPartition(lines[..|lines| - 1]);
    }
  }

  /** Both filters distribute over concatenation. */
  lemma {:induction false} FiltersAppend(a: seq<string>, b: seq<string>)
    ensures Headers(a + b) == Headers(a) + Headers(b)
    ensures Records(a + b) == Records(a) + Records(b)
    decreases |b|
  {
    if b == [] {
      assert a + b == a;
    } else {
      var b' := b[..|b| - 1];
      FiltersAppend(a, b');
      assert (a + b)[..|a + b| - 1] == a + b';
    }
  }

  /** A sequence of records is its own record part and has no header part. */
  lemma {:induction false} FiltersOfRecords(rs: seq<string>)
    requires forall i :: 0 <= i < |rs| ==> !IsHeader(rs[i])
    ensures Records(rs) == rs
    ensures Headers(rs) == []
    decreases |rs|
  {
    if rs != [] {
      FiltersOfRecords(rs[..|rs| - 1]);
    }
  }

  /** A sequence with no header part is all records. */
  lemma {:induction false} NoHeadersAllRecords(lines: seq<string>)
    requires Headers(lines) == []
    ensures Records(lines) == lines
    decreases |lines|
  {
    if lines != [] {
      NoHeadersAllRecords(lines[..|lines| - 1]);
    }
  }
}
