/**
 * The field-level view of one input line: the tab split (`str::split('\t')`),
 * the fixed-width integers the filter stores, and the parse of the FLAG field
 * as an unsigned 16-bit decimal number (`u16::from_str`).
 */
module Fields {
  import opened Wrappers

  const U16_LIMIT: int := 0x1_0000
  const U32_LIMIT: int := 0x1_0000_0000
  /** `u32::MAX`, the default upper length bound. */
  const U32_MAX: int := U32_LIMIT - 1

  type u16 = x: int | 0 <= x < U16_LIMIT
  type u32 = x: int | 0 <= x < U32_LIMIT

  const TAB: char := '\t'

  // ---------------------------------------------------------------------
  // Splitting on tab

  /** The fields of `s` between tab characters; there is always at least one. */
  function Split(s: string): (fields: seq<string>)
    ensures |fields| >= 1
    decreases |s|
  {
    if |s| == 0 then [""]
    else
      var rest := Split(s[1..]);
      if s[0] == TAB then [""] + rest
      else [[s[0]] + rest[0]] + rest[1..]
  }

  /** The inverse of Split: the fields glued back together with tabs. */
  function Join(fields: seq<string>): (s: string)
    requires |fields| >= 1
    decreases |fields|
  {
    if |fields| == 1 then fields[0] else fields[0] + [TAB] + Join(fields[1..])
  }

  predicate TabFree(s: string) {
    forall i :: 0 <= i < |s| ==> s[i] != TAB
  }

  /** No field produced by Split holds a tab. */
  lemma {:induction false} SplitFieldsTabFree(s: string)
    ensures forall k :: 0 <= k < |Split(s)| ==> TabFree(Split(s)[k])
    decreases |s|
  {
    if |s| > 0 {
      SplitFieldsTabFree(s[1..]);
    }
  }

  /** Splitting loses nothing: joining the fields gives back the line. */
  lemma {:induction false} JoinSplit(s: string)
    ensures Join(Split(s)) == s
    decreases |s|
  {
    if |s| > 0 {
      var rest := Split(s[1..]);
      JoinSplit(s[1..]);
      if s[0] == TAB {
        assert Split(s)[1..] == rest;
      } else {
        var fs := Split(s);
        assert fs[1..] == rest[1..];
        if |rest| == 1 {
          assert Join(fs) == [s[0]] + rest[0];
        } else {
          assert Join(fs) == [s[0]] + rest[0] + [TAB] + Join(rest[1..]);
          assert Join(rest) == rest[0] + [TAB] + Join(rest[1..]);
        }
        assert Join(fs) == [s[0]] + Join(rest);
        assert s == [s[0]] + s[1..];
      }
    }
  }

  /** A tab-free prefix followed by a tab becomes the first field. */
  lemma {:induction false} SplitTabFreePrefix(a: string, t: string)
    requires TabFree(a)
    ensures Split(a + [TAB] + t) == [a] + Split(t)
    ensures Split(a) == [a]
    decreases |a|
  {
    if |a| == 0 {
      assert a + [TAB] + t == [TAB] + t;
      assert ([TAB] + t)[1..] == t;
    } else {
      SplitTabFreePrefix(a[1..], t);
      assert (a + [TAB] + t)[1..] == a[1..] + [TAB] + t;
      assert [a[0]] + a[1..] == a;
    }
  }

  /** Splitting is a left inverse of joining tab-free fields. */
  lemma {:induction false} SplitJoin(fields: seq<string>)
    requires |fields| >= 1
    requires forall k :: 0 <= k < |fields| ==> TabFree(fields[k])
    ensures Split(Join(fields)) == fields
    decreases |fields|
  {
    SplitTabFreePrefix(fields[0], "");
    if |fields| > 1 {
      SplitJoin(fields[1..]);
      SplitTabFreePrefix(fields[0], Join(fields[1..]));
      assert fields == [fields[0]] + fields[1..];
    }
  }

  // ---------------------------------------------------------------------
  // Decimal numbers

  predicate IsDigit(c: char) {
    '0' <= c <= '9'
  }

  function DigitValue(c: char): nat
    requires IsDigit(c)
  {
    c as int - '0' as int
  }

  function DigitChar(d: nat): (c: char)
    requires d < 10
    ensures IsDigit(c) && DigitValue(c) == d
  {
    ('0' as int + d) as char
  }

  predicate AllDigits(s: string) {
    forall i :: 0 <= i < |s| ==> IsDigit(s[i])
  }

  /** The value of a digit string read most significant digit first. */
  function DigitsValue(s: string): nat
    requires AllDigits(s)
    decreases |s|
  {
    if |s| == 0 then 0
    else DigitsValue(s[..|s| - 1]) * 10 + DigitValue(s[|s| - 1])
  }

  /** The canonical decimal text of `n` (no sign, no leading zeros). */
  function Decimal(n: nat): (s: string)
    ensures |s| >= 1 && AllDigits(s)
    decreases n
  {
    if n < 10 then [DigitChar(n)] else Decimal(n / 10) + [DigitChar(n % 10)]
  }

  /** `u16::from_str`: an optional `+`, then one or more decimal digits whose value fits in 16 bits. */
  function ParseU16(s: string): (r: Option<u16>)
  {
    var digits := if |s| > 0 && s[0] == '+' then s[1..] else s;
    if |digits| == 0 || !AllDigits(digits) then None
    else if DigitsValue(digits) < U16_LIMIT then Some(DigitsValue(digits))
    else None
  }

  lemma {:induction false} DecimalValue(n: nat)
    ensures DigitsValue(Decimal(n)) == n
    decreases n
  {
    if n >= 10 {
      DecimalValue(n / 10);
      var s := Decimal(n);
      assert s[..|s| - 1] == Decimal(n / 10);
    }
  }

  /** Every 16-bit value written in decimal parses back to itself. */
  lemma ParseDecimal(n: u16)
    ensures ParseU16(Decimal(n)) == Some(n)
  {
    DecimalValue(n);
  }

  /** A leading `+` is accepted and does not change the value. */
  lemma ParsePlusSign(n: u16)
    ensures ParseU16("+" + Decimal(n)) == Some(n)
  {
    DecimalValue(n);
    assert ("+" + Decimal(n))[1..] == Decimal(n);
  }

  /** What a successful parse read: digits, after at most a `+`, with that value. */
  lemma ParseSound(s: string, v: u16)
    requires ParseU16(s) == Some(v)
    ensures exists d :: |d| >= 1 && AllDigits(d) && (s == d || s == "+" + d) && DigitsValue(d) == v
  {
    var d := if |s| > 0 && s[0] == '+' then s[1..] else s;
    assert s == d || s == "+" + d;
  }

  /** The empty field, a bare sign, a minus sign and an out-of-range value are all rejected. */
  lemma ParseRejects(s: string)
    ensures ParseU16("") == None
    ensures ParseU16("+") == None
    ensures |s| > 0 && s[0] == '-' ==> ParseU16(s) == None
    ensures ParseU16(Decimal(U16_LIMIT)) == None
  {
    DecimalValue(U16_LIMIT);
    if |s| > 0 && s[0] == '-' {
      assert !IsDigit(s[0]);
    }
  }

  // ---------------------------------------------------------------------
  // Fixed-width arithmetic

  /** The 16-bit AND with 2048 (0x800), the supplementary-alignment bit of FLAG. */
  predicate IsSupplementaryFlag(flag: u16) {
    (flag as bv16) & 0x800 != 0
  }

  /** `n as u32` in Rust: keep the low 32 bits. */
  function TruncateU32(n: nat): (r: u32)
    ensures n < U32_LIMIT ==> r == n
    ensures exists k: nat :: n == k * U32_LIMIT + r
  {
    var r := n % U32_LIMIT;
    assert n == (n / U32_LIMIT) * U32_LIMIT + r;
    r
  }
}
