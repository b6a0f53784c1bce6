/** The `--supplementary` option: `Mode` and its `FromStr` implementation. */
module Modes {
  import opened Wrappers

  /** No: no constraint; Sel: keep groups with a supplementary record; Del: drop them. */
  datatype Mode = No | Sel | Del

  /** `Mode::from_str`: only the two spellings "sel" and "del" are recognised. */
  function ParseMode(s: string): (r: Result<Mode, string>)
    ensures r.Success? ==> r.value != No
    ensures r.Failure? ==> r.error == "unrecognized mode"
  {
    if s == "sel" then Success(Sel)
    else if s == "del" then Success(Del)
    else Failure("unrecognized mode")
  }

  /** The option as read with `opt_get_default(.., Mode::No)`: absent means No. */
  function ModeOption(opt: Option<string>): Result<Mode, string>
  {
    match opt
    case None => Success(No)
    case Some(s) => ParseMode(s)
  }

  /** The command-line spelling of a configurable mode. */
  function ModeName(m: Mode): (s: string)
    requires m != No
  {
    if m == Sel then "sel" else "del"
  }

  /** Parsing accepts exactly the two spellings, and reads each back as its mode. */
  lemma ParseModeAccepts(s: string)
    ensures ParseMode(s).Success? <==> (s == "sel" || s == "del")
    ensures ParseMode(s).Success? ==> ModeName(ParseMode(s).value) == s
  {
  }

  /** Naming then parsing is the identity on Sel and Del. */
  lemma ParseModeName(m: Mode)
    requires m != No
    ensures ParseMode(ModeName(m)) == Success(m)
  {
  }

  /** The option text can never select the unconstrained mode explicitly. */
  lemma NoOnlyWhenAbsent(opt: Option<string>)
    ensures ModeOption(opt) == Success(No) <==> opt.None?
  {
  }
}
