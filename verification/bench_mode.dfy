/** `convert` of `utility.cpp`: the `mode` option's string picks the
    transport a benchmark runs over. */
module BenchMode {

  /** `enum class bench_mode { net, io, local, invalid }`. */
  datatype Mode = Net | Io | Local | Invalid

  /** The option value that selects a mode; `invalid` has none. */
  function Spelling(m: Mode): (s: string)
    ensures m == Invalid <==> s == ""
  {
    match m
    case Net => "netBench"
    case Io => "ioBench"
    case Local => "localBench"
    case Invalid => ""
  }

  /** Exact, case-sensitive matching against the three spellings; every
      other string, the empty one included, is `invalid`. */
  function Convert(s: string): (m: Mode)
    ensures m == Net <==> s == "netBench"
    ensures m == Io <==> s == "ioBench"
    ensures m == Local <==> s == "localBench"
    ensures m == Invalid <==> s !in {"netBench", "ioBench", "localBench"}
  {
    if s == "netBench" then Net
    else if s == "ioBench" then Io
    else if s == "localBench" then Local
    else Invalid
  }

  /** `Convert` and `Spelling` are inverse on the three real modes: each
      mode is reached from exactly one string, its spelling. */
  lemma ConvertSpelling(m: Mode, s: string)
    ensures m != Invalid ==> Convert(Spelling(m)) == m
    ensures Convert(s) != Invalid ==> Spelling(Convert(s)) == s
    ensures Convert(s) == m && m != Invalid ==> s == Spelling(m)
  {
  }
}
