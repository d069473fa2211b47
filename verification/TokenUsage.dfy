/** Measured usage and the charge rule shared by the run budget and the advisor's allowance. */
module TokenUsage {
  import opened Options

  /** A count the provider did not report is unknown, never zero. Cache counts subdivide the input tokens. */
  datatype Usage = Usage(input: Option<nat>, output: Option<nat>, cacheRead: Option<nat>, cacheWrite: Option<nat>)

  function Max(a: nat, b: nat): nat { if a < b then b else a }
  function Min(a: nat, b: nat): nat { if a < b then a else b }

  predicate Known(usage: Option<Usage>) {
    usage.Some? && usage.value.input.Some? && usage.value.output.Some?
  }

  /** The charge of an admission of `estimate` tokens: the measured total, or at least the estimate while unknown. */
  function ChargeFor(estimate: nat, usage: Option<Usage>): nat {
    if usage.None? then Max(estimate, 0)
    else if usage.value.input.None? || usage.value.output.None? then
      Max(estimate, usage.value.input.GetOr(0) + usage.value.output.GetOr(0))
    else usage.value.input.value + usage.value.output.value
  }
}
