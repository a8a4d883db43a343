/** Token counting (assembler/tokenizer.py). */
module Tokenizer {
  import opened Prelude

  type Counter = string -> nat

  /** About four characters a token, rounded up. */
  function HeuristicCount(text: string): nat { (|text| + 3) / 4 }

  /** The tokenizer's count, or the heuristic plus 8% (rounded up) when there is no tokenizer. */
  function CountWith(tokenizer: Option<Counter>, text: string): nat {
    if tokenizer.Some? then tokenizer.value(text) else (HeuristicCount(text) * 108 + 99) / 100
  }

  /** Counting without a tokenizer never counts less than 8% more than the heuristic, nor one token more
      than that. */
  lemma ConservativeOvercounts(text: string)
    ensures var (base, n) := (HeuristicCount(text), CountWith(None, text));
      base <= n && 108 * base <= 100 * n < 108 * base + 100
  {
  }
}
