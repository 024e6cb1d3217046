/**
 * What `FewShotDataset.generate_prompt` (few_shot_dataset.py) builds from the sampled
 * examples: the preamble, as many rendered examples as fit in the budget, and the
 * closing request, which is appended without a budget check.
 */
module Prompt {
  import opened Text
  import opened Hierarchy
  import opened Examples
  import opened Selection

  const Preamble: string := "Here are some examples of content and their hierarchical labels:\n\n"
  const Request: string := "Now, please analyze the following content and assign appropriate hierarchical labels:\n\n"
  const Separator: string := "\n---\n\n"

  /** The budget `generate_examples` starts from: the preamble and the request, newline first. */
  function BaseTokens(count: Counter): int
  {
    count(Preamble) + count("\n" + Request)
  }

  /** One example as it appears in the prompt. */
  function Block(ex: Example): string
  {
    FormatZipped(ex) + Separator
  }

  function Blocks(exs: seq<Example>): (bs: seq<string>)
    ensures |bs| == |exs|
    ensures forall i :: 0 <= i < |exs| ==> bs[i] == Block(exs[i])
  {
    seq(|exs|, i requires 0 <= i < |exs| => Block(exs[i]))
  }

  /** The token count of each example's block, in order. */
  function Costs(exs: seq<Example>, count: Counter): (cs: seq<nat>)
    ensures |cs| == |exs|
    ensures forall i :: 0 <= i < |exs| ==> cs[i] == count(Block(exs[i]))
  {
    seq<nat>(|exs|, i requires 0 <= i < |exs| => count(Block(exs[i])))
  }

  function Sum(xs: seq<nat>): nat
  {
    if xs == [] then 0 else Sum(xs[..|xs| - 1]) + xs[|xs| - 1]
  }

  /** How many blocks the loop adds, from `total` tokens so far: it stops at the first that does not fit. */
  function Fit(total: int, costs: seq<nat>): (k: nat)
    ensures k <= |costs|
    decreases |costs|
  {
    if costs == [] || total + costs[0] > MaxTokens then 0
    else 1 + Fit(total + costs[0], costs[1..])
  }

  /** The prompt for a sample of examples. */
  function PromptFor(sample: seq<Example>, count: Counter): string
  {
    var k := Fit(count(Preamble), Costs(sample, count));
    Preamble + Concat(Blocks(sample[..k])) + Request
  }

  lemma SumCons(xs: seq<nat>)
    requires xs != []
    ensures Sum(xs) == xs[0] + Sum(xs[1..])
    decreases |xs|
  {
    if |xs| > 1 {
      var front := xs[..|xs| - 1];
      SumCons(front);
      assert front[1..] == xs[1..][..|xs| - 2];
    } else {
      assert xs[..0] == [];
    }
  }

  /**
   * The blocks taken fit: from `total`, their tokens stay within the budget whenever
   * any is taken, and the loop stops early only at a block that would overflow it.
   */
  lemma {:induction false} FitBounds(total: int, costs: seq<nat>)
    ensures var k := Fit(total, costs);
      (k > 0 ==> total + Sum(costs[..k]) <= MaxTokens) &&
      (k < |costs| ==> total + Sum(costs[..k]) + costs[k] > MaxTokens)
    decreases |costs|
  {
    var k := Fit(total, costs);
    if k == 0 {
      assert costs[..0] == [];
    } else {
      FitBounds(total + costs[0], costs[1..]);
      SumCons(costs[..k]);
      assert costs[..k][1..] == costs[1..][..k - 1];
      if k < |costs| {
        assert costs[k] == costs[1..][k - 1];
      }
    }
  }

  /**
   * The examples a prompt holds (the first `Fit` of the sample) fit in the budget together
   * with the preamble, and the next one of the sample would not; the request appended
   * after them is not counted.
   */
  lemma PromptWithinBudget(sample: seq<Example>, count: Counter)
    ensures var costs := Costs(sample, count);
      var k := Fit(count(Preamble), costs);
      (k > 0 ==> count(Preamble) + Sum(costs[..k]) <= MaxTokens) &&
      (k < |sample| ==> count(Preamble) + Sum(costs[..k + 1]) > MaxTokens)
  {
    var costs := Costs(sample, count);
    var k := Fit(count(Preamble), costs);
    FitBounds(count(Preamble), costs);
    if k < |sample| {
      SumNext(costs, k);
    }
  }

  lemma SumNext(xs: seq<nat>, k: nat)
    requires k < |xs|
    ensures Sum(xs[..k + 1]) == Sum(xs[..k]) + xs[k]
  {
    assert xs[..k + 1][..k] == xs[..k];
  }

  /** `Fit` from the middle of the loop, when the next block does not fit. */
  lemma FitStops(total: int, costs: seq<nat>, i: nat)
    requires i < |costs| && total + costs[i] > MaxTokens
    ensures Fit(total, costs[i..]) == 0
  {
  }

  /** `Fit` from the middle of the loop, when the next block fits. */
  lemma FitNext(fit: int, total: int, total': int, costs: seq<nat>, i: nat, i': nat)
    requires i < |costs| && i' == i + 1 && total' == total + costs[i] && total' <= MaxTokens
    requires fit == i + Fit(total, costs[i..])
    ensures fit == i' + Fit(total', costs[i'..])
  {
    assert costs[i..][1..] == costs[i'..];
  }

  lemma BlocksNext(exs: seq<Example>, i: nat)
    requires i < |exs|
    ensures Blocks(exs[..i + 1]) == Blocks(exs[..i]) + [Block(exs[i])]
  {
  }

  /** The text the loop of `generate_prompt` holds grows by one block per example. */
  lemma PromptNext(start: string, parts: seq<string>, text: string)
    ensures start + Concat(parts + [text]) == start + Concat(parts) + text
  {
    ConcatAppend(parts, text);
    AppendAssoc(start, Concat(parts), text);
  }

  /** One example as the loop of `generate_prompt` appends it. */
  method RenderBlock(example: Example) returns (text: string)
    ensures text == Block(example)
  {
    text := FormatExample(example);
    text := text + Separator;
  }

  /**
   * The loop of `generate_prompt`: each example's block is appended while the running
   * count, started at the tokens of `start`, stays within the budget.
   */
  method AddExamples(start: string, selected: seq<Example>, countTokens: Counter) returns (prompt: string)
    ensures prompt == start + Concat(Blocks(selected[..Fit(countTokens(start), Costs(selected, countTokens))]))
  {
    prompt := start;
    var totalTokens := countTokens(prompt);
    ghost var costs := Costs(selected, countTokens);
    ghost var fit := Fit(totalTokens, costs);
    ghost var parts: seq<string> := [];
    var i := 0;
    while i < |selected|
      invariant i <= |selected|
      invariant parts == Blocks(selected[..i])
      invariant prompt == start + Concat(parts)
      invariant fit == i + Fit(totalTokens, costs[i..])
    {
      var exampleText := RenderBlock(selected[i]);
      var exampleTokens := countTokens(exampleText);
      if totalTokens + exampleTokens > MaxTokens {
        FitStops(totalTokens, costs, i);
        break;
      }
      BlocksNext(selected, i);
      PromptNext(start, parts, exampleText);
      ghost var total0, i0 := totalTokens, i;
      prompt := prompt + exampleText;
      parts := parts + [exampleText];
      totalTokens := totalTokens + exampleTokens;
      i := i + 1;
      FitNext(fit, total0, totalTokens, costs, i0, i);
    }
  }
}
