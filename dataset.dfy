/**
 * `FewShotDataset` (few_shot_dataset.py): the examples are selected into `examples`
 * and the per-label pools kept in `label_examples`, both updated in place by
 * `generate_examples`; `generate_prompt` renders a random sample of the examples.
 * Each method is proved to compute the functions of selection.dfy and prompt.dfy,
 * whose properties are proved there.
 */
module FewShot {
  import opened Wrappers
  import opened Text
  import opened Hierarchy
  import opened LabelStore
  import opened Examples
  import opened Selection
  import opened Prompt

  /** What a pool was built from: the label's email ids, in the order they were visited. */
  ghost predicate PoolBuilt(st: Store, data: Analyzed, count: Counter, listing: Listing, name: string, pool: seq<Candidate>, emails: seq<string>)
    requires Rooted(st)
  {
    name in st.nodes && Distinct(emails) && Elems(emails) == st.nodes[name].emailIds &&
    pool == PoolOf(st, data, count, listing, emails)
  }

  /**
   * The pools of all the labels, each a rearrangement of the pool built from the label's
   * email ids in the order they were visited.
   */
  ghost predicate PoolsShuffled(st: Store, data: Analyzed, count: Counter, listing: Listing, pools: map<string, seq<Candidate>>, visited: map<string, seq<string>>)
    requires Rooted(st)
  {
    pools.Keys == st.nodes.Keys && visited.Keys == st.nodes.Keys &&
    forall l :: l in pools ==>
      PoolBuilt(st, data, count, listing, l, PoolOf(st, data, count, listing, visited[l]), visited[l]) &&
      multiset(pools[l]) == multiset(PoolOf(st, data, count, listing, visited[l]))
  }

  lemma ShuffledPools(st: Store, data: Analyzed, count: Counter, listing: Listing, p0: map<string, seq<Candidate>>, p1: map<string, seq<Candidate>>, visited: map<string, seq<string>>)
    requires Rooted(st)
    requires p0.Keys == st.nodes.Keys && visited.Keys == st.nodes.Keys
    requires forall l :: l in p0 ==> PoolBuilt(st, data, count, listing, l, p0[l], visited[l])
    requires p1.Keys == p0.Keys && forall l :: l in p1 ==> multiset(p1[l]) == multiset(p0[l])
    ensures PoolsShuffled(st, data, count, listing, p1, visited)
  {
  }

  /** The email ids a set iteration has visited stay distinct and disjoint from the rest. */
  lemma VisitStep(ids: set<string>, rest: set<string>, emails: seq<string>, e: string)
    requires rest <= ids && Elems(emails) == ids - rest && Distinct(emails) && e in rest
    ensures rest - {e} <= ids && Elems(emails + [e]) == ids - (rest - {e})
    ensures Distinct(emails + [e]) && |rest - {e}| < |rest|
  {
    ElemsAppend(emails, e);
    DistinctAppend(emails, e);
  }

  /** One turn of the pool loop of `generate_examples`: the label at `i` gets its pool. */
  lemma PoolsNext(st: Store, data: Analyzed, count: Counter, listing: Listing,
                  pools: map<string, seq<Candidate>>, visited: map<string, seq<string>>, i: nat,
                  pools': map<string, seq<Candidate>>, visited': map<string, seq<string>>, i': nat,
                  pool: seq<Candidate>, emails: seq<string>)
    requires Rooted(st) && i < |st.order| && i' == i + 1
    requires pools.Keys == Elems(st.order[..i]) && visited.Keys == pools.Keys
    requires forall l :: l in pools ==> PoolBuilt(st, data, count, listing, l, pools[l], visited[l])
    requires PoolBuilt(st, data, count, listing, st.order[i], pool, emails)
    requires pools' == pools[st.order[i] := pool] && visited' == visited[st.order[i] := emails]
    ensures pools'.Keys == Elems(st.order[..i']) && visited'.Keys == pools'.Keys
    ensures forall l :: l in pools' ==> PoolBuilt(st, data, count, listing, l, pools'[l], visited'[l])
  {
    KeysNext(st.order, i, i', pools, visited, pools', visited', pool, emails);
    forall l | l in pools' ensures PoolBuilt(st, data, count, listing, l, pools'[l], visited'[l]) {
      if l != st.order[i] {
        assert pools'[l] == pools[l] && visited'[l] == visited[l];
      }
    }
  }

  /** Adding the key at `i` of `order` to two maps keyed by the first `i` keys. */
  lemma KeysNext<V, W>(order: seq<string>, i: nat, i': nat, m: map<string, V>, n: map<string, W>,
                       m': map<string, V>, n': map<string, W>, v: V, w: W)
    requires i < |order| && i' == i + 1
    requires m.Keys == Elems(order[..i]) && n.Keys == m.Keys
    requires m' == m[order[i] := v] && n' == n[order[i] := w]
    ensures m'.Keys == Elems(order[..i']) && n'.Keys == m'.Keys
  {
    ElemsAppend(order[..i], order[i]);
    assert order[..i'] == order[..i] + [order[i]];
  }

  /**
   * The two passes over the shuffled pools give the outcome: shuffling keeps the sizes,
   * so the cap and the order of the labels are the ones computed before it.
   */
  lemma SelectedOutcome(order: seq<string>, pools0: map<string, seq<Candidate>>, pools1: map<string, seq<Candidate>>,
                        minPer: int, maxPer: Option<int>, base: int, cap: int, sorted: seq<string>, s1: Sel, s2: Sel)
    requires forall i :: 0 <= i < |order| ==> order[i] in pools0
    requires pools1.Keys == pools0.Keys && forall l :: l in pools0 ==> multiset(pools1[l]) == multiset(pools0[l])
    requires MaxPerLabel(minPer, maxPer, order, Sizes(pools0)) == Ok(cap)
    requires sorted == SortBySize(order, Sizes(pools0))
    requires s1 == FirstPass(Sel([], {}, base), sorted, pools1, minPer)
    requires s2 == if s1.total < MaxTokens then TopUp(s1, sorted, pools1, cap) else s1
    ensures Outcome(order, pools1, minPer, maxPer, base) == Ok(s2)
  {
    SizesSame(pools0, pools1);
    OutcomeSteps(order, pools1, minPer, maxPer, base, cap, s1, s2);
  }

  /** The examples at the positions `picks`. */
  function Pick(exs: seq<Example>, picks: seq<nat>): (sample: seq<Example>)
    requires forall i :: 0 <= i < |picks| ==> picks[i] < |exs|
    ensures |sample| == |picks|
    ensures forall i :: 0 <= i < |picks| ==> sample[i] == exs[picks[i]]
  {
    seq(|picks|, i requires 0 <= i < |picks| => exs[picks[i]])
  }

  class FewShotDataset {
    const hierarchy: LabelHierarchy
    const analyzedData: Analyzed
    /** The tokenizer, as the token count it gives a text. */
    const countTokens: Counter
    /** How the interpreter lists a set of label names built in a given order. */
    const listSet: Listing
    var examples: seq<Example>
    var labelExamples: map<string, seq<Candidate>>
    /** For each label, the order its email ids were visited in when its pool was built. */
    ghost var visited: map<string, seq<string>>

    constructor (hierarchy: LabelHierarchy, analyzedData: Analyzed, countTokens: Counter, listSet: Listing)
      ensures this.hierarchy == hierarchy && this.analyzedData == analyzedData
      ensures this.countTokens == countTokens && this.listSet == listSet
      ensures examples == [] && labelExamples == map[]
    {
      this.hierarchy := hierarchy;
      this.analyzedData := analyzedData;
      this.countTokens := countTokens;
      this.listSet := listSet;
      examples := [];
      labelExamples := map[];
      visited := map[];
    }

    /** `estimate_example_tokens`: the tokens of the rendered example. */
    method EstimateTokens(example: Example) returns (tokens: nat)
      ensures tokens == Tokens(countTokens, example)
    {
      var formatted := FormatExample(example);
      tokens := countTokens(formatted);
    }

    /** The body of the pool loop for one email id: its candidate, when it qualifies. */
    method CandidateOf(e: string) returns (c: Option<Candidate>)
      requires hierarchy.Valid()
      ensures Qualifies(hierarchy.State(), analyzedData, countTokens, listSet, e) ==> c == Some(CandidateFor(hierarchy.State(), analyzedData, countTokens, listSet, e))
      ensures !Qualifies(hierarchy.State(), analyzedData, countTokens, listSet, e) ==> c == None
    {
      if e in analyzedData {
        var emailData := analyzedData[e];
        var content := if "post_content_en" in emailData then emailData["post_content_en"] else "";
        if content != "" {
          var labelPaths := hierarchy.GetAllPathsForEmail(e);
          var labels := listSet(Lasts(labelPaths));
          var example := Example(content, labels, labelPaths);
          var tokens := EstimateTokens(example);
          if tokens <= MaxTokens / 2 {
            return Some(Candidate(example, tokens));
          }
        }
      }
      return None;
    }

    /** The pool of one label: its email ids in the order the set yields them, candidates kept. */
    method BuildPool(name: string) returns (pool: seq<Candidate>, ghost emails: seq<string>)
      requires hierarchy.Valid() && name in hierarchy.nodes
      ensures PoolBuilt(hierarchy.State(), analyzedData, countTokens, listSet, name, pool, emails)
    {
      ghost var ids := hierarchy.nodes[name].emailIds;
      var rest := hierarchy.nodes[name].emailIds;
      pool := [];
      emails := [];
      while rest != {}
        invariant rest <= ids && Elems(emails) == ids - rest
        invariant Distinct(emails)
        invariant pool == PoolOf(hierarchy.State(), analyzedData, countTokens, listSet, emails)
        decreases |rest|
      {
        var e :| e in rest;
        pool := AddCandidate(pool, emails, e);
        VisitStep(ids, rest, emails, e);
        emails := emails + [e];
        rest := rest - {e};
      }
    }

    /** One turn of the pool loop: the email's candidate, when it qualifies, joins the pool. */
    method AddCandidate(pool: seq<Candidate>, ghost emails: seq<string>, e: string) returns (pool': seq<Candidate>)
      requires hierarchy.Valid() && pool == PoolOf(hierarchy.State(), analyzedData, countTokens, listSet, emails)
      ensures pool' == PoolOf(hierarchy.State(), analyzedData, countTokens, listSet, emails + [e])
    {
      var c := CandidateOf(e);
      pool' := if c.Some? then pool + [c.value] else pool;
      PoolOfNext(hierarchy.State(), analyzedData, countTokens, listSet, emails, e);
    }

    /** The pool loop of `generate_examples`: a fresh pool for every label of the hierarchy. */
    method BuildPools()
      requires hierarchy.Valid()
      modifies this`labelExamples, this`visited
      ensures labelExamples.Keys == hierarchy.nodes.Keys && visited.Keys == hierarchy.nodes.Keys
      ensures forall l :: l in labelExamples ==>
        PoolBuilt(hierarchy.State(), analyzedData, countTokens, listSet, l, labelExamples[l], visited[l])
    {
      ghost var st := hierarchy.State();
      labelExamples := map[];
      visited := map[];
      var i := 0;
      while i < |hierarchy.order|
        invariant i <= |st.order|
        invariant labelExamples.Keys == Elems(st.order[..i]) && visited.Keys == labelExamples.Keys
        invariant forall l :: l in labelExamples ==> PoolBuilt(st, analyzedData, countTokens, listSet, l, labelExamples[l], visited[l])
      {
        var name := hierarchy.order[i];
        var pool, emails := BuildPool(name);
        ghost var pools0, visited0, i0 := labelExamples, visited, i;
        labelExamples := labelExamples[name := pool];
        visited := visited[name := emails];
        i := i + 1;
        PoolsNext(st, analyzedData, countTokens, listSet, pools0, visited0, i0, labelExamples, visited, i, pool, emails);
      }
      assert st.order[..i] == st.order;
    }

    /**
     * The loop over one pool: the examples taken are appended to `examples`, and the
     * selection state moves as `Fill` says.
     */
    method FillFrom(pool: seq<Candidate>, count: int, limit: int, added: set<string>, total: int, ghost picked: seq<Candidate>)
      returns (added': set<string>, total': int, ghost picked': seq<Candidate>)
      requires examples == ExamplesOf(picked)
      modifies this`examples
      ensures Sel(picked', added', total') == Fill(Sel(picked, added, total), pool, count, limit)
      ensures examples == ExamplesOf(picked')
    {
      ghost var target := Fill(Sel(picked, added, total), pool, count, limit);
      added', total', picked' := added, total, picked;
      var addedCount := count;
      var k := 0;
      while k < |pool|
        invariant k <= |pool|
        invariant Fill(Sel(picked', added', total'), pool[k..], addedCount, limit) == target
        invariant examples == ExamplesOf(picked')
      {
        FillUnfold(Sel(picked', added', total'), pool, k, addedCount, limit);
        var example := pool[k].example;
        var tokens := pool[k].tokens;
        if addedCount >= limit {
          break;
        }
        if total' + tokens > MaxTokens {
          break;
        }
        if example.content !in added' {
          ExamplesOfTake(picked', pool[k]);
          examples := examples + [example];
          added' := added' + {example.content};
          total' := total' + tokens;
          addedCount := addedCount + 1;
          picked' := picked' + [pool[k]];
        }
        k := k + 1;
      }
    }

    /**
     * `generate_examples(min_examples_per_label, max_examples_per_label)`: the pools are
     * rebuilt; then, when the cap can be fixed, `examples` becomes what `Outcome` selects
     * from the pools as shuffled. Without labels and without a given cap, `min()` fails
     * and `examples` is left alone.
     */
    method GenerateExamples(minPer: int, maxPer: Option<int>) returns (r: Result<(), Error>, ghost sel: Sel)
      requires hierarchy.Valid()
      modifies this
      ensures PoolsShuffled(hierarchy.State(), analyzedData, countTokens, listSet, labelExamples, visited)
      ensures forall i :: 0 <= i < |hierarchy.order| ==> hierarchy.order[i] in labelExamples
      ensures r.Err? ==> r.error == NoLabels && examples == old(examples)
      ensures r.Err? <==> Outcome(hierarchy.order, labelExamples, minPer, maxPer, BaseTokens(countTokens)).Err?
      ensures r.Ok? ==>
        Outcome(hierarchy.order, labelExamples, minPer, maxPer, BaseTokens(countTokens)) == Ok(sel) &&
        examples == ExamplesOf(sel.picked)
    {
      ghost var st := hierarchy.State();
      BuildPools();
      ghost var pools0 := labelExamples;
      r, sel := SelectExamples(hierarchy.order, minPer, maxPer);
      ShuffledPools(st, analyzedData, countTokens, listSet, pools0, labelExamples, visited);
    }

    /**
     * The part of `generate_examples` after the pools are built: the cap, the order of
     * the labels, and the two passes.
     */
    method SelectExamples(order: seq<string>, minPer: int, maxPer: Option<int>) returns (r: Result<(), Error>, ghost sel: Sel)
      requires Distinct(order) && forall i :: 0 <= i < |order| ==> order[i] in labelExamples
      modifies this`examples, this`labelExamples
      ensures labelExamples.Keys == old(labelExamples).Keys
      ensures forall l :: l in labelExamples ==> multiset(labelExamples[l]) == multiset(old(labelExamples)[l])
      ensures r.Err? ==> r.error == NoLabels && examples == old(examples)
      ensures r.Err? <==> Outcome(order, labelExamples, minPer, maxPer, BaseTokens(countTokens)).Err?
      ensures r.Ok? ==>
        Outcome(order, labelExamples, minPer, maxPer, BaseTokens(countTokens)) == Ok(sel) &&
        examples == ExamplesOf(sel.picked)
    {
      var cap := MaxPerLabel(minPer, maxPer, order, Sizes(labelExamples));
      if cap.Err? {
        sel := Sel([], {}, 0);
        return Err(cap.error), sel;
      }
      var maxPerLabel := cap.value;
      ghost var pools0 := labelExamples;
      var sortedLabels := SortBySize(order, Sizes(labelExamples));
      DistinctPerm(order, sortedLabels);

      examples := [];
      var examplesAdded: set<string> := {};
      var totalTokens := BaseCount();
      ghost var picked: seq<Candidate> := [];
      examplesAdded, totalTokens, picked := FirstPassLoop(sortedLabels, minPer, examplesAdded, totalTokens, picked);
      ghost var s1 := Sel(picked, examplesAdded, totalTokens);
      if totalTokens < MaxTokens {
        examplesAdded, totalTokens, picked := TopUpLoop(sortedLabels, maxPerLabel, examplesAdded, totalTokens, picked);
      }
      sel := Sel(picked, examplesAdded, totalTokens);
      SelectedOutcome(order, pools0, labelExamples, minPer, maxPer, BaseTokens(countTokens), maxPerLabel, sortedLabels, s1, sel);
      r := Ok(());
    }

    /** The token count `generate_examples` starts from: the preamble and the request. */
    method BaseCount() returns (total: int)
      ensures total == BaseTokens(countTokens)
    {
      total := countTokens(Preamble);
      total := total + countTokens("\n" + Request);
    }

    /** The first pass of `generate_examples`: each pool is shuffled when its label comes up. */
    method FirstPassLoop(sortedLabels: seq<string>, minPer: int, added: set<string>, total: int, ghost picked: seq<Candidate>)
      returns (added': set<string>, total': int, ghost picked': seq<Candidate>)
      requires Distinct(sortedLabels) && forall i :: 0 <= i < |sortedLabels| ==> sortedLabels[i] in labelExamples
      requires examples == ExamplesOf(picked)
      modifies this`examples, this`labelExamples
      ensures labelExamples.Keys == old(labelExamples).Keys
      ensures forall l :: l in labelExamples ==> multiset(labelExamples[l]) == multiset(old(labelExamples)[l])
      ensures Sel(picked', added', total') == FirstPass(Sel(picked, added, total), sortedLabels, labelExamples, minPer)
      ensures examples == ExamplesOf(picked')
    {
      ghost var s0 := Sel(picked, added, total);
      ghost var pools0 := labelExamples;
      added', total', picked' := added, total, picked;
      var j := 0;
      while j < |sortedLabels|
        invariant j <= |sortedLabels|
        invariant labelExamples.Keys == pools0.Keys
        invariant forall l :: l in pools0 ==> multiset(labelExamples[l]) == multiset(pools0[l])
        invariant forall k :: j <= k < |sortedLabels| ==> labelExamples[sortedLabels[k]] == pools0[sortedLabels[k]]
        invariant Sel(picked', added', total') == FirstPass(s0, sortedLabels[..j], labelExamples, minPer)
        invariant examples == ExamplesOf(picked')
      {
        var name := sortedLabels[j];
        var examplesOfLabel := labelExamples[name];
        if examplesOfLabel == [] {
          FirstPassNext(s0, sortedLabels, j, labelExamples, minPer);
          j := j + 1;
          continue;
        }
        var shuffled :| multiset(shuffled) == multiset(examplesOfLabel);
        ghost var before := labelExamples;
        labelExamples := labelExamples[name := shuffled];
        FirstPassFrame(s0, sortedLabels[..j], before, labelExamples, minPer);
        FirstPassNext(s0, sortedLabels, j, labelExamples, minPer);
        added', total', picked' := FillFrom(shuffled, 0, minPer, added', total', picked');
        j := j + 1;
      }
      assert sortedLabels[..j] == sortedLabels;
    }

    /** The top-up pass of `generate_examples`: each label's count is taken from `examples`. */
    method TopUpLoop(sortedLabels: seq<string>, maxPer: int, added: set<string>, total: int, ghost picked: seq<Candidate>)
      returns (added': set<string>, total': int, ghost picked': seq<Candidate>)
      requires forall i :: 0 <= i < |sortedLabels| ==> sortedLabels[i] in labelExamples
      requires examples == ExamplesOf(picked)
      modifies this`examples
      ensures Sel(picked', added', total') == TopUp(Sel(picked, added, total), sortedLabels, labelExamples, maxPer)
      ensures examples == ExamplesOf(picked')
    {
      ghost var s1 := Sel(picked, added, total);
      added', total', picked' := added, total, picked;
      var j := 0;
      while j < |sortedLabels|
        invariant j <= |sortedLabels|
        invariant Sel(picked', added', total') == TopUp(s1, sortedLabels[..j], labelExamples, maxPer)
        invariant examples == ExamplesOf(picked')
      {
        var name := sortedLabels[j];
        var addedCount := CountWith(examples, name);
        TopUpNext(s1, sortedLabels, j, labelExamples, maxPer);
        added', total', picked' := FillFrom(labelExamples[name], addedCount, maxPer, added', total', picked');
        j := j + 1;
      }
      assert sortedLabels[..j] == sortedLabels;
    }

    /**
     * `generate_prompt(num_examples)`: fails without examples; otherwise the number is
     * capped at the number of examples, a negative one fails in `random.sample`, and the
     * prompt is built from the sampled examples (distinct positions, in sampled order).
     */
    method GeneratePrompt(num: int) returns (r: Result<string, Error>, ghost picks: seq<nat>)
      ensures examples == [] ==> r == Err(NoExamples)
      ensures examples != [] && num < 0 ==> r == Err(NegativeSample)
      ensures examples != [] && num >= 0 ==>
        r.Ok? && |picks| == (if num > |examples| then |examples| else num) && Distinct(picks) &&
        (forall i :: 0 <= i < |picks| ==> picks[i] < |examples|) &&
        r.value == PromptFor(Pick(examples, picks), countTokens)
    {
      picks := [];
      if examples == [] {
        return Err(NoExamples), picks;
      }
      var numExamples := num;
      if numExamples > |examples| {
        numExamples := |examples|;
      }
      if numExamples < 0 {
        return Err(NegativeSample), picks;
      }
      ghost var first: seq<nat> := seq(numExamples, i requires 0 <= i < numExamples => i);
      assert Distinct(first) && forall i :: 0 <= i < |first| ==> first[i] < |examples|;
      var sample: seq<nat> :| |sample| == numExamples && Distinct(sample) && forall i :: 0 <= i < |sample| ==> sample[i] < |examples|;
      picks := sample;
      var selected := Pick(examples, sample);
      var prompt := BuildPrompt(selected);
      r := Ok(prompt);
    }

    /** `generate_prompt` after the sampling: the preamble, the examples that fit, the request. */
    method BuildPrompt(selected: seq<Example>) returns (prompt: string)
      ensures prompt == PromptFor(selected, countTokens)
    {
      prompt := Preamble;
      prompt := AddExamples(prompt, selected, countTokens);
      prompt := prompt + Request;
    }
  }
}
