/**
 * What `FewShotDataset.generate_examples` (few_shot_dataset.py) computes, as functions:
 * the pool of candidate examples of each label, the order the labels are visited in,
 * and the two selection passes under the token budget. The class in dataset.dfy runs
 * the loops and is proved to compute these functions.
 */
module Selection {
  import opened Wrappers
  import opened Hierarchy
  import opened Paths
  import opened Examples

  /** `MAX_TOKENS`: the budget of a whole prompt. */
  const MaxTokens: nat := 32000

  /** The `ValueError`s of `generate_examples` and `generate_prompt`. */
  datatype Error =
    | NoLabels        // `min()` over the pool sizes of a hierarchy without labels
    | NoExamples      // `generate_prompt` before any example was selected
    | NegativeSample  // `random.sample` asked for a negative number of examples

  /** `analyzed_data`: per email id, the fields of its analysis. */
  type Analyzed = map<string, map<string, string>>

  /** The tokenizer's `len(encode(text))`. */
  type Counter = string -> nat

  /** A pooled `(example, tokens)` pair. */
  datatype Candidate = Candidate(example: Example, tokens: nat)

  // ---------------------------------------------------------------------------
  // The pools

  /** `email_data.get('post_content_en', '')` of a known email. */
  function Content(data: Analyzed, e: string): string
  {
    if e in data && "post_content_en" in data[e] then data[e]["post_content_en"] else ""
  }

  /** `path[-1]`. */
  function Last(path: seq<string>): string
  {
    if path == [] then "" else path[|path| - 1]
  }

  /** The label each path ends at, in the order of the paths. */
  function Lasts(paths: seq<seq<string>>): (ls: seq<string>)
    ensures |ls| == |paths|
    ensures forall i :: 0 <= i < |paths| ==> ls[i] == Last(paths[i])
  {
    seq(|paths|, i requires 0 <= i < |paths| => Last(paths[i]))
  }

  /**
   * How the interpreter lists a set of names built from a sequence (`list(set(...))`):
   * the order depends on the hashes and the insertions, so it is an input.
   */
  type Listing = seq<string> -> seq<string>

  /** A listing gives each name of its input exactly once, in some order. */
  ghost predicate ListsSet(listing: Listing)
  {
    forall xs :: Elems(listing(xs)) == Elems(xs) && Distinct(listing(xs))
  }

  /** The example built for an email: its content, its labels as the set lists them, and all its paths. */
  function ExampleFor(st: Store, data: Analyzed, listing: Listing, e: string): Example
    requires Rooted(st)
  {
    var paths := AllPaths(st, e);
    Example(Content(data, e), listing(Lasts(paths)), paths)
  }

  /** `estimate_example_tokens`: the tokens of the example as `format_example` renders it. */
  function Tokens(count: Counter, ex: Example): nat
  {
    count(FormatZipped(ex))
  }

  function CandidateFor(st: Store, data: Analyzed, count: Counter, listing: Listing, e: string): Candidate
    requires Rooted(st)
  {
    var ex := ExampleFor(st, data, listing, e);
    Candidate(ex, Tokens(count, ex))
  }

  /** An email gives a candidate when it was analyzed, has content, and fits in half the budget. */
  predicate Qualifies(st: Store, data: Analyzed, count: Counter, listing: Listing, e: string)
    requires Rooted(st)
  {
    e in data && Content(data, e) != "" && CandidateFor(st, data, count, listing, e).tokens <= MaxTokens / 2
  }

  /** The pool of a label whose email ids were visited in the order `emails`. */
  function PoolOf(st: Store, data: Analyzed, count: Counter, listing: Listing, emails: seq<string>): seq<Candidate>
    requires Rooted(st)
  {
    if emails == [] then []
    else
      var e := emails[|emails| - 1];
      PoolOf(st, data, count, listing, emails[..|emails| - 1]) +
        (if Qualifies(st, data, count, listing, e) then [CandidateFor(st, data, count, listing, e)] else [])
  }

  lemma PoolOfNext(st: Store, data: Analyzed, count: Counter, listing: Listing, emails: seq<string>, e: string)
    requires Rooted(st)
    ensures PoolOf(st, data, count, listing, emails + [e]) ==
      PoolOf(st, data, count, listing, emails) + if Qualifies(st, data, count, listing, e) then [CandidateFor(st, data, count, listing, e)] else []
  {
    assert (emails + [e])[..|emails|] == emails;
  }

  lemma DistinctAppend<T>(s: seq<T>, x: T)
    requires Distinct(s) && x !in s
    ensures Distinct(s + [x])
  {
  }

  /** The pool holds exactly the candidates of the qualifying emails. */
  lemma {:induction false} PoolExact(st: Store, data: Analyzed, count: Counter, listing: Listing, emails: seq<string>)
    requires Rooted(st)
    ensures forall e :: e in emails && Qualifies(st, data, count, listing, e) ==> CandidateFor(st, data, count, listing, e) in PoolOf(st, data, count, listing, emails)
    ensures forall c :: c in PoolOf(st, data, count, listing, emails) ==>
      exists e :: e in emails && Qualifies(st, data, count, listing, e) && c == CandidateFor(st, data, count, listing, e)
  {
    if emails != [] {
      var front := emails[..|emails| - 1];
      PoolExact(st, data, count, listing, front);
      assert emails == front + [emails[|emails| - 1]];
    }
  }

  /** Each path of an example is the path of the label it ends at, and that label is covered. */
  lemma PathsEndAtLabels(st: Store, e: string)
    requires Rooted(st)
    ensures var paths := AllPaths(st, e);
      forall i :: 0 <= i < |paths| ==>
        Last(paths[i]) in Covered(st, LabelsWith(st, st.order, e)) && Last(paths[i]) in st.nodes &&
        paths[i] == PathToRoot(st, Last(paths[i]))
  {
    var paths := AllPaths(st, e);
    var c := Covered(st, LabelsWith(st, st.order, e));
    AllPathsExact(st, e);
    forall i | 0 <= i < |paths|
      ensures Last(paths[i]) in c && Last(paths[i]) in st.nodes && paths[i] == PathToRoot(st, Last(paths[i]))
    {
      assert paths[i] in PathsOf(st, c);
      var x :| x in c && PathToRoot(st, x) == paths[i];
      PathToRootShape(st, x);
    }
  }

  /** An email's paths end at different labels. */
  lemma LastsDistinct(st: Store, e: string)
    requires Rooted(st)
    ensures Distinct(Lasts(AllPaths(st, e)))
  {
    var paths := AllPaths(st, e);
    PathsEndAtLabels(st, e);
    AllPathsExact(st, e);
    forall i, j | 0 <= i < j < |paths| ensures Last(paths[i]) != Last(paths[j]) {
      assert paths[i] != paths[j];
    }
  }

  /**
   * Each label of an email's example appears once and has its own path among the
   * example's paths, and each path is the path of the label it ends at; the labels are
   * those ends, in the order the set lists them.
   */
  lemma ExamplePairs(st: Store, data: Analyzed, listing: Listing, e: string)
    requires Rooted(st) && ListsSet(listing)
    ensures var ex := ExampleFor(st, data, listing, e);
      |ex.labels| == |ex.labelPaths| && Distinct(ex.labels) &&
      multiset(ex.labels) == multiset(Lasts(ex.labelPaths)) &&
      (forall i :: 0 <= i < |ex.labelPaths| ==> ex.labelPaths[i] == PathToRoot(st, Last(ex.labelPaths[i]))) &&
      forall x :: x in ex.labels ==> x in st.nodes && PathToRoot(st, x) in ex.labelPaths
  {
    var ex := ExampleFor(st, data, listing, e);
    var lasts := Lasts(ex.labelPaths);
    PathsEndAtLabels(st, e);
    LastsDistinct(st, e);
    DistinctSameElems(ex.labels, lasts);
    assert |multiset(ex.labels)| == |multiset(lasts)|;
    forall x | x in ex.labels ensures x in st.nodes && PathToRoot(st, x) in ex.labelPaths {
      assert x in Elems(lasts);
      var i :| 0 <= i < |lasts| && lasts[i] == x;
    }
  }

  /**
   * The labels of an email's example are exactly the labels holding the email and
   * all their ancestors.
   */
  lemma ExampleLabels(st: Store, data: Analyzed, listing: Listing, e: string)
    requires Rooted(st) && ListsSet(listing)
    ensures var ex := ExampleFor(st, data, listing, e);
      forall x :: x in ex.labels <==> x in Covered(st, LabelsWith(st, st.order, e))
  {
    var ex := ExampleFor(st, data, listing, e);
    var lasts := Lasts(ex.labelPaths);
    var c := Covered(st, LabelsWith(st, st.order, e));
    PathsEndAtLabels(st, e);
    AllPathsExact(st, e);
    forall x ensures x in ex.labels <==> x in lasts {
      assert x in ex.labels <==> x in Elems(ex.labels);
    }
    forall x | x in c ensures x in lasts {
      assert PathToRoot(st, x) in PathsOf(st, c);
      var i :| 0 <= i < |ex.labelPaths| && ex.labelPaths[i] == PathToRoot(st, x);
      PathToRootInjective(st, x, lasts[i]);
    }
  }

  /**
   * When the set happens to list the labels in the order of their paths, `format_example`
   * pairs each path with its own label.
   */
  lemma ListedInPathOrder(st: Store, data: Analyzed, listing: Listing, e: string)
    requires Rooted(st)
    requires listing(Lasts(AllPaths(st, e))) == Lasts(AllPaths(st, e))
    ensures FormatZipped(ExampleFor(st, data, listing, e)) == Formatted(ExampleFor(st, data, listing, e))
  {
    var ex := ExampleFor(st, data, listing, e);
    PathsEndAtLabels(st, e);
    forall i | 0 <= i < |ex.labels|
      ensures ex.labelPaths[i] != [] && ex.labels[i] == ex.labelPaths[i][|ex.labelPaths[i]| - 1]
    {
      PathToRootShape(st, Last(ex.labelPaths[i]));
    }
    ZippedWhenAligned(ex);
  }

  /** What every candidate of a label's pool satisfies. */
  ghost predicate PoolOk(pool: seq<Candidate>, name: string)
  {
    forall i :: 0 <= i < |pool| ==>
      pool[i].tokens <= MaxTokens / 2 && pool[i].example.content != "" && name in pool[i].example.labels
  }

  /**
   * A candidate costs at most half the budget, has content, and carries every label
   * that holds its email (its path is among the email's paths).
   */
  lemma PoolFacts(st: Store, data: Analyzed, count: Counter, listing: Listing, name: string, emails: seq<string>)
    requires Rooted(st) && ListsSet(listing) && name in st.nodes
    requires forall i :: 0 <= i < |emails| ==> emails[i] in st.nodes[name].emailIds
    ensures PoolOk(PoolOf(st, data, count, listing, emails), name)
  {
    var pool := PoolOf(st, data, count, listing, emails);
    PoolExact(st, data, count, listing, emails);
    forall i | 0 <= i < |pool|
      ensures pool[i].tokens <= MaxTokens / 2 && pool[i].example.content != "" && name in pool[i].example.labels
    {
      assert pool[i] in pool;
      var e :| e in emails && Qualifies(st, data, count, listing, e) && pool[i] == CandidateFor(st, data, count, listing, e);
      var paths := AllPaths(st, e);
      AllPathsComplete(st, e, name);
      PathToRootShape(st, name);
      var k :| 0 <= k < |paths| && paths[k] == PathToRoot(st, name);
      assert Lasts(paths)[k] == name;
      assert name in Elems(pool[i].example.labels);
    }
  }

  // ---------------------------------------------------------------------------
  // The order of the labels

  /** The pool size of each label. */
  function Sizes(pools: map<string, seq<Candidate>>): (sizes: map<string, nat>)
    ensures sizes.Keys == pools.Keys
    ensures forall l :: l in pools ==> sizes[l] == |pools[l]|
  {
    map l | l in pools :: |pools[l]|
  }

  ghost predicate SortedBySize(s: seq<string>, sizes: map<string, nat>)
  {
    forall i, j :: 0 <= i < j < |s| ==> s[i] in sizes && s[j] in sizes && sizes[s[i]] <= sizes[s[j]]
  }

  /** Puts `x` after every name whose size is not larger. */
  function InsertBySize(s: seq<string>, x: string, sizes: map<string, nat>): (r: seq<string>)
    requires x in sizes && forall i :: 0 <= i < |s| ==> s[i] in sizes
    ensures multiset(r) == multiset(s) + multiset{x}
    ensures forall i :: 0 <= i < |r| ==> r[i] in sizes
    decreases |s|
  {
    if s == [] || sizes[s[|s| - 1]] <= sizes[x] then s + [x]
    else
      var front := s[..|s| - 1];
      assert s == front + [s[|s| - 1]];
      InsertBySize(front, x, sizes) + [s[|s| - 1]]
  }

  lemma {:induction false} InsertSorted(s: seq<string>, x: string, sizes: map<string, nat>)
    requires x in sizes && forall i :: 0 <= i < |s| ==> s[i] in sizes
    requires SortedBySize(s, sizes)
    ensures SortedBySize(InsertBySize(s, x, sizes), sizes)
    decreases |s|
  {
    if s == [] || sizes[s[|s| - 1]] <= sizes[x] {
    } else {
      var front := s[..|s| - 1];
      var y := s[|s| - 1];
      var r := InsertBySize(front, x, sizes);
      InsertSorted(front, x, sizes);
      forall i | 0 <= i < |r| ensures r[i] in sizes && sizes[r[i]] <= sizes[y] {
        assert r[i] in multiset(r);
        if r[i] != x {
          assert r[i] in multiset(front);
          var k :| 0 <= k < |front| && front[k] == r[i];
          assert s[k] == r[i];
        }
      }
    }
  }

  /** The names of size `n`, in the order they come in. */
  function WithSize(s: seq<string>, sizes: map<string, nat>, n: nat): seq<string>
    requires forall i :: 0 <= i < |s| ==> s[i] in sizes
  {
    if s == [] then []
    else WithSize(s[..|s| - 1], sizes, n) + (if sizes[s[|s| - 1]] == n then [s[|s| - 1]] else [])
  }

  lemma {:induction false} WithSizeAppend(a: seq<string>, b: seq<string>, sizes: map<string, nat>, n: nat)
    requires forall i :: 0 <= i < |a| ==> a[i] in sizes
    requires forall i :: 0 <= i < |b| ==> b[i] in sizes
    ensures WithSize(a + b, sizes, n) == WithSize(a, sizes, n) + WithSize(b, sizes, n)
    decreases |b|
  {
    if b == [] {
      assert a + b == a;
    } else {
      var front := b[..|b| - 1];
      assert (a + b)[..|a + b| - 1] == a + front && (a + b)[|a + b| - 1] == b[|b| - 1];
      WithSizeAppend(a, front, sizes, n);
    }
  }

  /** Inserting `x` keeps the names of each size in order, `x` after those of its size. */
  lemma {:induction false} InsertStable(s: seq<string>, x: string, sizes: map<string, nat>, n: nat)
    requires x in sizes && forall i :: 0 <= i < |s| ==> s[i] in sizes
    ensures WithSize(InsertBySize(s, x, sizes), sizes, n) == WithSize(s, sizes, n) + WithSize([x], sizes, n)
    decreases |s|
  {
    if s == [] || sizes[s[|s| - 1]] <= sizes[x] {
      WithSizeAppend(s, [x], sizes, n);
    } else {
      var front, y := s[..|s| - 1], s[|s| - 1];
      assert s == front + [y];
      InsertStable(front, x, sizes, n);
      WithSizeAppend(InsertBySize(front, x, sizes), [y], sizes, n);
      WithSizeAppend(front, [y], sizes, n);
      assert WithSize([y], sizes, n) == [] || WithSize([x], sizes, n) == [];
    }
  }

  /**
   * `sorted(keys, key=pool size)`: an insertion sort by size that, like Python's stable
   * sort, keeps the names of each size in the order of `keys`.
   */
  function SortBySize(keys: seq<string>, sizes: map<string, nat>): (r: seq<string>)
    requires forall i :: 0 <= i < |keys| ==> keys[i] in sizes
    ensures multiset(r) == multiset(keys)
    ensures SortedBySize(r, sizes)
    ensures forall i :: 0 <= i < |r| ==> r[i] in sizes
    ensures forall n: nat {:trigger WithSize(keys, sizes, n)} :: WithSize(r, sizes, n) == WithSize(keys, sizes, n)
  {
    if keys == [] then []
    else
      var front, last := keys[..|keys| - 1], keys[|keys| - 1];
      assert keys == front + [last];
      var sorted := SortBySize(front, sizes);
      InsertSorted(sorted, last, sizes);
      var r := InsertBySize(sorted, last, sizes);
      assert forall n: nat {:trigger WithSize(keys, sizes, n)} :: WithSize(r, sizes, n) == WithSize(keys, sizes, n) by {
        forall n: nat ensures WithSize(r, sizes, n) == WithSize(keys, sizes, n) {
          InsertStable(sorted, last, sizes, n);
          WithSizeAppend(front, [last], sizes, n);
        }
      }
      r
  }

  /** The smallest pool size among `labels`. */
  function MinSize(labels: seq<string>, sizes: map<string, nat>): (m: nat)
    requires labels != [] && forall i :: 0 <= i < |labels| ==> labels[i] in sizes
    ensures forall i :: 0 <= i < |labels| ==> m <= sizes[labels[i]]
    ensures exists i :: 0 <= i < |labels| && m == sizes[labels[i]]
  {
    if |labels| == 1 then sizes[labels[0]]
    else
      var rest := MinSize(labels[1..], sizes);
      assert forall i :: 1 <= i < |labels| ==> labels[i] == labels[1..][i - 1];
      if sizes[labels[0]] <= rest then sizes[labels[0]] else rest
  }

  /**
   * The per-label cap of the top-up pass: the one given, or else the smallest pool
   * size raised to the minimum; `min()` of no sizes fails.
   */
  function MaxPerLabel(minPer: int, maxPer: Option<int>, labels: seq<string>, sizes: map<string, nat>): (r: Result<int, Error>)
    requires forall i :: 0 <= i < |labels| ==> labels[i] in sizes
    ensures r.Err? <==> maxPer.None? && labels == []
    ensures maxPer.Some? ==> r == Ok(maxPer.value)
    ensures maxPer.None? && r.Ok? ==>
      // r.value is max(minPer, smallest size): at least both, and one of them
      minPer <= r.value && (exists i :: 0 <= i < |labels| && sizes[labels[i]] <= r.value) &&
      (r.value == minPer || forall i :: 0 <= i < |labels| ==> r.value <= sizes[labels[i]])
  {
    if maxPer.Some? then Ok(maxPer.value)
    else if labels == [] then Err(NoLabels)
    else
      var m := MinSize(labels, sizes);
      Ok(if minPer >= m then minPer else m)
  }

  // ---------------------------------------------------------------------------
  // The selection

  /** The state of the selection: the chosen candidates, `examples_added`, `total_tokens`. */
  datatype Sel = Sel(picked: seq<Candidate>, added: set<string>, total: int)

  function ExamplesOf(picked: seq<Candidate>): (exs: seq<Example>)
    ensures |exs| == |picked|
    ensures forall i :: 0 <= i < |picked| ==> exs[i] == picked[i].example
  {
    seq(|picked|, i requires 0 <= i < |picked| => picked[i].example)
  }

  function Contents(picked: seq<Candidate>): (cs: seq<string>)
    ensures |cs| == |picked|
    ensures forall i :: 0 <= i < |picked| ==> cs[i] == picked[i].example.content
  {
    seq(|picked|, i requires 0 <= i < |picked| => picked[i].example.content)
  }

  function SumTokens(picked: seq<Candidate>): nat
  {
    if picked == [] then 0 else SumTokens(picked[..|picked| - 1]) + picked[|picked| - 1].tokens
  }

  /** `sum(1 for ex in examples if label in ex.labels)`. */
  function CountWith(exs: seq<Example>, name: string): nat
  {
    if exs == [] then 0
    else CountWith(exs[..|exs| - 1], name) + (if name in exs[|exs| - 1].labels then 1 else 0)
  }

  /** Taking a candidate: it is appended, its content recorded, its tokens counted. */
  function Take(s: Sel, c: Candidate): Sel
  {
    Sel(s.picked + [c], s.added + {c.example.content}, s.total + c.tokens)
  }

  /**
   * The loop over one pool: stop once `count` reaches `limit` or the next candidate
   * would exceed the budget; take a candidate whose content is new, skip the others.
   */
  function Fill(s: Sel, pool: seq<Candidate>, count: int, limit: int): Sel
    decreases |pool|
  {
    if pool == [] || count >= limit || s.total + pool[0].tokens > MaxTokens then s
    else if pool[0].example.content in s.added then Fill(s, pool[1..], count, limit)
    else Fill(Take(s, pool[0]), pool[1..], count + 1, limit)
  }

  /**
   * The budget is checked before the content: a candidate already chosen that would not
   * fit ends the loop over its pool, whatever comes after it.
   */
  lemma OverBudgetDuplicateStops(s: Sel, pool: seq<Candidate>, count: int, limit: int)
    requires pool != [] && count < limit
    requires pool[0].example.content in s.added && s.total + pool[0].tokens > MaxTokens
    ensures Fill(s, pool, count, limit) == s
  {
  }

  lemma {:induction false} SumTokensFirst(pool: seq<Candidate>)
    requires pool != []
    ensures SumTokens(pool) == pool[0].tokens + SumTokens(pool[1..])
    decreases |pool|
  {
    var front := pool[..|pool| - 1];
    if |pool| == 1 {
      assert front == [] && pool[1..] == [];
    } else {
      SumTokensFirst(front);
      assert front[1..] == pool[1..][..|pool[1..]| - 1];
    }
  }

  /**
   * The minimum per label holds where the pool allows it: when every candidate's content
   * is new and differs from the others' and the whole pool fits in the budget, a label's
   * turn takes `limit - count` candidates, or all of them when there are fewer.
   */
  lemma {:induction false} FillTakesFresh(s: Sel, pool: seq<Candidate>, count: int, limit: int)
    requires forall i :: 0 <= i < |pool| ==> pool[i].example.content !in s.added
    requires Distinct(Contents(pool))
    requires s.total + SumTokens(pool) <= MaxTokens
    ensures var want := if limit > count then limit - count else 0;
      |Fill(s, pool, count, limit).picked| == |s.picked| + (if want < |pool| then want else |pool|)
    decreases |pool|
  {
    if pool != [] && count < limit {
      SumTokensFirst(pool);
      var t := Take(s, pool[0]);
      var rest := pool[1..];
      assert Contents(rest) == Contents(pool)[1..];
      forall i | 0 <= i < |rest| ensures rest[i].example.content !in t.added {
        assert Contents(pool)[0] != Contents(pool)[i + 1];
      }
      FillTakesFresh(t, rest, count + 1, limit);
    }
  }

  /**
   * A label's turn takes no more candidates than its pool holds, so a label whose pool is
   * shorter than the minimum (its emails unanalysed, empty or too long) stays below it.
   */
  lemma {:induction false} FillAtMostPool(s: Sel, pool: seq<Candidate>, count: int, limit: int)
    ensures |Fill(s, pool, count, limit).picked| <= |s.picked| + |pool|
    decreases |pool|
  {
    if pool == [] || count >= limit || s.total + pool[0].tokens > MaxTokens {
    } else if pool[0].example.content in s.added {
      FillAtMostPool(s, pool[1..], count, limit);
    } else {
      FillAtMostPool(Take(s, pool[0]), pool[1..], count + 1, limit);
    }
  }

  /** The first pass: up to `minPer` from each label's pool, in the order of `labels`. */
  function FirstPass(s: Sel, labels: seq<string>, pools: map<string, seq<Candidate>>, minPer: int): Sel
    requires forall i :: 0 <= i < |labels| ==> labels[i] in pools
  {
    if labels == [] then s
    else Fill(FirstPass(s, labels[..|labels| - 1], pools, minPer), pools[labels[|labels| - 1]], 0, minPer)
  }

  /** The top-up pass: each label's pool again, counting the chosen examples that carry the label. */
  function TopUp(s: Sel, labels: seq<string>, pools: map<string, seq<Candidate>>, maxPer: int): Sel
    requires forall i :: 0 <= i < |labels| ==> labels[i] in pools
  {
    if labels == [] then s
    else
      var before := TopUp(s, labels[..|labels| - 1], pools, maxPer);
      var name := labels[|labels| - 1];
      Fill(before, pools[name], CountWith(ExamplesOf(before.picked), name), maxPer)
  }

  /** The candidates of all the pools of `labels`. */
  ghost function Pooled(labels: seq<string>, pools: map<string, seq<Candidate>>): set<Candidate>
    requires forall i :: 0 <= i < |labels| ==> labels[i] in pools
  {
    if labels == [] then {} else Pooled(labels[..|labels| - 1], pools) + Elems(pools[labels[|labels| - 1]])
  }

  /**
   * What the selection keeps: no content twice, `examples_added` holds exactly the chosen
   * contents, the total is the base plus the chosen tokens, and it is within the budget
   * as soon as anything was chosen.
   */
  ghost predicate Inv(s: Sel, base: int)
  {
    Distinct(Contents(s.picked)) && s.added == Elems(Contents(s.picked)) &&
    s.total == base + SumTokens(s.picked) && (s.picked != [] ==> s.total <= MaxTokens)
  }

  lemma TakeInv(s: Sel, c: Candidate, base: int)
    requires Inv(s, base) && c.example.content !in s.added && s.total + c.tokens <= MaxTokens
    ensures Inv(Take(s, c), base)
  {
    var p := s.picked + [c];
    assert p[..|p| - 1] == s.picked;
    assert Contents(p) == Contents(s.picked) + [c.example.content];
    ElemsAppend(Contents(s.picked), c.example.content);
  }

  /** A pool keeps the invariant. */
  lemma {:induction false} FillInv(s: Sel, pool: seq<Candidate>, count: int, limit: int, base: int)
    requires Inv(s, base)
    ensures Inv(Fill(s, pool, count, limit), base)
    decreases |pool|
  {
    if pool == [] || count >= limit || s.total + pool[0].tokens > MaxTokens {
    } else if pool[0].example.content in s.added {
      FillInv(s, pool[1..], count, limit, base);
    } else {
      TakeInv(s, pool[0], base);
      FillInv(Take(s, pool[0]), pool[1..], count + 1, limit, base);
    }
  }

  /** Nothing chosen is dropped. */
  ghost predicate Extends(r: Sel, s: Sel)
  {
    |s.picked| <= |r.picked| && r.picked[..|s.picked|] == s.picked
  }

  /** A pool appends at most `limit - count` of its own candidates. */
  lemma {:induction false} FillGrows(s: Sel, pool: seq<Candidate>, count: int, limit: int)
    ensures var r := Fill(s, pool, count, limit);
      Extends(r, s) && (forall i :: |s.picked| <= i < |r.picked| ==> r.picked[i] in pool) &&
      |r.picked| - |s.picked| <= (if limit > count then limit - count else 0)
    decreases |pool|
  {
    if pool == [] || count >= limit || s.total + pool[0].tokens > MaxTokens {
    } else if pool[0].example.content in s.added {
      FillGrows(s, pool[1..], count, limit);
    } else {
      var t := Take(s, pool[0]);
      FillGrows(t, pool[1..], count + 1, limit);
      var r := Fill(t, pool[1..], count + 1, limit);
      assert r.picked[..|t.picked|][..|s.picked|] == r.picked[..|s.picked|];
    }
  }

  lemma CountWithAppend(exs: seq<Example>, ex: Example, name: string)
    ensures CountWith(exs + [ex], name) == CountWith(exs, name) + (if name in ex.labels then 1 else 0)
  {
    assert (exs + [ex])[..|exs|] == exs;
  }

  /** When every candidate of the pool carries `name`, each one taken counts for `name`. */
  lemma {:induction false} FillCounts(s: Sel, pool: seq<Candidate>, count: int, limit: int, name: string)
    requires forall i :: 0 <= i < |pool| ==> name in pool[i].example.labels
    ensures var r := Fill(s, pool, count, limit);
      CountWith(ExamplesOf(r.picked), name) == CountWith(ExamplesOf(s.picked), name) + |r.picked| - |s.picked|
    decreases |pool|
  {
    if pool == [] || count >= limit || s.total + pool[0].tokens > MaxTokens {
    } else if pool[0].example.content in s.added {
      FillCounts(s, pool[1..], count, limit, name);
    } else {
      var t := Take(s, pool[0]);
      FillCounts(t, pool[1..], count + 1, limit, name);
      assert ExamplesOf(t.picked) == ExamplesOf(s.picked) + [pool[0].example];
      CountWithAppend(ExamplesOf(s.picked), pool[0].example, name);
    }
  }

  /** Every chosen candidate comes from a pool of `labels`. */
  ghost predicate FromPools(s: Sel, labels: seq<string>, pools: map<string, seq<Candidate>>)
    requires forall i :: 0 <= i < |labels| ==> labels[i] in pools
  {
    forall i :: 0 <= i < |s.picked| ==> s.picked[i] in Pooled(labels, pools)
  }

  lemma PooledGrows(labels: seq<string>, pools: map<string, seq<Candidate>>)
    requires labels != [] && forall i :: 0 <= i < |labels| ==> labels[i] in pools
    ensures Pooled(labels[..|labels| - 1], pools) <= Pooled(labels, pools)
    ensures Elems(pools[labels[|labels| - 1]]) <= Pooled(labels, pools)
  {
  }

  /** One label's pool appended to a selection drawn from the earlier labels' pools. */
  lemma FillFromPools(s: Sel, r: Sel, labels: seq<string>, pools: map<string, seq<Candidate>>)
    requires labels != [] && forall i :: 0 <= i < |labels| ==> labels[i] in pools
    requires FromPools(s, labels[..|labels| - 1], pools) && Extends(r, s)
    requires forall i :: |s.picked| <= i < |r.picked| ==> r.picked[i] in pools[labels[|labels| - 1]]
    ensures FromPools(r, labels, pools)
  {
    PooledGrows(labels, pools);
    forall i | 0 <= i < |r.picked| ensures r.picked[i] in Pooled(labels, pools) {
      if i < |s.picked| {
        assert r.picked[i] == s.picked[i];
      }
    }
  }

  /** The first pass keeps the invariant and takes only pooled candidates. */
  lemma {:induction false} FirstPassFacts(s: Sel, labels: seq<string>, pools: map<string, seq<Candidate>>, minPer: int, base: int)
    requires forall i :: 0 <= i < |labels| ==> labels[i] in pools
    requires Inv(s, base) && s.picked == []
    ensures var r := FirstPass(s, labels, pools, minPer);
      Inv(r, base) && FromPools(r, labels, pools)
  {
    if labels != [] {
      var front := labels[..|labels| - 1];
      var before := FirstPass(s, front, pools, minPer);
      FirstPassFacts(s, front, pools, minPer, base);
      var pool := pools[labels[|labels| - 1]];
      FillInv(before, pool, 0, minPer, base);
      FillGrows(before, pool, 0, minPer);
      FillFromPools(before, FirstPass(s, labels, pools, minPer), labels, pools);
    }
  }

  /** The first pass takes at most `minPer` candidates per label. */
  lemma {:induction false} FirstPassSize(s: Sel, labels: seq<string>, pools: map<string, seq<Candidate>>, minPer: nat)
    requires forall i :: 0 <= i < |labels| ==> labels[i] in pools
    ensures |FirstPass(s, labels, pools, minPer).picked| <= |s.picked| + |labels| * minPer
  {
    if labels != [] {
      var front := labels[..|labels| - 1];
      FirstPassSize(s, front, pools, minPer);
      FillGrows(FirstPass(s, front, pools, minPer), pools[labels[|labels| - 1]], 0, minPer);
      assert |front| * minPer + minPer == |labels| * minPer;
    }
  }

  /** The top-up pass keeps the invariant and the candidates' origin. */
  lemma {:induction false} TopUpFacts(s: Sel, labels: seq<string>, pools: map<string, seq<Candidate>>, maxPer: int, base: int, all: seq<string>)
    requires forall i :: 0 <= i < |all| ==> all[i] in pools
    requires forall i :: 0 <= i < |labels| ==> labels[i] in pools
    requires Inv(s, base) && FromPools(s, all, pools) && Pooled(labels, pools) <= Pooled(all, pools)
    ensures var r := TopUp(s, labels, pools, maxPer);
      Inv(r, base) && FromPools(r, all, pools)
  {
    if labels != [] {
      var front := labels[..|labels| - 1];
      PooledGrows(labels, pools);
      TopUpFacts(s, front, pools, maxPer, base, all);
      var before := TopUp(s, front, pools, maxPer);
      var name := labels[|labels| - 1];
      var pool := pools[name];
      var count := CountWith(ExamplesOf(before.picked), name);
      FillInv(before, pool, count, maxPer, base);
      FillGrows(before, pool, count, maxPer);
      var r := Fill(before, pool, count, maxPer);
      forall i | 0 <= i < |r.picked| ensures r.picked[i] in Pooled(all, pools) {
        if i < |before.picked| {
          assert r.picked[i] == before.picked[i];
        }
      }
    }
  }

  /**
   * The top-up of one label stops once the chosen examples carrying it reach `maxPer`:
   * it never leaves more than `maxPer` of them unless there already were more.
   */
  lemma TopUpCap(s: Sel, labels: seq<string>, pools: map<string, seq<Candidate>>, maxPer: int)
    requires labels != [] && forall i :: 0 <= i < |labels| ==> labels[i] in pools
    requires var name := labels[|labels| - 1];
      forall i :: 0 <= i < |pools[name]| ==> name in pools[name][i].example.labels
    ensures var name := labels[|labels| - 1];
      var before := CountWith(ExamplesOf(TopUp(s, labels[..|labels| - 1], pools, maxPer).picked), name);
      var after := CountWith(ExamplesOf(TopUp(s, labels, pools, maxPer).picked), name);
      before <= after && after <= (if before > maxPer then before else maxPer)
  {
    var name := labels[|labels| - 1];
    var before := TopUp(s, labels[..|labels| - 1], pools, maxPer);
    var count := CountWith(ExamplesOf(before.picked), name);
    FillCounts(before, pools[name], count, maxPer, name);
    FillGrows(before, pools[name], count, maxPer);
  }

  /** The whole selection: the first pass, then the top-up only when budget is left. */
  function Select(base: int, labels: seq<string>, pools: map<string, seq<Candidate>>, minPer: int, maxPer: int): (r: Sel)
    requires forall i :: 0 <= i < |labels| ==> labels[i] in pools
    ensures Inv(r, base) && FromPools(r, labels, pools)
  {
    var s0 := Sel([], {}, base);
    assert Inv(s0, base);
    var s1 := FirstPass(s0, labels, pools, minPer);
    FirstPassFacts(s0, labels, pools, minPer, base);
    if s1.total < MaxTokens then
      TopUpFacts(s1, labels, pools, maxPer, base, labels);
      TopUp(s1, labels, pools, maxPer)
    else s1
  }

  /** Every chosen example costs at most half the budget and has content. */
  lemma SelectedFromPools(base: int, labels: seq<string>, pools: map<string, seq<Candidate>>, minPer: int, maxPer: int)
    requires forall i :: 0 <= i < |labels| ==> labels[i] in pools && PoolOk(pools[labels[i]], labels[i])
    ensures var r := Select(base, labels, pools, minPer, maxPer);
      forall i :: 0 <= i < |r.picked| ==> r.picked[i].tokens <= MaxTokens / 2 && r.picked[i].example.content != ""
  {
    var r := Select(base, labels, pools, minPer, maxPer);
    PooledOk(labels, pools);
  }

  /**
   * What `generate_examples` selects from the pools of the labels `order` (in dict order):
   * the cap fails without labels, otherwise the labels are sorted by pool size and `Select`
   * runs over them from the budget `base`.
   */
  function Outcome(order: seq<string>, pools: map<string, seq<Candidate>>, minPer: int, maxPer: Option<int>, base: int): (r: Result<Sel, Error>)
    requires forall i :: 0 <= i < |order| ==> order[i] in pools
    ensures r.Err? <==> maxPer.None? && order == []
    ensures r.Ok? ==> Inv(r.value, base) && FromPools(r.value, order, pools)
  {
    var sizes := Sizes(pools);
    var cap := MaxPerLabel(minPer, maxPer, order, sizes);
    if cap.Err? then Err(cap.error)
    else
      var labels := SortBySize(order, sizes);
      var sel := Select(base, labels, pools, minPer, cap.value);
      PooledPerm(labels, order, pools);
      Ok(sel)
  }

  /** `Outcome` computed pass by pass. */
  lemma OutcomeSteps(order: seq<string>, pools: map<string, seq<Candidate>>, minPer: int, maxPer: Option<int>, base: int, cap: int, s1: Sel, s2: Sel)
    requires forall i :: 0 <= i < |order| ==> order[i] in pools
    requires MaxPerLabel(minPer, maxPer, order, Sizes(pools)) == Ok(cap)
    requires s1 == FirstPass(Sel([], {}, base), SortBySize(order, Sizes(pools)), pools, minPer)
    requires s2 == if s1.total < MaxTokens then TopUp(s1, SortBySize(order, Sizes(pools)), pools, cap) else s1
    ensures Outcome(order, pools, minPer, maxPer, base) == Ok(s2)
  {
  }

  /** A candidate is pooled exactly when it is in the pool of one of the labels. */
  lemma {:induction false} PooledIn(labels: seq<string>, pools: map<string, seq<Candidate>>, c: Candidate)
    requires forall i :: 0 <= i < |labels| ==> labels[i] in pools
    ensures c in Pooled(labels, pools) <==> exists l :: l in labels && l in pools && c in pools[l]
  {
    if labels != [] {
      var front := labels[..|labels| - 1];
      PooledIn(front, pools, c);
      assert labels == front + [labels[|labels| - 1]];
    }
  }

  lemma PooledPerm(a: seq<string>, b: seq<string>, pools: map<string, seq<Candidate>>)
    requires multiset(a) == multiset(b)
    requires forall i :: 0 <= i < |a| ==> a[i] in pools
    requires forall i :: 0 <= i < |b| ==> b[i] in pools
    ensures Pooled(a, pools) == Pooled(b, pools)
  {
    forall c ensures c in Pooled(a, pools) <==> c in Pooled(b, pools) {
      PooledIn(a, pools, c);
      PooledIn(b, pools, c);
      forall l ensures l in a <==> l in b {
        assert l in a <==> l in multiset(a);
      }
    }
  }

  lemma {:induction false} PooledOk(labels: seq<string>, pools: map<string, seq<Candidate>>)
    requires forall i :: 0 <= i < |labels| ==> labels[i] in pools && PoolOk(pools[labels[i]], labels[i])
    ensures forall c :: c in Pooled(labels, pools) ==> c.tokens <= MaxTokens / 2 && c.example.content != ""
  {
    if labels != [] {
      PooledOk(labels[..|labels| - 1], pools);
    }
  }

  // ---------------------------------------------------------------------------
  // Steps of the loops that compute the selection

  /** `Fill` from the middle of its loop. */
  lemma FillUnfold(s: Sel, pool: seq<Candidate>, k: nat, count: int, limit: int)
    requires k < |pool|
    ensures Fill(s, pool[k..], count, limit) ==
      if count >= limit || s.total + pool[k].tokens > MaxTokens then s
      else if pool[k].example.content in s.added then Fill(s, pool[k + 1..], count, limit)
      else Fill(Take(s, pool[k]), pool[k + 1..], count + 1, limit)
  {
    assert pool[k..][1..] == pool[k + 1..];
  }

  /** The first pass reads only the pools of its labels. */
  lemma {:induction false} FirstPassFrame(s: Sel, labels: seq<string>, p1: map<string, seq<Candidate>>, p2: map<string, seq<Candidate>>, minPer: int)
    requires forall i :: 0 <= i < |labels| ==> labels[i] in p1 && labels[i] in p2 && p1[labels[i]] == p2[labels[i]]
    ensures FirstPass(s, labels, p1, minPer) == FirstPass(s, labels, p2, minPer)
  {
    if labels != [] {
      FirstPassFrame(s, labels[..|labels| - 1], p1, p2, minPer);
    }
  }

  lemma FirstPassNext(s: Sel, labels: seq<string>, j: nat, pools: map<string, seq<Candidate>>, minPer: int)
    requires j < |labels| && forall i :: 0 <= i < |labels| ==> labels[i] in pools
    ensures FirstPass(s, labels[..j + 1], pools, minPer) == Fill(FirstPass(s, labels[..j], pools, minPer), pools[labels[j]], 0, minPer)
  {
    assert labels[..j + 1][..j] == labels[..j];
  }

  lemma TopUpNext(s: Sel, labels: seq<string>, j: nat, pools: map<string, seq<Candidate>>, maxPer: int)
    requires j < |labels| && forall i :: 0 <= i < |labels| ==> labels[i] in pools
    ensures var before := TopUp(s, labels[..j], pools, maxPer);
      TopUp(s, labels[..j + 1], pools, maxPer) == Fill(before, pools[labels[j]], CountWith(ExamplesOf(before.picked), labels[j]), maxPer)
  {
    assert labels[..j + 1][..j] == labels[..j];
  }

  lemma ExamplesOfTake(picked: seq<Candidate>, c: Candidate)
    ensures ExamplesOf(picked + [c]) == ExamplesOf(picked) + [c.example]
  {
  }

  /** A multiset holds an element of a sequence without repeats at most once. */
  lemma {:induction false} DistinctOnce(a: seq<string>, x: string)
    requires Distinct(a)
    ensures multiset(a)[x] <= 1
  {
    if a != [] {
      assert a == [a[0]] + a[1..];
      DistinctOnce(a[1..], x);
      if a[0] == x {
        assert x !in a[1..];
      }
    }
  }

  /** A rearrangement of a sequence without repeats has none either. */
  lemma DistinctPerm(a: seq<string>, b: seq<string>)
    requires multiset(a) == multiset(b) && Distinct(a)
    ensures Distinct(b)
  {
    forall i, j | 0 <= i < j < |b| ensures b[i] != b[j] {
      if b[i] == b[j] {
        var x := b[i];
        assert b == b[..i] + [x] + b[i + 1..j] + [x] + b[j + 1..];
        assert multiset(b)[x] >= 2;
        DistinctOnce(a, x);
      }
    }
  }

  /** Two sequences without repeats holding the same elements are rearrangements of each other. */
  lemma DistinctSameElems(a: seq<string>, b: seq<string>)
    requires Distinct(a) && Distinct(b) && Elems(a) == Elems(b)
    ensures multiset(a) == multiset(b)
  {
    forall x ensures multiset(a)[x] == multiset(b)[x] {
      DistinctOnce(a, x);
      DistinctOnce(b, x);
      assert x in a <==> x in Elems(a);
      assert x in b <==> x in Elems(b);
    }
  }

  /** Reordering each pool leaves the sizes alone. */
  lemma SizesSame(p1: map<string, seq<Candidate>>, p2: map<string, seq<Candidate>>)
    requires p1.Keys == p2.Keys && forall l :: l in p1 ==> multiset(p1[l]) == multiset(p2[l])
    ensures Sizes(p1) == Sizes(p2)
  {
    forall l | l in p1 ensures |p1[l]| == |p2[l]| {
      assert |multiset(p1[l])| == |multiset(p2[l])|;
    }
  }
}
