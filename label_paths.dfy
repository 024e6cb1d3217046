/**
 * Label-path extraction from a dump filename (few_shot_dataset.py,
 * `LabelHierarchy.add_label_from_filename`, the parsing half).
 *
 * A filename such as `LLM_RAG_evaluation_20241222.json` is cut on `_`; parts that
 * start with a digit are date/time stamps and are dropped; each remaining part is
 * cut at its first `.`. The first two remaining parts joined by `_` (cut at the
 * first `.`) are checked against the fixed single labels, which are never split.
 */
module LabelPaths {
  import opened Text

  /** The labels that are stored flat, as one root node. */
  const SingleLabels: set<string> := {"good_material", "daily_news"}

  /** What a filename names: one flat single label, or a root-to-leaf chain. */
  datatype LabelSource = SingleLabel(name: string) | LabelChain(names: seq<string>)

  function Min(a: int, b: int): int
  {
    if a <= b then a else b
  }

  /** `os.path.basename`: what follows the last `/`. */
  function Basename(filename: string): (r: string)
    ensures '/' !in r
  {
    AfterLast(filename, '/')
  }

  /** `os.path.basename(filename).split('_')`. */
  function NameParts(filename: string): (parts: seq<string>)
    ensures |parts| >= 1
  {
    Split(Basename(filename), '_')
  }

  /** `part[0]` fails on an empty part, so the code only accepts filenames without one. */
  predicate NoEmptyPart(filename: string)
  {
    forall i :: 0 <= i < |NameParts(filename)| ==> NameParts(filename)[i] != ""
  }

  predicate DateLike(part: string)
  {
    part != [] && IsDigit(part[0])
  }

  /**
   * The parts kept as labels: every part, in order, whose first character is not a
   * digit. Defined back to front, as the loop that appends to `label_parts` builds it.
   */
  function KeepLabelParts(parts: seq<string>): (kept: seq<string>)
    requires forall i :: 0 <= i < |parts| ==> parts[i] != ""
    ensures |kept| <= |parts|
    ensures forall i :: 0 <= i < |kept| ==> kept[i] in parts && !DateLike(kept[i])
    ensures forall i :: 0 <= i < |parts| && !DateLike(parts[i]) ==> parts[i] in kept
  {
    if parts == [] then []
    else
      var last := parts[|parts| - 1];
      var front := KeepLabelParts(parts[..|parts| - 1]);
      assert forall i :: 0 <= i < |parts| - 1 ==> parts[i] == parts[..|parts| - 1][i];
      if IsDigit(last[0]) then front else front + [last]
  }

  /** `'_'.join(label_parts[:2]).split('.')[0]`. */
  function Combined(kept: seq<string>): (c: string)
    ensures '.' !in c
  {
    BeforeFirst(Join(kept[..Min(2, |kept|)], "_"), '.')
  }

  /** `part.split('.')[0]` for every kept part. */
  function CleanParts(kept: seq<string>): (names: seq<string>)
    ensures |names| == |kept|
    ensures forall i :: 0 <= i < |names| ==> names[i] == BeforeFirst(kept[i], '.')
  {
    seq(|kept|, i requires 0 <= i < |kept| => BeforeFirst(kept[i], '.'))
  }

  /** What `add_label_from_filename` reads out of a filename. */
  function Parse(filename: string): (src: LabelSource)
    requires NoEmptyPart(filename)
    ensures src.SingleLabel? ==> src.name in SingleLabels
    ensures src.LabelChain? ==> forall i :: 0 <= i < |src.names| ==> '_' !in src.names[i] && '.' !in src.names[i] && '/' !in src.names[i]
  {
    var kept := KeepLabelParts(NameParts(filename));
    var combined := Combined(kept);
    if combined in SingleLabels then SingleLabel(combined)
    else
      var names := CleanParts(kept);
      assert forall i :: 0 <= i < |names| ==> names[i] <= kept[i] && kept[i] in NameParts(filename) by {
        forall i | 0 <= i < |names| ensures names[i] <= kept[i] && kept[i] in NameParts(filename) {
          BeforeFirstPrefix(kept[i], '.');
        }
      }
      assert forall i :: 0 <= i < |names| ==> '_' !in names[i] && '/' !in names[i] by {
        forall i | 0 <= i < |names| ensures '_' !in names[i] && '/' !in names[i] {
          BeforeFirstPrefix(kept[i], '.');
          var k :| 0 <= k < |NameParts(filename)| && NameParts(filename)[k] == kept[i];
          PrefixFree(names[i], kept[i], '_');
          SplitPiecesFree(Basename(filename), '_', '/', k);
          PrefixFree(names[i], kept[i], '/');
        }
      }
      LabelChain(names)
  }

  lemma BeforeFirstPrefix(s: string, c: char)
    ensures BeforeFirst(s, c) <= s
  {
  }

  lemma PrefixFree(p: string, s: string, c: char)
    requires p <= s && c !in s
    ensures c !in p
  {
  }

  /** The pieces of `s.split(c)` hold no character that `s` does not hold. */
  lemma {:induction false} SplitPiecesFree(s: string, c: char, d: char, k: nat)
    requires d !in s
    requires k < |Split(s, c)|
    ensures d !in Split(s, c)[k]
    decreases |s|
  {
    if c in s {
      var i := FirstIndex(s, c);
      if k == 0 {
        PrefixFree(s[..i], s, d);
      } else {
        SplitPiecesFree(s[i + 1..], c, d, k - 1);
      }
    }
  }

  /** A filename built from `_`-free, `/`-free pieces splits back into those pieces. */
  lemma NamePartsOfJoin(parts: seq<string>)
    requires |parts| >= 1
    requires forall i :: 0 <= i < |parts| ==> '_' !in parts[i] && '/' !in parts[i]
    ensures NameParts(Join(parts, "_")) == parts
  {
    var f := Join(parts, "_");
    JoinFree(parts, "_", '/');
    assert Split(f, '/') == [f];
    assert Basename(f) == f;
    assert "_" == ['_'];
    SplitJoin(parts, '_');
    assert Split(f, '_') == parts;
  }

  /** How `Parse` reads a filename once its parts and kept parts are known. */
  lemma ParseOf(f: string, parts: seq<string>, kept: seq<string>)
    requires NameParts(f) == parts
    requires forall i :: 0 <= i < |parts| ==> parts[i] != ""
    requires KeepLabelParts(parts) == kept
    ensures NoEmptyPart(f)
    ensures Parse(f) == if Combined(kept) in SingleLabels then SingleLabel(Combined(kept)) else LabelChain(CleanParts(kept))
  {
  }

  /** Keeping label parts distributes over concatenation. */
  lemma {:induction false} KeepAppend(a: seq<string>, b: seq<string>)
    requires forall i :: 0 <= i < |a| ==> a[i] != ""
    requires forall i :: 0 <= i < |b| ==> b[i] != ""
    ensures KeepLabelParts(a + b) == KeepLabelParts(a) + KeepLabelParts(b)
    decreases |b|
  {
    if b != [] {
      var b' := b[..|b| - 1];
      assert (a + b)[..|a + b| - 1] == a + b';
      KeepAppend(a, b');
    } else {
      assert a + b == a;
    }
  }

  /** Parts that do not start with a digit are all kept. */
  lemma {:induction false} KeepNames(names: seq<string>)
    requires forall i :: 0 <= i < |names| ==> names[i] != "" && !DateLike(names[i])
    ensures KeepLabelParts(names) == names
  {
    if names != [] {
      KeepNames(names[..|names| - 1]);
    }
  }

  /** Parts that start with a digit are all dropped. */
  lemma {:induction false} KeepStamps(stamps: seq<string>)
    requires forall i :: 0 <= i < |stamps| ==> stamps[i] != "" && DateLike(stamps[i])
    ensures KeepLabelParts(stamps) == []
  {
    if stamps != [] {
      KeepStamps(stamps[..|stamps| - 1]);
    }
  }

  /** A label name as the hierarchy sees it: no separators, no extension, not a date. */
  predicate PlainName(n: string)
  {
    n != "" && !DateLike(n) && '_' !in n && '/' !in n && '.' !in n
  }

  /** A date/time stamp part (the last one may carry the extension). */
  predicate StampPart(p: string)
  {
    DateLike(p) && '_' !in p && '/' !in p
  }

  /** The parts of a filename built from plain names and stamps, and what is kept of them. */
  lemma KeptOfChain(names: seq<string>, stamps: seq<string>)
    requires forall i :: 0 <= i < |names| ==> PlainName(names[i])
    requires forall i :: 0 <= i < |stamps| ==> StampPart(stamps[i])
    requires |names + stamps| >= 1
    ensures NameParts(Join(names + stamps, "_")) == names + stamps
    ensures forall i :: 0 <= i < |names + stamps| ==> (names + stamps)[i] != ""
    ensures KeepLabelParts(names + stamps) == names
  {
    var parts := names + stamps;
    assert forall i :: 0 <= i < |parts| ==> '_' !in parts[i] && '/' !in parts[i] && parts[i] != "" by {
      forall i | 0 <= i < |parts| ensures '_' !in parts[i] && '/' !in parts[i] && parts[i] != "" {
        if i < |names| { assert parts[i] == names[i]; } else { assert parts[i] == stamps[i - |names|]; }
      }
    }
    NamePartsOfJoin(parts);
    KeepAppend(names, stamps);
    KeepNames(names);
    KeepStamps(stamps);
  }

  /**
   * A filename made of plain label names followed by date/time stamps names the
   * chain of those labels, root first, unless its first two names form a single label.
   */
  lemma ChainFromFilename(names: seq<string>, stamps: seq<string>)
    requires forall i :: 0 <= i < |names| ==> PlainName(names[i])
    requires forall i :: 0 <= i < |stamps| ==> StampPart(stamps[i])
    requires |names + stamps| >= 1
    requires Join(names[..Min(2, |names|)], "_") !in SingleLabels
    ensures NoEmptyPart(Join(names + stamps, "_"))
    ensures Parse(Join(names + stamps, "_")) == LabelChain(names)
  {
    var f := Join(names + stamps, "_");
    KeptOfChain(names, stamps);
    var pre := names[..Min(2, |names|)];
    JoinFree(pre, "_", '.');
    assert Combined(names) == Join(pre, "_");
    assert CleanParts(names) == names;
    ParseOf(f, names + stamps, names);
  }

  /**
   * A filename whose first two names joined by `_` form a single label names that
   * single label, whatever follows.
   */
  lemma SingleFromFilename(pair: seq<string>, rest: seq<string>)
    requires |pair| == 2 && forall i :: 0 <= i < 2 ==> PlainName(pair[i])
    requires Join(pair, "_") in SingleLabels
    requires forall i :: 0 <= i < |rest| ==> rest[i] != "" && '_' !in rest[i] && '/' !in rest[i]
    ensures NoEmptyPart(Join(pair + rest, "_"))
    ensures Parse(Join(pair + rest, "_")) == SingleLabel(Join(pair, "_"))
  {
    var parts := pair + rest;
    var f := Join(parts, "_");
    PlainParts(pair, rest);
    NamePartsOfJoin(parts);
    KeepAppend(pair, rest);
    KeepNames(pair);
    var kept := pair + KeepLabelParts(rest);
    assert kept[..Min(2, |kept|)] == pair;
    JoinFree(pair, "_", '.');
    ParseOf(f, parts, kept);
  }

  lemma PlainParts(pair: seq<string>, rest: seq<string>)
    requires forall i :: 0 <= i < |pair| ==> PlainName(pair[i])
    requires forall i :: 0 <= i < |rest| ==> rest[i] != "" && '_' !in rest[i] && '/' !in rest[i]
    ensures forall i :: 0 <= i < |pair + rest| ==> '_' !in (pair + rest)[i] && '/' !in (pair + rest)[i] && (pair + rest)[i] != ""
  {
    var parts := pair + rest;
    forall i | 0 <= i < |parts| ensures '_' !in parts[i] && '/' !in parts[i] && parts[i] != "" {
      if i < |pair| { assert parts[i] == pair[i]; } else { assert parts[i] == rest[i - |pair|]; }
    }
  }

  /** The documented example: one chain LLM, RAG, evaluation; the date part is dropped. */
  lemma ChainExample(f: string)
    requires f == "LLM_RAG_evaluation_20241222.json"
    ensures NoEmptyPart(f) && Parse(f) == LabelChain(["LLM", "RAG", "evaluation"])
  {
    ChainJoin();
    assert ["LLM", "RAG", "evaluation"] + ["20241222.json"] == ["LLM", "RAG", "evaluation", "20241222.json"];
    assert ["LLM", "RAG", "evaluation"][..2] == ["LLM", "RAG"];
    assert ["LLM", "RAG"][1..] == ["RAG"];
    ChainFromFilename(["LLM", "RAG", "evaluation"], ["20241222.json"]);
  }

  lemma ChainJoin()
    ensures "LLM_RAG_evaluation_20241222.json" == Join(["LLM", "RAG", "evaluation", "20241222.json"], "_")
  {
    ChainJoinTail();
    ChainLiteral();
    JoinCons("LLM", ["RAG", "evaluation", "20241222.json"], "_");
    assert ["LLM"] + ["RAG", "evaluation", "20241222.json"] == ["LLM", "RAG", "evaluation", "20241222.json"];
  }

  lemma ChainLiteral()
    ensures "LLM_RAG_evaluation_20241222.json" == "LLM" + "_" + "RAG_evaluation_20241222.json"
  {
  }

  lemma ChainJoinTail()
    ensures "RAG_evaluation_20241222.json" == Join(["RAG", "evaluation", "20241222.json"], "_")
  {
    JoinCons("evaluation", ["20241222.json"], "_");
    assert ["evaluation"] + ["20241222.json"] == ["evaluation", "20241222.json"];
    JoinCons("RAG", ["evaluation", "20241222.json"], "_");
    assert ["RAG"] + ["evaluation", "20241222.json"] == ["RAG", "evaluation", "20241222.json"];
  }

  /** `good_material_...` names one flat single label. */
  lemma SingleExample(f: string)
    requires f == "good_material_20241222.json"
    ensures NoEmptyPart(f) && Parse(f) == SingleLabel("good_material")
  {
    SingleJoin();
    assert ["good", "material"] + ["20241222.json"] == ["good", "material", "20241222.json"];
    SingleFromFilename(["good", "material"], ["20241222.json"]);
  }

  lemma SingleJoin()
    ensures "good_material_20241222.json" == Join(["good", "material", "20241222.json"], "_")
    ensures "good_material" == Join(["good", "material"], "_")
  {
    JoinCons("material", ["20241222.json"], "_");
    assert ["material"] + ["20241222.json"] == ["material", "20241222.json"];
    JoinCons("good", ["material", "20241222.json"], "_");
    assert ["good"] + ["material", "20241222.json"] == ["good", "material", "20241222.json"];
    JoinCons("good", ["material"], "_");
    assert ["good"] + ["material"] == ["good", "material"];
  }
}
