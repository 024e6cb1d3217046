/**
 * `FewShotExample` and `FewShotDataset.format_example` (few_shot_dataset.py).
 *
 * The code pairs `labels` with `label_paths` by position (`zip`), but `labels` is
 * listed from a set, so its order need not follow the paths. `FormatZipped` is the
 * code as written, which the rest of the model renders with; `Formatted` pairs each
 * path with the label it ends at, which is what the pairing is for.
 */
module Examples {
  import opened Text
  import opened LabelPaths

  /** `FewShotExample`: a post, its labels, and the root-first paths of those labels. */
  datatype Example = Example(content: string, labels: seq<string>, labelPaths: seq<seq<string>>)

  /** The first two lines of a rendered example. */
  function Header(ex: Example): string
  {
    "Content: " + ex.content + "\n" + "Labels:\n"
  }

  /** One label line: a single label alone, any other label as its path joined by ` -> `. */
  function ExampleLine(name: string, path: seq<string>): string
  {
    if name in SingleLabels then "- " + name + "\n" else "- " + Join(path, " -> ") + "\n"
  }

  /** The label lines of `zip(labels, label_paths)`, which stops at the shorter list. */
  function ZippedLines(labels: seq<string>, paths: seq<seq<string>>): (lines: seq<string>)
    ensures |lines| == Min(|labels|, |paths|)
    ensures forall i :: 0 <= i < |lines| ==> lines[i] == ExampleLine(labels[i], paths[i])
  {
    seq(Min(|labels|, |paths|), i requires 0 <= i < Min(|labels|, |paths|) => ExampleLine(labels[i], paths[i]))
  }

  /** `format_example` as written. */
  function FormatZipped(ex: Example): string
  {
    Header(ex) + Concat(ZippedLines(ex.labels, ex.labelPaths))
  }

  /** The line for a path, labelled with the name the path ends at. */
  function PathLine(path: seq<string>): string
  {
    ExampleLine(if path == [] then "" else path[|path| - 1], path)
  }

  function PathLines(paths: seq<seq<string>>): (lines: seq<string>)
    ensures |lines| == |paths|
    ensures forall i :: 0 <= i < |paths| ==> lines[i] == PathLine(paths[i])
  {
    seq(|paths|, i requires 0 <= i < |paths| => PathLine(paths[i]))
  }

  /** `format_example` with each path paired with its own label. */
  function Formatted(ex: Example): string
  {
    Header(ex) + Concat(PathLines(ex.labelPaths))
  }

  lemma AppendAssoc(a: string, b: string, c: string)
    ensures (a + b) + c == a + (b + c)
  {
  }

  lemma ZippedLinesNext(labels: seq<string>, paths: seq<seq<string>>, i: nat)
    requires i < |labels| && i < |paths|
    ensures ZippedLines(labels[..i + 1], paths[..i + 1]) == ZippedLines(labels[..i], paths[..i]) + [ExampleLine(labels[i], paths[i])]
  {
  }

  /** One turn of `format_example`'s loop appends the line of the next pair. */
  lemma FormatStep(ex: Example, i: nat, formatted: string, line: string)
    requires i < |ex.labels| && i < |ex.labelPaths|
    requires formatted == Header(ex) + Concat(ZippedLines(ex.labels[..i], ex.labelPaths[..i]))
    requires line == ExampleLine(ex.labels[i], ex.labelPaths[i])
    ensures formatted + line == Header(ex) + Concat(ZippedLines(ex.labels[..i + 1], ex.labelPaths[..i + 1]))
  {
    ZippedLinesNext(ex.labels, ex.labelPaths, i);
    ConcatAppend(ZippedLines(ex.labels[..i], ex.labelPaths[..i]), line);
    AppendAssoc(Header(ex), Concat(ZippedLines(ex.labels[..i], ex.labelPaths[..i])), line);
  }

  /**
   * `format_example`'s loop over `zip(labels, label_paths)`, building the text line by
   * line; it stops at the end of the shorter list.
   */
  method FormatExample(ex: Example) returns (formatted: string)
    ensures formatted == FormatZipped(ex)
  {
    formatted := "Content: " + ex.content + "\n";
    formatted := formatted + "Labels:\n";
    var n := Min(|ex.labels|, |ex.labelPaths|);
    var i := 0;
    while i < n
      invariant i <= n
      invariant formatted == Header(ex) + Concat(ZippedLines(ex.labels[..i], ex.labelPaths[..i]))
    {
      var name, path := ex.labels[i], ex.labelPaths[i];
      var line := if name in SingleLabels then "- " + name + "\n" else "- " + Join(path, " -> ") + "\n";
      assert line == ExampleLine(name, path);
      FormatStep(ex, i, formatted, line);
      formatted := formatted + line;
      i := i + 1;
    }
    assert ZippedLines(ex.labels[..i], ex.labelPaths[..i]) == ZippedLines(ex.labels, ex.labelPaths);
  }

  /** A path that ends at a single label consists of that label alone (single labels are roots). */
  predicate SingleRooted(path: seq<string>)
  {
    path != [] && (path[|path| - 1] in SingleLabels ==> path == [path[|path| - 1]])
  }

  /**
   * Every path is listed once, in order, in full: for a single label the path is the
   * label itself, so the two branches of the line agree.
   */
  lemma FormattedListsEachPath(ex: Example)
    requires forall i :: 0 <= i < |ex.labelPaths| ==> SingleRooted(ex.labelPaths[i])
    ensures Formatted(ex) == Header(ex) + Concat(seq(|ex.labelPaths|, i requires 0 <= i < |ex.labelPaths| => "- " + Join(ex.labelPaths[i], " -> ") + "\n"))
  {
    var full := seq(|ex.labelPaths|, i requires 0 <= i < |ex.labelPaths| => "- " + Join(ex.labelPaths[i], " -> ") + "\n");
    forall i | 0 <= i < |ex.labelPaths| ensures PathLines(ex.labelPaths)[i] == full[i] {
      var p := ex.labelPaths[i];
      if p[|p| - 1] in SingleLabels {
        assert p == [p[0]];
      }
    }
    assert PathLines(ex.labelPaths) == full;
  }

  /** When `labels` comes in the order of the paths, the code as written renders the same text. */
  lemma ZippedWhenAligned(ex: Example)
    requires |ex.labels| == |ex.labelPaths|
    requires forall i :: 0 <= i < |ex.labels| ==> ex.labelPaths[i] != [] && ex.labels[i] == ex.labelPaths[i][|ex.labelPaths[i]| - 1]
    ensures FormatZipped(ex) == Formatted(ex)
  {
    assert ZippedLines(ex.labels, ex.labelPaths) == PathLines(ex.labelPaths);
  }

  /**
   * An email filed under `A_B_…` and `good_material_…` has the paths `[A]`, `[A, B]`,
   * `[good_material]`; its labels come from a set, so they may arrive as
   * `good_material, A, B`. The zipped lines then name `good_material` twice and never `A`.
   */
  lemma ZipMispairs(ex: Example)
    requires ex == Example("c", ["good_material", "A", "B"], [["A"], ["A", "B"], ["good_material"]])
    ensures ZippedLines(ex.labels, ex.labelPaths) == ["- good_material\n", "- A -> B\n", "- good_material\n"]
    ensures PathLines(ex.labelPaths) == ["- A\n", "- A -> B\n", "- good_material\n"]
    ensures FormatZipped(ex) != Formatted(ex)
  {
    var zipped := ZippedLines(ex.labels, ex.labelPaths);
    var lines := PathLines(ex.labelPaths);
    ExampleLines(ex.labels, ex.labelPaths);
    var h := Header(ex);
    assert FormatZipped(ex) == h + (zipped[0] + Concat(zipped[1..]));
    assert Formatted(ex) == h + (lines[0] + Concat(lines[1..]));
    assert FormatZipped(ex)[|h| + 2] == 'g';
    assert Formatted(ex)[|h| + 2] == 'A';
  }

  lemma ExampleLines(labels: seq<string>, paths: seq<seq<string>>)
    requires labels == ["good_material", "A", "B"] && paths == [["A"], ["A", "B"], ["good_material"]]
    ensures ZippedLines(labels, paths) == ["- good_material\n", "- A -> B\n", "- good_material\n"]
    ensures PathLines(paths) == ["- A\n", "- A -> B\n", "- good_material\n"]
  {
    var zipped := ZippedLines(labels, paths);
    var lines := PathLines(paths);
    SingleLine();
    ChainLines();
    assert zipped[0] == ExampleLine("good_material", ["A"]);
    assert zipped[1] == ExampleLine("A", ["A", "B"]);
    assert zipped[2] == ExampleLine("B", ["good_material"]);
    assert lines[0] == ExampleLine("A", ["A"]);
    assert lines[1] == ExampleLine("B", ["A", "B"]);
    assert lines[2] == ExampleLine("good_material", ["good_material"]);
  }

  lemma SingleLine()
    ensures ExampleLine("good_material", ["A"]) == "- good_material\n"
    ensures ExampleLine("good_material", ["good_material"]) == "- good_material\n"
  {
    assert "good_material" in SingleLabels;
  }

  lemma ChainLines()
    ensures ExampleLine("A", ["A", "B"]) == "- A -> B\n"
    ensures ExampleLine("B", ["A", "B"]) == "- A -> B\n"
    ensures ExampleLine("B", ["good_material"]) == "- good_material\n"
    ensures ExampleLine("A", ["A"]) == "- A\n"
  {
    assert "A" !in SingleLabels && "B" !in SingleLabels;
    PairJoin();
    OneJoin("A");
    OneJoin("good_material");
  }

  lemma PairJoin()
    ensures Join(["A", "B"], " -> ") == "A -> B"
  {
  }

  lemma OneJoin(x: string)
    ensures Join([x], " -> ") == x
  {
  }
}
