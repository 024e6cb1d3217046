/**
 * `__parse_label_line` of the command-line tool (main_cli.py): the label name on one line
 * of a labels file written as "- name (ID: Label_n)", and the filtering `dump_emails`
 * applies to the lines of that file before it looks the labels up.
 */
module LabelLine {
  import opened Text

  /** The characters `lstrip('- ')` removes. */
  const Dashes: set<char> := {'-', ' '}

  const IdOpen: string := "(ID: Label_"

  /** `\(ID: Label_\d+\)` matches all of `s`. */
  predicate IdTag(s: string)
  {
    |s| >= |IdOpen| + 2 && s[..|IdOpen|] == IdOpen && s[|s| - 1] == ')' &&
    AllDigits(s[|IdOpen|..|s| - 1])
  }

  /** `\s+\(ID: Label_\d+\)` matches all of `s`. */
  ghost predicate IdSuffix(s: string)
  {
    exists n :: 1 <= n < |s| && AllSpace(s[..n]) && IdTag(s[n..])
  }

  /**
   * `^([^(]+?)(?:\s+\(ID: Label_\d+\))?$` matches all of `t` with the first `k`
   * characters as its group.
   */
  ghost predicate GroupFits(t: string, k: nat)
  {
    1 <= k <= |t| && '(' !in t[..k] && (k == |t| || IdSuffix(t[k..]))
  }

  /** The group a lazy `+?` settles on: the shortest one that lets the pattern match. */
  ghost predicate Shortest(t: string, k: nat)
  {
    GroupFits(t, k) && forall j :: 1 <= j < k ==> !GroupFits(t, j)
  }

  /** The text the pattern is matched against: the line after `lstrip('- ')` and `strip()`. */
  function Cleaned(line: string): (t: string)
    ensures Trimmed(t)
  {
    Strip(LStripChars(line, Dashes))
  }

  /**
   * The match on the cleaned text `t`: when it ends in an id tag after some whitespace,
   * the stripped text before that whitespace; otherwise `t` itself.
   */
  function MatchOrKeep(t: string): string
  {
    if '(' in t then
      var f := FirstIndex(t, '(');
      var w := TrailSpace(t[..f]);
      if 1 <= w < f && IdTag(t[f..]) then Strip(t[..f - w]) else t
    else t
  }

  /** `__parse_label_line(line)`. */
  function ParseLabelLine(line: string): (name: string)
    ensures Trimmed(name)
  {
    MatchOrKeep(Cleaned(line))
  }

  /** A group that stops before the end is followed by whitespace and then the tag's '(', the first in the text. */
  lemma FitsAt(t: string, k: nat) returns (p: nat)
    requires GroupFits(t, k) && k < |t|
    ensures k < p < |t| && t[p] == '(' && '(' !in t[..p] && AllSpace(t[k..p]) && IdTag(t[p..])
  {
    var s := t[k..];
    var n :| 1 <= n < |s| && AllSpace(s[..n]) && IdTag(s[n..]);
    p := k + n;
    SliceParts(t, k, n);
    IdTagOpens(t[p..]);
    SpaceNoParen(t[k..p]);
  }

  lemma SliceParts(t: string, k: nat, n: nat)
    requires k + n <= |t|
    ensures t[k..][..n] == t[k..k + n] && t[k..][n..] == t[k + n..]
    ensures t[..k + n] == t[..k] + t[k..k + n]
  {
  }

  lemma IdTagOpens(s: string)
    requires IdTag(s)
    ensures s != [] && s[0] == '('
  {
    assert s[..|IdOpen|][0] == IdOpen[0];
  }

  /** Whitespace holds no '('. */
  lemma SpaceNoParen(u: string)
    requires AllSpace(u)
    ensures '(' !in u
  {
    forall i | 0 <= i < |u|
      ensures u[i] != '('
    {
      assert IsSpace(u[i]);
    }
  }

  /** A run of whitespace that ends the text is no longer than the trailing whitespace. */
  lemma TrailAtLeast(u: string, j: nat)
    requires j <= |u| && AllSpace(u[j..])
    ensures TrailSpace(u) >= |u| - j
  {
  }

  /**
   * What any group the pattern accepts looks like when the text holds a '(': it stops at
   * the whitespace before the first '(', which opens an id tag running to the end.
   */
  lemma FitsShape(t: string, k: nat)
    requires Trimmed(t) && '(' in t && GroupFits(t, k)
    ensures var f := FirstIndex(t, '(');
      var w := TrailSpace(t[..f]);
      1 <= w < f && IdTag(t[f..]) && f - w <= k
  {
    var f := FirstIndex(t, '(');
    var p := FitsAt(t, k);
    FirstAt(t, '(', p);
    assert t[..f][k..] == t[k..p];
    TrailAtLeast(t[..f], k);
  }

  /** The group that stops at the whitespace before an id tag lets the pattern match. */
  lemma TagGroupFits(t: string, f: nat, w: nat)
    requires '(' in t && f == FirstIndex(t, '(') && w == TrailSpace(t[..f])
    requires 1 <= w < f && IdTag(t[f..])
    ensures GroupFits(t, f - w)
  {
    var k := f - w;
    SliceParts(t, k, w);
    assert t[k..f] == t[..f][k..];
    assert AllSpace(t[k..f]);
    SuffixWitness(t[k..], w);
    assert t[..k] == t[..f][..k];
  }

  lemma SuffixWitness(s: string, n: nat)
    requires 1 <= n < |s| && AllSpace(s[..n]) && IdTag(s[n..])
    ensures IdSuffix(s)
  {
  }

  /** With a '(' in the text, only the tag's own '(' lets the pattern match, and no shorter group does. */
  lemma ParenFits(t: string, f: nat, w: nat)
    requires Trimmed(t) && '(' in t && f == FirstIndex(t, '(') && w == TrailSpace(t[..f])
    requires 1 <= w < f && IdTag(t[f..])
    ensures Shortest(t, f - w)
  {
    TagGroupFits(t, f, w);
    forall j | 1 <= j < f - w
      ensures !GroupFits(t, j)
    {
      if GroupFits(t, j) {
        FitsShape(t, j);
      }
    }
  }

  lemma SuffixHasParen(s: string)
    requires IdSuffix(s)
    ensures '(' in s
  {
    var n :| 1 <= n < |s| && AllSpace(s[..n]) && IdTag(s[n..]);
    assert s[n] == s[n..][0] == '(';
  }

  /** Without a '(' the only group is the whole text. */
  lemma NoParenFits(t: string, k: nat)
    requires '(' !in t && GroupFits(t, k)
    ensures k == |t|
  {
    if k < |t| {
      SuffixHasParen(t[k..]);
    }
  }

  /** With a '(' in the text: the tag's group when the pattern matches, else the whole text. */
  lemma MatchWithParen(t: string)
    requires Trimmed(t) && '(' in t
    ensures (exists k: nat :: GroupFits(t, k)) ==> exists k: nat :: Shortest(t, k) && MatchOrKeep(t) == Strip(t[..k])
    ensures (forall k: nat :: !GroupFits(t, k)) ==> MatchOrKeep(t) == t
  {
    var f := FirstIndex(t, '(');
    var w := TrailSpace(t[..f]);
    if 1 <= w < f && IdTag(t[f..]) {
      var k := MatchTagged(t, f, w);
    } else {
      MatchUntagged(t, f, w);
    }
  }

  /** An id tag at the first '(' after some whitespace: the group before the whitespace. */
  lemma MatchTagged(t: string, f: nat, w: nat) returns (k: nat)
    requires Trimmed(t) && '(' in t && f == FirstIndex(t, '(') && w == TrailSpace(t[..f])
    requires 1 <= w < f && IdTag(t[f..])
    ensures k == f - w && Shortest(t, k) && MatchOrKeep(t) == Strip(t[..k])
  {
    k := f - w;
    ParenFits(t, f, w);
  }

  /** No id tag at the first '(', or no whitespace before it: no group fits, the text is kept. */
  lemma MatchUntagged(t: string, f: nat, w: nat)
    requires Trimmed(t) && '(' in t && f == FirstIndex(t, '(') && w == TrailSpace(t[..f])
    requires !(1 <= w < f && IdTag(t[f..]))
    ensures forall k: nat :: !GroupFits(t, k)
    ensures MatchOrKeep(t) == t
  {
    forall k: nat | GroupFits(t, k)
      ensures false
    {
      FitsShape(t, k);
    }
  }

  /** Without a '(' the pattern matches all of a non-empty text. */
  lemma MatchWithoutParen(t: string)
    requires Trimmed(t) && '(' !in t
    ensures (exists k: nat :: GroupFits(t, k)) ==> exists k: nat :: Shortest(t, k) && MatchOrKeep(t) == Strip(t[..k])
    ensures (forall k: nat :: !GroupFits(t, k)) ==> MatchOrKeep(t) == t
  {
    if t != [] {
      assert GroupFits(t, |t|);
      forall j | 1 <= j < |t|
        ensures !GroupFits(t, j)
      {
        if GroupFits(t, j) {
          NoParenFits(t, j);
        }
      }
      StripTrimmed(t);
      assert t[..|t|] == t;
      assert Shortest(t, |t|) && MatchOrKeep(t) == Strip(t[..|t|]);
    }
  }

  /**
   * The parser agrees with the regular expression: the shortest group that lets the pattern
   * match the cleaned line, stripped, or the whole cleaned line when the pattern fails.
   */
  lemma ParseIsShortestMatch(line: string)
    ensures var t := Cleaned(line);
      (exists k: nat :: GroupFits(t, k)) ==> exists k: nat :: Shortest(t, k) && ParseLabelLine(line) == Strip(t[..k])
    ensures var t := Cleaned(line);
      (forall k: nat :: !GroupFits(t, k)) ==> ParseLabelLine(line) == t
  {
    var t := Cleaned(line);
    if '(' in t {
      MatchWithParen(t);
    } else {
      MatchWithoutParen(t);
    }
  }

  /** A '(' anywhere but at the head of a final id tag makes the pattern fail; the cleaned line comes back. */
  lemma ParenElsewhereKeepsLine(line: string)
    requires var t := Cleaned(line);
      '(' in t && !IdTag(t[FirstIndex(t, '(')..])
    ensures forall k: nat :: !GroupFits(Cleaned(line), k)
    ensures ParseLabelLine(line) == Cleaned(line)
  {
    var t := Cleaned(line);
    forall k: nat | GroupFits(t, k)
      ensures false
    {
      FitsShape(t, k);
    }
  }

  /** Any run of leading '-' and ' ', in any mix, makes no difference. */
  lemma LeadingDashesIgnored(prefix: string, line: string)
    requires forall i :: 0 <= i < |prefix| ==> prefix[i] in Dashes
    ensures ParseLabelLine(prefix + line) == ParseLabelLine(line)
  {
    LStripCharsPrefix(prefix, line, Dashes);
  }

  /** A line that starts with neither '-' nor ' ' nor other whitespace, and ends in no whitespace, is matched as it stands. */
  lemma CleanedKeeps(x: string)
    requires x != [] && x[0] !in Dashes && Trimmed(x)
    ensures Cleaned(x) == x
  {
    assert LeadIn(x, Dashes) == 0;
    assert x[0..] == x;
    StripTrimmed(x);
  }

  /** The parser's matched branch, for a text whose first '(' is at `f` after `w` spaces. */
  lemma ParseTagged(line: string, f: nat, w: nat)
    requires var t := Cleaned(line);
      '(' in t && FirstIndex(t, '(') == f && TrailSpace(t[..f]) == w && 1 <= w < f && IdTag(t[f..])
    ensures ParseLabelLine(line) == Strip(Cleaned(line)[..f - w])
  {
  }

  /** A name followed by one space has exactly one trailing space. */
  lemma OneTrailingSpace(name: string)
    requires name != [] && Trimmed(name)
    ensures TrailSpace(name + " ") == 1
  {
    assert (name + " ")[..|name|] == name;
  }

  /** Where the parts of a name, one space and an id tag sit once joined. */
  lemma TaggedLayout(name: string, tag: string, x: string)
    requires name != [] && Trimmed(name) && '(' !in name && name[0] !in Dashes
    requires IdTag(tag) && x == name + " " + tag
    ensures x[0] !in Dashes && Trimmed(x)
    ensures '(' in x && FirstIndex(x, '(') == |name| + 1 && TrailSpace(x[..|name| + 1]) == 1
    ensures x[|name| + 1..] == tag && x[..|name|] == name
  {
    var head := name + " ";
    assert x == head + tag;
    assert x[0] == name[0] && x[|x| - 1] == tag[|tag| - 1];
    var f := |head|;
    assert x[..f] == head && x[f..] == tag;
    assert x[f] == tag[0];
    FirstAt(x, '(', f);
    OneTrailingSpace(name);
    assert x[..f - 1] == name;
  }

  /** A name, one space and an id tag give back the name. */
  lemma TaggedName(name: string, tag: string)
    requires name != [] && Trimmed(name) && '(' !in name && name[0] !in Dashes
    requires IdTag(tag)
    ensures ParseLabelLine(name + " " + tag) == name
  {
    var x := name + " " + tag;
    TaggedLayout(name, tag, x);
    CleanedKeeps(x);
    ParseTagged(x, |name| + 1, 1);
    StripTrimmed(name);
  }

  /** A label as the listing writes it, "- name (ID: Label_digits)", gives back the name. */
  lemma SuffixRemoved(name: string, digits: string)
    requires name != [] && Trimmed(name) && '(' !in name && name[0] !in Dashes
    requires digits != [] && AllDigits(digits)
    ensures ParseLabelLine("- " + name + " (ID: Label_" + digits + ")") == name
  {
    var tag := IdOpen + digits + ")";
    assert tag[..|IdOpen|] == IdOpen && tag[|IdOpen|..|tag| - 1] == digits;
    assert IdTag(tag);
    var x := name + " " + tag;
    assert "- " + name + " (ID: Label_" + digits + ")" == "- " + x;
    LeadingDashesIgnored("- ", x);
    TaggedName(name, tag);
  }

  /** The listing's own form: "- AI/LLM (ID: Label_12)" names the label "AI/LLM". */
  lemma ListedLabelExample()
    ensures ParseLabelLine("- AI/LLM (ID: Label_12)") == "AI/LLM"
  {
    assert "- AI/LLM (ID: Label_12)" == "- " + "AI/LLM" + " (ID: Label_" + "12" + ")";
    SuffixRemoved("AI/LLM", "12");
  }

  /** A line whose first '(' does not open a final id tag comes back whole, "- " and all spaces aside. */
  lemma KeptWhole(x: string, p: nat)
    requires x != [] && x[0] !in Dashes && Trimmed(x)
    requires p < |x| && x[p] == '(' && '(' !in x[..p] && !IdTag(x[p..])
    ensures ParseLabelLine("- " + x) == x
  {
    LeadingDashesIgnored("- ", x);
    CleanedKeeps(x);
    FirstAt(x, '(', p);
    ParenElsewhereKeepsLine(x);
  }

  /** A '(' inside the name makes the pattern fail, so the suffix stays: "- GPT (beta) (ID: Label_7)". */
  lemma ParenInNameExample()
    ensures ParseLabelLine("- GPT (beta) (ID: Label_7)") == "GPT (beta) (ID: Label_7)"
  {
    var x := "GPT (beta) (ID: Label_7)";
    assert "- GPT (beta) (ID: Label_7)" == "- " + x;
    ParenInNameShape(x);
    KeptWhole(x, 4);
  }

  /** The name of the example starts plainly and its first '(' opens "(beta)", not an id tag. */
  lemma ParenInNameShape(x: string)
    requires x == "GPT (beta) (ID: Label_7)"
    ensures x != [] && x[0] !in Dashes && Trimmed(x)
    ensures x[4] == '(' && '(' !in x[..4] && !IdTag(x[4..])
  {
    assert x[..4] == "GPT ";
    assert x[4..][1] == 'b';
  }

  /** A line of '-' and ' ' followed by whitespace gives the empty label. */
  lemma DashLineEmpty(prefix: string, rest: string)
    requires forall i :: 0 <= i < |prefix| ==> prefix[i] in Dashes
    requires AllSpace(rest)
    ensures ParseLabelLine(prefix + rest) == ""
  {
    LeadingDashesIgnored(prefix, rest);
    var left := LStripChars(rest, Dashes);
    assert AllSpace(left) by {
      assert forall i :: 0 <= i < |left| ==> left[i] == rest[LeadIn(rest, Dashes) + i];
    }
    StripEmpty(left);
  }

  /** A blank line gives the empty label, so the `line.strip()` test before parsing drops nothing more. */
  lemma BlankLineEmpty(line: string)
    requires Strip(line) == ""
    ensures ParseLabelLine(line) == ""
  {
    StripEmpty(line);
    assert "" + line == line;
    DashLineEmpty("", line);
  }

  /** The labels `dump_emails` reads from the lines of a labels file, in file order. */
  function LabelsFromLines(lines: seq<string>): (labels: seq<string>)
    ensures |labels| <= |lines|
    ensures forall i :: 0 <= i < |labels| ==> labels[i] != "" && Trimmed(labels[i])
  {
    if lines == [] then []
    else
      var kept := LabelsFromLines(lines[..|lines| - 1]);
      var line := lines[|lines| - 1];
      if Strip(line) != "" && ParseLabelLine(line) != "" then kept + [ParseLabelLine(line)] else kept
  }

  /** The parse of every line, in order. */
  function Parses(lines: seq<string>): (ps: seq<string>)
    ensures |ps| == |lines| && forall i :: 0 <= i < |lines| ==> ps[i] == ParseLabelLine(lines[i])
  {
    seq(|lines|, i requires 0 <= i < |lines| => ParseLabelLine(lines[i]))
  }

  /** The labels read are exactly the non-empty parses of the lines. */
  lemma {:induction false} LabelsFromLinesExact(lines: seq<string>, x: string)
    ensures x in LabelsFromLines(lines) <==> x != "" && x in Parses(lines)
  {
    if lines != [] {
      var front := lines[..|lines| - 1];
      var p := ParseLabelLine(lines[|lines| - 1]);
      LabelsFromLinesExact(front, x);
      ParsesSnoc(lines);
      LabelsSnoc(lines);
    }
  }

  lemma ParsesSnoc(lines: seq<string>)
    requires lines != []
    ensures Parses(lines) == Parses(lines[..|lines| - 1]) + [ParseLabelLine(lines[|lines| - 1])]
  {
  }

  /** One more line adds its parse when that is not empty. */
  lemma LabelsSnoc(lines: seq<string>)
    requires lines != []
    ensures var p := ParseLabelLine(lines[|lines| - 1]);
      LabelsFromLines(lines) == LabelsFromLines(lines[..|lines| - 1]) + (if p != "" then [p] else [])
  {
    var line := lines[|lines| - 1];
    if Strip(line) == "" {
      BlankLineEmpty(line);
    }
  }

  /** Reading two runs of lines one after the other gives their labels one after the other. */
  lemma {:induction false} LabelsFromLinesAppend(a: seq<string>, b: seq<string>)
    ensures LabelsFromLines(a + b) == LabelsFromLines(a) + LabelsFromLines(b)
    decreases |b|
  {
    if b == [] {
      assert a + b == a;
    } else {
      var front := b[..|b| - 1];
      assert (a + b)[..|a + b| - 1] == a + front;
      assert (a + b)[|a + b| - 1] == b[|b| - 1];
      LabelsFromLinesAppend(a, front);
    }
  }
}
