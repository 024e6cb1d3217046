/**
 * `generate_markdown_report` (weekly_report/report_app.py): the Markdown text of a weekly
 * report for WeChat or for Medium. The posts selected for the channel are grouped by
 * their sorted labels, groups in order of first appearance, and each post is rendered
 * as a fixed block of lines; an empty line closes each group.
 */
module WeeklyReport {
  import opened Text
  import opened LabelSort
  import opened WeeklyPost

  const KeySep := ", "
  const Uncategorized := "Uncategorized"
  /** A full-width comma and a space, between the bold labels of the WeChat label line. */
  const BoldSep := "\U{FF0C} "

  /** The flag that selects a post for the channel. */
  predicate Chosen(p: Post, isWechat: bool)
  {
    if isWechat then p.wechatSelected else p.mediumSelected
  }

  /** The list comprehension that keeps the selected posts, in order. */
  function Selected(ps: seq<Post>, isWechat: bool): (r: seq<Post>)
    ensures |r| <= |ps|
    ensures forall p :: p in r <==> p in ps && Chosen(p, isWechat)
  {
    if ps == [] then []
    else
      var front, p := ps[..|ps| - 1], ps[|ps| - 1];
      assert ps == front + [p];
      var r := Selected(front, isWechat);
      if Chosen(p, isWechat) then r + [p] else r
  }

  /** The group key of a label list: the labels sorted and joined by ", ", or "Uncategorized" when that is empty. */
  function GroupKey(labels: seq<string>): (key: string)
    ensures key != ""
    ensures labels == [] ==> key == Uncategorized
  {
    var joined := Join(SortLabels(labels), KeySep);
    if joined == "" then Uncategorized else joined
  }

  function Key(p: Post): string
  {
    GroupKey(p.labels)
  }

  /** The keys of `posts_by_labels`, in insertion order: each key where a post first has it. */
  function KeyOrder(ps: seq<Post>): (keys: seq<string>)
    ensures forall i, j :: 0 <= i < j < |keys| ==> keys[i] != keys[j]
  {
    if ps == [] then []
    else
      var keys := KeyOrder(ps[..|ps| - 1]);
      var k := Key(ps[|ps| - 1]);
      if k in keys then keys else keys + [k]
  }

  /** The posts of one group, in their order among `ps`. */
  function Group(ps: seq<Post>, key: string): (g: seq<Post>)
    ensures |g| <= |ps|
    ensures forall p :: p in g ==> p in ps && Key(p) == key
  {
    if ps == [] then []
    else
      var front, p := ps[..|ps| - 1], ps[|ps| - 1];
      assert ps == front + [p];
      var g := Group(front, key);
      if Key(p) == key then g + [p] else g
  }

  /** `posts.index(p)`: the position of the first post equal to `p`. */
  function IndexOf(ps: seq<Post>, p: Post): (i: nat)
    requires p in ps
    ensures i < |ps| && ps[i] == p && p !in ps[..i]
  {
    if ps[0] == p then 0
    else
      var i := IndexOf(ps[1..], p);
      assert ps[..i + 1] == [ps[0]] + ps[1..][..i];
      i + 1
  }

  function ImageLine(image: string): string
  {
    if image == "" then "" else "![](" + image + ")"
  }

  function LinkLine(link: string): string
  {
    if link == "" then "" else "[" + link + "](" + link + ")"
  }

  /** The WeChat heading: the post's number among the selected posts, their count, its Chinese title. */
  function Heading(p: Post, posts: seq<Post>): string
    requires p in posts
  {
    "## (" + NatToString(IndexOf(posts, p) + 1) + "/" + NatToString(|posts|) + ") " + p.titleCn
  }

  function LinesPerPost(isWechat: bool): nat
  {
    if isWechat then 11 else 8
  }

  /** The lines one post adds to the report. */
  function PostLines(p: Post, labelsMd: string, posts: seq<Post>, isWechat: bool): (lines: seq<string>)
    requires p in posts
    ensures |lines| == LinesPerPost(isWechat)
  {
    if isWechat then
      [Heading(p, posts), labelsMd] +
      ["", p.contentCn, "", ImageLine(p.mainImage), "", p.userInputCn, "", LinkLine(p.mainLink), ""]
    else
      ["### " + p.titleEn] + ["", p.contentEn, "", ImageLine(p.mainImage), "", p.userInputEn, ""]
  }

  /** Each label, stripped and in bold. */
  function Bolded(labels: seq<string>): (r: seq<string>)
    ensures |r| == |labels|
  {
    seq(|labels|, i requires 0 <= i < |labels| => "**" + Strip(labels[i]) + "**")
  }

  /** The WeChat label line of a group: its key split at ", ", each piece in bold. */
  function LabelsMarkdown(key: string): string
  {
    Join(Bolded(SplitOn(key, KeySep)), BoldSep)
  }

  /** The lines of a run of posts of one group. */
  function GroupLines(group: seq<Post>, labelsMd: string, posts: seq<Post>, isWechat: bool): (lines: seq<string>)
    requires forall p :: p in group ==> p in posts
    ensures |lines| == LinesPerPost(isWechat) * |group|
  {
    if group == [] then []
    else
      var front := group[..|group| - 1];
      assert forall p :: p in front ==> p in group;
      MulNext(LinesPerPost(isWechat), |front|);
      GroupLines(front, labelsMd, posts, isWechat) + PostLines(group[|group| - 1], labelsMd, posts, isWechat)
  }

  lemma MulNext(a: nat, n: nat)
    ensures a * (n + 1) == a * n + a
  {
  }

  /** The lines of the groups with the given keys, each closed by an empty line. */
  function Sections(keys: seq<string>, posts: seq<Post>, isWechat: bool): seq<string>
  {
    if keys == [] then []
    else
      var k := keys[|keys| - 1];
      Sections(keys[..|keys| - 1], posts, isWechat) +
      GroupLines(Group(posts, k), LabelsMarkdown(k), posts, isWechat) + [""]
  }

  /** The report's lines for a channel. */
  function ReportLines(report: Report, isWechat: bool): seq<string>
  {
    var posts := Selected(report.posts, isWechat);
    Sections(KeyOrder(posts), posts, isWechat)
  }

  /** The report's Markdown for a channel: its lines joined by newlines. */
  function Markdown(report: Report, isWechat: bool): string
  {
    Join(ReportLines(report, isWechat), "\n")
  }

  /**
   * A WeChat block opens with the heading "## (k+1/n) title", where `k` is the position of
   * the first selected post equal to this one and `n` the number of selected posts; the
   * group's label line follows.
   */
  lemma WechatHeading(p: Post, labelsMd: string, posts: seq<Post>)
    requires p in posts
    ensures PostLines(p, labelsMd, posts, true)[1] == labelsMd
    ensures var k := IndexOf(posts, p);
      posts[k] == p && p !in posts[..k] &&
      PostLines(p, labelsMd, posts, true)[0] ==
        "## (" + NatToString(k + 1) + "/" + NatToString(|posts|) + ") " + p.titleCn
  {
    assert PostLines(p, labelsMd, posts, true)[0] == Heading(p, posts);
  }

  /** A Medium block opens with "### " and the English title and carries no label line. */
  lemma MediumEntry(p: Post, md1: string, md2: string, posts: seq<Post>)
    requires p in posts
    ensures PostLines(p, md1, posts, false) == PostLines(p, md2, posts, false)
    ensures PostLines(p, md1, posts, false)[0] == "### " + p.titleEn
  {
  }

  /**
   * The report text splits at its newlines back into its lines when no line holds one;
   * without selected posts it is empty.
   */
  lemma MarkdownSplitsIntoLines(report: Report, isWechat: bool)
    requires forall i :: 0 <= i < |ReportLines(report, isWechat)| ==> '\n' !in ReportLines(report, isWechat)[i]
    ensures ReportLines(report, isWechat) == [] ==> Markdown(report, isWechat) == ""
    ensures ReportLines(report, isWechat) != [] ==> Split(Markdown(report, isWechat), '\n') == ReportLines(report, isWechat)
  {
    var lines := ReportLines(report, isWechat);
    if lines != [] {
      SplitJoin(lines, '\n');
      assert "\n" == ['\n'];
    }
  }

  lemma KeyOrderSnoc(ps: seq<Post>, p: Post)
    ensures KeyOrder(ps + [p]) == if Key(p) in KeyOrder(ps) then KeyOrder(ps) else KeyOrder(ps) + [Key(p)]
  {
    assert (ps + [p])[..|ps|] == ps;
  }

  lemma GroupSnoc(ps: seq<Post>, p: Post)
    ensures forall k :: Group(ps + [p], k) == if Key(p) == k then Group(ps, k) + [p] else Group(ps, k)
  {
    assert (ps + [p])[..|ps|] == ps;
  }

  lemma GroupSnocAt(ps: seq<Post>, p: Post, k: string)
    ensures Group(ps + [p], k) == if Key(p) == k then Group(ps, k) + [p] else Group(ps, k)
  {
    assert (ps + [p])[..|ps|] == ps;
  }

  lemma SelectedSnoc(ps: seq<Post>, p: Post, isWechat: bool)
    ensures Selected(ps + [p], isWechat) == if Chosen(p, isWechat) then Selected(ps, isWechat) + [p] else Selected(ps, isWechat)
  {
    assert (ps + [p])[..|ps|] == ps;
  }

  /** A key is listed exactly when some post has it. */
  lemma {:induction false} KeyOrderHasKeys(ps: seq<Post>, k: string)
    ensures k in KeyOrder(ps) <==> exists p :: p in ps && Key(p) == k
    decreases |ps|
  {
    if ps != [] {
      var front, p := ps[..|ps| - 1], ps[|ps| - 1];
      assert ps == front + [p];
      KeyOrderHasKeys(front, k);
      KeyOrderSnoc(front, p);
    }
  }

  /** Every post with the key is in its group. */
  lemma {:induction false} GroupHas(ps: seq<Post>, key: string, p: Post)
    requires p in ps && Key(p) == key
    ensures p in Group(ps, key)
    decreases |ps|
  {
    var front, q := ps[..|ps| - 1], ps[|ps| - 1];
    assert ps == front + [q];
    GroupSnoc(front, q);
    if p != q {
      GroupHas(front, key, p);
    }
  }

  /** A key is listed exactly when its group is non-empty. */
  lemma ListedIffGroup(ps: seq<Post>, k: string)
    ensures k in KeyOrder(ps) <==> Group(ps, k) != []
  {
    KeyOrderHasKeys(ps, k);
    if Group(ps, k) != [] {
      assert Group(ps, k)[0] in Group(ps, k);
    }
    if k in KeyOrder(ps) {
      var p :| p in ps && Key(p) == k;
      GroupHas(ps, k, p);
    }
  }

  /**
   * Keys are only ever appended: the keys of a prefix of the posts come first, in the same
   * order, so groups appear in the order their first posts do.
   */
  lemma {:induction false} KeyOrderPrefix(ps: seq<Post>, n: nat)
    requires n <= |ps|
    ensures KeyOrder(ps[..n]) <= KeyOrder(ps)
    decreases |ps|
  {
    if n < |ps| {
      var front, p := ps[..|ps| - 1], ps[|ps| - 1];
      assert ps == front + [p];
      assert ps[..n] == front[..n];
      KeyOrderPrefix(front, n);
      KeyOrderSnoc(front, p);
    } else {
      assert ps[..n] == ps;
    }
  }

  /** Selecting from two runs of posts is selecting from each: selection keeps the order. */
  lemma {:induction false} SelectedAppend(a: seq<Post>, b: seq<Post>, isWechat: bool)
    ensures Selected(a + b, isWechat) == Selected(a, isWechat) + Selected(b, isWechat)
    decreases |b|
  {
    if b != [] {
      var front, p := b[..|b| - 1], b[|b| - 1];
      assert b == front + [p];
      SelectedAppend(a, front, isWechat);
      SelectedAppendStep(a, front, p, isWechat);
    } else {
      assert a + b == a;
    }
  }

  lemma SelectedAppendStep(a: seq<Post>, front: seq<Post>, p: Post, isWechat: bool)
    requires Selected(a + front, isWechat) == Selected(a, isWechat) + Selected(front, isWechat)
    ensures Selected(a + (front + [p]), isWechat) == Selected(a, isWechat) + Selected(front + [p], isWechat)
  {
    SnocAssoc(a, front, p);
    SelectedSnoc(a + front, p, isWechat);
    SelectedSnoc(front, p, isWechat);
    SnocAssoc(Selected(a, isWechat), Selected(front, isWechat), p);
  }

  lemma SnocAssoc<T>(a: seq<T>, b: seq<T>, x: T)
    ensures a + (b + [x]) == (a + b) + [x]
  {
  }

  /** Grouping two runs of posts is grouping each: posts keep their order inside a group. */
  lemma {:induction false} GroupAppend(a: seq<Post>, b: seq<Post>, k: string)
    ensures Group(a + b, k) == Group(a, k) + Group(b, k)
    decreases |b|
  {
    if b != [] {
      var front, p := b[..|b| - 1], b[|b| - 1];
      assert b == front + [p];
      assert a + b == (a + front) + [p];
      GroupAppend(a, front, k);
      GroupSnocAt(a + front, p, k);
      GroupSnocAt(front, p, k);
    } else {
      assert a + b == a;
    }
  }

  /** The number of posts in the groups with the given keys. */
  function GroupSizes(keys: seq<string>, ps: seq<Post>): nat
  {
    if keys == [] then 0 else GroupSizes(keys[..|keys| - 1], ps) + |Group(ps, keys[|keys| - 1])|
  }

  /** One more post adds one to the total of the distinct keys' groups when its key is among them. */
  lemma {:induction false} GroupSizesSnoc(keys: seq<string>, ps: seq<Post>, p: Post)
    requires forall i, j :: 0 <= i < j < |keys| ==> keys[i] != keys[j]
    ensures GroupSizes(keys, ps + [p]) == GroupSizes(keys, ps) + if Key(p) in keys then 1 else 0
    decreases |keys|
  {
    GroupSnoc(ps, p);
    if keys != [] {
      var ks := keys[..|keys| - 1];
      assert keys == ks + [keys[|keys| - 1]];
      GroupSizesSnoc(ks, ps, p);
    }
  }

  lemma GroupSizesLast(keys: seq<string>, k: string, ps: seq<Post>)
    ensures GroupSizes(keys + [k], ps) == GroupSizes(keys, ps) + |Group(ps, k)|
  {
    assert (keys + [k])[..|keys|] == keys;
  }

  /** The groups partition the posts: every post lies in exactly one listed group. */
  lemma {:induction false} GroupsPartition(ps: seq<Post>)
    ensures GroupSizes(KeyOrder(ps), ps) == |ps|
    decreases |ps|
  {
    if ps != [] {
      var front, p := ps[..|ps| - 1], ps[|ps| - 1];
      assert ps == front + [p];
      var keys := KeyOrder(front);
      GroupsPartition(front);
      KeyOrderSnoc(front, p);
      GroupSizesSnoc(keys, front, p);
      if Key(p) !in keys {
        GroupSizesLast(keys, Key(p), ps);
        ListedIffGroup(front, Key(p));
        GroupSnoc(front, p);
      }
    }
  }

  lemma {:induction false} SectionsLength(keys: seq<string>, posts: seq<Post>, isWechat: bool)
    ensures |Sections(keys, posts, isWechat)| == LinesPerPost(isWechat) * GroupSizes(keys, posts) + |keys|
    decreases |keys|
  {
    if keys != [] {
      var ks, k := keys[..|keys| - 1], keys[|keys| - 1];
      SectionsLength(ks, posts, isWechat);
      var n, a, b := LinesPerPost(isWechat), GroupSizes(ks, posts), |Group(posts, k)|;
      assert n * (a + b) == n * a + n * b;
    }
  }

  /**
   * The report has one block of lines per selected post and one closing line per group:
   * every selected post is rendered exactly once.
   */
  lemma ReportLineCount(report: Report, isWechat: bool)
    ensures var posts := Selected(report.posts, isWechat);
      |ReportLines(report, isWechat)| == LinesPerPost(isWechat) * |posts| + |KeyOrder(posts)|
  {
    var posts := Selected(report.posts, isWechat);
    SectionsLength(KeyOrder(posts), posts, isWechat);
    GroupsPartition(posts);
  }

  /** Posts with the same labels in any order share a group. */
  lemma KeyIgnoresLabelOrder(a: seq<string>, b: seq<string>)
    requires multiset(a) == multiset(b)
    ensures GroupKey(a) == GroupKey(b)
  {
    SortIgnoresOrder(a, b);
  }

  /**
   * The key does not tell a label holding ", " from two labels: a post labelled "a, b"
   * shares the group of a post labelled "a" and "b".
   */
  lemma CommaLabelSharesGroup(a: string, b: string)
    requires LessEq(a, b)
    ensures GroupKey([a + KeySep + b]) == GroupKey([a, b])
  {
    var joined := a + KeySep + b;
    SortTwo(a, b);
    SortOne(joined);
    JoinTwo(a, b, KeySep);
    KeyOfSorted([a, b], [a, b]);
    KeyOfSorted([joined], [joined]);
  }

  lemma SortOne(x: string)
    ensures SortLabels([x]) == [x]
  {
    assert [x][1..] == [];
  }

  lemma SortTwo(a: string, b: string)
    requires LessEq(a, b)
    ensures SortLabels([a, b]) == [a, b]
  {
    assert [a, b][1..] == [b];
    SortOne(b);
  }

  lemma JoinTwo(a: string, b: string, sep: string)
    ensures Join([a, b], sep) == a + sep + b
  {
    assert [a, b][1..] == [b];
  }

  lemma KeyOfSorted(labels: seq<string>, sorted: seq<string>)
    requires SortLabels(labels) == sorted && Join(sorted, KeySep) != ""
    ensures GroupKey(labels) == Join(sorted, KeySep)
  {
  }

  /** The label line of a group whose labels hold no comma shows each label, sorted and in bold. */
  lemma LabelsMarkdownOfKey(labels: seq<string>)
    requires forall i :: 0 <= i < |labels| ==> ',' !in labels[i]
    requires Join(SortLabels(labels), KeySep) != ""
    ensures LabelsMarkdown(GroupKey(labels)) == Join(Bolded(SortLabels(labels)), BoldSep)
  {
    SortedKeepsCommaFree(labels);
    JoinedLine(SortLabels(labels));
  }

  /** Labels joined by ", " come back apart, each in bold, when none holds a comma. */
  lemma JoinedLine(labels: seq<string>)
    requires labels != []
    requires forall i :: 0 <= i < |labels| ==> ',' !in labels[i]
    ensures LabelsMarkdown(Join(labels, KeySep)) == Join(Bolded(labels), BoldSep)
  {
    forall i | 0 <= i < |labels|
      ensures KeySep[0] !in labels[i]
    {
      assert ',' !in labels[i];
    }
    SplitOnJoin(labels, KeySep);
  }

  lemma SortedKeepsCommaFree(labels: seq<string>)
    requires forall i :: 0 <= i < |labels| ==> ',' !in labels[i]
    ensures forall i :: 0 <= i < |SortLabels(labels)| ==> ',' !in SortLabels(labels)[i]
    ensures SortLabels(labels) != [] <==> labels != []
  {
    var sorted := SortLabels(labels);
    forall i | 0 <= i < |sorted|
      ensures ',' !in sorted[i]
    {
      assert sorted[i] in multiset(labels);
    }
    assert |multiset(sorted)| == |multiset(labels)|;
  }

  /** A key that is one trimmed label without a comma is shown as that label in bold. */
  lemma SingleLabelLine(key: string)
    requires ',' !in key && Trimmed(key)
    ensures LabelsMarkdown(key) == "**" + key + "**"
  {
    SplitOnFree(key, KeySep);
    StripTrimmed(key);
    assert Bolded([key]) == ["**" + key + "**"];
  }

  /** Unlabelled posts are shown under a bold "Uncategorized". */
  lemma UncategorizedLine()
    ensures LabelsMarkdown(Uncategorized) == "**" + Uncategorized + "**"
  {
    SingleLabelLine(Uncategorized);
  }

  lemma GroupLinesSnoc(group: seq<Post>, j: nat, labelsMd: string, posts: seq<Post>, isWechat: bool)
    requires j < |group|
    requires forall p :: p in group ==> p in posts
    ensures forall p :: p in group[..j] ==> p in posts
    ensures GroupLines(group[..j + 1], labelsMd, posts, isWechat) ==
      GroupLines(group[..j], labelsMd, posts, isWechat) + PostLines(group[j], labelsMd, posts, isWechat)
  {
    assert group[..j + 1][..j] == group[..j];
    assert forall p :: p in group[..j] ==> p in group;
  }

  lemma SectionsSnoc(keys: seq<string>, g: nat, posts: seq<Post>, isWechat: bool)
    requires g < |keys|
    ensures Sections(keys[..g + 1], posts, isWechat) ==
      Sections(keys[..g], posts, isWechat) + GroupLines(Group(posts, keys[g]), LabelsMarkdown(keys[g]), posts, isWechat) + [""]
  {
    assert keys[..g + 1][..g] == keys[..g];
  }

  /** The lines of two runs of keys are the lines of the first run, then those of the second. */
  lemma {:induction false} SectionsAppend(a: seq<string>, b: seq<string>, posts: seq<Post>, isWechat: bool)
    ensures Sections(a + b, posts, isWechat) == Sections(a, posts, isWechat) + Sections(b, posts, isWechat)
    decreases |b|
  {
    if b == [] {
      assert a + b == a;
    } else {
      var front, k := b[..|b| - 1], b[|b| - 1];
      var section := GroupLines(Group(posts, k), LabelsMarkdown(k), posts, isWechat) + [""];
      assert (a + b)[..|a + b| - 1] == a + front && (a + b)[|a + b| - 1] == k;
      SectionsLast(a + b, posts, isWechat);
      SectionsLast(b, posts, isWechat);
      SectionsAppend(a, front, posts, isWechat);
      LinesAssoc(Sections(a, posts, isWechat), Sections(front, posts, isWechat), section);
    }
  }

  lemma SectionsLast(keys: seq<string>, posts: seq<Post>, isWechat: bool)
    requires keys != []
    ensures var k := keys[|keys| - 1];
      Sections(keys, posts, isWechat) ==
        Sections(keys[..|keys| - 1], posts, isWechat) + (GroupLines(Group(posts, k), LabelsMarkdown(k), posts, isWechat) + [""])
  {
  }

  /**
   * Each group's section sits between the groups before and after it in the key order:
   * the blocks of its posts, then one empty line.
   */
  lemma GroupSection(keys: seq<string>, g: nat, posts: seq<Post>, isWechat: bool)
    requires g < |keys|
    ensures var before := Sections(keys[..g], posts, isWechat);
      var group := Group(posts, keys[g]);
      Sections(keys, posts, isWechat) ==
        before + GroupLines(group, LabelsMarkdown(keys[g]), posts, isWechat) + [""] + Sections(keys[g + 1..], posts, isWechat) &&
      Sections(keys, posts, isWechat)[|before| + LinesPerPost(isWechat) * |group|] == ""
  {
    assert keys == keys[..g + 1] + keys[g + 1..];
    SectionsAppend(keys[..g + 1], keys[g + 1..], posts, isWechat);
    SectionsSnoc(keys, g, posts, isWechat);
  }

  lemma PrefixSnoc<T>(s: seq<T>, i: nat)
    requires i < |s|
    ensures s[..i + 1] == s[..i] + [s[i]]
  {
  }

  lemma LinesAssoc(a: seq<string>, b: seq<string>, c: seq<string>)
    ensures (a + b) + c == a + (b + c)
  {
  }

  /** One pass of the grouping loop: a new key is appended to the insertion order. */
  lemma OrderStep(order: seq<string>, ps: seq<Post>, p: Post, order': seq<string>)
    requires order == KeyOrder(ps)
    requires order' == if Key(p) in order then order else order + [Key(p)]
    ensures order' == KeyOrder(ps + [p])
  {
    KeyOrderSnoc(ps, p);
  }

  /** Each entry of the dict holds the group of its key. */
  ghost predicate Grouped(m: map<string, seq<Post>>, ps: seq<Post>)
  {
    forall k :: k in m ==> m[k] == Group(ps, k)
  }

  /** A new key starts with an empty list, which is its group so far. */
  lemma AddEmpty(m: map<string, seq<Post>>, ps: seq<Post>, key: string)
    requires Grouped(m, ps)
    requires key !in KeyOrder(ps)
    ensures Grouped(m[key := []], ps)
  {
    ListedIffGroup(ps, key);
  }

  /** One pass of the grouping loop: the post is appended to its group. */
  lemma GroupMapStep(m: map<string, seq<Post>>, ps: seq<Post>, p: Post)
    requires Grouped(m, ps) && Key(p) in m
    ensures Grouped(m[Key(p) := m[Key(p)] + [p]], ps + [p])
  {
    GroupSnoc(ps, p);
  }

  /** The group key of one post, as the grouping loop computes it. */
  method LabelsKey(post: Post) returns (labelsKey: string)
    ensures labelsKey == Key(post)
  {
    labelsKey := Join(SortLabels(post.labels), KeySep);
    if labelsKey == "" {
      labelsKey := Uncategorized;
    }
  }

  /**
   * The grouping loop of `generate_markdown_report`: `posts_by_labels`, a dict, as a map
   * and its keys in insertion order.
   */
  method GroupByLabels(posts: seq<Post>) returns (byLabels: map<string, seq<Post>>, order: seq<string>)
    ensures order == KeyOrder(posts)
    ensures forall k :: k in byLabels <==> k in order
    ensures Grouped(byLabels, posts)
  {
    byLabels, order := map[], [];
    var i := 0;
    while i < |posts|
      invariant i <= |posts|
      invariant order == KeyOrder(posts[..i])
      invariant forall k :: k in byLabels <==> k in order
      invariant Grouped(byLabels, posts[..i])
    {
      var post := posts[i];
      var labelsKey := LabelsKey(post);
      ghost var prefix, known := posts[..i], order;
      if labelsKey !in byLabels {
        AddEmpty(byLabels, prefix, labelsKey);
        byLabels := byLabels[labelsKey := []];
        order := order + [labelsKey];
      }
      GroupMapStep(byLabels, prefix, post);
      byLabels := byLabels[labelsKey := byLabels[labelsKey] + [post]];
      PrefixSnoc(posts, i);
      i := i + 1;
      OrderStep(known, prefix, post, order);
    }
    assert posts[..i] == posts;
  }

  /** `generate_markdown_report(report, is_wechat)`. */
  method GenerateMarkdownReport(report: Report, isWechat: bool) returns (md: string)
    ensures md == Markdown(report, isWechat)
  {
    var posts := Selected(report.posts, isWechat);
    var byLabels, order := GroupByLabels(posts);

    var content: seq<string> := [];
    var g := 0;
    while g < |order|
      invariant g <= |order|
      invariant content == Sections(order[..g], posts, isWechat)
    {
      var labels := order[g];
      var labelsList := SplitOn(labels, KeySep);
      var labelsMd := Join(Bolded(labelsList), BoldSep);
      var groupPosts := byLabels[labels];
      ghost var start := content;
      var j := 0;
      while j < |groupPosts|
        invariant j <= |groupPosts|
        invariant forall p :: p in groupPosts[..j] ==> p in posts
        invariant content == start + GroupLines(groupPosts[..j], labelsMd, posts, isWechat)
      {
        GroupLinesSnoc(groupPosts, j, labelsMd, posts, isWechat);
        ghost var done := GroupLines(groupPosts[..j], labelsMd, posts, isWechat);
        var lines := PostLines(groupPosts[j], labelsMd, posts, isWechat);
        content := content + lines;
        j := j + 1;
        LinesAssoc(start, done, lines);
      }
      assert groupPosts[..j] == groupPosts;
      content := content + [""];
      SectionsSnoc(order, g, posts, isWechat);
      g := g + 1;
    }
    assert order[..g] == order;
    md := Join(content, "\n");
  }
}
