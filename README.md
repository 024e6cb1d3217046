# funsense: label hierarchy, few-shot prompt builder and report helpers in Dafny

This project models the core of funsense. funsense sorts e-mails under Gmail labels and builds LLM prompts from them. It also turns analysed posts into a weekly Markdown report.

The model has four parts:

- **`LabelHierarchy`** (`few_shot_dataset.py`). Labels are read from dump filenames such as `LLM_RAG_evaluation_20241222.json`.
  - Each filename names a chain of labels from the root down.
  - `good_material` and `daily_news` are single flat labels.
  - Every label on the chain receives the e-mail ids of the file.
  - Queries walk the parent links: the path from a root to a label, and all the paths of one e-mail.
- **`FewShotDataset`** (same file).
  - It builds a pool of candidate examples per label.
  - It selects examples in two greedy passes over the labels, smallest pool first, under a 32000-token budget and without repeating content. A label gets its minimum only when its pool can supply it (`FillTakesFresh`, `FillAtMostPool`).
  - It renders the examples and builds the prompt from a random sample of them.
- **Command-line and Gmail helpers.**
  - The labels-file line parser of `main_cli.py` and the filter `dump_emails` applies to its results.
  - `get_label_by_name` of `gmail_api/label_service.py`: a case-insensitive full-name match first, then a match on the last `/` segment.
- **Weekly report** (`weekly_report/report_app.py`).
  - The `WeeklyPost` and `WeeklyReport` records.
  - The `validate_boolean` coercion of the two selection flags.
  - `generate_markdown_report`: it picks the posts selected for WeChat or for Medium, groups them by their sorted labels and renders each group.

The model follows the source's own form:

- The label hierarchy and the dataset are classes whose methods change their fields in loops. Each method is proved to compute a specification function over values: `Hierarchy.AddFile`, `Paths.PathToRoot`, `Paths.AllPaths`, `Selection.Outcome` and `Prompt.PromptFor`.
- The pure helpers are functions.
- The report renderer is a method with loops, proved equal to `WeeklyReport.Markdown`.

Dependencies on the outside world are modelled as follows:

- The tokenizer is a function value `string -> nat` held by the dataset.
- `random.shuffle` and the iteration order of a label's set of e-mail ids are a nondeterministic choice inside the methods, so every contract holds for every outcome.
- The order in which `list(set(...))` lists an example's labels is a function value held by the dataset, like the tokenizer. It only has to list each label once (`Selection.ListsSet`), and `format_example` pairs labels and paths in whatever order it gives.
- `random.sample` is a nondeterministic choice of distinct positions.

Modules, one per file:

| file | module | contents |
|---|---|---|
| `wrappers.dfy` | `Wrappers` | Option and Result |
| `text.dfy` | `Text` | Python string operations |
| `label_paths.dfy` | `LabelPaths` | how a filename is read |
| `hierarchy.dfy` | `Hierarchy` | the hierarchy as a value and `AddFile` |
| `paths.dfy` | `Paths` | the path queries |
| `label_store.dfy` | `LabelStore` | class `LabelHierarchy` |
| `fewshot_example.dfy` | `Examples` | `FewShotExample` and its rendering |
| `selection.dfy` | `Selection` | pools and the two passes |
| `prompt.dfy` | `Prompt` | the prompt |
| `dataset.dfy` | `FewShot` | class `FewShotDataset` |
| `label_line.dfy` | `LabelLine` | the labels-file line parser |
| `label_lookup.dfy` | `LabelLookup` | `get_label_by_name` |
| `label_sort.dfy` | `LabelSort` | `sorted` on label lists |
| `weekly_post.dfy` | `WeeklyPost` | the records and `validate_boolean` |
| `weekly_report.dfy` | `WeeklyReport` | `generate_markdown_report` |

## Model

| member | source | states |
|---|---|---|
| LabelPaths.Parse | few_shot_dataset.py:38-65 | The label source a filename names. It is the single label when the first two kept parts joined by `_` and cut at `.` are `good_material` or `daily_news`; otherwise it is the chain of kept parts, each cut at its first `.`. |
| LabelPaths.KeepLabelParts | few_shot_dataset.py:42-45 | Keeps exactly the parts whose first character is not a digit, in order; the result is no longer than the input. |
| LabelPaths.KeepAppend | few_shot_dataset.py:42-45 | Dropping digit-led parts distributes over concatenation. |
| LabelPaths.NamePartsOfJoin | few_shot_dataset.py:38 | A filename built from `_`-free and `/`-free pieces splits back into exactly those pieces. |
| LabelPaths.ChainFromFilename | few_shot_dataset.py:38-66 | Plain label names followed by date/time stamps name the chain of those names, root first, unless the first two form a single label. |
| LabelPaths.SingleFromFilename | few_shot_dataset.py:47-60 | When the first two names joined by `_` form a single label, that label is named, whatever follows. |
| LabelPaths.ChainExample | few_shot_dataset.py:37-66 | `LLM_RAG_evaluation_20241222.json` names the chain LLM, RAG, evaluation; the date part is dropped. |
| LabelPaths.SingleExample | few_shot_dataset.py:47-60 | `good_material_20241222.json` names the single label `good_material`. |
| Hierarchy.AddIdsAt | few_shot_dataset.py:84-85 | Adding ids along a path gives them to exactly the nodes named on it and changes nothing else. |
| Hierarchy.RegisterWellFormed | few_shot_dataset.py:68-80 | Creating a node under an existing parent keeps the hierarchy well formed: every key in the insertion order once, each parent a key inserted before its child, `root_labels` and every `children` list exact and without repeats. |
| Hierarchy.RunWellFormed | few_shot_dataset.py:64-87 | The chain loop keeps the hierarchy well formed. |
| Hierarchy.AddSingleWellFormed | few_shot_dataset.py:49-60 | The single-label branch keeps the hierarchy well formed. |
| Hierarchy.AddFileWellFormed | few_shot_dataset.py:36-87 | `add_label_from_filename` keeps the hierarchy well formed, so parent links never form a cycle. |
| Hierarchy.AddFileExtends | few_shot_dataset.py:50-80 | First registration wins. No node disappears, and existing nodes keep their name and parent. `root_labels` and each `children` list only grow at the end, by names the call creates. |
| Hierarchy.AddFileIds | few_shot_dataset.py:55-85 | The call creates nodes for the touched names and adds the ids to exactly the touched nodes. |
| Hierarchy.AddFileIdempotent | few_shot_dataset.py:47-85 | A second call with the same filename and ids changes nothing: the same nodes in the same insertion order, the same `root_labels`, and every node with the same name, parent, children and e-mail ids. |
| Hierarchy.AddFileCreates | few_shot_dataset.py:51-74 | A node the call creates is a root when it is a single label or the first name of the chain. Otherwise its parent is the name before its first occurrence in the chain. |
| Hierarchy.AddFileNested | few_shot_dataset.py:82-85 | When every touched node's registered parent is touched too, each parent's ids stay a superset of its children's. |
| Hierarchy.NestingNeedsAgreement | few_shot_dataset.py:68-85 | After `A_B` and then `C_B`, `B` holds an id its registered parent `A` lacks. |
| Hierarchy.AddFileSinglesAreRoots | few_shot_dataset.py:47-60 | No call gives a single label a parent. |
| Hierarchy.FirstFile | few_shot_dataset.py:64-87 | In an empty hierarchy, `a_b` creates the root `a` and its child `b`, and both hold the ids. |
| Hierarchy.SecondFile | few_shot_dataset.py:68-85 | `c_b` leaves an existing `b`'s parent alone and adds the ids to `c` and `b` only. |
| Paths.PathToRootShape | few_shot_dataset.py:89-98 | An unknown label gives `[]`. A known one gives a root path: it starts at a node without a truthy parent, each entry is the parent of the next, and it ends at the label. |
| Paths.PathToRootUnique | few_shot_dataset.py:89-98 | Any root path ending at a label is the path returned for it. |
| Paths.PathToRootPrefix | few_shot_dataset.py:89-98 | Each prefix of a label's path is the path of the prefix's last name. |
| Paths.PathToRootDistinct | few_shot_dataset.py:89-98 | A path never visits a name twice. |
| Paths.PathToRootInjective | few_shot_dataset.py:89-98 | Different labels have different paths. |
| Paths.LineageIsChain | few_shot_dataset.py:93-97 | The names collected before reversing run from the label up through parent links to a node without a truthy parent. |
| Paths.LabelsWith | few_shot_dataset.py:104-107 | A name is listed exactly when it is a node holding the e-mail id. |
| Paths.AllPathsExact | few_shot_dataset.py:100-123 | `get_all_paths_for_email` lists, without duplicates, exactly the paths of the labels holding the id and of all their ancestors. |
| Paths.AllPathsPrefixClosed | few_shot_dataset.py:115-121 | For every returned path, the path of each ancestor on it is returned too. |
| Paths.AllPathsComplete | few_shot_dataset.py:104-113 | Every label holding the id has its path in the result. |
| LabelStore.MapOfDump | few_shot_dataset.py:125-130 | The dumped node pairs read back as the nodes of the listed keys. |
| LabelStore.LabelHierarchy.AddLabelFromFilename | few_shot_dataset.py:36-87 | The store becomes `AddFile` of the old store, the filename and the set of ids, and stays well formed. The filename must have no empty `_` part, because the code reads `part[0]`. |
| LabelStore.LabelHierarchy.AddLabelChain | few_shot_dataset.py:62-87 | The chain loop moves the store as `RunFrom` over the cleaned parts. |
| LabelStore.LabelHierarchy.LabelParts | few_shot_dataset.py:42-45 | The loop keeps the parts `KeepLabelParts` keeps. |
| LabelStore.LabelHierarchy.AddSingleLabel | few_shot_dataset.py:49-60 | The single-label branch moves the store as `AddSingle`. |
| LabelStore.LabelHierarchy.RegisterPart | few_shot_dataset.py:68-80 | Node creation moves the store as `Register`. |
| LabelStore.LabelHierarchy.AddEmailIds | few_shot_dataset.py:84-85 | The inner loop adds the ids along the path as `AddIds`. |
| LabelStore.LabelHierarchy.GetPathToRoot | few_shot_dataset.py:89-98 | The loop returns `PathToRoot`, whose shape the `Paths` lemmas pin down. |
| LabelStore.LabelHierarchy.GetAllPathsForEmail | few_shot_dataset.py:100-123 | The loops return `AllPaths`, which `AllPathsExact` characterises. |
| LabelStore.LabelHierarchy.AddPathsFor | few_shot_dataset.py:110-121 | One label's turn adds its path when new, then each ancestor's path not yet present. |
| LabelStore.LabelHierarchy.ToDict | few_shot_dataset.py:125-130 | Nothing is lost: the dump reads back as the current hierarchy. |
| Examples.ZippedLines | few_shot_dataset.py:280-284 | One line per `zip` pair, stopping at the shorter list. A single label is written bare; any other label as its path joined by ` -> `. |
| Examples.FormatExample | few_shot_dataset.py:276-285 | The loop renders "Content: …", "Labels:" and one line per `zip` pair of labels and paths, as written. |
| Examples.FormattedListsEachPath | few_shot_dataset.py:276-285 | When single labels are roots, every path is listed once, in order and in full. |
| Examples.ZippedWhenAligned | few_shot_dataset.py:280-284 | When the labels come in the order of the paths, the code as written renders the same text as `Formatted`. |
| Examples.ZipMispairs | few_shot_dataset.py:280-284 | For labels `good_material, A, B` and paths `[A]`, `[A, B]`, `[good_material]`, the zipped lines name `good_material` twice and never `A`. |
| Selection.PoolExact | few_shot_dataset.py:175-194 | The pool holds exactly the candidates of the qualifying e-mails: known, with non-empty English content and at most `MAX_TOKENS // 2` tokens. |
| Selection.ExamplePairs | few_shot_dataset.py:181-189 | An example lists each label once, as many labels as paths; every path is the path of the label it ends at, and every label's path is among the paths. The labels are those ends in the set's order. |
| Selection.ListedInPathOrder | few_shot_dataset.py:181-189 | When the set lists the labels in the order of their paths, the example as written renders each path with its own label. |
| Selection.ExampleLabels | few_shot_dataset.py:181-183 | An example's labels are exactly the labels holding the e-mail and all their ancestors. |
| Selection.PoolFacts | few_shot_dataset.py:171-196 | Every pooled candidate costs at most 16000 tokens, has content, and carries the pool's label. |
| Selection.SortBySize | few_shot_dataset.py:214-217 | The labels are put in ascending pool size, as a permutation of the keys, and labels of equal size keep their order in the keys, as Python's stable sort does. |
| Selection.MinSize | few_shot_dataset.py:203 | The smallest pool size among the labels: at most every size and equal to one of them. |
| Selection.MaxPerLabel | few_shot_dataset.py:199-205 | The cap is the given maximum or `max(min_examples_per_label, smallest pool size)`. It fails exactly when no maximum is given and there are no labels. |
| Selection.OverBudgetDuplicateStops | few_shot_dataset.py:237-242 | The budget is checked before the content, so a duplicate that would not fit ends its pool's loop. |
| Selection.FillInv | few_shot_dataset.py:230-246 | One pool's loop keeps the selection invariant: no content twice, `examples_added` equal to the chosen contents, the total equal to the base plus the chosen tokens and within `MAX_TOKENS`. |
| Selection.FillGrows | few_shot_dataset.py:230-246 | One pool's loop appends only its own candidates, and at most `limit - count` of them. |
| Selection.FillTakesFresh | few_shot_dataset.py:230-246 | When a pool's contents are new and pairwise different and the whole pool fits in the budget, a label's turn takes `limit - count` candidates, or the whole pool when it is shorter. |
| Selection.FillAtMostPool | few_shot_dataset.py:230-246 | A label's turn takes at most as many candidates as its pool holds, so a short pool leaves its label below the minimum. |
| Selection.FirstPassSize | few_shot_dataset.py:219-246 | The first pass adds at most `min_examples_per_label` examples per label. |
| Selection.TopUpCap | few_shot_dataset.py:250-256 | The top-up stops for a label once the chosen examples carrying it reach the cap. |
| Selection.Select | few_shot_dataset.py:219-268 | The first pass, then the top-up when budget is left: the result keeps the selection invariant and holds only pooled candidates. |
| Selection.SelectedFromPools | few_shot_dataset.py:219-268 | Every chosen example costs at most half the budget and has content. |
| Selection.Outcome | few_shot_dataset.py:198-268 | The selection fails exactly when no cap is given and there are no labels. Otherwise it keeps the invariant and draws only from the pools. |
| Prompt.FitBounds | few_shot_dataset.py:305-312 | The blocks taken fit in the budget, and the loop stops early only at a block that would overflow it. |
| Prompt.PromptWithinBudget | few_shot_dataset.py:302-314 | The preamble plus the examples included stay within `MAX_TOKENS`, and the next sampled one would not fit. The closing request is not counted. |
| Prompt.AddExamples | few_shot_dataset.py:303-312 | The loop appends the blocks of the first `Fit` examples to the preamble. |
| Prompt.RenderBlock | few_shot_dataset.py:306 | One block is the example as `format_example` renders it, followed by the separator. |
| FewShot.Pick | few_shot_dataset.py:299 | The sample holds the examples at the sampled positions, in sampled order. |
| FewShot.FewShotDataset.constructor | few_shot_dataset.py:138-144 | The dataset starts with no examples and no pools, holding the hierarchy, the analysed data, the tokenizer and the set listing. |
| FewShot.FewShotDataset.EstimateTokens | few_shot_dataset.py:150-153 | An example's cost is the token count of its rendering by `format_example` as written. |
| FewShot.FewShotDataset.CandidateOf | few_shot_dataset.py:175-194 | An e-mail gives a candidate exactly when it qualifies. |
| FewShot.FewShotDataset.AddCandidate | few_shot_dataset.py:175-194 | One turn of the pool loop extends the pool as `PoolOf` over one more e-mail. |
| FewShot.FewShotDataset.BuildPool | few_shot_dataset.py:172-196 | A label's pool is `PoolOf` over its ids in some enumeration of the set. |
| FewShot.FewShotDataset.BuildPools | few_shot_dataset.py:167-196 | Every label of the hierarchy gets a fresh pool built from its ids. |
| FewShot.FewShotDataset.FillFrom | few_shot_dataset.py:230-268 | The loop over one pool appends to `examples` and moves the selection state as `Fill`. |
| FewShot.FewShotDataset.FirstPassLoop | few_shot_dataset.py:219-246 | The first pass shuffles each pool when its label comes up and moves the selection as `FirstPass`. |
| FewShot.FewShotDataset.TopUpLoop | few_shot_dataset.py:248-268 | The top-up counts each label's chosen examples and moves the selection as `TopUp`. |
| FewShot.FewShotDataset.SelectExamples | few_shot_dataset.py:198-268 | After the pools are built: without labels and without a cap it fails and leaves `examples` alone; otherwise `examples` becomes what `Outcome` selects. Pools are only reordered. |
| FewShot.FewShotDataset.GenerateExamples | few_shot_dataset.py:155-274 | The pools are rebuilt and shuffled. The method fails exactly when `Outcome` does; otherwise `examples` is the selection. |
| FewShot.FewShotDataset.BaseCount | few_shot_dataset.py:210-211 | The starting count is the tokens of the preamble and of the newline-led request. |
| FewShot.FewShotDataset.GeneratePrompt | few_shot_dataset.py:287-317 | No examples raises; a negative number fails in `random.sample`. Otherwise the number is capped at the examples available, distinct positions are sampled, and the prompt is `PromptFor` of the sample. |
| FewShot.FewShotDataset.BuildPrompt | few_shot_dataset.py:302-317 | The preamble, the examples that fit, then the request. |
| LabelLine.Cleaned | main_cli.py:147-150 | The text matched has no leading or trailing whitespace. |
| LabelLine.ParseLabelLine | main_cli.py:144-153 | The result never has leading or trailing whitespace. |
| LabelLine.ParseIsShortestMatch | main_cli.py:150-153 | The parser agrees with the regular expression: it returns the shortest group that lets the pattern match, stripped, or the whole cleaned line when the pattern fails. |
| LabelLine.LeadingDashesIgnored | main_cli.py:147 | Any run of leading `-` and ` `, in any mix, makes no difference. |
| LabelLine.SuffixRemoved | main_cli.py:150-152 | "- name (ID: Label_digits)" gives back the name. |
| LabelLine.ListedLabelExample | main_cli.py:150-152 | "- AI/LLM (ID: Label_12)" gives "AI/LLM". |
| LabelLine.ParenElsewhereKeepsLine | main_cli.py:150-153 | A `(` anywhere but at the head of a final id tag makes the pattern fail, and the cleaned line comes back. |
| LabelLine.ParenInNameExample | main_cli.py:150-153 | "- GPT (beta) (ID: Label_7)" keeps its suffix. |
| LabelLine.DashLineEmpty | main_cli.py:147-153 | A line of `-` and ` ` followed by whitespace gives the empty label. |
| LabelLine.BlankLineEmpty | main_cli.py:173 | A blank line gives the empty label. |
| LabelLine.LabelsFromLines | main_cli.py:173-174 | The labels read are non-empty and trimmed, and there are at most as many as lines. |
| LabelLine.LabelsFromLinesExact | main_cli.py:173-174 | A label is read exactly when it is the non-empty parse of some line. |
| LabelLine.LabelsFromLinesAppend | main_cli.py:173-174 | Two runs of lines give their labels one after the other, in file order. |
| LabelLookup.FirstFull | gmail_api/label_service.py:36-38 | The position of the first label whose name equals the query ignoring case, or none when there is none. |
| LabelLookup.FirstSegment | gmail_api/label_service.py:41-47 | The position of the first label whose last `/` segment equals the query's ignoring case, or none. |
| LabelLookup.GetLabelByName | gmail_api/label_service.py:23-52 | A result is always one of the listed labels. |
| LabelLookup.FullMatchFirst | gmail_api/label_service.py:36-38 | The first full-name match in list order is returned. |
| LabelLookup.FullMatchWins | gmail_api/label_service.py:35-47 | A full-name match anywhere beats an earlier segment-only match. |
| LabelLookup.SegmentFallback | gmail_api/label_service.py:41-47 | With no full-name match, the first label whose last segment matches is returned. |
| LabelLookup.NoneExactly | gmail_api/label_service.py:49 | Nothing is found exactly when no label's last segment matches the query's. |
| LabelLookup.FoundSharesSegment | gmail_api/label_service.py:36-47 | Whatever is found has the query's last segment, ignoring case. |
| LabelLookup.FullImpliesSegment | gmail_api/label_service.py:37-46 | Names equal up to case have equal last segments up to case. |
| WeeklyPost.ValidateBoolean | weekly_report/report_app.py:28-33 | A bool stays as it is and `None` is false. |
| WeeklyPost.TrueSpellings | weekly_report/report_app.py:31-32 | A string is true exactly when it spells "true" in any mix of case. |
| WeeklyPost.CaseIgnored | weekly_report/report_app.py:32 | Case does not matter to a string flag. |
| WeeklyPost.FalseStringIsFalse | weekly_report/report_app.py:31-33 | "false" is truthy as a Python value, yet is coerced to false. |
| WeeklyPost.ValidateIdempotent | weekly_report/report_app.py:28-33 | Coercing a coerced flag again changes nothing. |
| LabelSort.SortLabels | weekly_report/report_app.py:125 | `sorted(labels)`: sorted under Python's string order, and a permutation of the labels. |
| LabelSort.SortedUnique | weekly_report/report_app.py:125 | Two sorted lists holding the same labels are equal, so `sorted` is determined by the labels. |
| LabelSort.SortIgnoresOrder | weekly_report/report_app.py:125 | The label order of a post does not matter to `sorted`. |
| Text.SplitOnJoin | weekly_report/report_app.py:125-136 | Splitting at a separator undoes joining with it when no piece holds the separator's first character. |
| WeeklyReport.Selected | weekly_report/report_app.py:120 | A post is kept exactly when it is in the report and its channel's flag is set. |
| WeeklyReport.SelectedAppend | weekly_report/report_app.py:120 | Selection keeps the posts' order. |
| WeeklyReport.GroupKey | weekly_report/report_app.py:125-127 | The key is never empty, and a post without labels is keyed "Uncategorized". |
| WeeklyReport.KeyIgnoresLabelOrder | weekly_report/report_app.py:125 | Posts with the same labels in any order share a group. |
| WeeklyReport.CommaLabelSharesGroup | weekly_report/report_app.py:125-127 | A post labelled "a, b" shares the group of one labelled "a" and "b". |
| WeeklyReport.KeyOrder | weekly_report/report_app.py:128-129 | The keys of `posts_by_labels` in insertion order: no key twice. |
| WeeklyReport.KeyOrderHasKeys | weekly_report/report_app.py:128-129 | A key is listed exactly when some post has it. |
| WeeklyReport.KeyOrderPrefix | weekly_report/report_app.py:128-134 | Keys are only appended, so groups come in the order of their first posts. |
| WeeklyReport.Group | weekly_report/report_app.py:128-130 | A group holds only selected posts with its key. |
| WeeklyReport.GroupHas | weekly_report/report_app.py:128-130 | Every post with the key is in its group. |
| WeeklyReport.ListedIffGroup | weekly_report/report_app.py:128-130 | A key is listed exactly when its group is non-empty. |
| WeeklyReport.GroupAppend | weekly_report/report_app.py:128-130 | Grouping two runs of posts groups each, so posts keep their order inside a group. |
| WeeklyReport.GroupsPartition | weekly_report/report_app.py:122-134 | The listed groups together hold every selected post exactly once. |
| WeeklyReport.GroupByLabels | weekly_report/report_app.py:122-130 | The loop builds exactly the listed keys in insertion order, each mapped to its group. |
| WeeklyReport.LabelsKey | weekly_report/report_app.py:125-127 | The loop's key for a post is `Key` of the post. |
| WeeklyReport.LabelsMarkdownOfKey | weekly_report/report_app.py:136-137 | For comma-free labels, the label line shows each label, sorted and in bold, joined by "， ". |
| WeeklyReport.JoinedLine | weekly_report/report_app.py:136-137 | Labels joined by ", " come back apart, each in bold. |
| WeeklyReport.SingleLabelLine | weekly_report/report_app.py:136-137 | A trimmed comma-free key is shown as that label in bold. |
| WeeklyReport.UncategorizedLine | weekly_report/report_app.py:127-137 | Unlabelled posts are shown under a bold "Uncategorized". |
| WeeklyReport.IndexOf | weekly_report/report_app.py:143 | `posts.index(post)`: the position of the first equal post. |
| WeeklyReport.PostLines | weekly_report/report_app.py:140-165 | A WeChat block has 11 lines and a Medium block 8. |
| WeeklyReport.WechatHeading | weekly_report/report_app.py:143-144 | The WeChat heading is "## (k+1/n) title_cn", with `k` the first equal post's position and `n` the number selected; the group's label line follows. |
| WeeklyReport.MediumEntry | weekly_report/report_app.py:156-164 | A Medium block opens with "### title_en" and carries no label line. |
| WeeklyReport.SectionsAppend | weekly_report/report_app.py:132-166 | The lines of two runs of groups are the lines of the first run followed by those of the second. |
| WeeklyReport.GroupSection | weekly_report/report_app.py:132-166 | Each group's section sits between the groups before and after it: the blocks of its posts, then one empty line at the index the group sizes give. |
| WeeklyReport.ReportLineCount | weekly_report/report_app.py:132-168 | The report has one block per selected post and one closing line per group, so every selected post is rendered exactly once. |
| WeeklyReport.MarkdownSplitsIntoLines | weekly_report/report_app.py:168 | When no line holds a newline, the text splits at newlines back into the lines. With nothing selected the text is empty. |
| WeeklyReport.GenerateMarkdownReport | weekly_report/report_app.py:118-168 | The method's result is `Markdown`: the lines of the groups, in order, joined by "\n". |

## Left out

- I/O is not modelled: reading dump files, `build_label_hierarchy`, and the prints and warnings of `generate_examples` and `generate_prompt`. They carry no behaviour the model needs.
- The tokenizer's encoding is not modelled. `count_tokens` is any function from strings to naturals, given to the dataset.
- The randomness of `random.shuffle`, `random.sample` and set iteration is not modelled. The shuffles and the iteration over e-mail ids are any permutation, the sample any choice of distinct positions, and the listing of a label set any listing that gives each label once.
- `LabelPaths.Parse` and `LabelLine.ParseLabelLine`: `str.isdigit` and the regex `\d` are modelled on ASCII digits. Unicode digits are not. Whitespace is Python's full set.
- LabelLookup.GetLabelByName: `str.lower` is modelled on ASCII letters only (`Text.Lower`). Python lowers every cased letter, so a query `éclair` finds a label `Éclair` in the source but not in the model.
- LabelLookup.FirstFull: the case-insensitive comparison of full names lowers ASCII letters only, for the reason above.
- LabelLookup.FirstSegment: the case-insensitive comparison of last segments lowers ASCII letters only, for the reason above.
- `WeeklyPost.ValidateBoolean` uses the same ASCII lowering; no letter outside ASCII lowers into one of `true`, so the result is the same.
- `LabelStore.LabelHierarchy.AddLabelFromFilename` requires every `_` part of the filename to be non-empty. An empty part makes `part[0]` raise an `IndexError`, and the model keeps that call out instead of modelling the exception.
- The label objects of the Gmail API are reduced to id and name.
- `list_labels` is an input list. Its error path (an empty list) and the `except` branch of `get_label_by_name`, which maps any exception to `None`, are not modelled separately; over a given list nothing raises.
- `WeeklyPost.ValidateBoolean`: the raw value is a string, bool, int, `None` or list. Floats, dicts and other objects are not modelled.
- The rest of pydantic's field validation is not modelled.
- `Selection.Analyzed`: the analysis of an e-mail maps field names to strings. A JSON `null` for `post_content_en` is modelled as a missing key, which is equivalent because `if content:` skips both. A value of another type (a number, a list, an object) cannot be expressed, and neither can the truthiness or `str` conversion Python would apply to it.
- `WeeklyReport.IndexOf`: `posts.index` raising `ValueError` cannot happen, because every rendered post is among the selected ones.
- The `line is not None` filter of `generate_markdown_report` changes nothing, because every line is a string.
- `run_app`, `load_analyzed_emails`, `download_image`, `get_week_number` and `convert_to_weekly_post` are not modelled: they are a Streamlit UI, file and HTTP access, date formatting and JSON decoding.

## Findings

| source | as written | input that shows it | evidently intended | confidence | as-written member | corrected member |
|---|---|---|---|---|---|---|
| few_shot_dataset.py:280-284 | `format_example` pairs `labels` with `label_paths` by position, but `labels` comes from a set built at line 183, so its order need not follow the paths | labels `good_material, A, B` with paths `[A]`, `[A, B]`, `[good_material]`: the lines read `- good_material`, `- A -> B`, `- good_material`, so `A` is never shown and `good_material` is shown twice | each path shown with the label it ends at, so every path is listed once, in order, in full | not executed | Examples.ZipMispairs | Examples.FormattedListsEachPath |
| few_shot_dataset.py:28 | the class docstring says parent nodes hold all their children's e-mail ids, but `add_label_from_filename` adds the ids only along the chain of the current file, while an existing node keeps its first parent | the file `A_B` with id `x`, then `C_B` with id `y`: `B` holds `y` but its registered parent `A` does not | each parent's ids a superset of its children's; this holds when every touched node's registered parent is touched too | not executed | Hierarchy.NestingNeedsAgreement | Hierarchy.AddFileNested |
