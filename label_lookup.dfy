/**
 * `LabelService.get_label_by_name` (gmail_api/label_service.py): finding a Gmail label
 * by name in the list the mailbox returns. A label whose whole name matches, ignoring
 * case, wins; failing that, the first whose last '/'-segment matches the query's.
 */
module LabelLookup {
  import opened Wrappers
  import opened Text

  /** A label object as the Gmail API lists it; only its id and name matter here. */
  datatype Label = Label(id: string, name: string)

  /** `name.split('/')[-1].lower()`. */
  function Segment(name: string): string
  {
    Lower(AfterLast(name, '/'))
  }

  predicate FullMatch(l: Label, query: string)
  {
    Lower(l.name) == Lower(query)
  }

  predicate SegmentMatch(l: Label, query: string)
  {
    Segment(l.name) == Segment(query)
  }

  /** The first loop: the position of the first label whose whole name matches. */
  function FirstFull(labels: seq<Label>, query: string): (r: Option<nat>)
    ensures r.Some? ==> r.value < |labels| && FullMatch(labels[r.value], query) &&
                        forall j :: 0 <= j < r.value ==> !FullMatch(labels[j], query)
    ensures r.None? ==> forall j :: 0 <= j < |labels| ==> !FullMatch(labels[j], query)
  {
    if labels == [] then None
    else if FullMatch(labels[0], query) then Some(0)
    else match FirstFull(labels[1..], query)
      case None => None
      case Some(i) => Some(i + 1)
  }

  /** The second loop: the position of the first label whose last segment matches. */
  function FirstSegment(labels: seq<Label>, query: string): (r: Option<nat>)
    ensures r.Some? ==> r.value < |labels| && SegmentMatch(labels[r.value], query) &&
                        forall j :: 0 <= j < r.value ==> !SegmentMatch(labels[j], query)
    ensures r.None? ==> forall j :: 0 <= j < |labels| ==> !SegmentMatch(labels[j], query)
  {
    if labels == [] then None
    else if SegmentMatch(labels[0], query) then Some(0)
    else match FirstSegment(labels[1..], query)
      case None => None
      case Some(i) => Some(i + 1)
  }

  /** `get_label_by_name(label_name)` over the listed labels. */
  function GetLabelByName(labels: seq<Label>, labelName: string): (r: Option<Label>)
    ensures r.Some? ==> r.value in labels
  {
    match FirstFull(labels, labelName)
    case Some(i) => Some(labels[i])
    case None =>
      match FirstSegment(labels, labelName)
      case Some(i) => Some(labels[i])
      case None => None
  }

  /** '/' has no case: lower-casing keeps every '/' where it was and adds none. */
  lemma LowerKeepsSlash(s: string)
    ensures '/' in Lower(s) <==> '/' in s
    ensures '/' in s ==> FirstIndex(Lower(s), '/') == FirstIndex(s, '/')
  {
    var t := Lower(s);
    forall i | 0 <= i < |s|
      ensures t[i] == '/' <==> s[i] == '/'
    {
    }
    if '/' in s {
      var k := FirstIndex(s, '/');
      assert '/' !in t[..k] by {
        assert forall i :: 0 <= i < k ==> t[..k][i] == t[i];
      }
      FirstAt(t, '/', k);
    }
  }

  /** The last segment of a lower-cased name is the lower-cased last segment. */
  lemma {:induction false} AfterLastLower(s: string)
    ensures AfterLast(Lower(s), '/') == Lower(AfterLast(s, '/'))
    decreases |s|
  {
    if '/' in s {
      var k := FirstIndex(s, '/');
      AfterLastLower(s[k + 1..]);
      AfterLastLowerStep(s, k);
    } else {
      LowerKeepsSlash(s);
    }
  }

  /** Past the first '/', at `k`, lower-casing and taking the last segment commute if they do for the rest. */
  lemma AfterLastLowerStep(s: string, k: nat)
    requires '/' in s && FirstIndex(s, '/') == k
    requires AfterLast(Lower(s[k + 1..]), '/') == Lower(AfterLast(s[k + 1..], '/'))
    ensures AfterLast(Lower(s), '/') == Lower(AfterLast(s, '/'))
  {
    var t := Lower(s);
    LowerKeepsSlash(s);
    assert '/' in t && FirstIndex(t, '/') == k;
    LowerSlices(s, k);
    assert t[k + 1..] == Lower(s[k + 1..]);
    AfterLastFrom(t, k);
    assert AfterLast(t, '/') == AfterLast(Lower(s[k + 1..]), '/');
    AfterLastFrom(s, k);
  }

  /** Past the first '/', at `k`, the last segment is that of the rest. */
  lemma AfterLastFrom(t: string, k: nat)
    requires '/' in t && FirstIndex(t, '/') == k
    ensures AfterLast(t, '/') == AfterLast(t[k + 1..], '/')
  {
  }

  lemma SegmentOfLower(s: string)
    ensures Segment(s) == AfterLast(Lower(s), '/')
  {
    AfterLastLower(s);
  }

  /** Names equal up to case have equal last segments up to case. */
  lemma FullImpliesSegment(l: Label, query: string)
    requires FullMatch(l, query)
    ensures SegmentMatch(l, query)
  {
    SegmentOfLower(l.name);
    SegmentOfLower(query);
  }

  /** The first label, in list order, whose whole name matches ignoring case is the one returned. */
  lemma FullMatchFirst(labels: seq<Label>, query: string, i: nat)
    requires i < |labels| && FullMatch(labels[i], query)
    requires forall j :: 0 <= j < i ==> !FullMatch(labels[j], query)
    ensures GetLabelByName(labels, query) == Some(labels[i])
  {
    var r := FirstFull(labels, query);
    assert r.Some?;
    assert r.value == i;
  }

  /**
   * A whole-name match anywhere in the list beats a last-segment match earlier in it: the
   * result then always matches in full.
   */
  lemma FullMatchWins(labels: seq<Label>, query: string, j: nat)
    requires j < |labels| && FullMatch(labels[j], query)
    ensures var r := GetLabelByName(labels, query);
      r.Some? && FullMatch(r.value, query)
  {
  }

  /** With no whole-name match, the first label whose last segment matches is returned. */
  lemma SegmentFallback(labels: seq<Label>, query: string, i: nat)
    requires forall j :: 0 <= j < |labels| ==> !FullMatch(labels[j], query)
    requires i < |labels| && SegmentMatch(labels[i], query)
    requires forall j :: 0 <= j < i ==> !SegmentMatch(labels[j], query)
    ensures GetLabelByName(labels, query) == Some(labels[i])
  {
    var r := FirstSegment(labels, query);
    assert r.Some?;
    assert r.value == i;
  }

  /** Nothing is found exactly when no label's last segment matches the query's. */
  lemma NoneExactly(labels: seq<Label>, query: string)
    ensures GetLabelByName(labels, query).None? <==>
      forall j :: 0 <= j < |labels| ==> !SegmentMatch(labels[j], query)
  {
    if FirstFull(labels, query).Some? {
      FullImpliesSegment(labels[FirstFull(labels, query).value], query);
    }
  }

  /** Whatever is found has the query's last segment, ignoring case. */
  lemma FoundSharesSegment(labels: seq<Label>, query: string)
    ensures var r := GetLabelByName(labels, query);
      r.Some? ==> Segment(r.value.name) == Segment(query)
  {
    var r := FirstFull(labels, query);
    if r.Some? {
      FullImpliesSegment(labels[r.value], query);
    }
  }
}
