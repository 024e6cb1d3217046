/**
 * The path queries of `LabelHierarchy` (few_shot_dataset.py), as functions of the
 * store: `get_path_to_root` and `get_all_paths_for_email`. The class in
 * label_store.dfy runs their loops and is proved to compute these functions.
 */
module Paths {
  import opened Wrappers
  import opened Hierarchy

  function Reverse<T>(s: seq<T>): (r: seq<T>)
    ensures |r| == |s|
    ensures forall i :: 0 <= i < |s| ==> r[i] == s[|s| - 1 - i]
  {
    if s == [] then [] else Reverse(s[1..]) + [s[0]]
  }

  /**
   * The name followed by its ancestors, nearest first: the list `get_path_to_root`
   * builds by following truthy parents before it reverses it.
   */
  function Lineage(st: Store, x: string): (l: seq<string>)
    requires Rooted(st) && x in st.nodes
    ensures l != [] && l[0] == x
    ensures forall i :: 0 <= i < |l| ==> l[i] in st.nodes
    decreases IndexOf(st.order, x)
  {
    var p := st.nodes[x].parent;
    if Truthy(p) then [x] + Lineage(st, p.value) else [x]
  }

  /** `get_path_to_root(name)`: nothing for an unknown name, else the lineage root first. */
  function PathToRoot(st: Store, name: string): seq<string>
    requires Rooted(st)
  {
    if name !in st.nodes then [] else Reverse(Lineage(st, name))
  }

  /**
   * `q` is a path from a root down to its last element: all its names are nodes, the
   * first has no truthy parent, and each later one is registered under the one before.
   */
  ghost predicate RootPath(st: Store, q: seq<string>)
  {
    q != [] && (forall i :: 0 <= i < |q| ==> q[i] in st.nodes) &&
    !Truthy(st.nodes[q[0]].parent) &&
    forall i :: 0 <= i < |q| - 1 ==> ParentOf(st, q[i], q[i + 1])
  }

  /** Read leaf first, a root path is a chain of parent links ending at a node without one. */
  lemma {:induction false} LineageIsChain(st: Store, x: string)
    requires Rooted(st) && x in st.nodes
    ensures var l := Lineage(st, x);
      !Truthy(st.nodes[l[|l| - 1]].parent) &&
      forall i :: 0 <= i < |l| - 1 ==> ParentOf(st, l[i + 1], l[i])
    decreases IndexOf(st.order, x)
  {
    var p := st.nodes[x].parent;
    if Truthy(p) {
      LineageIsChain(st, p.value);
    }
  }

  /** Any chain of parent links from `x` up to a node without a truthy parent is `x`'s lineage. */
  lemma {:induction false} LineageUnique(st: Store, q: seq<string>)
    requires Rooted(st) && q != [] && forall i :: 0 <= i < |q| ==> q[i] in st.nodes
    requires !Truthy(st.nodes[q[|q| - 1]].parent)
    requires forall i :: 0 <= i < |q| - 1 ==> ParentOf(st, q[i + 1], q[i])
    ensures q == Lineage(st, q[0])
  {
    if |q| > 1 {
      assert ParentOf(st, q[1], q[0]);
      LineageUnique(st, q[1..]);
    }
  }

  lemma ReverseReverse<T>(s: seq<T>)
    ensures Reverse(Reverse(s)) == s
  {
  }

  /**
   * `get_path_to_root` returns nothing for an unknown name; for a known one, a root
   * path that ends at the name.
   */
  lemma PathToRootShape(st: Store, name: string)
    requires Rooted(st)
    ensures name !in st.nodes ==> PathToRoot(st, name) == []
    ensures name in st.nodes ==>
      var r := PathToRoot(st, name);
      RootPath(st, r) && r[|r| - 1] == name
  {
    if name in st.nodes {
      LineageIsChain(st, name);
    }
  }

  /** A root path ending at `x` is the path `get_path_to_root(x)` returns: there is only one. */
  lemma PathToRootUnique(st: Store, q: seq<string>)
    requires Rooted(st) && RootPath(st, q)
    ensures PathToRoot(st, q[|q| - 1]) == q
  {
    var l := Reverse(q);
    LineageUnique(st, l);
    ReverseReverse(q);
  }

  /** Each prefix of a name's path is the path of the prefix's last name. */
  lemma PathToRootPrefix(st: Store, name: string, k: nat)
    requires Rooted(st) && name in st.nodes
    requires 0 < k <= |PathToRoot(st, name)|
    ensures PathToRoot(st, PathToRoot(st, name)[k - 1]) == PathToRoot(st, name)[..k]
  {
    var r := PathToRoot(st, name);
    PathToRootShape(st, name);
    PathToRootUnique(st, r[..k]);
  }

  /** A path never visits a name twice. */
  lemma PathToRootDistinct(st: Store, name: string)
    requires Rooted(st)
    ensures Distinct(PathToRoot(st, name))
  {
    var r := PathToRoot(st, name);
    if name in st.nodes {
      forall i, j | 0 <= i < j < |r| ensures r[i] != r[j] {
        PathEntriesDiffer(st, name, r, i, j);
      }
    }
  }

  lemma PathEntriesDiffer(st: Store, name: string, r: seq<string>, i: nat, j: nat)
    requires Rooted(st) && name in st.nodes && r == PathToRoot(st, name)
    requires i < j < |r|
    ensures r[i] != r[j]
  {
    PathToRootPrefix(st, name, i + 1);
    PathToRootPrefix(st, name, j + 1);
    PrefixesDiffer(r, i, j);
  }

  lemma PrefixesDiffer<T>(r: seq<T>, i: nat, j: nat)
    requires i < j < |r|
    ensures r[..i + 1] != r[..j + 1]
  {
    assert |r[..i + 1]| != |r[..j + 1]|;
  }

  /** Different labels have different paths: a path ends at its own name. */
  lemma PathToRootInjective(st: Store, x: string, y: string)
    requires Rooted(st) && x in st.nodes && y in st.nodes
    requires PathToRoot(st, x) == PathToRoot(st, y)
    ensures x == y
  {
    PathToRootShape(st, x);
    PathToRootShape(st, y);
  }

  /** One step up: the lineage after `x` is its parent's lineage, and the parent came earlier. */
  lemma LineageStep(st: Store, x: string)
    requires Rooted(st) && x in st.nodes
    ensures Truthy(st.nodes[x].parent) ==>
      var p := st.nodes[x].parent.value;
      p in st.nodes && Lineage(st, x)[1..] == Lineage(st, p) && IndexOf(st.order, p) < IndexOf(st.order, x)
    ensures !Truthy(st.nodes[x].parent) ==> Lineage(st, x) == [x]
  {
  }

  /** One turn of the loop of `get_path_to_root`: the parent joins the lineage built so far. */
  lemma LineageWalk(st: Store, name: string, lineage: seq<string>, cur: string, lineage': seq<string>, cur': string)
    requires Rooted(st) && name in st.nodes && cur in st.nodes
    requires Truthy(st.nodes[cur].parent) && cur' == st.nodes[cur].parent.value && lineage' == lineage + [cur']
    requires lineage + Lineage(st, cur)[1..] == Lineage(st, name)
    ensures cur' in st.nodes && lineage' + Lineage(st, cur')[1..] == Lineage(st, name)
    ensures IndexOf(st.order, cur') < IndexOf(st.order, cur)
  {
    LineageStep(st, cur);
    ShiftHead(lineage, Lineage(st, cur)[1..], Lineage(st, name));
  }

  /** Moving the head of the tail over to the front keeps the whole. */
  lemma ShiftHead<T>(front: seq<T>, tail: seq<T>, whole: seq<T>)
    requires tail != [] && front + tail == whole
    ensures (front + [tail[0]]) + tail[1..] == whole
  {
    assert tail == [tail[0]] + tail[1..];
  }

  /** The loop of `get_path_to_root` stops at a node without a truthy parent, with the whole lineage. */
  lemma LineageEnd(st: Store, name: string, lineage: seq<string>, cur: string)
    requires Rooted(st) && name in st.nodes && cur in st.nodes && !Truthy(st.nodes[cur].parent)
    requires lineage + Lineage(st, cur)[1..] == Lineage(st, name)
    ensures lineage == Lineage(st, name)
  {
    LineageStep(st, cur);
  }

  // ---------------------------------------------------------------------------
  // get_all_paths_for_email

  /** `labels_with_email`: the names among `keys` whose node holds `e`, in the order of `keys`. */
  function LabelsWith(st: Store, keys: seq<string>, e: string): (ls: seq<string>)
    ensures forall x :: x in ls <==> x in keys && x in st.nodes && e in st.nodes[x].emailIds
  {
    if keys == [] then []
    else
      var k := keys[0];
      (if k in st.nodes && e in st.nodes[k].emailIds then [k] else []) + LabelsWith(st, keys[1..], e)
  }

  /** `if path and path not in paths: paths.append(path)`. */
  function AddAbsent(paths: seq<seq<string>>, q: seq<string>): seq<seq<string>>
  {
    if q != [] && q !in paths then paths + [q] else paths
  }

  /** The inner loop: walking up from a name, the path of each ancestor is added when absent. */
  function AddAncestors(st: Store, paths: seq<seq<string>>, ancestors: seq<string>): seq<seq<string>>
    requires Rooted(st)
    decreases |ancestors|
  {
    if ancestors == [] then paths
    else AddAncestors(st, AddAbsent(paths, PathToRoot(st, ancestors[0])), ancestors[1..])
  }

  /** The inner loop's step: the path of the parent, then the parent's ancestors. */
  lemma AddAncestorsStep(st: Store, paths: seq<seq<string>>, x: string)
    requires Rooted(st) && x in st.nodes && Truthy(st.nodes[x].parent)
    ensures var p := st.nodes[x].parent.value;
      p in st.nodes &&
      AddAncestors(st, paths, Lineage(st, x)[1..]) == AddAncestors(st, AddAbsent(paths, PathToRoot(st, p)), Lineage(st, p)[1..])
  {
    LineageStep(st, x);
  }

  /** One round of the outer loop: a new path is added, followed by its ancestors' paths. */
  function AddLabel(st: Store, paths: seq<seq<string>>, name: string): seq<seq<string>>
    requires Rooted(st) && name in st.nodes
  {
    var path := PathToRoot(st, name);
    if path != [] && path !in paths then AddAncestors(st, paths + [path], Lineage(st, name)[1..])
    else paths
  }

  /** The outer loop over the remaining `labels`, from the paths found so far. */
  function CollectFrom(st: Store, paths: seq<seq<string>>, labels: seq<string>): seq<seq<string>>
    requires Rooted(st) && forall i :: 0 <= i < |labels| ==> labels[i] in st.nodes
    decreases |labels|
  {
    if labels == [] then paths
    else CollectFrom(st, AddLabel(st, paths, labels[0]), labels[1..])
  }

  lemma CollectStep(st: Store, paths: seq<seq<string>>, labels: seq<string>, i: nat)
    requires Rooted(st) && i < |labels| && forall k :: 0 <= k < |labels| ==> labels[k] in st.nodes
    ensures CollectFrom(st, paths, labels[i..]) == CollectFrom(st, AddLabel(st, paths, labels[i]), labels[i + 1..])
  {
    assert labels[i..][1..] == labels[i + 1..];
  }

  /** `get_all_paths_for_email(e)`. */
  function AllPaths(st: Store, e: string): seq<seq<string>>
    requires Rooted(st)
  {
    CollectFrom(st, [], LabelsWith(st, st.order, e))
  }

  /** The names carrying `e` and all their ancestors. */
  ghost function Covered(st: Store, labels: seq<string>): set<string>
    requires Rooted(st) && forall i :: 0 <= i < |labels| ==> labels[i] in st.nodes
  {
    if labels == [] then {} else Elems(Lineage(st, labels[0])) + Covered(st, labels[1..])
  }

  /** The paths of the names in `c`. */
  ghost function PathsOf(st: Store, c: set<string>): set<seq<string>>
    requires Rooted(st)
  {
    set x | x in c :: PathToRoot(st, x)
  }

  /** `c` holds the ancestors of its names. */
  ghost predicate UpClosed(st: Store, c: set<string>)
    requires Rooted(st)
  {
    c <= st.nodes.Keys && forall x :: x in c ==> Elems(Lineage(st, x)) <= c
  }

  /** What the paths found so far are: once each, the paths of an ancestor-closed set of names. */
  ghost predicate Found(st: Store, paths: seq<seq<string>>, c: set<string>)
    requires Rooted(st)
  {
    Distinct(paths) && UpClosed(st, c) && Elems(paths) == PathsOf(st, c)
  }

  /** The lineage of a name on a lineage is the rest of that lineage. */
  lemma {:induction false} LineageSuffix(st: Store, x: string, i: nat)
    requires Rooted(st) && x in st.nodes && i < |Lineage(st, x)|
    ensures Lineage(st, Lineage(st, x)[i]) == Lineage(st, x)[i..]
    decreases IndexOf(st.order, x)
  {
    var p := st.nodes[x].parent;
    if i > 0 {
      LineageSuffix(st, p.value, i - 1);
    }
  }

  lemma LineageClosed(st: Store, x: string)
    requires Rooted(st) && x in st.nodes
    ensures UpClosed(st, Elems(Lineage(st, x)))
  {
    var l := Lineage(st, x);
    forall y | y in Elems(l) ensures Elems(Lineage(st, y)) <= Elems(l) {
      var i :| 0 <= i < |l| && l[i] == y;
      LineageSuffix(st, x, i);
    }
  }

  lemma PathsOfAdd(st: Store, d: set<string>, a: string)
    requires Rooted(st)
    ensures PathsOf(st, d + {a}) == PathsOf(st, d) + {PathToRoot(st, a)}
  {
  }

  lemma ElemsCons<T>(s: seq<T>)
    requires s != []
    ensures Elems(s) == {s[0]} + Elems(s[1..])
  {
    assert s == [s[0]] + s[1..];
  }

  /** Adding the path of `a` when absent keeps the paths distinct and adds `a`'s path. */
  lemma AddAbsentFound(st: Store, paths: seq<seq<string>>, d: set<string>, a: string)
    requires Rooted(st) && a in st.nodes
    requires Distinct(paths) && Elems(paths) == PathsOf(st, d)
    ensures var r := AddAbsent(paths, PathToRoot(st, a));
      Distinct(r) && Elems(r) == PathsOf(st, d + {a})
  {
    PathToRootShape(st, a);
    ElemsAppend(paths, PathToRoot(st, a));
    PathsOfAdd(st, d, a);
  }

  lemma {:induction false} AddAncestorsFound(st: Store, paths: seq<seq<string>>, d: set<string>, ancestors: seq<string>)
    requires Rooted(st) && d <= st.nodes.Keys && forall i :: 0 <= i < |ancestors| ==> ancestors[i] in st.nodes
    requires Distinct(paths) && Elems(paths) == PathsOf(st, d)
    ensures var r := AddAncestors(st, paths, ancestors);
      Distinct(r) && Elems(r) == PathsOf(st, d + Elems(ancestors))
    decreases |ancestors|
  {
    if ancestors == [] {
      assert d + Elems(ancestors) == d;
    } else {
      var a := ancestors[0];
      AddAbsentFound(st, paths, d, a);
      ElemsCons(ancestors);
      assert d + Elems(ancestors) == (d + {a}) + Elems(ancestors[1..]);
      AddAncestorsFound(st, AddAbsent(paths, PathToRoot(st, a)), d + {a}, ancestors[1..]);
    }
  }

  lemma UpClosedUnion(st: Store, c: set<string>, e: set<string>)
    requires Rooted(st) && UpClosed(st, c) && UpClosed(st, e)
    ensures UpClosed(st, c + e)
  {
  }

  /** A path already found belongs to a name already covered, whose ancestors are covered too. */
  lemma AddLabelKnown(st: Store, paths: seq<seq<string>>, c: set<string>, name: string)
    requires Rooted(st) && name in st.nodes && Found(st, paths, c)
    requires PathToRoot(st, name) in paths
    ensures c + Elems(Lineage(st, name)) == c
  {
    assert PathToRoot(st, name) in PathsOf(st, c);
    var x :| x in c && PathToRoot(st, x) == PathToRoot(st, name);
    PathToRootInjective(st, x, name);
  }

  lemma AddLabelNew(st: Store, paths: seq<seq<string>>, c: set<string>, name: string)
    requires Rooted(st) && name in st.nodes && Found(st, paths, c)
    requires PathToRoot(st, name) !in paths
    ensures var r := AddAncestors(st, paths + [PathToRoot(st, name)], Lineage(st, name)[1..]);
      Distinct(r) && Elems(r) == PathsOf(st, c + Elems(Lineage(st, name)))
  {
    var path := PathToRoot(st, name);
    var l := Lineage(st, name);
    ElemsAppend(paths, path);
    PathsOfAdd(st, c, name);
    ElemsCons(l);
    assert (c + {name}) + Elems(l[1..]) == c + Elems(l);
    AddAncestorsFound(st, paths + [path], c + {name}, l[1..]);
  }

  lemma AddLabelFound(st: Store, paths: seq<seq<string>>, c: set<string>, name: string)
    requires Rooted(st) && name in st.nodes && Found(st, paths, c)
    ensures Found(st, AddLabel(st, paths, name), c + Elems(Lineage(st, name)))
  {
    LineageClosed(st, name);
    UpClosedUnion(st, c, Elems(Lineage(st, name)));
    PathToRootShape(st, name);
    if PathToRoot(st, name) in paths {
      AddLabelKnown(st, paths, c, name);
    } else {
      AddLabelNew(st, paths, c, name);
    }
  }

  lemma {:induction false} CollectFound(st: Store, paths: seq<seq<string>>, c: set<string>, labels: seq<string>)
    requires Rooted(st) && forall i :: 0 <= i < |labels| ==> labels[i] in st.nodes
    requires Found(st, paths, c)
    ensures Found(st, CollectFrom(st, paths, labels), c + Covered(st, labels))
    decreases |labels|
  {
    if labels == [] {
      assert c + Covered(st, labels) == c;
    } else {
      AddLabelFound(st, paths, c, labels[0]);
      CollectFound(st, AddLabel(st, paths, labels[0]), c + Elems(Lineage(st, labels[0])), labels[1..]);
      assert c + Elems(Lineage(st, labels[0])) + Covered(st, labels[1..]) == c + Covered(st, labels);
    }
  }

  /**
   * `get_all_paths_for_email(e)` lists, once each, exactly the paths of the labels
   * whose node holds `e` and of all their ancestors.
   */
  lemma AllPathsExact(st: Store, e: string)
    requires Rooted(st)
    ensures var ls := LabelsWith(st, st.order, e);
      Distinct(AllPaths(st, e)) && UpClosed(st, Covered(st, ls)) &&
      Elems(AllPaths(st, e)) == PathsOf(st, Covered(st, ls))
  {
    var ls := LabelsWith(st, st.order, e);
    assert PathsOf(st, {}) == {};
    CollectFound(st, [], {}, ls);
    assert {} + Covered(st, ls) == Covered(st, ls);
  }

  /** The result is closed under taking prefixes: every ancestor's path is there too. */
  lemma AllPathsPrefixClosed(st: Store, e: string, p: seq<string>, k: nat)
    requires Rooted(st) && p in AllPaths(st, e) && 0 < k <= |p|
    ensures p[..k] in AllPaths(st, e)
  {
    var c := Covered(st, LabelsWith(st, st.order, e));
    AllPathsExact(st, e);
    assert p in PathsOf(st, c);
    var x :| x in c && PathToRoot(st, x) == p;
    PathToRootPrefix(st, x, k);
    assert p[k - 1] in Elems(Lineage(st, x));
    assert PathToRoot(st, p[k - 1]) in PathsOf(st, c);
  }

  /** Every name holding `e` has its path in the result. */
  lemma AllPathsComplete(st: Store, e: string, x: string)
    requires Rooted(st) && x in st.nodes && e in st.nodes[x].emailIds
    ensures PathToRoot(st, x) in AllPaths(st, e)
  {
    var ls := LabelsWith(st, st.order, e);
    AllPathsExact(st, e);
    CoveredHas(st, ls, x);
    assert PathToRoot(st, x) in PathsOf(st, Covered(st, ls));
  }

  lemma {:induction false} CoveredHas(st: Store, labels: seq<string>, x: string)
    requires Rooted(st) && forall i :: 0 <= i < |labels| ==> labels[i] in st.nodes
    requires x in labels
    ensures x in Covered(st, labels)
  {
    if labels[0] != x {
      CoveredHas(st, labels[1..], x);
    }
  }
}
