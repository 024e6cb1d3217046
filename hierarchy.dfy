/**
 * The label hierarchy as a value (few_shot_dataset.py, `LabelNode` and the state of
 * `LabelHierarchy`): the `nodes` dict, its insertion order, and `root_labels`.
 * `add_label_from_filename` is specified here as a function of the old store; the
 * class in label_store.dfy runs its loops and is proved to compute that function.
 */
module Hierarchy {
  import opened Wrappers
  import opened LabelPaths
  import opened Text

  /** `LabelNode`: a name, an optional parent name, the children in creation order, the email ids. */
  datatype LabelNode = LabelNode(name: string, parent: Option<string>, children: seq<string>, emailIds: set<string>)

  /** Python truthiness of `Optional[str]`: `None` and `""` are both false. */
  predicate Truthy(p: Option<string>)
  {
    p.Some? && p.value != ""
  }

  /** The state of a `LabelHierarchy`: `nodes`, the order its keys were inserted in, `root_labels`. */
  datatype Store = Store(nodes: map<string, LabelNode>, order: seq<string>, roots: seq<string>)

  /** A fresh `LabelHierarchy()`. */
  const Empty: Store := Store(map[], [], [])

  predicate Distinct<T(==)>(s: seq<T>)
  {
    forall i, j :: 0 <= i < j < |s| ==> s[i] != s[j]
  }

  function Elems<T(==)>(s: seq<T>): set<T>
  {
    set x | x in s
  }

  /** The position of `x` in `s`. */
  function IndexOf<T(==)>(s: seq<T>, x: T): (i: nat)
    requires x in s
    ensures i < |s| && s[i] == x && x !in s[..i]
  {
    if s[0] == x then 0 else 1 + IndexOf(s[1..], x)
  }

  lemma IndexOfDistinct<T>(s: seq<T>, i: nat)
    requires Distinct(s) && i < |s|
    ensures IndexOf(s, s[i]) == i
  {
    var k := IndexOf(s, s[i]);
    assert s[k] == s[i];
  }

  lemma {:induction false} IndexOfAppend<T>(s: seq<T>, y: T, x: T)
    requires x in s + [y]
    ensures x in s ==> IndexOf(s + [y], x) == IndexOf(s, x)
    ensures x !in s ==> IndexOf(s + [y], x) == |s|
  {
    if s != [] {
      assert (s + [y])[1..] == s[1..] + [y];
      if s[0] != x {
        IndexOfAppend(s[1..], y, x);
      }
    }
  }

  /** `c` is registered with the truthy parent `p`. */
  predicate ParentOf(st: Store, p: string, c: string)
  {
    c in st.nodes && Truthy(st.nodes[c].parent) && st.nodes[c].parent.value == p
  }

  /** The insertion order lists each key exactly once. */
  ghost predicate OrderOk(st: Store)
  {
    Distinct(st.order) && st.nodes.Keys == Elems(st.order)
  }

  /** Every node is stored under its own name. */
  ghost predicate NamesOk(st: Store)
  {
    forall k {:trigger st.nodes[k]} :: k in st.nodes ==> st.nodes[k].name == k
  }

  /**
   * Every parent (even a falsy `""`) is a key inserted before the child, so
   * following parents always reaches a node without a truthy one.
   */
  ghost predicate ParentsOk(st: Store)
    requires OrderOk(st)
  {
    forall k {:trigger st.nodes[k]} :: k in st.nodes && st.nodes[k].parent.Some? ==>
      st.nodes[k].parent.value in st.nodes &&
      IndexOf(st.order, st.nodes[k].parent.value) < IndexOf(st.order, k)
  }

  /** The nodes without a truthy parent. */
  function RootSet(st: Store): set<string>
  {
    set k | k in st.nodes && !Truthy(st.nodes[k].parent)
  }

  /** The nodes registered with `p` as their truthy parent. */
  function ChildSet(st: Store, p: string): set<string>
  {
    set c | c in st.nodes && ParentOf(st, p, c)
  }

  /** `root_labels` lists, once each, exactly the nodes without a truthy parent. */
  ghost predicate RootsOk(st: Store)
  {
    Distinct(st.roots) && Elems(st.roots) == RootSet(st)
  }

  /** Each node's `children` lists, once each, exactly the nodes registered with it as truthy parent. */
  ghost predicate ChildrenOk(st: Store)
  {
    forall p {:trigger st.nodes[p]} :: p in st.nodes ==>
      Distinct(st.nodes[p].children) && Elems(st.nodes[p].children) == ChildSet(st, p)
  }

  /** What following parents needs: the order lists the keys, and parents come first. */
  ghost predicate Rooted(st: Store)
  {
    OrderOk(st) && ParentsOk(st)
  }

  ghost predicate WellFormed(st: Store)
  {
    Rooted(st) && NamesOk(st) && RootsOk(st) && ChildrenOk(st)
  }

  lemma EmptyWellFormed()
    ensures WellFormed(Empty)
  {
  }

  /**
   * The creation half of one chain step: a name not yet in `nodes` gets a node with
   * the current parent and no ids, and is appended to that parent's `children`
   * when the parent is truthy, to `root_labels` otherwise. An existing name is
   * left as it is (first registration wins).
   */
  function Register(st: Store, name: string, parent: Option<string>): Store
    requires Truthy(parent) ==> parent.value in st.nodes
  {
    if name in st.nodes then st
    else
      var nodes := st.nodes[name := LabelNode(name, parent, [], {})];
      if Truthy(parent) then
        var p := nodes[parent.value];
        var p' := if name in p.children then p else p.(children := p.children + [name]);
        Store(nodes[parent.value := p'], st.order + [name], st.roots)
      else
        Store(nodes, st.order + [name], if name in st.roots then st.roots else st.roots + [name])
  }

  /** `self.nodes[l].email_ids.update(ids)` for every `l` on `path`, in order. */
  function AddIds(nodes: map<string, LabelNode>, path: seq<string>, ids: set<string>): (r: map<string, LabelNode>)
    requires forall j :: 0 <= j < |path| ==> path[j] in nodes
    ensures r.Keys == nodes.Keys
  {
    if path == [] then nodes
    else
      var m := AddIds(nodes, path[..|path| - 1], ids);
      var l := path[|path| - 1];
      m[l := m[l].(emailIds := m[l].emailIds + ids)]
  }

  /** Body of the chain loop for the `i`-th name: register it, then add the ids along `names[..i+1]`. */
  function Step(st: Store, names: seq<string>, i: nat, ids: set<string>): Store
    requires i < |names|
    requires forall j :: 0 <= j < i ==> names[j] in st.nodes
  {
    var r := Register(st, names[i], if i == 0 then None else Some(names[i - 1]));
    r.(nodes := AddIds(r.nodes, names[..i + 1], ids))
  }

  /** The store after rounds `i`, `i+1`, ... of the chain loop, starting from `st`. */
  function RunFrom(st: Store, names: seq<string>, i: nat, ids: set<string>): Store
    requires i <= |names|
    requires forall j :: 0 <= j < i ==> names[j] in st.nodes
    decreases |names| - i
  {
    if i == |names| then st
    else
      var next := Step(st, names, i, ids);
      assert forall j :: 0 <= j < i + 1 ==> names[j] in next.nodes;
      RunFrom(next, names, i + 1, ids)
  }

  /** The single-label branch: a new flat root holding the ids, or the ids added to it. */
  function AddSingle(st: Store, name: string, ids: set<string>): Store
  {
    if name !in st.nodes then
      Store(st.nodes[name := LabelNode(name, None, [], ids)], st.order + [name], st.roots + [name])
    else
      st.(nodes := st.nodes[name := st.nodes[name].(emailIds := st.nodes[name].emailIds + ids)])
  }

  /** `add_label_from_filename(filename, email_ids)` with `ids == set(email_ids)`. */
  function AddFile(st: Store, filename: string, ids: set<string>): Store
    requires NoEmptyPart(filename)
  {
    match Parse(filename)
    case SingleLabel(name) => AddSingle(st, name, ids)
    case LabelChain(names) => RunFrom(st, names, 0, ids)
  }

  /** The names a file touches: its single label, or every name of its chain. */
  function Touched(filename: string): set<string>
    requires NoEmptyPart(filename)
  {
    match Parse(filename)
    case SingleLabel(name) => {name}
    case LabelChain(names) => Elems(names)
  }

  // ---------------------------------------------------------------------------
  // Well-formedness is preserved.

  /** Only ids differ: well-formedness depends on the rest. */
  lemma SameShape(st: Store, st': Store)
    requires st'.order == st.order && st'.roots == st.roots && st'.nodes.Keys == st.nodes.Keys
    requires forall k :: k in st.nodes ==>
      st'.nodes[k].name == st.nodes[k].name && st'.nodes[k].parent == st.nodes[k].parent &&
      st'.nodes[k].children == st.nodes[k].children
    requires WellFormed(st)
    ensures WellFormed(st')
  {
    assert forall p, c :: ParentOf(st', p, c) <==> ParentOf(st, p, c);
  }

  /** `AddIds` adds `ids` to exactly the nodes named on the path and changes nothing else. */
  lemma {:induction false} AddIdsAt(nodes: map<string, LabelNode>, path: seq<string>, ids: set<string>, k: string)
    requires forall j :: 0 <= j < |path| ==> path[j] in nodes
    requires k in nodes
    ensures AddIds(nodes, path, ids)[k] == nodes[k].(emailIds := nodes[k].emailIds + if k in path then ids else {})
  {
    if path != [] {
      var init := path[..|path| - 1];
      AddIdsAt(nodes, init, ids, k);
      assert k in path <==> k in init || k == path[|path| - 1] by {
        assert path == init + [path[|path| - 1]];
      }
    }
  }

  lemma AddIdsWellFormed(st: Store, path: seq<string>, ids: set<string>)
    requires WellFormed(st)
    requires forall j :: 0 <= j < |path| ==> path[j] in st.nodes
    ensures WellFormed(st.(nodes := AddIds(st.nodes, path, ids)))
  {
    var st' := st.(nodes := AddIds(st.nodes, path, ids));
    forall k | k in st.nodes
      ensures st'.nodes[k].name == st.nodes[k].name && st'.nodes[k].parent == st.nodes[k].parent &&
        st'.nodes[k].children == st.nodes[k].children
    {
      AddIdsAt(st.nodes, path, ids, k);
    }
    SameShape(st, st');
  }

  lemma RegisterOrder(st: Store, name: string, parent: Option<string>)
    requires WellFormed(st) && name !in st.nodes
    requires parent.Some? ==> parent.value in st.nodes
    ensures var r := Register(st, name, parent);
      OrderOk(r) && NamesOk(r) && r.order == st.order + [name] && r.nodes.Keys == st.nodes.Keys + {name}
  {
  }

  lemma RegisterParents(st: Store, name: string, parent: Option<string>)
    requires WellFormed(st) && name !in st.nodes
    requires parent.Some? ==> parent.value in st.nodes
    ensures OrderOk(Register(st, name, parent)) && ParentsOk(Register(st, name, parent))
  {
    var r := Register(st, name, parent);
    RegisterOrder(st, name, parent);
    forall k | k in r.nodes && r.nodes[k].parent.Some?
      ensures r.nodes[k].parent.value in r.nodes && IndexOf(r.order, r.nodes[k].parent.value) < IndexOf(r.order, k)
    {
      var v := r.nodes[k].parent.value;
      if k == name {
        IndexOfAppend(st.order, name, v);
        IndexOfAppend(st.order, name, name);
      } else {
        assert r.nodes[k].parent == st.nodes[k].parent;
        IndexOfAppend(st.order, name, v);
        IndexOfAppend(st.order, name, k);
      }
    }
  }

  lemma ElemsAppend<T>(s: seq<T>, x: T)
    ensures Elems(s + [x]) == Elems(s) + {x}
  {
  }

  lemma RegisterRootSet(st: Store, name: string, parent: Option<string>)
    requires name !in st.nodes
    requires Truthy(parent) ==> parent.value in st.nodes
    ensures RootSet(Register(st, name, parent)) == RootSet(st) + if Truthy(parent) then {} else {name}
  {
  }

  lemma RegisterRoots(st: Store, name: string, parent: Option<string>)
    requires WellFormed(st) && name !in st.nodes
    requires parent.Some? ==> parent.value in st.nodes
    ensures RootsOk(Register(st, name, parent))
  {
    var r := Register(st, name, parent);
    RegisterRootSet(st, name, parent);
    if !Truthy(parent) {
      assert name !in Elems(st.roots);
      assert r.roots == st.roots + [name];
      ElemsAppend(st.roots, name);
    } else {
      assert r.roots == st.roots;
    }
  }

  lemma RegisterChildSet(st: Store, name: string, parent: Option<string>, p: string)
    requires name !in st.nodes
    requires Truthy(parent) ==> parent.value in st.nodes
    ensures ChildSet(Register(st, name, parent), p) ==
      ChildSet(st, p) + if Truthy(parent) && parent.value == p then {name} else {}
  {
    var r := Register(st, name, parent);
    forall c ensures c in ChildSet(r, p) <==> c in ChildSet(st, p) || (c == name && Truthy(parent) && parent.value == p) {
      if c != name && c in st.nodes {
        assert r.nodes[c].parent == st.nodes[c].parent;
      }
    }
  }

  /** The children list of one node after registering a new `name`. */
  lemma RegisterChildrenAt(st: Store, name: string, parent: Option<string>, p: string)
    requires WellFormed(st) && name !in st.nodes
    requires parent.Some? ==> parent.value in st.nodes
    requires p in Register(st, name, parent).nodes
    ensures var r := Register(st, name, parent);
      Distinct(r.nodes[p].children) && Elems(r.nodes[p].children) == ChildSet(r, p)
  {
    var r := Register(st, name, parent);
    RegisterChildSet(st, name, parent, p);
    if p == name {
      assert r.nodes[p].children == [];
      assert ChildSet(st, p) == {};
    } else if Truthy(parent) && p == parent.value {
      assert name !in Elems(st.nodes[p].children);
      assert r.nodes[p].children == st.nodes[p].children + [name];
      ElemsAppend(st.nodes[p].children, name);
    } else {
      assert r.nodes[p].children == st.nodes[p].children;
    }
  }

  lemma RegisterChildren(st: Store, name: string, parent: Option<string>)
    requires WellFormed(st) && name !in st.nodes
    requires parent.Some? ==> parent.value in st.nodes
    ensures ChildrenOk(Register(st, name, parent))
  {
    var r := Register(st, name, parent);
    forall p | p in r.nodes
      ensures Distinct(r.nodes[p].children) && Elems(r.nodes[p].children) == ChildSet(r, p)
    {
      RegisterChildrenAt(st, name, parent, p);
    }
  }

  lemma RegisterWellFormed(st: Store, name: string, parent: Option<string>)
    requires WellFormed(st)
    requires parent.Some? ==> parent.value in st.nodes
    ensures WellFormed(Register(st, name, parent))
  {
    if name !in st.nodes {
      RegisterParents(st, name, parent);
      RegisterRoots(st, name, parent);
      RegisterChildren(st, name, parent);
    }
  }

  lemma StepWellFormed(st: Store, names: seq<string>, i: nat, ids: set<string>)
    requires WellFormed(st)
    requires i < |names|
    requires forall j :: 0 <= j < i ==> names[j] in st.nodes
    ensures WellFormed(Step(st, names, i, ids))
  {
    var parent := if i == 0 then None else Some(names[i - 1]);
    RegisterWellFormed(st, names[i], parent);
    AddIdsWellFormed(Register(st, names[i], parent), names[..i + 1], ids);
  }

  lemma StepKeys(st: Store, names: seq<string>, i: nat, ids: set<string>)
    requires i < |names|
    requires forall j :: 0 <= j < i ==> names[j] in st.nodes
    ensures forall j :: 0 <= j < i + 1 ==> names[j] in Step(st, names, i, ids).nodes
  {
  }

  lemma RunUnfold(st: Store, names: seq<string>, i: nat, ids: set<string>)
    requires i < |names|
    requires forall j :: 0 <= j < i ==> names[j] in st.nodes
    ensures Registered(Step(st, names, i, ids), names, i + 1)
    ensures RunFrom(st, names, i, ids) == RunFrom(Step(st, names, i, ids), names, i + 1, ids)
  {
    StepKeys(st, names, i, ids);
  }

  /** A round of the chain loop, taken apart as the code runs it: register, then add the ids. */
  lemma StepParts(st: Store, names: seq<string>, i: nat, ids: set<string>, reg: Store)
    requires i < |names| && Registered(st, names, i)
    requires reg == Register(st, names[i], if i == 0 then None else Some(names[i - 1]))
    ensures forall j :: 0 <= j < i + 1 ==> names[j] in reg.nodes
    ensures Step(st, names, i, ids) == reg.(nodes := AddIds(reg.nodes, names[..i + 1], ids))
    ensures Registered(Step(st, names, i, ids), names, i + 1)
  {
    StepKeys(st, names, i, ids);
  }

  /** The names before position `i` are all registered in `st`. */
  predicate Registered(st: Store, names: seq<string>, i: nat)
  {
    i <= |names| && forall j :: 0 <= j < i ==> names[j] in st.nodes
  }

  /** A property of the store and the round number that every chain step keeps holds after the remaining rounds. */
  lemma {:induction false} RunKeeps(P: (Store, nat) -> bool, st: Store, names: seq<string>, i: nat, ids: set<string>)
    requires Registered(st, names, i) && P(st, i)
    requires forall s: Store, j: nat :: j < |names| && Registered(s, names, j) && P(s, j) ==> P(Step(s, names, j, ids), j + 1)
    ensures P(RunFrom(st, names, i, ids), |names|)
    decreases |names| - i
  {
    if i < |names| {
      RunUnfold(st, names, i, ids);
      RunKeeps(P, Step(st, names, i, ids), names, i + 1, ids);
    }
  }

  /** The chain loop keeps the store well formed. */
  lemma RunWellFormed(st: Store, names: seq<string>, ids: set<string>)
    requires WellFormed(st)
    ensures WellFormed(RunFrom(st, names, 0, ids))
  {
    forall s: Store, j: nat | j < |names| && Registered(s, names, j) && WellFormed(s)
      ensures WellFormed(Step(s, names, j, ids))
    {
      StepWellFormed(s, names, j, ids);
    }
    RunKeeps((s, j) => WellFormed(s), st, names, 0, ids);
  }

  /** Adding ids along a one-name path updates that one node. */
  lemma AddIdsOne(nodes: map<string, LabelNode>, name: string, ids: set<string>)
    requires name in nodes
    ensures AddIds(nodes, [name], ids) == nodes[name := nodes[name].(emailIds := nodes[name].emailIds + ids)]
  {
    assert [name][..0] == [];
  }

  lemma AddSingleWellFormed(st: Store, name: string, ids: set<string>)
    requires WellFormed(st)
    ensures WellFormed(AddSingle(st, name, ids))
  {
    if name !in st.nodes {
      var r := Register(st, name, None);
      assert name !in Elems(st.roots);
      RegisterWellFormed(st, name, None);
      AddIdsOne(r.nodes, name, ids);
      AddIdsWellFormed(r, [name], ids);
      assert r.roots == st.roots + [name];
      assert {} + ids == ids;
      assert r.nodes[name := r.nodes[name].(emailIds := r.nodes[name].emailIds + ids)] == AddSingle(st, name, ids).nodes;
    } else {
      AddIdsOne(st.nodes, name, ids);
      AddIdsWellFormed(st, [name], ids);
    }
  }

  /** `add_label_from_filename` keeps the hierarchy well formed; in particular it never creates a cycle. */
  lemma AddFileWellFormed(st: Store, filename: string, ids: set<string>)
    requires WellFormed(st) && NoEmptyPart(filename)
    ensures WellFormed(AddFile(st, filename, ids))
  {
    match Parse(filename)
    case SingleLabel(name) => AddSingleWellFormed(st, name, ids);
    case LabelChain(names) => RunWellFormed(st, names, ids);
  }

  // ---------------------------------------------------------------------------
  // What one call of `add_label_from_filename` does to the nodes it touches and to the rest.

  /** `b` is `a` followed only by names that are not in `known`. */
  ghost predicate Grows(a: seq<string>, b: seq<string>, known: set<string>)
  {
    |a| <= |b| && b[..|a|] == a && forall x :: x in b[|a|..] ==> x !in known
  }

  /**
   * `s` extends `st`: no node disappears, every existing node keeps its name and its
   * parent (first registration wins), and `nodes` order, `root_labels` and every
   * existing `children` list only grow at the end, by names that were not nodes before.
   */
  ghost predicate Extends(st: Store, s: Store)
  {
    st.nodes.Keys <= s.nodes.Keys &&
    Grows(st.order, s.order, st.nodes.Keys) && Grows(st.roots, s.roots, st.nodes.Keys) &&
    forall k {:trigger st.nodes[k]} :: k in st.nodes ==>
      s.nodes[k].name == st.nodes[k].name && s.nodes[k].parent == st.nodes[k].parent &&
      Grows(st.nodes[k].children, s.nodes[k].children, st.nodes.Keys)
  }

  lemma ExtendsRefl(st: Store)
    ensures Extends(st, st)
  {
  }

  lemma ExtendsTrans(a: Store, b: Store, c: Store)
    requires Extends(a, b) && Extends(b, c)
    ensures Extends(a, c)
  {
    forall k | k in a.nodes
      ensures Grows(a.nodes[k].children, c.nodes[k].children, a.nodes.Keys)
    {
      GrowsTrans(a.nodes[k].children, b.nodes[k].children, c.nodes[k].children, a.nodes.Keys, b.nodes.Keys);
    }
    GrowsTrans(a.order, b.order, c.order, a.nodes.Keys, b.nodes.Keys);
    GrowsTrans(a.roots, b.roots, c.roots, a.nodes.Keys, b.nodes.Keys);
  }

  lemma GrowsTrans(a: seq<string>, b: seq<string>, c: seq<string>, ka: set<string>, kb: set<string>)
    requires Grows(a, b, ka) && Grows(b, c, kb) && ka <= kb
    ensures Grows(a, c, ka)
  {
    forall x | x in c[|a|..] ensures x !in ka {
      var i :| |a| <= i < |c| && c[i] == x;
      if i < |b| {
        assert b[i] == x;
        assert x in b[|a|..];
      } else {
        assert x in c[|b|..];
      }
    }
  }

  lemma GrowsAppend(a: seq<string>, x: string, known: set<string>)
    requires x !in known
    ensures Grows(a, a + [x], known)
  {
    assert (a + [x])[|a|..] == [x];
  }

  /** What one chain step does to the node stored under `k`. */
  lemma StepAt(s: Store, names: seq<string>, j: nat, ids: set<string>, k: string)
    requires j < |names| && Registered(s, names, j)
    ensures var t := Step(s, names, j, ids);
      (k in t.nodes <==> k in s.nodes || k == names[j]) &&
      (k in s.nodes ==> t.nodes[k].name == s.nodes[k].name && t.nodes[k].parent == s.nodes[k].parent) &&
      (k !in s.nodes && k == names[j] ==>
        t.nodes[k].name == k && t.nodes[k].parent == if j == 0 then None else Some(names[j - 1])) &&
      (k in t.nodes ==>
        t.nodes[k].emailIds == (if k in s.nodes then s.nodes[k].emailIds else {}) + if k in names[..j + 1] then ids else {})
  {
    var r := Register(s, names[j], if j == 0 then None else Some(names[j - 1]));
    if k in r.nodes {
      AddIdsAt(r.nodes, names[..j + 1], ids, k);
    }
  }

  /** One chain step extends the store. */
  lemma StepExtends(s: Store, names: seq<string>, j: nat, ids: set<string>)
    requires j < |names| && Registered(s, names, j)
    ensures Extends(s, Step(s, names, j, ids))
  {
    var name := names[j];
    var parent := if j == 0 then None else Some(names[j - 1]);
    var r := Register(s, name, parent);
    var t := Step(s, names, j, ids);
    forall k | k in s.nodes
      ensures t.nodes[k].name == s.nodes[k].name && t.nodes[k].parent == s.nodes[k].parent
      ensures Grows(s.nodes[k].children, t.nodes[k].children, s.nodes.Keys)
    {
      AddIdsAt(r.nodes, names[..j + 1], ids, k);
      if name !in s.nodes && Truthy(parent) && k == parent.value && name !in s.nodes[k].children {
        assert t.nodes[k].children == s.nodes[k].children + [name];
        GrowsAppend(s.nodes[k].children, name, s.nodes.Keys);
      } else {
        assert t.nodes[k].children == s.nodes[k].children;
      }
    }
    if name !in s.nodes {
      GrowsAppend(s.order, name, s.nodes.Keys);
      if !Truthy(parent) && name !in s.roots {
        GrowsAppend(s.roots, name, s.nodes.Keys);
      }
    }
  }

  /** The chain loop extends the store. */
  lemma RunExtends(st: Store, names: seq<string>, ids: set<string>)
    ensures Extends(st, RunFrom(st, names, 0, ids))
  {
    forall s: Store, j: nat | j < |names| && Registered(s, names, j) && Extends(st, s)
      ensures Extends(st, Step(s, names, j, ids))
    {
      StepExtends(s, names, j, ids);
      ExtendsTrans(st, s, Step(s, names, j, ids));
    }
    ExtendsRefl(st);
    RunKeeps((s, j) => Extends(st, s), st, names, 0, ids);
  }

  /** The ids a node had before the call, or none for a node the call creates. */
  function OldIds(st: Store, k: string): set<string>
  {
    if k in st.nodes then st.nodes[k].emailIds else {}
  }

  /**
   * `s` is `st` with `touched` added as nodes where missing, and `ids` added to the
   * email ids of exactly the nodes in `touched`.
   */
  ghost predicate IdsAdded(st: Store, s: Store, touched: set<string>, ids: set<string>)
  {
    s.nodes.Keys == st.nodes.Keys + touched &&
    forall k {:trigger s.nodes[k]} :: k in s.nodes ==>
      s.nodes[k].emailIds == OldIds(st, k) + if k in touched then ids else {}
  }

  lemma StepIds(st: Store, s: Store, names: seq<string>, j: nat, ids: set<string>)
    requires j < |names| && Registered(s, names, j)
    requires IdsAdded(st, s, Elems(names[..j]), ids)
    ensures IdsAdded(st, Step(s, names, j, ids), Elems(names[..j + 1]), ids)
  {
    var t := Step(s, names, j, ids);
    TakeNext(names, j);
    forall k ensures k in t.nodes <==> k in st.nodes || k in Elems(names[..j + 1]) {
      StepAt(s, names, j, ids, k);
    }
    forall k | k in t.nodes
      ensures t.nodes[k].emailIds == OldIds(st, k) + if k in Elems(names[..j + 1]) then ids else {}
    {
      StepAt(s, names, j, ids, k);
    }
  }

  /** The first `j` rounds of the chain loop have added their names and the ids. */
  ghost predicate IdsSoFar(st: Store, s: Store, names: seq<string>, j: nat, ids: set<string>)
  {
    j <= |names| && IdsAdded(st, s, Elems(names[..j]), ids)
  }

  /** The chain loop adds the chain's names as nodes and the ids to exactly those nodes. */
  lemma RunIds(st: Store, names: seq<string>, ids: set<string>)
    ensures IdsAdded(st, RunFrom(st, names, 0, ids), Elems(names), ids)
  {
    forall s: Store, j: nat | j < |names| && Registered(s, names, j) && IdsSoFar(st, s, names, j, ids)
      ensures IdsSoFar(st, Step(s, names, j, ids), names, j + 1, ids)
    {
      StepIds(st, s, names, j, ids);
    }
    assert Elems(names[..0]) == {};
    assert IdsSoFar(st, st, names, 0, ids);
    RunKeeps((s: Store, j: nat) => IdsSoFar(st, s, names, j, ids), st, names, 0, ids);
    assert names[..|names|] == names;
  }

  lemma TakeNext<T>(s: seq<T>, j: nat)
    requires j < |s|
    ensures s[..j + 1] == s[..j] + [s[j]]
  {
  }

  /** The position of the first occurrence is the one before which the element does not occur. */
  lemma IndexOfFirst<T>(s: seq<T>, j: nat)
    requires j < |s| && s[j] !in s[..j]
    ensures IndexOf(s, s[j]) == j
  {
  }

  /** The parent a chain gives to `k` when it creates it: the name before `k`'s first occurrence. */
  function ChainParent(names: seq<string>, k: string): Option<string>
    requires k in names
  {
    var i := IndexOf(names, k);
    if i == 0 then None else Some(names[i - 1])
  }

  /**
   * After the first `j` rounds, the nodes not in `st` are among the first `j` names, and
   * each of those names that was new at its first occurrence `i` was created with the
   * parent `names[i - 1]` (none for `i == 0`).
   */
  ghost predicate CreatedByChain(st: Store, s: Store, names: seq<string>, j: nat)
  {
    j <= |names| && s.nodes.Keys <= st.nodes.Keys + Elems(names[..j]) &&
    forall i :: 0 <= i < j && names[i] !in st.nodes && names[i] !in names[..i] ==>
      names[i] in s.nodes && s.nodes[names[i]].parent == if i == 0 then None else Some(names[i - 1])
  }

  lemma CreatedAt(st: Store, s: Store, names: seq<string>, j: nat, i: nat)
    requires CreatedByChain(st, s, names, j)
    requires i < j && names[i] !in st.nodes && names[i] !in names[..i]
    ensures names[i] in s.nodes && s.nodes[names[i]].parent == if i == 0 then None else Some(names[i - 1])
  {
  }

  lemma StepCreated(st: Store, s: Store, names: seq<string>, j: nat, ids: set<string>)
    requires j < |names| && Registered(s, names, j)
    requires CreatedByChain(st, s, names, j)
    ensures CreatedByChain(st, Step(s, names, j, ids), names, j + 1)
  {
    var t := Step(s, names, j, ids);
    TakeNext(names, j);
    forall k | k in t.nodes ensures k in st.nodes.Keys + Elems(names[..j + 1]) {
      StepAt(s, names, j, ids, k);
    }
    forall i | 0 <= i < j + 1 && names[i] !in st.nodes && names[i] !in names[..i]
      ensures names[i] in t.nodes && t.nodes[names[i]].parent == if i == 0 then None else Some(names[i - 1])
    {
      StepAt(s, names, j, ids, names[i]);
      if i == j {
        assert names[j] !in s.nodes;
      }
    }
  }

  /** The chain loop creates only names of the chain, each with the name before it as parent. */
  lemma RunCreated(st: Store, names: seq<string>, ids: set<string>)
    ensures CreatedByChain(st, RunFrom(st, names, 0, ids), names, |names|)
  {
    forall s: Store, j: nat | j < |names| && Registered(s, names, j) && CreatedByChain(st, s, names, j)
      ensures CreatedByChain(st, Step(s, names, j, ids), names, j + 1)
    {
      StepCreated(st, s, names, j, ids);
    }
    assert Elems(names[..0]) == {};
    RunKeeps((s: Store, j: nat) => CreatedByChain(st, s, names, j), st, names, 0, ids);
  }

  // ---------------------------------------------------------------------------
  // The same facts for a whole call of `add_label_from_filename`.

  lemma AddSingleFacts(st: Store, name: string, ids: set<string>)
    ensures Extends(st, AddSingle(st, name, ids))
    ensures IdsAdded(st, AddSingle(st, name, ids), {name}, ids)
    ensures name !in st.nodes ==> AddSingle(st, name, ids).nodes[name].parent == None
  {
    if name !in st.nodes {
      GrowsAppend(st.order, name, st.nodes.Keys);
      GrowsAppend(st.roots, name, st.nodes.Keys);
    }
  }

  /**
   * First registration wins: no node disappears, existing nodes keep their name and
   * parent, and `root_labels` and every `children` list only grow at the end, by
   * names the call creates.
   */
  lemma AddFileExtends(st: Store, filename: string, ids: set<string>)
    requires NoEmptyPart(filename)
    ensures Extends(st, AddFile(st, filename, ids))
  {
    match Parse(filename)
    case SingleLabel(name) => AddSingleFacts(st, name, ids);
    case LabelChain(names) => RunExtends(st, names, ids);
  }

  /** The call adds the touched names as nodes and the ids to exactly the touched nodes. */
  lemma AddFileIds(st: Store, filename: string, ids: set<string>)
    requires NoEmptyPart(filename)
    ensures IdsAdded(st, AddFile(st, filename, ids), Touched(filename), ids)
  {
    match Parse(filename)
    case SingleLabel(name) => AddSingleFacts(st, name, ids);
    case LabelChain(names) => RunIds(st, names, ids);
  }

  /** A list that grows only by unknown names, yet holds only known ones, has not grown. */
  lemma GrowsNone(a: seq<string>, b: seq<string>, known: set<string>)
    requires Grows(a, b, known) && Elems(b) <= known
    ensures b == a
  {
    var tail := b[|a|..];
    assert forall x :: x in tail ==> x in Elems(b);
    HeadIn(tail);
    assert b == b[..|a|] + tail;
  }

  lemma HeadIn<T>(t: seq<T>)
    ensures t != [] ==> t[0] in t
  {
  }

  /**
   * Calling `add_label_from_filename` a second time with the same filename and ids
   * changes nothing: the same nodes in the same order, the same roots, and every node
   * with the same parent, children and ids.
   */
  lemma AddFileIdempotent(st: Store, filename: string, ids: set<string>)
    requires WellFormed(st) && NoEmptyPart(filename)
    ensures AddFile(AddFile(st, filename, ids), filename, ids) == AddFile(st, filename, ids)
  {
    var once := AddFile(st, filename, ids);
    AddFileWellFormed(st, filename, ids);
    AddFileWellFormed(once, filename, ids);
    AddFileIds(st, filename, ids);
    AddFileIds(once, filename, ids);
    AddFileExtends(once, filename, ids);
    IdsAgain(st, once, AddFile(once, filename, ids), Touched(filename), ids);
    ExtendsNothing(once, AddFile(once, filename, ids));
  }

  /** Adding the same ids to the same names a second time adds no node and no id. */
  lemma IdsAgain(st: Store, once: Store, twice: Store, touched: set<string>, ids: set<string>)
    requires IdsAdded(st, once, touched, ids) && IdsAdded(once, twice, touched, ids)
    ensures twice.nodes.Keys == once.nodes.Keys
    ensures forall k {:trigger once.nodes[k]} :: k in once.nodes ==> twice.nodes[k].emailIds == once.nodes[k].emailIds
  {
    forall k | k in once.nodes
      ensures twice.nodes[k].emailIds == once.nodes[k].emailIds
    {
      assert twice.nodes[k].emailIds == OldIds(once, k) + if k in touched then ids else {};
    }
  }

  /** A well-formed extension with the same keys and the same ids is no change at all. */
  lemma ExtendsNothing(once: Store, twice: Store)
    requires WellFormed(twice) && Extends(once, twice) && twice.nodes.Keys == once.nodes.Keys
    requires forall k {:trigger once.nodes[k]} :: k in once.nodes ==> twice.nodes[k].emailIds == once.nodes[k].emailIds
    ensures twice == once
  {
    GrowsNone(once.order, twice.order, once.nodes.Keys);
    assert Elems(twice.roots) <= once.nodes.Keys;
    GrowsNone(once.roots, twice.roots, once.nodes.Keys);
    forall k | k in once.nodes
      ensures twice.nodes[k] == once.nodes[k]
    {
      assert Elems(twice.nodes[k].children) == ChildSet(twice, k);
      GrowsNone(once.nodes[k].children, twice.nodes[k].children, once.nodes.Keys);
    }
    assert twice.nodes == once.nodes;
  }

  /**
   * A node the call creates has no parent when it is a single label or the first name of
   * the chain, and otherwise the name before its first occurrence in the chain.
   */
  lemma AddFileCreates(st: Store, filename: string, ids: set<string>, k: string)
    requires NoEmptyPart(filename)
    requires k in AddFile(st, filename, ids).nodes && k !in st.nodes
    ensures match Parse(filename)
      case SingleLabel(name) => AddFile(st, filename, ids).nodes[k].parent == None
      case LabelChain(names) => k in names && AddFile(st, filename, ids).nodes[k].parent == ChainParent(names, k)
  {
    match Parse(filename)
    case SingleLabel(name) =>
      AddSingleFacts(st, name, ids);
    case LabelChain(names) =>
      var r := RunFrom(st, names, 0, ids);
      assert AddFile(st, filename, ids) == r;
      RunCreated(st, names, ids);
      assert names[..|names|] == names;
      assert k in names;
      var i := IndexOf(names, k);
      assert names[i] !in st.nodes && names[i] !in names[..i];
      CreatedAt(st, r, names, |names|, i);
  }

  // ---------------------------------------------------------------------------
  // Parents hold the ids of their children only when files agree with the hierarchy.

  /** Every node's ids are among its (registered, truthy) parent's ids. */
  ghost predicate IdsNested(st: Store)
  {
    forall k {:trigger st.nodes[k]} :: k in st.nodes && Truthy(st.nodes[k].parent) && st.nodes[k].parent.value in st.nodes ==>
      st.nodes[k].emailIds <= st.nodes[st.nodes[k].parent.value].emailIds
  }

  /**
   * The file agrees with the registered parents: every registered name it touches has
   * its truthy parent among the touched names too.
   */
  ghost predicate ParentsTouched(st: Store, touched: set<string>)
  {
    forall k {:trigger st.nodes[k]} :: k in touched && k in st.nodes && Truthy(st.nodes[k].parent) ==>
      st.nodes[k].parent.value in touched
  }

  /** Under agreement, adding a file keeps every parent's ids a superset of its children's. */
  lemma AddFileNested(st: Store, filename: string, ids: set<string>)
    requires WellFormed(st) && NoEmptyPart(filename)
    requires IdsNested(st) && ParentsTouched(st, Touched(filename))
    ensures IdsNested(AddFile(st, filename, ids))
  {
    AddFileExtends(st, filename, ids);
    AddFileIds(st, filename, ids);
    CreatedUnderTouched(st, filename, ids);
    NestedKept(st, AddFile(st, filename, ids), Touched(filename), ids);
  }

  /** A node the call creates with a truthy parent has it among the touched names. */
  lemma CreatedUnderTouched(st: Store, filename: string, ids: set<string>)
    requires NoEmptyPart(filename)
    ensures var r := AddFile(st, filename, ids);
      forall k {:trigger r.nodes[k]} :: k in r.nodes && k !in st.nodes && Truthy(r.nodes[k].parent) ==>
        r.nodes[k].parent.value in Touched(filename)
  {
    var r := AddFile(st, filename, ids);
    forall k | k in r.nodes && k !in st.nodes && Truthy(r.nodes[k].parent)
      ensures r.nodes[k].parent.value in Touched(filename)
    {
      AddFileCreates(st, filename, ids, k);
      match Parse(filename)
      case SingleLabel(name) =>
      case LabelChain(names) =>
        assert r.nodes[k].parent.value in names;
    }
  }

  /**
   * Adding `ids` to the touched nodes keeps the nesting when every touched node's parent,
   * old or new, is touched as well.
   */
  lemma NestedKept(st: Store, r: Store, touched: set<string>, ids: set<string>)
    requires Rooted(st) && Extends(st, r) && IdsAdded(st, r, touched, ids)
    requires IdsNested(st) && ParentsTouched(st, touched)
    requires forall k {:trigger r.nodes[k]} :: k in r.nodes && k !in st.nodes && Truthy(r.nodes[k].parent) ==>
      r.nodes[k].parent.value in touched
    ensures IdsNested(r)
  {
    forall k | k in r.nodes && Truthy(r.nodes[k].parent) && r.nodes[k].parent.value in r.nodes
      ensures r.nodes[k].emailIds <= r.nodes[r.nodes[k].parent.value].emailIds
    {
      var p := r.nodes[k].parent.value;
      if k in st.nodes {
        assert st.nodes[k].parent == r.nodes[k].parent;
        assert p in st.nodes;
      }
    }
  }

  /** The file `a_b` (no stamp) names the chain `a`, `b`. */
  lemma TwoNameFile(a: string, b: string)
    requires PlainName(a) && PlainName(b)
    requires Join([a, b], "_") !in SingleLabels
    ensures NoEmptyPart(Join([a, b], "_")) && Parse(Join([a, b], "_")) == LabelChain([a, b])
    ensures Touched(Join([a, b], "_")) == {a, b}
  {
    assert [a, b] + [] == [a, b];
    assert [a, b][..Min(2, 2)] == [a, b];
    ChainFromFilename([a, b], []);
  }

  /** Into an empty hierarchy, `a_b` puts the root `a` and its child `b`, both holding the ids. */
  lemma FirstFile(a: string, b: string, ids: set<string>)
    requires PlainName(a) && PlainName(b) && a != b
    requires Join([a, b], "_") !in SingleLabels
    ensures NoEmptyPart(Join([a, b], "_"))
    ensures var st := AddFile(Empty, Join([a, b], "_"), ids);
      st.nodes.Keys == {a, b} && st.nodes[a].parent == None && st.nodes[b].parent == Some(a) &&
      st.nodes[a].emailIds == ids && st.nodes[b].emailIds == ids
  {
    var f := Join([a, b], "_");
    TwoNameFile(a, b);
    AddFileIds(Empty, f, ids);
    AddFileCreates(Empty, f, ids, a);
    AddFileCreates(Empty, f, ids, b);
    assert IndexOf([a, b], b) == 1;
  }

  /** A file `c_b` leaves the parent of an existing `b` alone and gives the ids to `c` and `b` only. */
  lemma SecondFile(st: Store, a: string, b: string, c: string, ids: set<string>)
    requires PlainName(b) && PlainName(c) && c != b && a != c && a != b
    requires Join([c, b], "_") !in SingleLabels
    requires a in st.nodes && b in st.nodes
    ensures NoEmptyPart(Join([c, b], "_"))
    ensures var r := AddFile(st, Join([c, b], "_"), ids);
      a in r.nodes && b in r.nodes && r.nodes[b].parent == st.nodes[b].parent &&
      r.nodes[a].emailIds == st.nodes[a].emailIds && r.nodes[b].emailIds == st.nodes[b].emailIds + ids
  {
    var f := Join([c, b], "_");
    TwoNameFile(c, b);
    AddFileExtends(st, f, ids);
    AddFileIds(st, f, ids);
    TouchedTwo(st, AddFile(st, f, ids), a, b, c, ids);
  }

  /** Adding `ids` to `c` and `b` leaves `a` as it was and gives `b` the ids. */
  lemma TouchedTwo(st: Store, r: Store, a: string, b: string, c: string, ids: set<string>)
    requires a != c && a != b && a in st.nodes && b in st.nodes
    requires Extends(st, r) && IdsAdded(st, r, {c, b}, ids)
    ensures a in r.nodes && b in r.nodes && r.nodes[b].parent == st.nodes[b].parent
    ensures r.nodes[a].emailIds == st.nodes[a].emailIds && r.nodes[b].emailIds == st.nodes[b].emailIds + ids
  {
    assert r.nodes[a].emailIds == OldIds(st, a);
    assert r.nodes[b].emailIds == OldIds(st, b) + ids;
  }

  /** A root `a` with a single child `b` holding the same ids is nested. */
  lemma PairNested(st: Store, a: string, b: string)
    requires st.nodes.Keys == {a, b} && st.nodes[a].parent == None && st.nodes[b].parent == Some(a)
    requires st.nodes[a].emailIds == st.nodes[b].emailIds
    ensures IdsNested(st)
  {
  }

  /** An id held by `b` but not by its registered parent `a` breaks the nesting. */
  lemma PairBroken(st: Store, a: string, b: string, i: string)
    requires a in st.nodes && b in st.nodes && st.nodes[b].parent == Some(a) && a != ""
    requires i in st.nodes[b].emailIds && i !in st.nodes[a].emailIds
    ensures !IdsNested(st)
  {
    assert st.nodes[b].emailIds <= st.nodes[st.nodes[b].parent.value].emailIds ==> false;
  }

  /**
   * Without agreement the nesting breaks: after `a_b` (for instance `A_B`) with id `i1`,
   * the file `c_b` (`C_B`) with id `i2` puts `i2` into `b`, whose registered parent `a`
   * never receives it.
   */
  lemma NestingNeedsAgreement(a: string, b: string, c: string, i1: string, i2: string)
    requires PlainName(a) && PlainName(b) && PlainName(c)
    requires a != b && c != b && a != c && i1 != i2
    requires Join([a, b], "_") !in SingleLabels && Join([c, b], "_") !in SingleLabels
    ensures NoEmptyPart(Join([a, b], "_")) && NoEmptyPart(Join([c, b], "_"))
    ensures var st1 := AddFile(Empty, Join([a, b], "_"), {i1});
      IdsNested(st1) && !IdsNested(AddFile(st1, Join([c, b], "_"), {i2}))
  {
    FirstFile(a, b, {i1});
    var st1 := AddFile(Empty, Join([a, b], "_"), {i1});
    PairNested(st1, a, b);
    SecondFile(st1, a, b, c, {i2});
    var st2 := AddFile(st1, Join([c, b], "_"), {i2});
    PairBroken(st2, a, b, i2);
  }

  // ---------------------------------------------------------------------------
  // Single labels stay flat.

  /** Every single label that is a node has no parent. */
  ghost predicate SinglesAreRoots(st: Store)
  {
    forall k {:trigger st.nodes[k]} :: k in st.nodes && k in SingleLabels ==> st.nodes[k].parent == None
  }

  lemma SingleHasUnderscore(k: string)
    requires k in SingleLabels
    ensures '_' in k
  {
    if k == "good_material" {
      assert k[4] == '_';
    } else {
      assert k[5] == '_';
    }
  }

  /**
   * No call gives a single label a parent: the single-label branch creates it as a root,
   * and no name of a chain is a single label, since chain names hold no `_`.
   */
  lemma AddFileSinglesAreRoots(st: Store, filename: string, ids: set<string>)
    requires NoEmptyPart(filename) && SinglesAreRoots(st)
    ensures SinglesAreRoots(AddFile(st, filename, ids))
  {
    var r := AddFile(st, filename, ids);
    AddFileExtends(st, filename, ids);
    forall k | k in r.nodes && k in SingleLabels ensures r.nodes[k].parent == None {
      if k !in st.nodes {
        AddFileCreates(st, filename, ids, k);
        SingleHasUnderscore(k);
      }
    }
  }
}
