/**
 * The `LabelHierarchy` object of few_shot_dataset.py: its fields are updated in place
 * by `add_label_from_filename`, and its queries walk the parent links with loops.
 * Each method is proved to compute the function of the store given in hierarchy.dfy
 * and paths.dfy, where the properties of those functions are proved.
 */
module LabelStore {
  import opened Wrappers
  import opened Text
  import opened LabelPaths
  import opened Hierarchy
  import opened Paths

  /** What `to_dict` returns: the nodes in dict order, and `root_labels`. */
  datatype Dump = Dump(nodes: seq<(string, LabelNode)>, rootLabels: seq<string>)

  function DumpNodes(nodes: map<string, LabelNode>, keys: seq<string>): (pairs: seq<(string, LabelNode)>)
    requires forall i :: 0 <= i < |keys| ==> keys[i] in nodes
    ensures |pairs| == |keys|
    ensures forall i :: 0 <= i < |keys| ==> pairs[i] == (keys[i], nodes[keys[i]])
  {
    seq(|keys|, i requires 0 <= i < |keys| => (keys[i], nodes[keys[i]]))
  }

  /** The dict a list of pairs describes (a later key overrides an earlier one). */
  function MapOf(pairs: seq<(string, LabelNode)>): map<string, LabelNode>
  {
    if pairs == [] then map[]
    else MapOf(pairs[..|pairs| - 1])[pairs[|pairs| - 1].0 := pairs[|pairs| - 1].1]
  }

  /** Reading a dump back: the nodes, their order, and the roots. */
  function Restore(d: Dump): Store
  {
    Store(MapOf(d.nodes), seq(|d.nodes|, i requires 0 <= i < |d.nodes| => d.nodes[i].0), d.rootLabels)
  }

  lemma {:induction false} MapOfDump(nodes: map<string, LabelNode>, keys: seq<string>)
    requires forall i :: 0 <= i < |keys| ==> keys[i] in nodes
    ensures MapOf(DumpNodes(nodes, keys)) == map k | k in Elems(keys) :: nodes[k]
  {
    if keys != [] {
      var front := keys[..|keys| - 1];
      assert DumpNodes(nodes, keys)[..|keys| - 1] == DumpNodes(nodes, front);
      MapOfDump(nodes, front);
      assert Elems(keys) == Elems(front) + {keys[|keys| - 1]} by {
        assert keys == front + [keys[|keys| - 1]];
      }
    }
  }

  class LabelHierarchy {
    /** `nodes`; `order` is the order its keys were inserted in, the order the dict iterates in. */
    var nodes: map<string, LabelNode>
    var order: seq<string>
    var rootLabels: seq<string>

    function State(): Store
      reads this
    {
      Store(nodes, order, rootLabels)
    }

    /** The store is well formed and its single labels are roots. */
    ghost predicate Valid()
      reads this
    {
      WellFormed(State()) && SinglesAreRoots(State())
    }

    constructor ()
      ensures Valid() && State() == Empty
    {
      nodes := map[];
      order := [];
      rootLabels := [];
      EmptyWellFormed();
    }

    /**
     * `add_label_from_filename(filename, email_ids)`: the store becomes
     * `AddFile(old store, filename, set(email_ids))`, which keeps it well formed.
     */
    method AddLabelFromFilename(filename: string, emailIds: seq<string>)
      requires Valid() && NoEmptyPart(filename)
      modifies this
      ensures Valid() && State() == AddFile(old(State()), filename, Elems(emailIds))
    {
      AddFileWellFormed(State(), filename, Elems(emailIds));
      AddFileSinglesAreRoots(State(), filename, Elems(emailIds));
      var labelParts := LabelParts(NameParts(filename));
      var ids := Elems(emailIds);
      var combined := Combined(labelParts);
      if combined in SingleLabels {
        AddSingleLabel(combined, ids);
        return;
      }
      assert Parse(filename) == LabelChain(CleanParts(labelParts));
      AddLabelChain(labelParts, ids);
    }

    /**
     * The chain loop of `add_label_from_filename`: each kept part, cut at its first `.`,
     * is registered under the one before and the ids go to every name so far.
     */
    method AddLabelChain(labelParts: seq<string>, ids: set<string>)
      modifies this
      ensures State() == RunFrom(old(State()), CleanParts(labelParts), 0, ids)
    {
      ghost var names := CleanParts(labelParts);
      ghost var target := RunFrom(State(), names, 0, ids);
      var currentParent: Option<string> := None;
      var currentPath: seq<string> := [];
      var j := 0;
      while j < |labelParts|
        invariant j <= |labelParts| && Registered(State(), names, j)
        invariant currentPath == names[..j]
        invariant currentParent == if j == 0 then None else Some(names[j - 1])
        invariant RunFrom(State(), names, j, ids) == target
      {
        RunUnfold(State(), names, j, ids);
        var cleanPart := BeforeFirst(labelParts[j], '.');
        TakeNext(names, j);
        currentPath := currentPath + [cleanPart];
        ChainRound(cleanPart, currentParent, currentPath, ids, names, j);
        currentParent := Some(cleanPart);
        j := j + 1;
      }
    }

    /** The body of the chain loop: register the part, then add the ids along the path so far. */
    method ChainRound(cleanPart: string, currentParent: Option<string>, currentPath: seq<string>, ids: set<string>,
                      ghost names: seq<string>, ghost j: nat)
      requires j < |names| && Registered(State(), names, j)
      requires cleanPart == names[j] && currentPath == names[..j + 1]
      requires currentParent == if j == 0 then None else Some(names[j - 1])
      modifies this
      ensures State() == Step(old(State()), names, j, ids)
    {
      ghost var before := State();
      RegisterPart(cleanPart, currentParent);
      StepParts(before, names, j, ids, State());
      AddEmailIds(currentPath, ids);
    }

    /** The loop of `add_label_from_filename` that drops the parts starting with a digit. */
    static method LabelParts(parts: seq<string>) returns (labelParts: seq<string>)
      requires forall i :: 0 <= i < |parts| ==> parts[i] != ""
      ensures labelParts == KeepLabelParts(parts)
    {
      labelParts := [];
      var i := 0;
      while i < |parts|
        invariant i <= |parts|
        invariant labelParts == KeepLabelParts(parts[..i])
      {
        assert parts[..i + 1][..i] == parts[..i];
        if !IsDigit(parts[i][0]) {
          labelParts := labelParts + [parts[i]];
        }
        i := i + 1;
      }
      assert parts[..|parts|] == parts;
    }

    /** The single-label branch of `add_label_from_filename`. */
    method AddSingleLabel(name: string, ids: set<string>)
      modifies this
      ensures State() == AddSingle(old(State()), name, ids)
    {
      if name !in nodes {
        nodes := nodes[name := LabelNode(name, None, [], ids)];
        order := order + [name];
        rootLabels := rootLabels + [name];
      } else {
        nodes := nodes[name := nodes[name].(emailIds := nodes[name].emailIds + ids)];
      }
    }

    /** The creation half of one round of the chain loop of `add_label_from_filename`. */
    method RegisterPart(name: string, parent: Option<string>)
      requires Truthy(parent) ==> parent.value in nodes
      modifies this
      ensures State() == Register(old(State()), name, parent)
    {
      if name !in nodes {
        nodes := nodes[name := LabelNode(name, parent, [], {})];
        order := order + [name];
        if Truthy(parent) {
          var p := parent.value;
          if name !in nodes[p].children {
            nodes := nodes[p := nodes[p].(children := nodes[p].children + [name])];
          }
        } else if name !in rootLabels {
          rootLabels := rootLabels + [name];
        }
      }
    }

    /** The inner loop of `add_label_from_filename`: every name on the path gets the ids. */
    method AddEmailIds(path: seq<string>, ids: set<string>)
      requires forall k :: 0 <= k < |path| ==> path[k] in nodes
      modifies this`nodes
      ensures nodes == AddIds(old(nodes), path, ids)
    {
      var k := 0;
      while k < |path|
        invariant k <= |path|
        invariant nodes == AddIds(old(nodes), path[..k], ids)
      {
        assert path[..k + 1][..k] == path[..k];
        var pathLabel := path[k];
        nodes := nodes[pathLabel := nodes[pathLabel].(emailIds := nodes[pathLabel].emailIds + ids)];
        k := k + 1;
      }
      assert path[..|path|] == path;
    }

    /** `get_path_to_root(label)`: follows truthy parents, then reverses what it collected. */
    method GetPathToRoot(name: string) returns (path: seq<string>)
      requires Valid()
      ensures path == PathToRoot(State(), name)
    {
      if name !in nodes {
        return [];
      }
      ghost var st := State();
      var lineage := [name];
      var current := nodes[name];
      ghost var cur := name;
      while Truthy(current.parent)
        invariant cur in st.nodes && current == st.nodes[cur]
        invariant lineage + Lineage(st, cur)[1..] == Lineage(st, name)
        decreases IndexOf(st.order, cur)
      {
        ghost var lineage0, cur0 := lineage, cur;
        lineage := lineage + [current.parent.value];
        cur := current.parent.value;
        current := nodes[current.parent.value];
        LineageWalk(st, name, lineage0, cur0, lineage, cur);
      }
      LineageEnd(st, name, lineage, cur);
      path := Reverse(lineage);
    }

    /** `get_all_paths_for_email(email_id)`. */
    method GetAllPathsForEmail(e: string) returns (paths: seq<seq<string>>)
      requires Valid()
      ensures paths == AllPaths(State(), e)
    {
      ghost var st := State();
      paths := [];
      var labelsWithEmail := LabelsWith(State(), order, e);
      assert forall k :: 0 <= k < |labelsWithEmail| ==> labelsWithEmail[k] in st.nodes;
      var i := 0;
      while i < |labelsWithEmail|
        invariant i <= |labelsWithEmail|
        invariant AllPaths(st, e) == CollectFrom(st, paths, labelsWithEmail[i..])
      {
        CollectStep(st, paths, labelsWithEmail, i);
        paths := AddPathsFor(labelsWithEmail[i], paths);
        i := i + 1;
      }
    }

    /**
     * The body of the loop of `get_all_paths_for_email` for one label: its path, when
     * new, followed by the path of each ancestor that is not there yet.
     */
    method AddPathsFor(name: string, paths: seq<seq<string>>) returns (r: seq<seq<string>>)
      requires Valid() && name in nodes
      ensures r == AddLabel(State(), paths, name)
    {
      ghost var st := State();
      r := paths;
      var path := GetPathToRoot(name);
      if path != [] && path !in r {
        r := r + [path];
        var current := nodes[name];
        ghost var cur := name;
        while Truthy(current.parent)
          invariant cur in st.nodes && current == st.nodes[cur]
          invariant AddLabel(st, paths, name) == AddAncestors(st, r, Lineage(st, cur)[1..])
          decreases IndexOf(st.order, cur)
        {
          AddAncestorsStep(st, r, cur);
          var parentPath := GetPathToRoot(current.parent.value);
          if parentPath != [] && parentPath !in r {
            r := r + [parentPath];
          }
          cur := current.parent.value;
          current := nodes[current.parent.value];
        }
        LineageStep(st, cur);
      }
    }

    /** `to_dict()`: nothing is lost, the dump reads back as the hierarchy. */
    function ToDict(): (d: Dump)
      reads this
      requires Valid()
      ensures Restore(d) == State()
    {
      var d := Dump(DumpNodes(nodes, order), rootLabels);
      MapOfDump(nodes, order);
      d
    }
  }
}
