/**
 * The topic page (assets/js/topic-map.js): the id -> entry index built from
 * the tree, the choice between "no topic", "not found" and rendering, the
 * breadcrumb, the context panel and the layout of the focused node, its
 * parent and its children.
 */
module TopicMap {
  import opened Trees

  /* ---------- tree index ---------- */

  /**
   * An entry of TREE_INDEX: {id, label, parent, raw}. The `label` member is
   * the field `text` here, because `label` is a reserved word of Dafny.
   */
  datatype Entry = Entry(id: string, text: string, parent: Option<string>, raw: Node)

  /** The entry buildIndex writes for a visit of the walk. */
  function EntryOf(v: Visit): Entry
  {
    Entry(v.node.id, v.node.title, ParentId(v.ancestors), v.node)
  }

  /**
   * The index after buildIndex(n, parentId) has run on index `m`: the node's
   * own entry is written first, then each child's subtree in input order.
   */
  function Indexed(m: map<string, Entry>, n: Node, parentId: Option<string>): map<string, Entry>
    decreases n
  {
    IndexedForest(m[n.id := Entry(n.id, n.title, parentId, n)], n.children, Some(n.id))
  }

  function IndexedForest(m: map<string, Entry>, cs: seq<Node>, parentId: Option<string>): map<string, Entry>
    decreases cs
  {
    if cs == [] then m else IndexedForest(Indexed(m, cs[0], parentId), cs[1..], parentId)
  }

  /** The index the page builds: buildIndex(root, null) on the empty TREE_INDEX. */
  function TreeIndex(root: Node): map<string, Entry>
  {
    Indexed(map[], root, None)
  }

  /** Independent reference: write the entry of every visit, one after the other. */
  function Recorded(m: map<string, Entry>, vs: seq<Visit>): map<string, Entry>
    decreases |vs|
  {
    if vs == [] then m else Recorded(m[vs[0].node.id := EntryOf(vs[0])], vs[1..])
  }

  function VisitIds(vs: seq<Visit>): set<string>
  {
    set v | v in vs :: v.node.id
  }

  /** Every entry is stored under its own id. */
  ghost predicate OwnKeys(m: map<string, Entry>)
  {
    forall k :: k in m ==> m[k].id == k
  }

  /** buildIndex stores each entry under its own id, whatever the tree. */
  lemma {:induction false} IndexedOwnKeys(m: map<string, Entry>, n: Node, parentId: Option<string>)
    requires OwnKeys(m)
    ensures OwnKeys(Indexed(m, n, parentId))
    decreases n
  {
    IndexedForestOwnKeys(m[n.id := Entry(n.id, n.title, parentId, n)], n.children, Some(n.id));
  }

  lemma {:induction false} IndexedForestOwnKeys(m: map<string, Entry>, cs: seq<Node>, parentId: Option<string>)
    requires OwnKeys(m)
    ensures OwnKeys(IndexedForest(m, cs, parentId))
    decreases cs
  {
    if cs != [] {
      IndexedOwnKeys(m, cs[0], parentId);
      IndexedForestOwnKeys(Indexed(m, cs[0], parentId), cs[1..], parentId);
    }
  }

  lemma {:induction false} RecordedAppend(m: map<string, Entry>, xs: seq<Visit>, ys: seq<Visit>)
    ensures Recorded(m, xs + ys) == Recorded(Recorded(m, xs), ys)
    decreases |xs|
  {
    if xs != [] {
      assert (xs + ys)[0] == xs[0] && (xs + ys)[1..] == xs[1..] + ys;
      RecordedAppend(m[xs[0].node.id := EntryOf(xs[0])], xs[1..], ys);
    } else {
      assert xs + ys == ys;
    }
  }

  /** buildIndex writes exactly the entries of the preorder walk, in walk order. */
  lemma {:induction false} IndexedIsRecorded(m: map<string, Entry>, n: Node, ancestors: seq<Node>)
    ensures Indexed(m, n, ParentId(ancestors)) == Recorded(m, Preorder(n, ancestors))
    decreases n
  {
    var rest := PreorderForest(n.children, ancestors + [n]);
    assert ([Visit(n, ancestors)] + rest)[1..] == rest;
    IndexedForestIsRecorded(m[n.id := EntryOf(Visit(n, ancestors))], n.children, ancestors + [n]);
  }

  lemma {:induction false} IndexedForestIsRecorded(m: map<string, Entry>, cs: seq<Node>, ancestors: seq<Node>)
    ensures IndexedForest(m, cs, ParentId(ancestors)) == Recorded(m, PreorderForest(cs, ancestors))
    decreases cs
  {
    if cs != [] {
      IndexedIsRecorded(m, cs[0], ancestors);
      IndexedForestIsRecorded(Indexed(m, cs[0], ParentId(ancestors)), cs[1..], ancestors);
      RecordedAppend(m, Preorder(cs[0], ancestors), PreorderForest(cs[1..], ancestors));
    }
  }

  /** The keys after the writes are the old keys and the ids of the visits. */
  lemma {:induction false} RecordedKeys(m: map<string, Entry>, vs: seq<Visit>)
    ensures Recorded(m, vs).Keys == m.Keys + VisitIds(vs)
    decreases |vs|
  {
    if vs != [] {
      RecordedKeys(m[vs[0].node.id := EntryOf(vs[0])], vs[1..]);
      assert VisitIds(vs) == {vs[0].node.id} + VisitIds(vs[1..]) by {
        forall v | v in vs ensures v == vs[0] || v in vs[1..] {
          var j :| 0 <= j < |vs| && vs[j] == v;
          if j > 0 { assert vs[1..][j - 1] == v; }
        }
      }
    }
  }

  /** An id no visit carries keeps its old entry. */
  lemma {:induction false} RecordedUntouched(m: map<string, Entry>, vs: seq<Visit>, k: string)
    requires forall j :: 0 <= j < |vs| ==> vs[j].node.id != k
    ensures k in Recorded(m, vs) <==> k in m
    ensures k in m ==> Recorded(m, vs)[k] == m[k]
    decreases |vs|
  {
    if vs != [] {
      RecordedUntouched(m[vs[0].node.id := EntryOf(vs[0])], vs[1..], k);
    }
  }

  /** Last write wins: an id's entry is the one of the last visit that carries it. */
  lemma {:induction false} RecordedLast(m: map<string, Entry>, vs: seq<Visit>, j: nat)
    requires j < |vs|
    requires forall j' :: j < j' < |vs| ==> vs[j'].node.id != vs[j].node.id
    ensures vs[j].node.id in Recorded(m, vs)
    ensures Recorded(m, vs)[vs[j].node.id] == EntryOf(vs[j])
    decreases |vs|
  {
    var m' := m[vs[0].node.id := EntryOf(vs[0])];
    if j == 0 {
      RecordedUntouched(m', vs[1..], vs[0].node.id);
    } else {
      RecordedLast(m', vs[1..], j - 1);
    }
  }

  /** Every entry of the index was written for some visit. */
  lemma {:induction false} RecordedFrom(m: map<string, Entry>, vs: seq<Visit>, k: string)
    requires k in Recorded(m, vs)
    ensures (k in m && Recorded(m, vs)[k] == m[k]) || exists v :: v in vs && Recorded(m, vs)[k] == EntryOf(v)
    decreases |vs|
  {
    if vs != [] {
      var m' := m[vs[0].node.id := EntryOf(vs[0])];
      RecordedFrom(m', vs[1..], k);
      if k in m' && Recorded(m', vs[1..])[k] == m'[k] && k == vs[0].node.id {
        assert vs[0] in vs;
      } else if !(k in m' && Recorded(m', vs[1..])[k] == m'[k]) {
        var v :| v in vs[1..] && Recorded(m', vs[1..])[k] == EntryOf(v);
        assert v in vs;
      }
    }
  }

  /** The index's keys are exactly the ids occurring in the tree. */
  lemma IndexKeys(root: Node)
    ensures TreeIndex(root).Keys == VisitIds(Preorder(root, []))
  {
    IndexedIsRecorded(map[], root, []);
    RecordedKeys(map[], Preorder(root, []));
  }

  /**
   * With repeated ids the node visited later in preorder overwrites the
   * earlier entry: an id's entry is that of its last visit.
   */
  lemma IndexLastWriteWins(root: Node, j: nat)
    requires j < |Preorder(root, [])|
    requires forall j' :: j < j' < |Preorder(root, [])| ==> Preorder(root, [])[j'].node.id != Preorder(root, [])[j].node.id
    ensures Preorder(root, [])[j].node.id in TreeIndex(root)
    ensures TreeIndex(root)[Preorder(root, [])[j].node.id] == EntryOf(Preorder(root, [])[j])
  {
    IndexedIsRecorded(map[], root, []);
    RecordedLast(map[], Preorder(root, []), j);
  }

  /** With distinct ids every visited node's id maps to the entry written for it. */
  lemma IndexMatchesTree(root: Node)
    requires DistinctIds(Preorder(root, []))
    ensures forall v :: v in Preorder(root, []) ==> v.node.id in TreeIndex(root) && TreeIndex(root)[v.node.id] == EntryOf(v)
  {
    var vs := Preorder(root, []);
    forall v | v in vs
      ensures v.node.id in TreeIndex(root) && TreeIndex(root)[v.node.id] == EntryOf(v)
    {
      var j :| 0 <= j < |vs| && vs[j] == v;
      IndexLastWriteWins(root, j);
    }
  }

  /**
   * With distinct ids the root's entry has no parent, and every child of every
   * node maps to an entry labelled with the child's title whose parent is the
   * id of that node.
   */
  lemma IndexRecordsParents(root: Node)
    requires DistinctIds(Preorder(root, []))
    ensures root.id in TreeIndex(root) && TreeIndex(root)[root.id] == Entry(root.id, root.title, None, root)
    ensures forall v, c :: v in Preorder(root, []) && c in v.node.children ==>
              c.id in TreeIndex(root) && TreeIndex(root)[c.id] == Entry(c.id, c.title, Some(v.node.id), c)
  {
    var vs := Preorder(root, []);
    IndexMatchesTree(root);
    PreorderCount(root, []);
    assert vs[0] in vs;
    forall v, c | v in vs && c in v.node.children
      ensures c.id in TreeIndex(root) && TreeIndex(root)[c.id] == Entry(c.id, c.title, Some(v.node.id), c)
    {
      PreorderVisitsChildren(root, [], v, c);
    }
  }

  /** Every child of every indexed entry is itself indexed, duplicates or not. */
  lemma TreeIndexChildrenIndexed(root: Node)
    ensures forall k :: k in TreeIndex(root) ==> ChildrenIndexed(TreeIndex(root), TreeIndex(root)[k])
  {
    var vs := Preorder(root, []);
    IndexedIsRecorded(map[], root, []);
    IndexKeys(root);
    forall k | k in TreeIndex(root)
      ensures ChildrenIndexed(TreeIndex(root), TreeIndex(root)[k])
    {
      RecordedFrom(map[], vs, k);
      var v :| v in vs && TreeIndex(root)[k] == EntryOf(v);
      forall c | c in v.node.children
        ensures c.id in TreeIndex(root)
      {
        PreorderVisitsChildren(root, [], v, c);
      }
    }
  }

  /* ---------- page state and outcome ---------- */

  /** What the page shows after the load handler. */
  datatype Outcome = NoTopicSelected | LoadError | TopicNotFound | Found(entry: Entry)

  /**
   * The DOMContentLoaded handler's choice: a missing or empty `id` parameter
   * selects nothing, a failed load is an error, an unknown id is not found.
   * `tree` is None when the fetch or the JSON parse failed.
   */
  function SelectTopic(topicId: Option<string>, tree: Option<Node>): (r: Outcome)
    ensures r == NoTopicSelected <==> topicId.None? || topicId.value == ""
    ensures r == LoadError <==> topicId.Some? && topicId.value != "" && tree.None?
    ensures r.Found? <==> topicId.Some? && topicId.value != "" && tree.Some? && topicId.value in VisitIds(Preorder(tree.value, []))
    ensures r.Found? ==> r.entry.id == topicId.value
  {
    if topicId.None? || topicId.value == "" then NoTopicSelected
    else if tree.None? then LoadError
    else
      IndexKeys(tree.value);
      IndexedOwnKeys(map[], tree.value, None);
      if topicId.value !in TreeIndex(tree.value) then TopicNotFound
      else Found(TreeIndex(tree.value)[topicId.value])
  }

  /** The context panel's message for the outcomes that stop before rendering. */
  function Message(o: Outcome): (r: string)
    ensures r == "<p>No topic selected.</p>" <==> o == NoTopicSelected
    ensures r == "<p>Error loading tree.</p>" <==> o == LoadError
    ensures r == "<p>Topic not found.</p>" <==> o == TopicNotFound
    ensures r == "" <==> o.Found?
  {
    match o
    case NoTopicSelected => "<p>No topic selected.</p>"
    case LoadError => "<p>Error loading tree.</p>"
    case TopicNotFound => "<p>Topic not found.</p>"
    case Found(_) => ""
  }

  /**
   * A page with an id and a loaded tree renders exactly when the id occurs in
   * the tree; with distinct ids the rendered entry is that id's node.
   */
  lemma SelectTopicFound(topicId: string, root: Node)
    requires topicId != ""
    ensures SelectTopic(Some(topicId), Some(root)).Found? <==> topicId in VisitIds(Preorder(root, []))
    ensures SelectTopic(Some(topicId), Some(root)).TopicNotFound? <==> topicId !in VisitIds(Preorder(root, []))
    ensures Message(SelectTopic(Some(topicId), Some(root))) == "<p>Topic not found.</p>" <==> topicId !in VisitIds(Preorder(root, []))
    ensures DistinctIds(Preorder(root, [])) ==>
              forall v :: v in Preorder(root, []) && v.node.id == topicId ==>
                SelectTopic(Some(topicId), Some(root)) == Found(EntryOf(v))
  {
    IndexKeys(root);
    if DistinctIds(Preorder(root, [])) {
      IndexMatchesTree(root);
    }
  }

  /** The page's global state: TREE_INDEX and ACTIVE_NODE. */
  class TopicPage {
    var treeIndex: map<string, Entry>
    var activeNode: Option<Entry>

    constructor ()
      ensures treeIndex == map[] && activeNode == None
    {
      treeIndex := map[];
      activeNode := None;
    }

    /** buildIndex: writes the node's entry, then recurses into its children in order. */
    method BuildIndex(node: Node, parentId: Option<string>)
      modifies this
      ensures treeIndex == Indexed(old(treeIndex), node, parentId)
      ensures activeNode == old(activeNode)
      decreases node
    {
      treeIndex := treeIndex[node.id := Entry(node.id, node.title, parentId, node)];
      var i := 0;
      while i < |node.children|
        invariant 0 <= i <= |node.children|
        invariant IndexedForest(treeIndex, node.children[i..], Some(node.id)) == Indexed(old(treeIndex), node, parentId)
        invariant activeNode == old(activeNode)
      {
        assert node.children[i..][1..] == node.children[i + 1..];
        BuildIndex(node.children[i], Some(node.id));
        i := i + 1;
      }
    }

    /** The load handler: index the tree, then look up the active entry. */
    method Open(topicId: Option<string>, tree: Option<Node>) returns (outcome: Outcome)
      requires treeIndex == map[]
      modifies this
      ensures outcome == SelectTopic(topicId, tree)
      ensures outcome.Found? ==> treeIndex == TreeIndex(tree.value) && activeNode == Some(outcome.entry)
      ensures outcome == NoTopicSelected || outcome == LoadError ==> treeIndex == old(treeIndex) && activeNode == old(activeNode)
      ensures outcome == TopicNotFound ==> treeIndex == TreeIndex(tree.value) && activeNode == None
    {
      if topicId.None? || topicId.value == "" {
        return NoTopicSelected;
      }
      if tree.None? {
        return LoadError;
      }
      BuildIndex(tree.value, None);
      if topicId.value !in treeIndex {
        activeNode := None;
        return TopicNotFound;
      }
      activeNode := Some(treeIndex[topicId.value]);
      outcome := Found(treeIndex[topicId.value]);
    }
  }

  /* ---------- breadcrumb ---------- */

  /** JS truthiness of `entry.parent`: a missing or empty parent id counts as none. */
  predicate HasParent(e: Entry)
  {
    e.parent.Some? && e.parent.value != ""
  }

  /** One step up: `current.parent ? TREE_INDEX[current.parent] : null`, undefined when not indexed. */
  function Up(idx: map<string, Entry>, e: Entry): (r: Option<Entry>)
    ensures r.Some? <==> HasParent(e) && e.parent.value in idx
    ensures r.Some? && OwnKeys(idx) ==> r.value.id == e.parent.value
  {
    if HasParent(e) && e.parent.value in idx then Some(idx[e.parent.value]) else None
  }

  /** Following parents from `e` reaches an entry without one in at most `h` steps. */
  ghost predicate RootWithin(idx: map<string, Entry>, e: Entry, h: nat)
    decreases h
  {
    Up(idx, e).None? || (h > 0 && RootWithin(idx, Up(idx, e).value, h - 1))
  }

  /** A breadcrumb path: it starts at an entry without a parent, ends at `active`, and each element is the parent of the next. */
  predicate IsBreadcrumb(idx: map<string, Entry>, active: Entry, path: seq<Entry>)
  {
    && |path| >= 1
    && path[|path| - 1] == active
    && Up(idx, path[0]).None?
    && forall i :: 0 <= i < |path| - 1 ==> Up(idx, path[i + 1]) == Some(path[i])
  }

  lemma BreadcrumbLink(idx: map<string, Entry>, active: Entry, path: seq<Entry>, i: nat)
    requires IsBreadcrumb(idx, active, path) && i < |path| - 1
    ensures Up(idx, path[i + 1]) == Some(path[i])
  {
  }

  /** The element before the active entry is the active entry's parent. */
  lemma BreadcrumbLast(idx: map<string, Entry>, active: Entry, path: seq<Entry>)
    requires IsBreadcrumb(idx, active, path)
    ensures |path| > 1 ==> Up(idx, active) == Some(path[|path| - 2])
  {
    if |path| > 1 {
      BreadcrumbLink(idx, active, path, |path| - 2);
    }
  }

  /** renderBreadcrumb's loop: unshift the current entry and move to its parent until there is none. */
  method Breadcrumb(idx: map<string, Entry>, active: Entry, ghost height: nat) returns (path: seq<Entry>)
    requires RootWithin(idx, active, height)
    ensures IsBreadcrumb(idx, active, path)
  {
    path := [];
    var current := Some(active);
    ghost var left := height;
    while current.Some?
      invariant current.Some? ==> RootWithin(idx, current.value, left)
      invariant path == [] ==> current == Some(active)
      invariant path != [] ==> path[|path| - 1] == active && Up(idx, path[0]) == current
      invariant forall i :: 0 <= i < |path| - 1 ==> Up(idx, path[i + 1]) == Some(path[i])
      decreases if current.Some? then left + 1 else 0
    {
      path := [current.value] + path;
      left := if Up(idx, current.value).Some? then left - 1 else left;
      current := Up(idx, current.value);
    }
  }

  /**
   * On the index of a tree with distinct ids, one step up from a node's entry
   * gives its structural parent's entry; the root, and a node whose parent's
   * id is empty (falsy), have none.
   */
  lemma TreeUp(root: Node, v: Visit)
    requires DistinctIds(Preorder(root, [])) && v in Preorder(root, [])
    ensures v.ancestors == [] ==> Up(TreeIndex(root), EntryOf(v)).None?
    ensures var a := v.ancestors;
            a != [] && a[|a| - 1].id == "" ==> Up(TreeIndex(root), EntryOf(v)).None?
    ensures var a := v.ancestors;
            a != [] && a[|a| - 1].id != "" ==>
              && Visit(a[|a| - 1], a[..|a| - 1]) in Preorder(root, [])
              && Up(TreeIndex(root), EntryOf(v)) == Some(EntryOf(Visit(a[|a| - 1], a[..|a| - 1])))
  {
    var a := v.ancestors;
    if a != [] {
      PreorderAncestorsExtend(root, [], v);
      PreorderVisitsAncestors(root, [], v, |a| - 1);
      IndexMatchesTree(root);
    }
  }

  /** The entry of every node of a tree with distinct ids reaches a root within its depth. */
  lemma {:induction false} TreeRootWithin(root: Node, v: Visit)
    requires DistinctIds(Preorder(root, []))
    requires v in Preorder(root, [])
    ensures RootWithin(TreeIndex(root), EntryOf(v), |v.ancestors|)
    decreases |v.ancestors|
  {
    var a := v.ancestors;
    TreeUp(root, v);
    if a != [] && a[|a| - 1].id != "" {
      TreeRootWithin(root, Visit(a[|a| - 1], a[..|a| - 1]));
    }
  }

  /**
   * On the index of a tree with distinct, non-empty ids, the breadcrumb of a
   * node holds the entries of its ancestors from the root down, then its own:
   * its length is the node's depth, with the root at depth 1.
   */
  lemma {:induction false} TreeBreadcrumb(root: Node, v: Visit, path: seq<Entry>)
    requires DistinctIds(Preorder(root, [])) && NonEmptyIds(Preorder(root, []))
    requires v in Preorder(root, [])
    requires IsBreadcrumb(TreeIndex(root), EntryOf(v), path)
    ensures |path| == |v.ancestors| + 1
    ensures forall k :: 0 <= k < |v.ancestors| ==> path[k] == EntryOf(Visit(v.ancestors[k], v.ancestors[..k]))
    ensures path[0] == EntryOf(Visit(root, []))
    decreases |v.ancestors|
  {
    var idx := TreeIndex(root);
    var a := v.ancestors;
    PreorderAncestorsExtend(root, [], v);
    PreorderCount(root, []);
    if a == [] {
      BreadcrumbLast(idx, EntryOf(v), path);
      if |path| > 1 {
        assert false;
      }
    } else {
      var w := Visit(a[|a| - 1], a[..|a| - 1]);
      PreorderVisitsAncestors(root, [], v, |a| - 1);
      IndexMatchesTree(root);
      assert Up(idx, EntryOf(v)) == Some(EntryOf(w));
      var prefix := path[..|path| - 1];
      assert IsBreadcrumb(idx, EntryOf(w), prefix);
      TreeBreadcrumb(root, w, prefix);
      forall k | 0 <= k < |a|
        ensures path[k] == EntryOf(Visit(a[k], a[..k]))
      {
        if k < |a| - 1 {
          assert w.ancestors[k] == a[k] && w.ancestors[..k] == a[..k];
        }
      }
    }
  }

  /**
   * With a repeated id the parent links can form a cycle, and then the
   * breadcrumb loop never ends: in the tree x -> y -> x the index maps x to the
   * inner node (parent y) and y to a node whose parent is x.
   */
  lemma RepeatedIdsCycle(h: nat)
    ensures var none := Context(None, None, None);
            var root := Node("x", "A", [Node("y", "B", [Node("x", "C", [], none)], none)], none);
            && "x" in TreeIndex(root)
            && !RootWithin(TreeIndex(root), TreeIndex(root)["x"], h)
  {
    var none := Context(None, None, None);
    var inner := Node("x", "C", [], none);
    var middle := Node("y", "B", [inner], none);
    var root := Node("x", "A", [middle], none);
    var m1 := map["x" := Entry("x", "A", None, root)];
    var m2 := m1["y" := Entry("y", "B", Some("x"), middle)];
    var m3 := m2["x" := Entry("x", "C", Some("y"), inner)];
    assert Indexed(m2, inner, Some("y")) == m3;
    assert IndexedForest(m2, [inner], Some("y")) == m3;
    assert Indexed(m1, middle, Some("x")) == m3;
    assert IndexedForest(m1, [middle], Some("x")) == m3;
    assert TreeIndex(root) == m3;
    CycleNeverReachesRoot(m3, h);
  }

  lemma {:induction false} CycleNeverReachesRoot(idx: map<string, Entry>, h: nat)
    requires "x" in idx && "y" in idx
    requires idx["x"].parent == Some("y") && idx["y"].parent == Some("x")
    ensures !RootWithin(idx, idx["x"], h) && !RootWithin(idx, idx["y"], h)
  {
    if h > 0 {
      CycleNeverReachesRoot(idx, h - 1);
    }
  }

  /** A breadcrumb element that is not the last: a link to the entry's topic. */
  function LinkItem(e: Entry): string
  {
    "<a href=\"" + TopicLink(e.id) + "\">" + e.text + "</a>"
  }

  /** The last breadcrumb element: plain bold text. */
  function CurrentItem(e: Entry): string
  {
    "<strong>" + e.text + "</strong>"
  }

  const CRUMB_SEPARATOR: string := " &gt; "

  /** renderBreadcrumb's markup: path.map(last ? bold : link).join(" &gt; "). */
  function BreadcrumbHtml(path: seq<Entry>): (r: string)
    ensures path == [] ==> r == ""
    ensures |path| > 1 ==> LinkItem(path[0]) + CRUMB_SEPARATOR <= r
    ensures path != [] ==> var last := CurrentItem(path[|path| - 1]);
              |last| <= |r| && r[|r| - |last|..] == last
  {
    var items := seq(|path|, i requires 0 <= i < |path| => if i == |path| - 1 then CurrentItem(path[i]) else LinkItem(path[i]));
    if items == [] then Join(items, CRUMB_SEPARATOR)
    else JoinEndsWithLast(items, CRUMB_SEPARATOR); Join(items, CRUMB_SEPARATOR)
  }

  function Links(es: seq<Entry>): seq<string>
  {
    seq(|es|, i requires 0 <= i < |es| => LinkItem(es[i]))
  }

  /**
   * The breadcrumb markup is the links of every element but the last, joined by
   * " &gt; ", then the separator and the last element in bold.
   */
  lemma BreadcrumbHtmlShape(path: seq<Entry>)
    requires |path| >= 1
    ensures |path| == 1 ==> BreadcrumbHtml(path) == CurrentItem(path[0])
    ensures |path| > 1 ==>
              BreadcrumbHtml(path) == Join(Links(path[..|path| - 1]), CRUMB_SEPARATOR) + CRUMB_SEPARATOR + CurrentItem(path[|path| - 1])
  {
    var items := seq(|path|, i requires 0 <= i < |path| => if i == |path| - 1 then CurrentItem(path[i]) else LinkItem(path[i]));
    if |path| > 1 {
      assert items == Links(path[..|path| - 1]) + [CurrentItem(path[|path| - 1])];
      JoinSnoc(Links(path[..|path| - 1]), CurrentItem(path[|path| - 1]), CRUMB_SEPARATOR);
    }
  }

  /**
   * A root "Root" with one child "A", focused on "a": the breadcrumb is a link
   * to the root followed by "A" in bold, the map has the root as parent and no
   * children.
   */
  lemma RootAndChildScenario(path: seq<Entry>)
    requires var none := Context(None, None, None);
             var root := Node("root", "Root", [Node("a", "A", [], none)], none);
             "a" in TreeIndex(root) && IsBreadcrumb(TreeIndex(root), TreeIndex(root)["a"], path)
    ensures |path| == 2 && path[0].id == "root" && path[1].id == "a"
    ensures BreadcrumbHtml(path) == LinkItem(path[0]) + CRUMB_SEPARATOR + CurrentItem(path[1])
    ensures var none := Context(None, None, None);
            var root := Node("root", "Root", [Node("a", "A", [], none)], none);
            && Up(TreeIndex(root), TreeIndex(root)["a"]) == Some(Entry("root", "Root", None, root))
            && TreeIndex(root)["a"].raw.children == []
  {
    var none := Context(None, None, None);
    var a := Node("a", "A", [], none);
    var root := Node("root", "Root", [a], none);
    assert [] + [root] == [root];
    assert PreorderForest([], [root] + [a]) == [];
    assert Preorder(a, [root]) == [Visit(a, [root])];
    assert PreorderForest([a], [root]) == [Visit(a, [root])];
    assert Preorder(root, []) == [Visit(root, []), Visit(a, [root])];
    IndexMatchesTree(root);
    assert Visit(a, [root]) in Preorder(root, []);
    TreeBreadcrumb(root, Visit(a, [root]), path);
    assert path == [Entry("root", "Root", None, root), Entry("a", "A", Some("root"), a)];
    BreadcrumbHtmlShape(path);
    assert Links(path[..1]) == [LinkItem(path[0])];
    assert Join(Links(path[..1]), CRUMB_SEPARATOR) == LinkItem(path[0]);
  }

  /* ---------- context panel ---------- */

  /** The sections renderContext writes, in order. */
  datatype Section =
    | Heading(text: string)
    | Definition(text: string)
    | Role(text: string)
    | References(refs: seq<Reference>)

  const NO_DEFINITION: string := "No definition available."

  /** renderContext: the label, the definition or its fallback, then the role and the references when present. */
  function ContextPanel(e: Entry): (s: seq<Section>)
    ensures |s| >= 2 && s[0] == Heading(e.text) && s[1].Definition?
    ensures var d := e.raw.context.definition; d.Some? && d.value != "" ==> s[1] == Definition(d.value)
    ensures var d := e.raw.context.definition; d.None? || d.value == "" ==> s[1] == Definition(NO_DEFINITION)
  {
    var ctx := e.raw.context;
    [Heading(e.text),
     Definition(if ctx.definition.Some? && ctx.definition.value != "" then ctx.definition.value else NO_DEFINITION)]
    + (if ctx.role.Some? && ctx.role.value != "" then [Role(ctx.role.value)] else [])
    + (if ctx.references.Some? then [References(ctx.references.value)] else [])
  }

  /**
   * A missing or empty definition shows the fallback text; a missing or empty
   * role is omitted; the references are omitted exactly when the list is
   * missing (an empty list still gets its heading).
   */
  lemma ContextPanelOmitsAbsent(e: Entry, role: string, refs: seq<Reference>)
    ensures var ctx := e.raw.context;
            ContextPanel(e)[1].text == NO_DEFINITION <==> (ctx.definition.None? || ctx.definition.value in {"", NO_DEFINITION})
    ensures Role(role) in ContextPanel(e) <==> (e.raw.context.role == Some(role) && role != "")
    ensures References(refs) in ContextPanel(e) <==> e.raw.context.references == Some(refs)
  {
  }

  /* ---------- layout ---------- */

  const CENTER_X: real := 600.0
  const CENTER_Y: real := 400.0
  const LEVEL_GAP_X: real := 260.0
  const LEVEL_GAP_Y: real := 100.0
  const CHAR_WIDTH: real := 7.2
  const PADDING_X: real := 20.0
  const MIN_BOX_WIDTH: real := 140.0
  const MAX_BOX_WIDTH: real := 300.0

  /**
   * drawNode's box width: the estimated text width (7.2 per UTF-16 code unit
   * of the label) plus padding, clamped into [140, 300].
   */
  function BoxWidth(text: string): (w: real)
    ensures MIN_BOX_WIDTH <= w <= MAX_BOX_WIDTH
  {
    Min(Max(Utf16Length(text) as real * CHAR_WIDTH + PADDING_X * 2.0, MIN_BOX_WIDTH), MAX_BOX_WIDTH)
  }

  /**
   * The width depends on the label's UTF-16 length only, never shrinks as the
   * label grows, and is 140 up to 13 code units, 300 from 37 on, 7.2 per code
   * unit plus 40 in between.
   */
  lemma BoxWidthByLength(a: string, b: string)
    ensures Utf16Length(a) == Utf16Length(b) ==> BoxWidth(a) == BoxWidth(b)
    ensures Utf16Length(a) <= Utf16Length(b) ==> BoxWidth(a) <= BoxWidth(b)
    ensures Utf16Length(a) <= 13 ==> BoxWidth(a) == MIN_BOX_WIDTH
    ensures Utf16Length(a) >= 37 ==> BoxWidth(a) == MAX_BOX_WIDTH
    ensures 14 <= Utf16Length(a) <= 36 ==> BoxWidth(a) == Utf16Length(a) as real * 7.2 + 40.0
  {
  }

  /** A JS number that may be NaN, for arithmetic on a possibly undefined width. */
  datatype Num = Finite(value: real) | NaN

  function Plus(a: real, b: Num): Num
  {
    if b.Finite? then Finite(a + b.value) else NaN
  }

  function Half(a: Num): Num
  {
    if a.Finite? then Finite(a.value / 2.0) else NaN
  }

  function Negate(a: Num): Num
  {
    if a.Finite? then Finite(-a.value) else NaN
  }

  function Mean(a: Num, b: Num): Num
  {
    if a.Finite? && b.Finite? then Finite((a.value + b.value) / 2.0) else NaN
  }

  /** What drawNode returns, or any object passed to drawCurve: a centre and a width that may be undefined. */
  datatype Anchor = Anchor(x: real, y: real, boxWidth: Num)

  /** The elements the map draws. */
  datatype Shape =
    | NodeBox(link: string, text: string, x: real, y: real, width: real, isActive: bool)
    | Curve(startX: Num, startY: real, controlX: Num, controlY: real, endX: Num, endY: real)

  /** drawNode: a box centred at (x, y), sized from the label, linking to the entry's topic. */
  function DrawNode(e: Entry, x: real, y: real, isActive: bool): (b: Shape)
    ensures b.NodeBox? && b.link == TopicLink(e.id) && b.text == e.text && b.isActive == isActive
    ensures AnchorOf(b) == Anchor(x, y, Finite(BoxWidth(e.text)))
    ensures MIN_BOX_WIDTH <= b.width <= MAX_BOX_WIDTH
  {
    NodeBox(TopicLink(e.id), e.text, x, y, BoxWidth(e.text), isActive)
  }

  function AnchorOf(b: Shape): Anchor
    requires b.NodeBox?
  {
    Anchor(b.x, b.y, Finite(b.width))
  }

  /** drawCurve: a quadratic curve from the right edge of `from` to the left edge of `to`. */
  function DrawCurve(from: Anchor, to: Anchor): (c: Shape)
    ensures c.Curve? && c.startY == from.y && c.controlY == from.y && c.endY == to.y
  {
    var startX := Plus(from.x, Half(from.boxWidth));
    var endX := Plus(to.x, Negate(Half(to.boxWidth)));
    Curve(startX, from.y, Mean(startX, endX), from.y, endX, to.y)
  }

  /**
   * Between two drawn boxes the curve starts at the first box's right edge,
   * ends at the second box's left edge, and its control point sits halfway
   * between them at the first box's height.
   */
  lemma CurveJoinsFacingEdges(a: Shape, b: Shape)
    requires a.NodeBox? && b.NodeBox?
    ensures DrawCurve(AnchorOf(a), AnchorOf(b)).startX == Finite(a.x + a.width / 2.0)
    ensures DrawCurve(AnchorOf(a), AnchorOf(b)).endX == Finite(b.x - b.width / 2.0)
    ensures DrawCurve(AnchorOf(a), AnchorOf(b)).controlX == Finite((a.x + a.width / 2.0 + b.x - b.width / 2.0) / 2.0)
    ensures DrawCurve(AnchorOf(a), AnchorOf(b)).controlY == a.y
  {
  }

  /** A target whose width is undefined (as ACTIVE_NODE.boxWidth is) gives a NaN end and control point. */
  lemma CurveToUndefinedWidth(from: Anchor, x: real, y: real)
    ensures DrawCurve(from, Anchor(x, y, NaN)).endX == NaN
    ensures DrawCurve(from, Anchor(x, y, NaN)).controlX == NaN
  {
  }

  /** The vertical centre of child i of n: symmetric around the focused node, 100 apart. */
  function ChildY(i: nat, n: nat): real
  {
    CENTER_Y + (i as real - (n as real - 1.0) / 2.0) * LEVEL_GAP_Y
  }

  /** Children are 100 apart in input order and placed symmetrically around the focused node. */
  lemma ChildYSpacing(i: nat, n: nat)
    ensures ChildY(i + 1, n) == ChildY(i, n) + LEVEL_GAP_Y
    ensures i < n ==> ChildY(i, n) + ChildY(n - 1 - i, n) == 2.0 * CENTER_Y
  {
  }

  /** The sum of the first k offsets (ChildY(i, n) - CENTER_Y, for i < k). */
  function OffsetSum(k: nat, n: nat): real
  {
    if k == 0 then 0.0 else OffsetSum(k - 1, n) + (ChildY(k - 1, n) - CENTER_Y)
  }

  lemma {:induction false} OffsetSumClosed(k: nat, n: nat)
    ensures OffsetSum(k, n) == (k as real * (k as real - 1.0) / 2.0 - k as real * (n as real - 1.0) / 2.0) * LEVEL_GAP_Y
  {
    if k > 0 {
      OffsetSumClosed(k - 1, n);
    }
  }

  /** The children's offsets from the focused node sum to zero. */
  lemma ChildOffsetsSumToZero(n: nat)
    ensures OffsetSum(n, n) == 0.0
  {
    OffsetSumClosed(n, n);
  }

  /** Every child of the entry has an entry (true of every index the page builds). */
  predicate ChildrenIndexed(idx: map<string, Entry>, e: Entry)
  {
    forall c :: c in e.raw.children ==> c.id in idx
  }

  /** The position of the drawn active box in renderMap's output. */
  function ActiveSlot(idx: map<string, Entry>, active: Entry): nat
  {
    if Up(idx, active).Some? then 2 else 0
  }

  /** Child i's box and curve as renderMap draws them. */
  predicate ChildDrawn(idx: map<string, Entry>, active: Entry, drawn: seq<Shape>, i: nat)
    requires ChildrenIndexed(idx, active) && i < |active.raw.children|
  {
    var k := ActiveSlot(idx, active);
    var n := |active.raw.children|;
    var box := DrawNode(idx[active.raw.children[i].id], CENTER_X + LEVEL_GAP_X, ChildY(i, n), false);
    && k + 2 * i + 2 < |drawn|
    && drawn[k + 2 * i + 1] == box
    && drawn[k + 2 * i + 2] == DrawCurve(Anchor(CENTER_X, CENTER_Y, Finite(BoxWidth(active.text))), AnchorOf(box))
  }

  /**
   * renderMap: the parent box at (cx - 260, cy) and a curve towards the active
   * node when the entry has an indexed parent, the active box at (cx, cy), then
   * for each child in input order its box at (cx + 260, ChildY) and a curve
   * from the active box to it.
   */
  method RenderMap(idx: map<string, Entry>, active: Entry) returns (drawn: seq<Shape>)
    requires ChildrenIndexed(idx, active)
    ensures |drawn| == ActiveSlot(idx, active) + 1 + 2 * |active.raw.children|
    ensures Up(idx, active).Some? ==>
              && drawn[0] == DrawNode(Up(idx, active).value, CENTER_X - LEVEL_GAP_X, CENTER_Y, false)
              && drawn[1] == DrawCurve(AnchorOf(drawn[0]), Anchor(CENTER_X, CENTER_Y, NaN))
    ensures drawn[ActiveSlot(idx, active)] == DrawNode(active, CENTER_X, CENTER_Y, true)
    ensures forall i :: 0 <= i < |active.raw.children| ==> ChildDrawn(idx, active, drawn, i)
  {
    var children := seq(|active.raw.children|, i requires 0 <= i < |active.raw.children| => idx[active.raw.children[i].id]);
    drawn := [];
    var parent := Up(idx, active);
    if parent.Some? {
      var parentBox := DrawNode(parent.value, CENTER_X - LEVEL_GAP_X, CENTER_Y, false);
      drawn := drawn + [parentBox, DrawCurve(AnchorOf(parentBox), Anchor(CENTER_X, CENTER_Y, NaN))];
    }
    var activeBox := DrawNode(active, CENTER_X, CENTER_Y, true);
    drawn := drawn + [activeBox];
    var i := 0;
    while i < |children|
      invariant 0 <= i <= |children|
      invariant |drawn| == ActiveSlot(idx, active) + 1 + 2 * i
      invariant parent.Some? ==>
                  && drawn[0] == DrawNode(parent.value, CENTER_X - LEVEL_GAP_X, CENTER_Y, false)
                  && drawn[1] == DrawCurve(AnchorOf(drawn[0]), Anchor(CENTER_X, CENTER_Y, NaN))
      invariant drawn[ActiveSlot(idx, active)] == activeBox
      invariant forall j :: 0 <= j < i ==> ChildDrawn(idx, active, drawn, j)
    {
      var childBox := DrawNode(children[i], CENTER_X + LEVEL_GAP_X, ChildY(i, |children|), false);
      ghost var before := drawn;
      drawn := drawn + [childBox, DrawCurve(AnchorOf(activeBox), AnchorOf(childBox))];
      forall j | 0 <= j < i
        ensures ChildDrawn(idx, active, drawn, j)
      {
        assert ChildDrawn(idx, active, before, j);
      }
      i := i + 1;
    }
  }
}
