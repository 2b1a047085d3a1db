/**
 * The index page (assets/js/index-map.js): the flat search index of the
 * tree, the search box's filter, the first-level map (the root and its
 * children) and the zoom/pan state driven by wheel and mouse events.
 */
module IndexMap {
  import opened Trees

  /* ---------- search index ---------- */

  /** An element of SEARCH_INDEX: {id, title, path}. */
  datatype SearchEntry = SearchEntry(id: string, title: string, path: string)

  /**
   * The separator the path is joined with, as the script's text has it: the
   * UTF-8 bytes of a right arrow read as Windows-1252 (" â†’ ").
   */
  const PATH_SEPARATOR: string := " \U{E2}\U{2020}\U{2019} "

  /**
   * The entries buildSearchIndex(n, path) pushes: the node's own entry, whose
   * path is `path` plus its title, then each child's subtree in input order.
   */
  function SearchEntries(n: Node, path: seq<string>): seq<SearchEntry>
    decreases n
  {
    [SearchEntry(n.id, n.title, Join(path + [n.title], PATH_SEPARATOR))]
    + SearchEntriesForest(n.children, path + [n.title])
  }

  function SearchEntriesForest(cs: seq<Node>, path: seq<string>): seq<SearchEntry>
    decreases cs
  {
    if cs == [] then [] else SearchEntries(cs[0], path) + SearchEntriesForest(cs[1..], path)
  }

  /** The entry of a visit: its id and title, and the titles from the root to it, joined. */
  function SearchEntryOf(v: Visit): SearchEntry
  {
    SearchEntry(v.node.id, v.node.title, Join(Titles(v.ancestors) + [v.node.title], PATH_SEPARATOR))
  }

  /** buildSearchIndex pushes one entry per visit of the preorder walk, in walk order. */
  lemma {:induction false} SearchEntriesFollowPreorder(n: Node, ancestors: seq<Node>)
    ensures |SearchEntries(n, Titles(ancestors))| == |Preorder(n, ancestors)|
    ensures forall j :: 0 <= j < |Preorder(n, ancestors)| ==>
              SearchEntries(n, Titles(ancestors))[j] == SearchEntryOf(Preorder(n, ancestors)[j])
    decreases n
  {
    assert Titles(ancestors + [n]) == Titles(ancestors) + [n.title];
    SearchEntriesForestFollowPreorder(n.children, ancestors + [n]);
  }

  lemma {:induction false} SearchEntriesForestFollowPreorder(cs: seq<Node>, ancestors: seq<Node>)
    ensures |SearchEntriesForest(cs, Titles(ancestors))| == |PreorderForest(cs, ancestors)|
    ensures forall j :: 0 <= j < |PreorderForest(cs, ancestors)| ==>
              SearchEntriesForest(cs, Titles(ancestors))[j] == SearchEntryOf(PreorderForest(cs, ancestors)[j])
    decreases cs
  {
    if cs != [] {
      SearchEntriesFollowPreorder(cs[0], ancestors);
      SearchEntriesForestFollowPreorder(cs[1..], ancestors);
    }
  }

  /**
   * The search index of a tree has one entry per node, in preorder (the root
   * first, whose path is its own title), and a child's path is its parent's
   * path, the separator and the child's title.
   */
  lemma SearchIndexOfTree(root: Node)
    ensures |SearchEntries(root, [])| == |Preorder(root, [])| == Count(root)
    ensures forall j :: 0 <= j < |Preorder(root, [])| ==> SearchEntries(root, [])[j] == SearchEntryOf(Preorder(root, [])[j])
    ensures SearchEntries(root, [])[0] == SearchEntry(root.id, root.title, root.title)
    ensures forall v, c :: v in Preorder(root, []) && c in v.node.children ==>
              && SearchEntryOf(Visit(c, v.ancestors + [v.node])) in SearchEntries(root, [])
              && SearchEntryOf(Visit(c, v.ancestors + [v.node])).path == SearchEntryOf(v).path + PATH_SEPARATOR + c.title
  {
    var vs := Preorder(root, []);
    assert Titles([]) == [];
    SearchEntriesFollowPreorder(root, []);
    PreorderCount(root, []);
    forall v, c | v in vs && c in v.node.children
      ensures && SearchEntryOf(Visit(c, v.ancestors + [v.node])) in SearchEntries(root, [])
              && SearchEntryOf(Visit(c, v.ancestors + [v.node])).path == SearchEntryOf(v).path + PATH_SEPARATOR + c.title
    {
      PreorderVisitsChildren(root, [], v, c);
      var j :| 0 <= j < |vs| && vs[j] == Visit(c, v.ancestors + [v.node]);
      assert SearchEntries(root, [])[j] == SearchEntryOf(Visit(c, v.ancestors + [v.node]));
      assert Titles(v.ancestors + [v.node]) == Titles(v.ancestors) + [v.node.title];
      JoinSnoc(Titles(v.ancestors) + [v.node.title], c.title, PATH_SEPARATOR);
    }
  }

  /** The page's SEARCH_INDEX. */
  class IndexPage {
    var searchIndex: seq<SearchEntry>

    constructor ()
      ensures searchIndex == []
    {
      searchIndex := [];
    }

    /** buildSearchIndex: pushes the node's entry, then recurses into its children in order; nothing is overwritten. */
    method BuildSearchIndex(node: Node, path: seq<string>)
      modifies this
      ensures searchIndex == old(searchIndex) + SearchEntries(node, path)
      decreases node
    {
      var currentPath := path + [node.title];
      searchIndex := searchIndex + [SearchEntry(node.id, node.title, Join(currentPath, PATH_SEPARATOR))];
      var i := 0;
      while i < |node.children|
        invariant 0 <= i <= |node.children|
        invariant old(searchIndex) + SearchEntries(node, path)
                  == searchIndex + SearchEntriesForest(node.children[i..], currentPath)
      {
        assert node.children[i..][1..] == node.children[i + 1..];
        BuildSearchIndex(node.children[i], currentPath);
        i := i + 1;
      }
      assert node.children[i..] == [];
    }
  }

  /* ---------- search box ---------- */

  const MIN_QUERY_LENGTH: nat := 2
  const MAX_RESULTS: nat := 12

  /** The query as the input handler reads it: lower-cased, then trimmed. */
  function Normalize(raw: string): (q: string)
    ensures NoCapital(q)
    ensures q == [] || (!IsSpace(q[0]) && !IsSpace(q[|q| - 1]))
    ensures |q| <= |raw|
  {
    var lowered := Lower(raw);
    var start := |lowered| - |TrimStart(lowered)|;
    LowerNoCapital(raw);
    SliceNoCapital(lowered, start, start + |Trim(lowered)|);
    Trim(lowered)
  }

  /** An entry matches when its lower-cased title contains the query. */
  predicate Matches(e: SearchEntry, q: string)
  {
    Contains(Lower(e.title), q)
  }

  /** Array.prototype.filter with Matches. */
  function Filter(xs: seq<SearchEntry>, q: string): (r: seq<SearchEntry>)
    ensures |r| <= |xs|
    ensures forall e :: e in r ==> e in xs && Matches(e, q)
    ensures forall i :: 0 <= i < |xs| && Matches(xs[i], q) ==> xs[i] in r
  {
    if xs == [] then []
    else (if Matches(xs[0], q) then [xs[0]] else []) + Filter(xs[1..], q)
  }

  /** Array.prototype.slice(0, n). */
  function Take(xs: seq<SearchEntry>, n: nat): (r: seq<SearchEntry>)
    ensures |r| == if |xs| <= n then |xs| else n
    ensures r == xs[..|r|]
  {
    if |xs| <= n then xs else xs[..n]
  }

  /** The input handler's result list. */
  function Search(index: seq<SearchEntry>, raw: string): (r: seq<SearchEntry>)
    ensures |r| <= MAX_RESULTS
    ensures forall e :: e in r ==> e in index && Matches(e, Normalize(raw))
    ensures Utf16Length(Normalize(raw)) < MIN_QUERY_LENGTH ==> r == []
  {
    var q := Normalize(raw);
    if Utf16Length(q) < MIN_QUERY_LENGTH then [] else Take(Filter(index, q), MAX_RESULTS)
  }

  lemma {:induction false} FilterAppend(xs: seq<SearchEntry>, ys: seq<SearchEntry>, q: string)
    ensures Filter(xs + ys, q) == Filter(xs, q) + Filter(ys, q)
    decreases |xs|
  {
    if xs == [] {
      assert xs + ys == ys;
    } else {
      assert (xs + ys)[0] == xs[0] && (xs + ys)[1..] == xs[1..] + ys;
      FilterAppend(xs[1..], ys, q);
    }
  }

  /**
   * The results are the earliest matches in index order: a matching entry
   * preceded by fewer than 12 matches is shown at the position given by their
   * number, and when 12 or more matches precede it the results are the first
   * 12 of those. There are min(12, matches) results.
   */
  lemma SearchShowsEarliestMatches(index: seq<SearchEntry>, raw: string, j: nat)
    requires Utf16Length(Normalize(raw)) >= MIN_QUERY_LENGTH
    requires j < |index| && Matches(index[j], Normalize(raw))
    ensures var before := |Filter(index[..j], Normalize(raw))|;
            before < MAX_RESULTS ==> before < |Search(index, raw)| && Search(index, raw)[before] == index[j]
    ensures var before := Filter(index[..j], Normalize(raw));
            |before| >= MAX_RESULTS ==> Search(index, raw) == before[..MAX_RESULTS]
    ensures |Search(index, raw)| == if |Filter(index, Normalize(raw))| < MAX_RESULTS then |Filter(index, Normalize(raw))| else MAX_RESULTS
  {
    var q := Normalize(raw);
    assert Search(index, raw) == Take(Filter(index, q), MAX_RESULTS);
    FirstResultsAreEarliest(index, q, j);
  }

  /** The first 12 matches of the index, stated for an already normalized query. */
  lemma FirstResultsAreEarliest(index: seq<SearchEntry>, q: string, j: nat)
    requires j < |index| && Matches(index[j], q)
    ensures var before := |Filter(index[..j], q)|;
            before < MAX_RESULTS ==> before < |Take(Filter(index, q), MAX_RESULTS)| && Take(Filter(index, q), MAX_RESULTS)[before] == index[j]
    ensures var before := Filter(index[..j], q);
            |before| >= MAX_RESULTS ==> Take(Filter(index, q), MAX_RESULTS) == before[..MAX_RESULTS]
  {
    var before := Filter(index[..j], q);
    FilterAround(index, j, q);
    var all := Filter(index, q);
    assert all[|before|] == index[j];
    if |before| >= MAX_RESULTS {
      assert all[..MAX_RESULTS] == before[..MAX_RESULTS];
    }
  }

  /** A matching entry sits in the filtered list right after the matches before it. */
  lemma FilterAround(index: seq<SearchEntry>, j: nat, q: string)
    requires j < |index| && Matches(index[j], q)
    ensures Filter(index, q) == Filter(index[..j], q) + [index[j]] + Filter(index[j + 1..], q)
  {
    assert index == index[..j] + [index[j]] + index[j + 1..];
    FilterAppend(index[..j] + [index[j]], index[j + 1..], q);
    FilterAppend(index[..j], [index[j]], q);
    assert Filter([index[j]], q) == [index[j]];
  }

  /** No ASCII capital letter occurs in `s`. */
  predicate NoCapital(s: string)
  {
    forall i :: 0 <= i < |s| ==> !('A' <= s[i] <= 'Z')
  }

  lemma LowerNoCapital(s: string)
    ensures NoCapital(Lower(s))
  {
    forall i | 0 <= i < |s|
      ensures !('A' <= Lower(s)[i] <= 'Z')
    {
      LowerCharNotCapital(s[i]);
    }
  }

  lemma LowerCharNotCapital(c: char)
    ensures !('A' <= LowerChar(c) <= 'Z')
  {
  }

  lemma SliceNoCapital(s: string, lo: nat, hi: nat)
    requires NoCapital(s) && lo <= hi <= |s|
    ensures NoCapital(s[lo..hi])
  {
    forall i | 0 <= i < hi - lo
      ensures !('A' <= s[lo..hi][i] <= 'Z')
    {
      assert s[lo..hi][i] == s[lo + i];
    }
  }

  /* ---------- first-level map ---------- */

  /**
   * The fetched JSON document: an object with a `children` array (possibly
   * empty), an object without one (its other members do not matter to init),
   * or an array.
   */
  datatype Document = WithChildren(root: Node) | WithoutChildren | Array(items: seq<Node>)

  /** `tree.children ? tree : tree[0]`; None is `undefined`. */
  function RootOf(doc: Document): (r: Option<Node>)
    ensures r.None? <==> doc.WithoutChildren? || doc == Array([])
    ensures doc.WithChildren? ==> r == Some(doc.root)
    ensures doc.Array? && doc.items != [] ==> r == Some(doc.items[0])
  {
    match doc
    case WithChildren(root) => Some(root)
    case WithoutChildren => None
    case Array(items) => if items == [] then None else Some(items[0])
  }

  const GAP_Y: real := 80.0
  const BOX_WIDTH: real := 120.0
  const BOX_HALF_WIDTH: real := 60.0
  const CURVE_PULL: real := 80.0

  /** What init draws: a 120-wide box centred at (x, y), clickable when it has a link, or a cubic connection. */
  datatype Drawing =
    | Box(x: real, y: real, text: string, link: Option<string>)
    | Connection(x1: real, y1: real, c1x: real, c1y: real, c2x: real, c2y: real, x2: real, y2: real)

  function BoxLeft(b: Drawing): real
    requires b.Box?
  {
    b.x - BOX_HALF_WIDTH
  }

  function BoxRight(b: Drawing): real
    requires b.Box?
  {
    BoxLeft(b) + BOX_WIDTH
  }

  /** drawConnection: a cubic curve whose control points pull 80 to the right of the start and 80 to the left of the end. */
  function DrawConnection(x1: real, y1: real, x2: real, y2: real): (c: Drawing)
    ensures c.Connection? && c.x1 == x1 && c.y1 == y1 && c.x2 == x2 && c.y2 == y2
    ensures c.c1y == y1 && c.c1x - x1 == CURVE_PULL
    ensures c.c2y == y2 && x2 - c.c2x == CURVE_PULL
  {
    Connection(x1, y1, x1 + CURVE_PULL, y1, x2 - CURVE_PULL, y2, x2, y2)
  }

  function CenterX(width: real): real { width * 0.25 }
  function CenterY(height: real): real { height / 2.0 }
  function RightX(width: real): real { width * 0.75 }

  /** The vertical centre of the root's child i of n. */
  function RowY(i: nat, n: nat, height: real): real
  {
    CenterY(height) - ((n as real - 1.0) * GAP_Y) / 2.0 + i as real * GAP_Y
  }

  /** Rows are 80 apart in input order and symmetric about the root's centre. */
  lemma RowYSpacing(i: nat, n: nat, height: real)
    ensures RowY(i + 1, n, height) == RowY(i, n, height) + GAP_Y
    ensures i < n ==> RowY(i, n, height) + RowY(n - 1 - i, n, height) == 2.0 * CenterY(height)
    ensures RowY(i, n, height) == CenterY(height) + (i as real - (n as real - 1.0) / 2.0) * GAP_Y
  {
  }

  /** Child i's connection and box as init draws them. */
  predicate RowDrawn(root: Node, width: real, height: real, drawn: seq<Drawing>, i: nat)
    requires i < |root.children|
  {
    var y := RowY(i, |root.children|, height);
    && 2 * i + 2 < |drawn|
    && drawn[2 * i + 1] == DrawConnection(CenterX(width) + BOX_HALF_WIDTH, CenterY(height), RightX(width) - BOX_HALF_WIDTH, y)
    && drawn[2 * i + 2] == Box(RightX(width), y, root.children[i].title, Some(TopicLink(root.children[i].id)))
  }

  /**
   * init: nothing when the document has no root object (the script throws);
   * otherwise the root's box at (width/4, height/2), then for each child a
   * connection and the child's box at (3/4 width, RowY), linking to its topic.
   * `width` and `height` are the SVG's measured size.
   */
  method Init(doc: Document, width: real, height: real) returns (drawn: Option<seq<Drawing>>)
    ensures drawn.None? <==> RootOf(doc).None?
    ensures drawn.Some? ==> |drawn.value| == 1 + 2 * |RootOf(doc).value.children|
    ensures drawn.Some? ==> drawn.value[0] == Box(CenterX(width), CenterY(height), RootOf(doc).value.title, None)
    ensures drawn.Some? ==> forall i :: 0 <= i < |RootOf(doc).value.children| ==> RowDrawn(RootOf(doc).value, width, height, drawn.value, i)
  {
    var root := RootOf(doc);
    if root.None? {
      return None;
    }
    var node := root.value;
    var shapes := [Box(CenterX(width), CenterY(height), node.title, None)];
    if |node.children| == 0 {
      return Some(shapes);
    }
    var i := 0;
    while i < |node.children|
      invariant 0 <= i <= |node.children|
      invariant |shapes| == 1 + 2 * i
      invariant shapes[0] == Box(CenterX(width), CenterY(height), node.title, None)
      invariant forall j :: 0 <= j < i ==> RowDrawn(node, width, height, shapes, j)
    {
      var y := RowY(i, |node.children|, height);
      ghost var before := shapes;
      shapes := shapes + [DrawConnection(CenterX(width) + BOX_HALF_WIDTH, CenterY(height), RightX(width) - BOX_HALF_WIDTH, y),
                          Box(RightX(width), y, node.children[i].title, Some(TopicLink(node.children[i].id)))];
      forall j | 0 <= j < i
        ensures RowDrawn(node, width, height, shapes, j)
      {
        assert RowDrawn(node, width, height, before, j);
      }
      i := i + 1;
    }
    drawn := Some(shapes);
  }

  /**
   * Every connection init draws runs from the root box's right edge at the
   * root's height to the left edge of its child's box at the child's height.
   */
  lemma ConnectionsJoinFacingEdges(root: Node, width: real, height: real, drawn: seq<Drawing>, i: nat)
    requires i < |root.children| && RowDrawn(root, width, height, drawn, i)
    ensures var c := drawn[2 * i + 1];
            && c.x1 == BoxRight(Box(CenterX(width), CenterY(height), root.title, None))
            && c.y1 == CenterY(height)
            && c.x2 == BoxLeft(drawn[2 * i + 2])
            && c.y2 == drawn[2 * i + 2].y
  {
  }

  /* ---------- zoom and pan ---------- */

  const ZOOM_STEP: real := 0.1
  const MIN_SCALE: real := 0.4
  const MAX_SCALE: real := 3.0

  /** The scale after one wheel event: one step down for a positive deltaY, else one step up, clamped into [0.4, 3]. */
  function Zoomed(scale: real, deltaY: real): (r: real)
    ensures MIN_SCALE <= r <= MAX_SCALE
    ensures var step := if deltaY > 0.0 then scale - ZOOM_STEP else scale + ZOOM_STEP;
            MIN_SCALE <= step <= MAX_SCALE ==> r == step
    ensures var step := if deltaY > 0.0 then scale - ZOOM_STEP else scale + ZOOM_STEP;
            step < MIN_SCALE ==> r == MIN_SCALE
    ensures var step := if deltaY > 0.0 then scale - ZOOM_STEP else scale + ZOOM_STEP;
            step > MAX_SCALE ==> r == MAX_SCALE
    ensures MIN_SCALE <= scale <= MAX_SCALE ==> (if deltaY > 0.0 then r <= scale else r >= scale)
  {
    Min(Max(scale + (if deltaY > 0.0 then -ZOOM_STEP else ZOOM_STEP), MIN_SCALE), MAX_SCALE)
  }

  /** enableZoomPan's closure state, updated by the wheel and mouse handlers. */
  class ZoomPan {
    var scale: real
    var tx: real
    var ty: real
    var dragging: bool
    var sx: real
    var sy: real
    // the mouse position and the translation at the last mousedown
    ghost var downX: real
    ghost var downY: real
    ghost var downTx: real
    ghost var downTy: real

    /** The scale stays in [0.4, 3]; while dragging, (sx, sy) is the mousedown mouse position minus the mousedown translation. */
    ghost predicate Valid()
      reads this
    {
      && MIN_SCALE <= scale <= MAX_SCALE
      && (dragging ==> sx == downX - downTx && sy == downY - downTy)
    }

    constructor ()
      ensures Valid()
      ensures scale == 1.0 && tx == 0.0 && ty == 0.0 && !dragging && sx == 0.0 && sy == 0.0
    {
      scale, tx, ty := 1.0, 0.0, 0.0;
      dragging, sx, sy := false, 0.0, 0.0;
    }

    /** The wheel handler: zoom one step and clamp; the translation and drag state are untouched. */
    method Wheel(deltaY: real)
      requires Valid()
      modifies this
      ensures Valid()
      ensures scale == Zoomed(old(scale), deltaY)
      ensures tx == old(tx) && ty == old(ty) && dragging == old(dragging) && sx == old(sx) && sy == old(sy)
      ensures downX == old(downX) && downY == old(downY) && downTx == old(downTx) && downTy == old(downTy)
    {
      scale := scale + (if deltaY > 0.0 then -ZOOM_STEP else ZOOM_STEP);
      scale := Min(Max(scale, MIN_SCALE), MAX_SCALE);
    }

    /** The mousedown handler: start dragging and remember the mouse position relative to the translation. */
    method MouseDown(clientX: real, clientY: real)
      requires Valid()
      modifies this
      ensures Valid() && dragging
      ensures sx == clientX - old(tx) && sy == clientY - old(ty)
      ensures downX == clientX && downY == clientY && downTx == old(tx) && downTy == old(ty)
      ensures scale == old(scale) && tx == old(tx) && ty == old(ty)
    {
      dragging := true;
      sx := clientX - tx;
      sy := clientY - ty;
      downX, downY, downTx, downTy := clientX, clientY, tx, ty;
    }

    /**
     * The mousemove handler: while dragging, the translation becomes the one at
     * mousedown plus the mouse's displacement since; otherwise nothing changes.
     */
    method MouseMove(clientX: real, clientY: real)
      requires Valid()
      modifies this
      ensures Valid()
      ensures old(dragging) ==> tx == downTx + (clientX - downX) && ty == downTy + (clientY - downY)
      ensures !old(dragging) ==> tx == old(tx) && ty == old(ty)
      ensures scale == old(scale) && dragging == old(dragging) && sx == old(sx) && sy == old(sy)
      ensures downX == old(downX) && downY == old(downY) && downTx == old(downTx) && downTy == old(downTy)
    {
      if !dragging {
        return;
      }
      tx := clientX - sx;
      ty := clientY - sy;
    }

    /** The mouseup and mouseleave handler: stop dragging; scale and translation stay. */
    method Stop()
      requires Valid()
      modifies this
      ensures Valid() && !dragging
      ensures scale == old(scale) && tx == old(tx) && ty == old(ty) && sx == old(sx) && sy == old(sy)
    {
      dragging := false;
    }
  }

}
