# Mind-map pages: index, breadcrumb, layout, search and zoom/pan, in Dafny

This project models the computable core of a static, browser-rendered mind
map of a topic hierarchy (the "map of sciences" pages). The pages load a
nested JSON tree of topics (`{id, title, children, context}`) and draw it as
SVG boxes joined by curves. Two scripts contain logic that can be stated
precisely:

- `assets/js/topic-map.js`, the topic page:
  - it flattens the tree into the global `TREE_INDEX` (id → `{id, label, parent, raw}`);
  - it picks between "No topic selected.", "Topic not found." and rendering;
  - it rebuilds the breadcrumb by following parent links;
  - it renders the context panel;
  - it lays out the focused node, its parent and its children, with label-sized boxes and curves between box edges.
- `assets/js/index-map.js`, the index page:
  - it builds the flat preorder `SEARCH_INDEX` (`{id, title, path}`);
  - it filters it for the search box;
  - it lays out the root and its first-level children;
  - it keeps the zoom/pan state that wheel and mouse events update.

Files:

- `tree.dfy`, module `Trees`: the tree datatype (`Node`) and the preorder walk
  `Preorder`, which lists each node with its ancestors. Both index builders follow
  this walk, and the lemmas about it (children and ancestors of a visited node are
  visited) carry the index proofs. It also holds the string operations the scripts
  use (`join`, `toLowerCase`, `trim`, `includes`).
- `topic_map.dfy`, module `TopicMap`:
  - class `TopicPage` holds `TREE_INDEX` and `ACTIVE_NODE`. Its recursive method
    `BuildIndex` is proved against the function `Indexed`, and `Indexed` is proved
    equal to writing the entry of every preorder visit in turn (`Recorded`).
  - `Breadcrumb` is the `while`/`unshift` loop.
  - `RenderMap` returns the shapes the map draws, in drawing order.
  - The layout arithmetic is pure functions with lemmas.
- `index_map.dfy`, module `IndexMap`:
  - class `IndexPage` holds `SEARCH_INDEX`. Its recursive method `BuildSearchIndex`
    is proved against `SearchEntries`, and that function is proved to follow the
    preorder walk.
  - `Search` is the filter-and-slice.
  - `Init` returns the first-level drawing.
  - class `ZoomPan` holds the handlers' closure variables.

Browser inputs become parameters:

- the `id` query parameter is `Option<string>`;
- the fetched tree is `Option<Node>`, with `None` for a failed fetch or parse;
- the SVG's measured size is `width` and `height`;
- event coordinates and `deltaY` are reals.

Numbers are `real`. A width that JavaScript leaves `undefined` becomes the `NaN`
case of `Num`.

JavaScript truthiness is kept where the scripts rely on it:

- an empty `id` parameter selects no topic;
- an empty parent id counts as no parent;
- an object document without a `children` member makes `init` use `tree[0]`,
  which is undefined.

Further facts about the code that the model keeps:

- A `TREE_INDEX` entry holds the raw node itself (`raw`); children are read from it when the map is drawn.
- Dragging sets the translation to its value at mousedown plus the raw mouse displacement, with no scaling.
- The search box's filter (assets/js/index-map.js:242-250) is modelled together with the index it searches.
- String lengths are JavaScript's `.length`, counted in UTF-16 code units (`Utf16Length`), so a character outside the Basic Multilingual Plane counts twice.
- The entry field the scripts call `label` is named `text` in `TopicMap.Entry`, because `label` is a reserved word of Dafny.

## Model

| member | source | states |
|---|---|---|
| `TopicMap.TopicPage.BuildIndex` | assets/js/topic-map.js:67-78 | the recursive method leaves TREE_INDEX equal to `Indexed(old index, node, parentId)`: the node's entry written first, then each child's subtree in order with the node's id as parent; ACTIVE_NODE is unchanged |
| `TopicMap.TopicPage.constructor` | assets/js/topic-map.js:29-30 | the page starts with an empty TREE_INDEX and no ACTIVE_NODE |
| `TopicMap.IndexedIsRecorded` | assets/js/topic-map.js:67-78 | buildIndex's result equals writing, in preorder, the entry `{id, title, structural parent id, raw node}` of every node |
| `TopicMap.IndexKeys` | assets/js/topic-map.js:68-76 | the index's keys are exactly the ids occurring in the tree |
| `TopicMap.IndexLastWriteWins` | assets/js/topic-map.js:68-76 | with repeated ids, an id maps to the entry of the node visited LAST in preorder |
| `TopicMap.IndexMatchesTree` | assets/js/topic-map.js:67-78 | with distinct ids, every node's id maps to an entry with that node's id, its title as label, its structural parent's id (none for the root) and the node itself |
| `TopicMap.IndexRecordsParents` | assets/js/topic-map.js:67-78 | with distinct ids, the root's entry has a null parent, and every child of every node maps to an entry labelled with its title whose parent is that node's id |
| `TopicMap.IndexedOwnKeys` | assets/js/topic-map.js:68-73 | whatever the tree, buildIndex stores every entry under its own id (`TREE_INDEX[k].id == k`), starting from an index that has that property |
| `TopicMap.TreeIndexChildrenIndexed` | assets/js/topic-map.js:99-101 | in any built index, with or without repeated ids, every child of every entry's raw node has an entry, so renderMap's `TREE_INDEX[c.id]` is never undefined |
| `TopicMap.TopicPage.Open` | assets/js/topic-map.js:35-56 | the load handler returns `SelectTopic(id, tree)`. With no topic selected or a failed load, TREE_INDEX and ACTIVE_NODE are untouched. When the topic is not found, TREE_INDEX is the tree's index and ACTIVE_NODE is undefined. When it renders, TREE_INDEX is the tree's index and ACTIVE_NODE is the selected entry. |
| `TopicMap.SelectTopic` | assets/js/topic-map.js:38-55 | the no-topic outcome exactly when the id is missing or empty; the load error exactly when an id is given and the tree did not load; rendering exactly when the id occurs in the loaded tree, and then the selected entry has that id |
| `TopicMap.SelectTopicFound` | assets/js/topic-map.js:38-57 | with a non-empty id and a loaded tree, the page renders exactly when the id occurs in the tree, and the panel's message is "<p>Topic not found.</p>" exactly when it does not; with distinct ids the rendered entry is that id's node |
| `TopicMap.Message` | assets/js/topic-map.js:38-62 | the context panel shows "<p>No topic selected.</p>", "<p>Error loading tree.</p>" or "<p>Topic not found.</p>" exactly for the matching outcome, and no message exactly when the page renders; with `SelectTopic`, a missing or empty id gives "No topic selected." and a failed load "Error loading tree." |
| `TopicMap.Breadcrumb` | assets/js/topic-map.js:231-238 | the loop returns a path that starts at an entry without a (truthy, indexed) parent, ends at the active entry, and in which each element is the parent entry of the next |
| `TopicMap.Up` | assets/js/topic-map.js:237 | one step up exists exactly when the entry's parent id is truthy and indexed; in an index storing entries under their own ids, the step reaches the entry whose id is that parent id |
| `TopicMap.TreeUp` | assets/js/topic-map.js:237 | on the index of a tree with distinct ids, one step up from a node's entry gives its structural parent's entry; the root, and a node whose parent has the empty id, have none |
| `TopicMap.TreeRootWithin` | assets/js/topic-map.js:235-238 | on a tree with distinct ids, following parents from any node's entry reaches an entry without a parent within the node's depth, so the breadcrumb loop terminates |
| `TopicMap.TreeBreadcrumb` | assets/js/topic-map.js:231-238 | on a tree with distinct, non-empty ids, the breadcrumb of a node is the entries of its ancestors from the root down, then its own: its length is the node's depth with the root at depth 1, and it starts at the root's entry |
| `TopicMap.RepeatedIdsCycle` | assets/js/topic-map.js:235-238 | for the tree x → y → x the built index has a parent cycle, and the walk up from "x" reaches no root in any number of steps: the source's loop never ends there |
| `TopicMap.BreadcrumbHtmlShape` | assets/js/topic-map.js:240-246 | the breadcrumb markup is the `<a href="topic.html?id=<id>">` links of all elements but the last, joined by " &gt; ", then " &gt; " and the last element in `<strong>` (only the bold element for a one-element path) |
| `TopicMap.BreadcrumbHtml` | assets/js/topic-map.js:240-246 | the markup is empty for an empty path, starts with the first element's link and the separator when there are several, and always ends with the last element in `<strong>` |
| `TopicMap.RootAndChildScenario` | assets/js/topic-map.js:231-246 | tree Root → A, focused on "a": the breadcrumb is [root link, "A" in bold], the map has the root as parent and no children |
| `TopicMap.ContextPanel` | assets/js/topic-map.js:251-273 | the panel starts with the label heading and a definition section, which shows the definition itself when it is present and non-empty and "No definition available." otherwise |
| `TopicMap.ContextPanelOmitsAbsent` | assets/js/topic-map.js:252-272 | a missing or empty definition shows "No definition available."; the role section appears exactly when the role is non-empty; the references section appears exactly when the list is present, even when it is empty |
| `TopicMap.BoxWidth` | assets/js/topic-map.js:140-147 | the box width, computed from the label's UTF-16 length, always lies in [140, 300] |
| `TopicMap.BoxWidthByLength` | assets/js/topic-map.js:140-147 | the width depends on the label's UTF-16 length n only and never decreases as it grows: 140 for n up to 13, 7.2·n + 40 for 14 to 36, 300 from 37 on |
| `TopicMap.DrawNode` | assets/js/topic-map.js:136-147 | the box links to `topic.html?id=<id>`, shows the label, is centred at (x, y) with the label's box width in [140, 300], and is what drawNode returns as `{x, y, boxWidth}` |
| `TopicMap.DrawCurve` | assets/js/topic-map.js:205-214 | the curve starts at the from-anchor's height, and its control point is at that height too; the curve ends at the to-anchor's height |
| `TopicMap.CurveJoinsFacingEdges` | assets/js/topic-map.js:205-214 | between two drawn boxes the curve starts at the first box's right edge (x + w/2), ends at the second box's left edge (x − w/2), with its control point halfway between those x values |
| `TopicMap.CurveToUndefinedWidth` | assets/js/topic-map.js:107-110 | a curve drawn to an anchor with an undefined width (as the parent curve's `ACTIVE_NODE.boxWidth`) has a NaN end x and control x, not a box edge |
| `TopicMap.ChildYSpacing` | assets/js/topic-map.js:117-119 | consecutive children are exactly 100 apart, and children i and n−1−i sit symmetrically about the focused node's y |
| `TopicMap.ChildOffsetsSumToZero` | assets/js/topic-map.js:117-119 | the children's vertical offsets from the focused node sum to zero |
| `TopicMap.RenderMap` | assets/js/topic-map.js:91-132 | a parent box at (cx − 260, cy) and a curve to the active node are drawn exactly when the entry has a truthy, indexed parent. The active box is drawn at (cx, cy). Then, for each child in input order, its box is drawn at (cx + 260, cy + (i − (n−1)/2)·100), followed by a curve from the active box to it. The output has 1 + 2n shapes, plus 2 with a parent. |
| `IndexMap.IndexPage.BuildSearchIndex` | assets/js/index-map.js:219-233 | the recursive method only appends (the old index is a prefix) and appends `SearchEntries(node, path)` |
| `IndexMap.IndexPage.constructor` | assets/js/index-map.js:26 | the page starts with an empty SEARCH_INDEX |
| `IndexMap.SearchEntriesFollowPreorder` | assets/js/index-map.js:219-233 | buildSearchIndex pushes exactly one entry per preorder visit, in preorder, each with the node's id, its title, and the titles from the root to it joined by the separator |
| `IndexMap.SearchIndexOfTree` | assets/js/index-map.js:219-233 | the search index of a tree has as many entries as the tree has nodes, in preorder; the root's path is its own title; a child's path is its parent's path, the separator and the child's title |
| `IndexMap.Search` | assets/js/index-map.js:242-250 | at most 12 results, every one an index entry whose lower-cased title contains the lower-cased, trimmed query; a query whose UTF-16 length is below 2 gives none |
| `IndexMap.Normalize` | assets/js/index-map.js:243 | the normalized query has no ASCII capital letter, no white space at either end, and is no longer than the raw input |
| `IndexMap.Filter` | assets/js/index-map.js:248-249 | the filtered list holds only index entries that match, and every matching index entry is in it |
| `IndexMap.Take` | assets/js/index-map.js:250 | `slice(0, n)` is the prefix of length min(n, length) |
| `IndexMap.SearchShowsEarliestMatches` | assets/js/index-map.js:248-250 | a matching entry preceded by fewer than 12 matches is the result at the position equal to their number; with 12 or more earlier matches the results are exactly the first 12 of those |
| `IndexMap.Init` | assets/js/index-map.js:41-81 | nothing is drawn when `tree.children ? tree : tree[0]` is undefined (an object without `children`, an empty array). Otherwise the root box is drawn at (W/4, H/2); with no children that is all. Then, for each child i of n, a connection (W/4 + 60, H/2) → (3W/4 − 60, y_i) and the child's box at (3W/4, y_i) linking to `topic.html?id=<id>`, with y_i = H/2 − (n−1)·80/2 + i·80. |
| `IndexMap.RootOf` | assets/js/index-map.js:51 | `tree.children ? tree : tree[0]` is undefined exactly for an object without `children` or an empty array; otherwise it is the object itself or the array's first element |
| `IndexMap.DrawConnection` | assets/js/index-map.js:123-131 | the connection runs from (x1, y1) to (x2, y2), leaving and arriving horizontally: its first control point is 80 to the right of the start at the start's height, its second 80 to the left of the end at the end's height |
| `IndexMap.RowYSpacing` | assets/js/index-map.js:58-61 | rows are exactly 80 apart, rows i and n−1−i are symmetric about H/2, and row i is H/2 + (i − (n−1)/2)·80 |
| `IndexMap.ConnectionsJoinFacingEdges` | assets/js/index-map.js:63-68 | every connection starts at the root box's right edge at the root's height and ends at its child box's left edge at the child's height (the boxes are 120 wide) |
| `IndexMap.Zoomed` | assets/js/index-map.js:163-167 | one wheel step gives a scale in [0.4, 3]. It is scale − 0.1 for deltaY > 0 and scale + 0.1 otherwise, whenever that value is inside the bounds. When it leaves them, the result snaps to 0.4 below and to 3 above. From a scale inside the bounds, a step never zooms the wrong way. |
| `IndexMap.ZoomPan.constructor` | assets/js/index-map.js:149-154 | the state starts at scale 1, translation (0, 0), not dragging, and satisfies the invariant (scale in [0.4, 3]) |
| `IndexMap.ZoomPan.Wheel` | assets/js/index-map.js:163-168 | the new scale is `Zoomed(old scale, deltaY)`, so the scale stays in [0.4, 3]; translation and drag state are unchanged |
| `IndexMap.ZoomPan.MouseDown` | assets/js/index-map.js:170-175 | dragging starts; (sx, sy) is the mouse position minus the current translation; scale and translation are unchanged |
| `IndexMap.ZoomPan.MouseMove` | assets/js/index-map.js:177-182 | while dragging, the translation becomes the translation at mousedown plus the mouse's displacement since mousedown; when not dragging nothing changes; the scale never changes |
| `IndexMap.ZoomPan.Stop` | assets/js/index-map.js:184-190 | mouseup and mouseleave clear `dragging` and leave scale and translation unchanged |
| `Trees.Trim` | assets/js/index-map.js:243 | trim returns the contiguous part of the input that neither starts nor ends with ECMAScript white space, and everything it drops before and after that part is white space |
| `Trees.JoinSnoc` | assets/js/index-map.js:225 | joining one more item appends the separator and the item |
| `Trees.Join` | assets/js/index-map.js:225 | joining no items gives the empty string; a join starts with the first item, followed by the separator when there are several |
| `Trees.JoinEndsWithLast` | assets/js/topic-map.js:246 | a join of at least one item ends with the last item |
| `Trees.Lower` | assets/js/index-map.js:243 | lower-casing keeps the length and maps every character by itself (ASCII capitals to small letters, everything else unchanged) |
| `Trees.ContainsAt` | assets/js/index-map.js:249 | `includes` holds whenever the query occurs at some position of the string |
| `Trees.ContainsWitness` | assets/js/index-map.js:249 | when `includes` holds there is a position where the query occurs, so `Contains` is exactly substring occurrence |
| `Trees.Utf16Length` | assets/js/topic-map.js:143 | `.length` lies between the number of characters and twice that number |
| `Trees.Utf16LengthOfBmp` | assets/js/index-map.js:246 | `.length` equals the number of characters exactly when every character is in the Basic Multilingual Plane |
| `Trees.PreorderCount` | assets/js/index-map.js:228-231 | the depth-first walk visits every node once (its length is the node count) and starts at the root |
| `Trees.PreorderVisitsChildren` | assets/js/topic-map.js:75-77 | every child of a visited node is visited with that node as its last ancestor |

## Left out

- Network and browser I/O are not modelled:
  - `fetch` and JSON parsing: the tree is a parameter, `None` when loading fails;
  - `URLSearchParams`: the `id` parameter is an `Option<string>`;
  - navigation by `window.location.href`: only the `topic.html?id=<id>` link string is modelled.
- DOM and SVG side effects are not modelled: element creation, attributes, colours, cursors, `innerHTML` markup of the context panel and search results, `clearSVG`, and the `viewBox` attribute. Layout is returned as shapes with coordinates instead.
- Tooltips (`setTimeout`/`clearTimeout`, hover stroke colours) are left out: they are timer-driven event behaviour.
- `autoFit` and `getSize` are left out: they measure the rendered drawing. The SVG's width and height are parameters of `Init`.
- `assets/js/app.js` is not part of this model: its `renderNode` only builds DOM.
- Floating point: widths, positions and scale are exact reals, so IEEE rounding of 7.2·n, of ±0.1 steps and of halving is not modelled.
- `renderAll` is not modelled as one method. It is only the sequence clearSVG, breadcrumb, context panel, map. An exception thrown while rendering, which shows "Error loading tree.", is not modelled.
- TopicMap.Breadcrumb: requires that following parents reaches a root (`RootWithin` for a ghost height). The source's loop never ends on a parent cycle, which repeated ids can create (`RepeatedIdsCycle`). `TreeRootWithin` discharges the requirement for trees with distinct ids.
- Trees.Contains: compares characters, not UTF-16 code units. The two agree for well-formed strings, because a well-formed query cannot begin or end inside a surrogate pair. Strings with lone surrogates cannot be written as Dafny strings and are not modelled.
- Trees.Lower: models `toLowerCase` on ASCII letters only. Non-ASCII case mappings, including those that change the string's length, are not modelled.
- IndexMap.IndexPage.BuildSearchIndex: takes a tree node. The source also calls it on an array document, where it indexes the array itself as one entry with undefined id and title; the search handler would then throw. That case is not modelled.
- JSON values are taken to be well typed: ids and titles are strings, and `children` is an array or absent. Number ids coerced to keys, missing titles, and a non-array `children` (where `Array.isArray` and truthiness differ) are not modelled.
- Index lookups that hit `Object.prototype` members are not modelled: `TREE_INDEX["constructor"]` is a built-in function, while the model's map holds only tree ids.
- The context panel's reference list is modelled as present or absent. The `<li>` markup of each reference is not modelled.
