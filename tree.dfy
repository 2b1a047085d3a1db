/**
 * The topic tree both map scripts load, the preorder walk that both of their
 * index builders follow, and the few string operations the scripts use
 * (Array.prototype.join, String.prototype.toLowerCase / trim / includes).
 */
module Trees {

  datatype Option<T> = None | Some(value: T)

  /** One entry of a node's `context.references` list. */
  datatype Reference = Reference(title: string, url: string)

  /** A node's `context` member; a missing member and a missing field are both None. */
  datatype Context = Context(
    definition: Option<string>,
    role: Option<string>,
    references: Option<seq<Reference>>)

  /**
   * One node of the JSON tree. A node without a `children` member has the
   * empty list of children: every code path modelled here treats the two alike.
   */
  datatype Node = Node(id: string, title: string, children: seq<Node>, context: Context)

  /** A visit of the preorder walk: a node and the nodes from the root down to its parent. */
  datatype Visit = Visit(node: Node, ancestors: seq<Node>)

  /** The visits of a depth-first walk: the node itself, then each child's subtree in input order. */
  function Preorder(n: Node, ancestors: seq<Node>): seq<Visit>
    decreases n
  {
    [Visit(n, ancestors)] + PreorderForest(n.children, ancestors + [n])
  }

  function PreorderForest(cs: seq<Node>, ancestors: seq<Node>): seq<Visit>
    decreases cs
  {
    if cs == [] then [] else Preorder(cs[0], ancestors) + PreorderForest(cs[1..], ancestors)
  }

  /** The number of nodes of a tree, counted independently of the walk. */
  function Count(n: Node): (c: nat)
    ensures c >= 1
    decreases n
  {
    1 + CountForest(n.children)
  }

  function CountForest(cs: seq<Node>): nat
    decreases cs
  {
    if cs == [] then 0 else Count(cs[0]) + CountForest(cs[1..])
  }

  /** The id of the structural parent of a node whose ancestors are `ancestors`. */
  function ParentId(ancestors: seq<Node>): Option<string>
  {
    if ancestors == [] then None else Some(ancestors[|ancestors| - 1].id)
  }

  function Titles(ns: seq<Node>): (ts: seq<string>)
    ensures |ts| == |ns| && forall i :: 0 <= i < |ns| ==> ts[i] == ns[i].title
  {
    seq(|ns|, i requires 0 <= i < |ns| => ns[i].title)
  }

  /** No two visits of the walk carry the same id. */
  ghost predicate DistinctIds(vs: seq<Visit>)
  {
    forall i, j :: 0 <= i < j < |vs| ==> vs[i].node.id != vs[j].node.id
  }

  /** Every id is non-empty (an empty id is falsy to the scripts). */
  ghost predicate NonEmptyIds(vs: seq<Visit>)
  {
    forall i :: 0 <= i < |vs| ==> vs[i].node.id != ""
  }

  /** The walk visits every node exactly once: its length is the number of nodes. */
  lemma {:induction false} PreorderCount(n: Node, ancestors: seq<Node>)
    ensures |Preorder(n, ancestors)| == Count(n)
    ensures Preorder(n, ancestors)[0] == Visit(n, ancestors)
    decreases n
  {
    PreorderForestCount(n.children, ancestors + [n]);
  }

  lemma {:induction false} PreorderForestCount(cs: seq<Node>, ancestors: seq<Node>)
    ensures |PreorderForest(cs, ancestors)| == CountForest(cs)
    decreases cs
  {
    if cs != [] {
      PreorderCount(cs[0], ancestors);
      PreorderForestCount(cs[1..], ancestors);
    }
  }

  /**
   * Every child of a visited node is visited, with the visited node appended to
   * its ancestors: the walk records the structural parent of each node.
   */
  lemma {:induction false} PreorderVisitsChildren(n: Node, ancestors: seq<Node>, v: Visit, c: Node)
    requires v in Preorder(n, ancestors) && c in v.node.children
    ensures Visit(c, v.ancestors + [v.node]) in Preorder(n, ancestors)
    decreases n
  {
    if v == Visit(n, ancestors) {
      PreorderForestVisitsRoots(n.children, ancestors + [n], c);
    } else {
      PreorderForestVisitsChildren(n.children, ancestors + [n], v, c);
    }
  }

  lemma {:induction false} PreorderForestVisitsChildren(cs: seq<Node>, ancestors: seq<Node>, v: Visit, c: Node)
    requires v in PreorderForest(cs, ancestors) && c in v.node.children
    ensures Visit(c, v.ancestors + [v.node]) in PreorderForest(cs, ancestors)
    decreases cs
  {
    if v in Preorder(cs[0], ancestors) {
      PreorderVisitsChildren(cs[0], ancestors, v, c);
    } else {
      PreorderForestVisitsChildren(cs[1..], ancestors, v, c);
    }
  }

  lemma {:induction false} PreorderForestVisitsRoots(cs: seq<Node>, ancestors: seq<Node>, c: Node)
    requires c in cs
    ensures Visit(c, ancestors) in PreorderForest(cs, ancestors)
    decreases cs
  {
    if c == cs[0] {
      PreorderCount(c, ancestors);
    } else {
      PreorderForestVisitsRoots(cs[1..], ancestors, c);
    }
  }

  /** The ancestors of every visit extend the ancestors the walk started from. */
  lemma {:induction false} PreorderAncestorsExtend(n: Node, ancestors: seq<Node>, v: Visit)
    requires v in Preorder(n, ancestors)
    ensures |ancestors| <= |v.ancestors| && v.ancestors[..|ancestors|] == ancestors
    ensures v != Visit(n, ancestors) ==> |ancestors| < |v.ancestors| && v.ancestors[|ancestors|] == n
    decreases n
  {
    if v != Visit(n, ancestors) {
      PreorderForestAncestorsExtend(n.children, ancestors + [n], v);
      assert v.ancestors[..|ancestors| + 1][..|ancestors|] == v.ancestors[..|ancestors|];
      assert v.ancestors[..|ancestors| + 1][|ancestors|] == v.ancestors[|ancestors|];
    }
  }

  lemma {:induction false} PreorderForestAncestorsExtend(cs: seq<Node>, ancestors: seq<Node>, v: Visit)
    requires v in PreorderForest(cs, ancestors)
    ensures |ancestors| <= |v.ancestors| && v.ancestors[..|ancestors|] == ancestors
    decreases cs
  {
    if v in Preorder(cs[0], ancestors) {
      PreorderAncestorsExtend(cs[0], ancestors, v);
    } else {
      PreorderForestAncestorsExtend(cs[1..], ancestors, v);
    }
  }

  /**
   * Every ancestor of a visited node is itself visited, with the ancestors
   * above it: walking up the ancestors list stays inside the walk.
   */
  lemma {:induction false} PreorderVisitsAncestors(n: Node, ancestors: seq<Node>, v: Visit, k: nat)
    requires v in Preorder(n, ancestors)
    requires |ancestors| <= k < |v.ancestors|
    ensures Visit(v.ancestors[k], v.ancestors[..k]) in Preorder(n, ancestors)
    decreases n
  {
    PreorderAncestorsExtend(n, ancestors, v);
    if k == |ancestors| {
      PreorderCount(n, ancestors);
    } else {
      PreorderForestVisitsAncestors(n.children, ancestors + [n], v, k);
    }
  }

  lemma {:induction false} PreorderForestVisitsAncestors(cs: seq<Node>, ancestors: seq<Node>, v: Visit, k: nat)
    requires v in PreorderForest(cs, ancestors)
    requires |ancestors| <= k < |v.ancestors|
    ensures Visit(v.ancestors[k], v.ancestors[..k]) in PreorderForest(cs, ancestors)
    decreases cs
  {
    if v in Preorder(cs[0], ancestors) {
      PreorderVisitsAncestors(cs[0], ancestors, v, k);
    } else {
      PreorderForestVisitsAncestors(cs[1..], ancestors, v, k);
    }
  }

  /* ---------- strings ---------- */

  /** Array.prototype.join: the items with `sep` between neighbours. */
  function Join(items: seq<string>, sep: string): (r: string)
    ensures items == [] ==> r == ""
    ensures items != [] ==> items[0] <= r
    ensures |items| > 1 ==> items[0] + sep <= r
  {
    if items == [] then ""
    else if |items| == 1 then items[0]
    else items[0] + sep + Join(items[1..], sep)
  }

  /** The joined string ends with the last item. */
  lemma {:induction false} JoinEndsWithLast(items: seq<string>, sep: string)
    requires items != []
    ensures var last := items[|items| - 1];
            var r := Join(items, sep);
            |last| <= |r| && r[|r| - |last|..] == last
    decreases |items|
  {
    if |items| > 1 {
      JoinEndsWithLast(items[1..], sep);
      var tail := Join(items[1..], sep);
      var last := items[|items| - 1];
      assert items[1..][|items| - 2] == last;
      assert Join(items, sep) == items[0] + sep + tail;
      assert Join(items, sep)[|Join(items, sep)| - |last|..] == tail[|tail| - |last|..];
    }
  }

  /** Appending an item appends the separator and the item. */
  lemma {:induction false} JoinSnoc(items: seq<string>, x: string, sep: string)
    requires items != []
    ensures Join(items + [x], sep) == Join(items, sep) + sep + x
    decreases |items|
  {
    if |items| > 1 {
      assert (items + [x])[1..] == items[1..] + [x];
      JoinSnoc(items[1..], x, sep);
    }
  }

  /** String.prototype.toLowerCase on ASCII letters. */
  function LowerChar(c: char): char
  {
    if 'A' <= c <= 'Z' then (c as int - 'A' as int + 'a' as int) as char else c
  }

  function Lower(s: string): (r: string)
    ensures |r| == |s| && forall i :: 0 <= i < |s| ==> r[i] == LowerChar(s[i])
  {
    seq(|s|, i requires 0 <= i < |s| => LowerChar(s[i]))
  }

  /** The ECMAScript WhiteSpace and LineTerminator code points, which trim removes. */
  predicate IsSpace(c: char)
  {
    c == ' ' || c == '\t' || c == '\n' || c == '\r' || c == '\U{0B}' || c == '\U{0C}'
    || c == '\U{A0}' || c == '\U{1680}' || ('\U{2000}' <= c <= '\U{200A}')
    || c == '\U{2028}' || c == '\U{2029}' || c == '\U{202F}' || c == '\U{205F}'
    || c == '\U{3000}' || c == '\U{FEFF}'
  }

  /** Drops the leading white space: the result is the suffix that starts at the first other character. */
  function TrimStart(s: string): (r: string)
    ensures |r| <= |s| && r == s[|s| - |r|..]
    ensures forall i :: 0 <= i < |s| - |r| ==> IsSpace(s[i])
    ensures r == [] || !IsSpace(r[0])
  {
    if s != [] && IsSpace(s[0]) then TrimStart(s[1..]) else s
  }

  /** Drops the trailing white space: the result is the prefix that ends at the last other character. */
  function TrimEnd(s: string): (r: string)
    ensures |r| <= |s| && r == s[..|r|]
    ensures forall i :: |r| <= i < |s| ==> IsSpace(s[i])
    ensures r == [] || !IsSpace(r[|r| - 1])
  {
    if s != [] && IsSpace(s[|s| - 1]) then TrimEnd(s[..|s| - 1]) else s
  }

  /**
   * String.prototype.trim: the part of `s` between its leading and its
   * trailing white space.
   */
  function Trim(s: string): (r: string)
    ensures r == [] || (!IsSpace(r[0]) && !IsSpace(r[|r| - 1]))
    ensures var start := |s| - |TrimStart(s)|; start + |r| <= |s| && r == s[start..start + |r|]
    ensures var start := |s| - |TrimStart(s)|; forall i :: 0 <= i < start ==> IsSpace(s[i])
    ensures var start := |s| - |TrimStart(s)|; forall i :: start + |r| <= i < |s| ==> IsSpace(s[i])
  {
    var t := TrimStart(s);
    var r := TrimEnd(t);
    TrimmedSlice(s, t, r);
    r
  }

  /** A prefix `r` of a suffix `t` of `s` is a slice of `s`, and what follows it in `s` is what follows it in `t`. */
  lemma TrimmedSlice(s: string, t: string, r: string)
    requires |t| <= |s| && t == s[|s| - |t|..]
    requires |r| <= |t| && r == t[..|r|]
    requires forall i :: |r| <= i < |t| ==> IsSpace(t[i])
    ensures var start := |s| - |t|; r == s[start..start + |r|]
    ensures var start := |s| - |t|; forall i :: start + |r| <= i < |s| ==> IsSpace(s[i])
  {
    var start := |s| - |t|;
    forall i | start + |r| <= i < |s|
      ensures IsSpace(s[i])
    {
      assert s[i] == t[i - start];
    }
  }

  /** String.prototype.includes: `q` occurs in `s` at some position. */
  predicate Contains(s: string, q: string)
  {
    q <= s || (s != [] && Contains(s[1..], q))
  }

  /** An occurrence of `q` at position `i` makes `s` contain `q`. */
  lemma {:induction false} ContainsAt(s: string, q: string, i: nat)
    requires i + |q| <= |s| && s[i..i + |q|] == q
    ensures Contains(s, q)
    decreases i
  {
    if i > 0 {
      assert s[1..][i - 1..i - 1 + |q|] == q;
      ContainsAt(s[1..], q, i - 1);
    }
  }

  /** When `s` contains `q`, there is a position where `q` occurs. */
  lemma {:induction false} ContainsWitness(s: string, q: string) returns (i: nat)
    requires Contains(s, q)
    ensures i + |q| <= |s| && s[i..i + |q|] == q
    decreases |s|
  {
    if q <= s {
      i := 0;
    } else {
      var j := ContainsWitness(s[1..], q);
      assert s[1..][j..j + |q|] == s[j + 1..j + 1 + |q|];
      i := j + 1;
    }
  }

  /**
   * String.prototype.length: the number of UTF-16 code units, two for a
   * character outside the Basic Multilingual Plane.
   */
  function Utf16Length(s: string): (n: nat)
    ensures |s| <= n <= 2 * |s|
  {
    if s == [] then 0 else (if s[0] as int > 0xFFFF then 2 else 1) + Utf16Length(s[1..])
  }

  /** The UTF-16 length is the number of characters exactly when every character is in the BMP. */
  lemma {:induction false} Utf16LengthOfBmp(s: string)
    ensures Utf16Length(s) == |s| <==> forall i :: 0 <= i < |s| ==> s[i] as int <= 0xFFFF
    decreases |s|
  {
    if s != [] {
      Utf16LengthOfBmp(s[1..]);
      assert forall i :: 1 <= i < |s| ==> s[i] == s[1..][i - 1];
    }
  }

  /* ---------- numbers and links ---------- */

  /** Math.min and Math.max on (non-NaN) numbers. */
  function Min(a: real, b: real): real { if a <= b then a else b }
  function Max(a: real, b: real): real { if a >= b then a else b }

  /** The link target of a topic: `topic.html?id=<id>`. */
  function TopicLink(id: string): string
  {
    "topic.html?id=" + id
  }
}
