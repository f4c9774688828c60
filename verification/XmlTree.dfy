/**
 * The XML tree builder: Xml::append with its open-element stack, and Xml::text.
 *
 * Nodes are numbered in the order they are appended; a number stands for a reference
 * to the node object, and `kids` holds each node's m_Childs.
 */
module XmlTree {
  import opened Common
  import opened Chars

  datatype Kind = Declaration | Text | Tag | CloseTag | NoneTag | Comment

  /** A lexed node; `closed` is m_bCloseNode, set for a self-closing tag. */
  datatype Node = Node(kind: Kind, name: string, text: string, closed: bool)

  predicate Opens(n: Node) {
    n.kind == Tag && !n.closed
  }

  // ------------------------------------------------------------------- trees

  datatype Tree = Tree(id: nat, kids: seq<Tree>)

  /** The preorder traversal. */
  function Preorder(t: Tree): (ids: seq<nat>)
    ensures |ids| > 0 && ids[0] == t.id
    decreases t, 0
  {
    [t.id] + PreorderAll(t.kids)
  }

  function PreorderAll(ts: seq<Tree>): (ids: seq<nat>)
    decreases ts, 1
  {
    if ts == [] then [] else Preorder(ts[0]) + PreorderAll(ts[1..])
  }

  function Ids(ts: seq<Tree>): (ids: seq<nat>)
    ensures |ids| == |ts| && forall k :: 0 <= k < |ts| ==> ids[k] == ts[k].id
  {
    if ts == [] then [] else [ts[0].id] + Ids(ts[1..])
  }

  function UpTo(n: nat): (ids: seq<nat>)
    ensures |ids| == n && forall k :: 0 <= k < n ==> ids[k] == k
  {
    seq(n, i requires 0 <= i < n => i)
  }

  /** `t` is what the children lists say below node t.id. */
  ghost predicate IsTree(kids: seq<seq<nat>>, t: Tree)
    decreases t, 0
  {
    t.id < |kids| && kids[t.id] == Ids(t.kids) && AreTrees(kids, t.kids)
  }

  ghost predicate AreTrees(kids: seq<seq<nat>>, ts: seq<Tree>)
    decreases ts, 1
  {
    ts != [] ==> IsTree(kids, ts[0]) && AreTrees(kids, ts[1..])
  }

  /** Children lists determine the tree. */
  lemma {:induction false} TreeUnique(kids: seq<seq<nat>>, t: Tree, u: Tree)
    requires IsTree(kids, t) && IsTree(kids, u) && t.id == u.id
    ensures t == u
    decreases t, 0
  {
    TreesUnique(kids, t.kids, u.kids);
  }

  lemma {:induction false} TreesUnique(kids: seq<seq<nat>>, ts: seq<Tree>, us: seq<Tree>)
    requires AreTrees(kids, ts) && AreTrees(kids, us) && Ids(ts) == Ids(us)
    ensures ts == us
    decreases ts, 1
  {
    assert |Ids(ts)| == |ts| && |Ids(us)| == |us|;
    if ts != [] {
      assert Ids(ts)[0] == Ids(us)[0];
      assert Ids(ts)[1..] == Ids(us)[1..];
      TreeUnique(kids, ts[0], us[0]);
      TreesUnique(kids, ts[1..], us[1..]);
      assert ts == [ts[0]] + ts[1..] && us == [us[0]] + us[1..];
    }
  }

  lemma {:induction false} PreorderSnoc(ts: seq<Tree>, t: Tree)
    ensures PreorderAll(ts + [t]) == PreorderAll(ts) + Preorder(t)
  {
    hide Preorder;
    if ts == [] {
      assert (ts + [t])[1..] == [];
    } else {
      PreorderSnoc(ts[1..], t);
      assert (ts + [t])[1..] == ts[1..] + [t];
      assert Preorder(ts[0]) + (PreorderAll(ts[1..]) + Preorder(t)) == Preorder(ts[0]) + PreorderAll(ts[1..]) + Preorder(t);
    }
  }

  lemma {:induction false} AreTreesSnoc(kids: seq<seq<nat>>, ts: seq<Tree>, t: Tree)
    requires AreTrees(kids, ts) && IsTree(kids, t)
    ensures AreTrees(kids, ts + [t])
  {
    hide IsTree;
    if ts == [] {
      assert (ts + [t])[1..] == [];
    } else {
      AreTreesSnoc(kids, ts[1..], t);
      assert (ts + [t])[1..] == ts[1..] + [t];
    }
  }

  /** A tree does not change when the lists of nodes outside it do. */
  lemma {:induction false} TreeKept(kids: seq<seq<nat>>, kids': seq<seq<nat>>, p: nat, t: Tree)
    requires IsTree(kids, t) && |kids| <= |kids'|
    requires forall k :: 0 <= k < |kids| && k != p ==> kids'[k] == kids[k]
    requires p !in Preorder(t)
    ensures IsTree(kids', t)
    decreases t, 0
  {
    assert t.id in Preorder(t);
    assert forall k :: k in PreorderAll(t.kids) ==> k in Preorder(t);
    TreesKept(kids, kids', p, t.kids);
  }

  lemma {:induction false} TreesKept(kids: seq<seq<nat>>, kids': seq<seq<nat>>, p: nat, ts: seq<Tree>)
    requires AreTrees(kids, ts) && |kids| <= |kids'|
    requires forall k :: 0 <= k < |kids| && k != p ==> kids'[k] == kids[k]
    requires p !in PreorderAll(ts)
    ensures AreTrees(kids', ts)
    decreases ts, 1
  {
    if ts != [] {
      assert forall k :: k in Preorder(ts[0]) ==> k in PreorderAll(ts);
      assert forall k :: k in PreorderAll(ts[1..]) ==> k in PreorderAll(ts);
      TreeKept(kids, kids', p, ts[0]);
      TreesKept(kids, kids', p, ts[1..]);
    }
  }

  // ----------------------------------------------------- the builder, on trees

  /**
   * A partly built forest: finished trees at the bottom level, then for every open
   * element its number and its finished children.
   */
  datatype Frame = Frame(id: nat, done: seq<Tree>)
  datatype Zipper = Zipper(roots: seq<Tree>, open: seq<Frame>)

  function PreorderFrames(open: seq<Frame>): (ids: seq<nat>) {
    if open == [] then [] else [open[0].id] + PreorderAll(open[0].done) + PreorderFrames(open[1..])
  }

  /** All nodes in document order. */
  function PreorderZipper(z: Zipper): (ids: seq<nat>) {
    PreorderAll(z.roots) + PreorderFrames(z.open)
  }

  /** Adds a finished tree at the innermost open level. */
  function Put(z: Zipper, t: Tree): (z': Zipper)
    ensures |z'.open| == |z.open|
  {
    if z.open == [] then Zipper(z.roots + [t], [])
    else
      var n := |z.open| - 1;
      Zipper(z.roots, z.open[..n] + [z.open[n].(done := z.open[n].done + [t])])
  }

  /** Closes the innermost open element. */
  function Pop(z: Zipper): (z': Zipper)
    requires z.open != []
    ensures |z'.open| == |z.open| - 1
  {
    var n := |z.open| - 1;
    Put(Zipper(z.roots, z.open[..n]), Tree(z.open[n].id, z.open[n].done))
  }

  function PopTo(z: Zipper, k: nat): (z': Zipper)
    requires k <= |z.open|
    ensures |z'.open| == k
    decreases |z.open|
  {
    if |z.open| == k then z else PopTo(Pop(z), k)
  }

  /** Position of the innermost open element with the name, or -1. */
  function FindOpen(nodes: seq<Node>, open: seq<nat>, name: string): (k: int)
    ensures -1 <= k < |open|
    ensures k >= 0 ==> open[k] < |nodes| && EqualsIgnoreCase(nodes[open[k]].name, name)
    ensures forall i :: k < i < |open| && open[i] < |nodes| ==> !EqualsIgnoreCase(nodes[open[i]].name, name)
  {
    if open == [] then -1
    else
      var top := open[|open| - 1];
      if top < |nodes| && EqualsIgnoreCase(nodes[top].name, name) then |open| - 1
      else FindOpen(nodes, open[..|open| - 1], name)
  }

  function OpenIds(open: seq<Frame>): (ids: seq<nat>)
    ensures |ids| == |open|
  {
    seq(|open|, i requires 0 <= i < |open| => open[i].id)
  }

  predicate InRange(z: Zipper, n: nat) {
    forall i :: 0 <= i < |z.open| ==> z.open[i].id < n
  }

  /** What one append does to the forest. */
  function Grow(nodes: seq<Node>, z: Zipper, node: Node): (z': Zipper)
  {
    var id := |nodes|;
    if Opens(node) then Zipper(z.roots, z.open + [Frame(id, [])])
    else
      var k := FindOpen(nodes, OpenIds(z.open), node.name);
      var put := Put(z, Tree(id, []));
      if node.kind == CloseTag && k >= 0 then PopTo(put, k) else put
  }

  /**
   * The open elements after an append: a tag that does not close itself comes on top; an end
   * tag takes off everything down to the innermost element of its name, if there is one; all
   * else leaves them.
   */
  lemma {:induction false} OpenAfter(nodes: seq<Node>, z: Zipper, node: Node)
    ensures var ids := OpenIds(z.open);
            var ids' := OpenIds(Grow(nodes, z, node).open);
            var k := FindOpen(nodes, ids, node.name);
            ids' == if node.kind == Tag && !node.closed then ids + [|nodes|]
                    else if node.kind == CloseTag && k >= 0 then ids[..k]
                    else ids
  {
    hide FindOpen, Put, PopTo;
    var leaf := Tree(|nodes|, []);
    var put := Put(z, leaf);
    PutOpen(z, leaf);
    var k := FindOpen(nodes, OpenIds(z.open), node.name);
    if k >= 0 { PopToOpen(put, k); }
    if Opens(node) {
      assert OpenIds(z.open + [Frame(|nodes|, [])]) == OpenIds(z.open) + [|nodes|];
    }
  }

  lemma {:induction false} PutOpen(z: Zipper, t: Tree)
    ensures OpenIds(Put(z, t).open) == OpenIds(z.open)
  {}

  lemma {:induction false} PopToOpen(z: Zipper, k: nat)
    requires k <= |z.open|
    ensures OpenIds(PopTo(z, k).open) == OpenIds(z.open)[..k]
    decreases |z.open|
  {
    if |z.open| > k {
      var top := z.open[|z.open| - 1];
      PutOpen(Zipper(z.roots, z.open[..|z.open| - 1]), Tree(top.id, top.done));
      PopToOpen(Pop(z), k);
      assert OpenIds(z.open[..|z.open| - 1]) == OpenIds(z.open)[..|z.open| - 1];
    }
  }

  lemma {:induction false} FramesSnoc(open: seq<Frame>, f: Frame)
    ensures PreorderFrames(open + [f]) == PreorderFrames(open) + ([f.id] + PreorderAll(f.done))
  {
    hide PreorderAll;
    if open == [] {
      assert (open + [f])[1..] == [];
      assert [f.id] + PreorderAll(f.done) + [] == [f.id] + PreorderAll(f.done);
    } else {
      FramesSnoc(open[1..], f);
      assert (open + [f])[1..] == open[1..] + [f];
      var head, last := [open[0].id] + PreorderAll(open[0].done), [f.id] + PreorderAll(f.done);
      assert head + (PreorderFrames(open[1..]) + last) == head + PreorderFrames(open[1..]) + last;
    }
  }

  lemma {:induction false} PutPreorder(z: Zipper, t: Tree)
    ensures PreorderZipper(Put(z, t)) == PreorderZipper(z) + Preorder(t)
  {
    hide Preorder, PreorderAll, PreorderFrames;
    if z.open == [] {
      PreorderSnoc(z.roots, t);
      NoFrames();
    } else {
      var n := |z.open| - 1;
      var f := z.open[n];
      var below := z.open[..n];
      assert z.open == below + [f];
      FramesSnoc(below, f);
      FramesSnoc(below, f.(done := f.done + [t]));
      PreorderSnoc(f.done, t);
      var r, b, d, p := PreorderAll(z.roots), PreorderFrames(below), PreorderAll(f.done), Preorder(t);
      assert r + (b + ([f.id] + (d + p))) == r + (b + ([f.id] + d)) + p;
    }
  }

  lemma {:induction false} NoFrames()
    ensures PreorderFrames([]) == []
  {}

  /** Closing an element moves nothing in document order. */
  lemma {:induction false} PopPreorder(z: Zipper)
    requires z.open != []
    ensures PreorderZipper(Pop(z)) == PreorderZipper(z)
  {
    hide PreorderAll, PreorderFrames;
    var n := |z.open| - 1;
    var f := z.open[n];
    var below := Zipper(z.roots, z.open[..n]);
    PutPreorder(below, Tree(f.id, f.done));
    assert z.open == z.open[..n] + [f];
    FramesSnoc(z.open[..n], f);
    var r, b, t := PreorderAll(z.roots), PreorderFrames(z.open[..n]), [f.id] + PreorderAll(f.done);
    assert r + (b + t) == r + b + t;
  }

  lemma {:induction false} PopToPreorder(z: Zipper, k: nat)
    requires k <= |z.open|
    ensures PreorderZipper(PopTo(z, k)) == PreorderZipper(z)
    decreases |z.open|
  {
    hide PreorderZipper;
    if |z.open| > k {
      PopPreorder(z);
      PopToPreorder(Pop(z), k);
    }
  }

  /** Every append adds its node at the end of the document order. */
  lemma {:induction false} GrowPreorder(nodes: seq<Node>, z: Zipper, node: Node)
    ensures PreorderZipper(Grow(nodes, z, node)) == PreorderZipper(z) + [|nodes|]
  {
    var id := |nodes|;
    assert Preorder(Tree(id, [])) == [id];
    if Opens(node) {
      FramesSnoc(z.open, Frame(id, []));
      assert PreorderAll([]) == [];
      assert PreorderAll(z.roots) + (PreorderFrames(z.open) + [id]) == PreorderAll(z.roots) + PreorderFrames(z.open) + [id];
    } else {
      PutPreorder(z, Tree(id, []));
      var k := FindOpen(nodes, OpenIds(z.open), node.name);
      if k >= 0 { PopToPreorder(Put(z, Tree(id, [])), k); }
    }
  }

  // ------------------------------------------------- representation of a forest

  /**
   * The list of a level: its finished trees, then the element open above it.  So every
   * open element is the last child of the one below it.
   */
  ghost predicate Level(kids: seq<seq<nat>>, list: seq<nat>, done: seq<Tree>, above: seq<nat>) {
    |above| <= 1 && list == Ids(done) + above && AreTrees(kids, done)
  }

  function Above(open: seq<Frame>, i: nat): (ids: seq<nat>)
    requires i <= |open|
    ensures |ids| <= 1
  {
    if i < |open| then [open[i].id] else []
  }

  /** The children lists, root list and open list stand for the zipper. */
  ghost predicate Represents(kids: seq<seq<nat>>, roots: seq<nat>, open: seq<nat>, z: Zipper) {
    && InRange(z, |kids|)
    && open == OpenIds(z.open)
    && Level(kids, roots, z.roots, Above(z.open, 0))
    && forall i :: 0 <= i < |z.open| ==> Level(kids, kids[z.open[i].id], z.open[i].done, Above(z.open, i + 1))
  }

  /** Numbers in order without gaps, hence no node occurs twice. */
  ghost predicate InOrder(n: nat, z: Zipper) {
    PreorderZipper(z) == UpTo(n)
  }

  lemma {:induction false} IdsSnoc(ts: seq<Tree>, t: Tree)
    ensures Ids(ts + [t]) == Ids(ts) + [t.id]
  {}

  /** The traversal around one open element. */
  lemma {:induction false} FrameAt(open: seq<Frame>, i: nat) returns (before: seq<nat>, after: seq<nat>)
    requires i < |open|
    ensures PreorderFrames(open) == before + ([open[i].id] + PreorderAll(open[i].done)) + after
    ensures before == PreorderFrames(open[..i]) && after == PreorderFrames(open[i + 1..])
  {
    hide PreorderAll;
    before, after := PreorderFrames(open[..i]), PreorderFrames(open[i + 1..]);
    if i == 0 {
      assert open[..0] == [];
      assert PreorderFrames(open) == [] + ([open[0].id] + PreorderAll(open[0].done)) + after;
    } else {
      var b, a := FrameAt(open[1..], i - 1);
      assert open[1..][i..] == open[i + 1..] && open[..i][1..] == open[1..][..i - 1];
      var head := [open[0].id] + PreorderAll(open[0].done);
      var mid := [open[i].id] + PreorderAll(open[i].done);
      assert head + (b + mid + a) == head + b + mid + a;
    }
  }

  lemma {:induction false} DistinctParts(n: nat, a: seq<nat>, b: seq<nat>)
    requires a + b == UpTo(n)
    ensures forall x :: x in a ==> x !in b
    ensures forall x :: x in a || x in b ==> x < n
  {
    assert |a + b| == |a| + |b|;
    forall x | x in a ensures x !in b {
      var i :| 0 <= i < |a| && a[i] == x;
      assert (a + b)[i] == x == i;
      forall j | 0 <= j < |b| ensures b[j] != x {
        assert (a + b)[|a| + j] == b[j] == |a| + j;
      }
    }
    forall x | x in a || x in b ensures x < n {
      assert x in a + b;
    }
  }

  /** The innermost open element is in none of the finished trees. */
  lemma {:induction false} TopOutside(n: nat, z: Zipper, i: nat)
    requires InOrder(n, z) && z.open != [] && i < |z.open|
    ensures z.open[|z.open| - 1].id !in PreorderAll(z.open[i].done)
    ensures z.open[|z.open| - 1].id !in PreorderAll(z.roots)
    ensures i < |z.open| - 1 ==> z.open[i].id != z.open[|z.open| - 1].id
  {
    hide PreorderAll, PreorderFrames;
    var top := |z.open| - 1;
    var p := z.open[top].id;
    var before, after := FrameAt(z.open, top);
    assert z.open[top + 1..] == [];
    NoFrames();
    var r, d := PreorderAll(z.roots), PreorderAll(z.open[top].done);
    assert after == [];
    assert r + (before + ([p] + d) + []) == (r + before) + ([p] + d);
    DistinctParts(n, r + before, [p] + d);
    assert p in [p] + d;
    assert p !in r + before;
    assert (r + before) + ([p] + d) == (r + before + [p]) + d;
    DistinctParts(n, r + before + [p], d);
    assert p in r + before + [p];
    if i < top {
      var b2, a2 := FrameAt(z.open[..top], i);
      assert z.open[..top][i] == z.open[i];
      var mid := [z.open[i].id] + PreorderAll(z.open[i].done);
      assert before == b2 + mid + a2;
      assert forall x :: x in mid ==> x in before;
      assert z.open[i].id in mid;
    }
  }

  /** m_Childs.insert or m_NodeList.insert: the new node becomes the last child of the innermost open one. */
  function InsertKids(kids: seq<seq<nat>>, open: seq<nat>): (k: seq<seq<nat>>)
    requires forall i :: 0 <= i < |open| ==> open[i] < |kids|
    ensures |k| == |kids| + 1
  {
    var n := |kids|;
    (if open == [] then kids else kids[open[|open| - 1] := kids[open[|open| - 1]] + [n]]) + [[]]
  }

  function InsertRoots(roots: seq<nat>, open: seq<nat>, n: nat): (r: seq<nat>) {
    if open == [] then roots + [n] else roots
  }

  /** The trees of every level survive an insertion; the innermost level's list has grown. */
  lemma {:induction false} InsertLevels(kids: seq<seq<nat>>, roots: seq<nat>, open: seq<nat>, z: Zipper)
    requires Represents(kids, roots, open, z) && InOrder(|kids|, z)
    ensures var kids', roots' := InsertKids(kids, open), InsertRoots(roots, open, |kids|);
      && AreTrees(kids', z.roots)
      && (forall i :: 0 <= i < |z.open| ==> z.open[i].id < |kids'| && AreTrees(kids', z.open[i].done))
      && (forall i :: 0 <= i < |z.open| - 1 ==> kids'[z.open[i].id] == kids[z.open[i].id])
      && (z.open != [] ==> roots' == roots && kids'[z.open[|z.open| - 1].id] == Ids(z.open[|z.open| - 1].done) + [|kids|])
      && (z.open == [] ==> roots' == Ids(z.roots) + [|kids|])
      && kids'[|kids|] == []
  {
    hide PreorderAll, Preorder, InOrder, IsTree, AreTrees;
    var kids' := InsertKids(kids, open);
    if z.open == [] {
      assert forall k :: 0 <= k < |kids| ==> kids'[k] == kids[k];
      AbsentNumber(z);
      TreesKept(kids, kids', |kids|, z.roots);
    } else {
      var p := z.open[|z.open| - 1].id;
      TopOutside(|kids|, z, 0);
      TreesKept(kids, kids', p, z.roots);
      forall i | 0 <= i < |z.open|
        ensures z.open[i].id < |kids'| && AreTrees(kids', z.open[i].done)
        ensures i < |z.open| - 1 ==> kids'[z.open[i].id] == kids[z.open[i].id]
      {
        assert Level(kids, kids[z.open[i].id], z.open[i].done, Above(z.open, i + 1));
        TopOutside(|kids|, z, i);
        TreesKept(kids, kids', p, z.open[i].done);
      }
    }
  }

  lemma {:induction false} AbsentNumber(z: Zipper)
    ensures forall n :: InOrder(n, z) ==> n !in PreorderAll(z.roots)
  {
    forall n | InOrder(n, z) ensures n !in PreorderAll(z.roots) {
      DistinctParts(n, PreorderAll(z.roots), PreorderFrames(z.open));
    }
  }

  lemma {:induction false} InsertOpen(kids: seq<seq<nat>>, roots: seq<nat>, open: seq<nat>, z: Zipper)
    requires Represents(kids, roots, open, z) && InOrder(|kids|, z)
    ensures Represents(InsertKids(kids, open), InsertRoots(roots, open, |kids|), open + [|kids|],
                       Zipper(z.roots, z.open + [Frame(|kids|, [])]))
  {
    InsertLevels(kids, roots, open, z);
    hide IsTree, InOrder, InsertKids, InsertRoots;
    var n := |z.open|;
    var open' := z.open + [Frame(|kids|, [])];
    var kids' := InsertKids(kids, open);
    forall i | 0 <= i < |open'| ensures Level(kids', kids'[open'[i].id], open'[i].done, Above(open', i + 1)) {
      if i < n {
        assert Level(kids, kids[z.open[i].id], z.open[i].done, Above(z.open, i + 1));
      }
    }
  }

  lemma {:induction false} InsertLeaf(kids: seq<seq<nat>>, roots: seq<nat>, open: seq<nat>, z: Zipper)
    requires Represents(kids, roots, open, z) && InOrder(|kids|, z)
    ensures Represents(InsertKids(kids, open), InsertRoots(roots, open, |kids|), open, Put(z, Tree(|kids|, [])))
  {
    InsertLevels(kids, roots, open, z);
    var kids' := InsertKids(kids, open);
    var leaf := Tree(|kids|, []);
    assert IsTree(kids', leaf);
    if z.open == [] {
      AreTreesSnoc(kids', z.roots, leaf);
      IdsSnoc(z.roots, leaf);
    } else {
      hide IsTree, InOrder, InsertKids, InsertRoots, AreTrees, Represents;
      PutRepresents(kids, kids', roots, open, z, leaf);
    }
  }

  lemma {:induction false} LevelAt(kids: seq<seq<nat>>, roots: seq<nat>, open: seq<nat>, z: Zipper, i: nat)
    requires Represents(kids, roots, open, z) && i < |z.open|
    ensures z.open[i].id < |kids| && Level(kids, kids[z.open[i].id], z.open[i].done, Above(z.open, i + 1))
  {}

  lemma {:induction false} OpenBound(kids: seq<seq<nat>>, roots: seq<nat>, open: seq<nat>, z: Zipper)
    requires Represents(kids, roots, open, z)
    ensures InRange(z, |kids|) && |open| == |z.open| && open == OpenIds(z.open)
    ensures forall i :: 0 <= i < |open| ==> open[i] < |kids|
    ensures Level(kids, roots, z.roots, Above(z.open, 0))
  {}

  /** A finished tree whose number ends the innermost list joins that level. */
  lemma {:induction false} PutRepresents(kids: seq<seq<nat>>, kids': seq<seq<nat>>, roots: seq<nat>, open: seq<nat>,
                                         z: Zipper, leaf: Tree)
    requires Represents(kids, roots, open, z) && z.open != [] && |kids'| >= |kids| && IsTree(kids', leaf)
    requires AreTrees(kids', z.roots)
    requires forall i :: 0 <= i < |z.open| ==> z.open[i].id < |kids'| && AreTrees(kids', z.open[i].done)
    requires forall i :: 0 <= i < |z.open| - 1 ==> kids'[z.open[i].id] == kids[z.open[i].id]
    requires kids'[z.open[|z.open| - 1].id] == Ids(z.open[|z.open| - 1].done) + [leaf.id]
    ensures Represents(kids', roots, open, Put(z, leaf))
  {
    hide Represents, Level, IsTree, Put, AreTrees;
    var top := |z.open| - 1;
    var z' := Put(z, leaf);
    OpenBound(kids, roots, open, z);
    PutShape(z, leaf);
    forall i | 0 <= i < |z.open|
      ensures z'.open[i].id == z.open[i].id < |kids'|
      ensures Level(kids', kids'[z'.open[i].id], z'.open[i].done, Above(z'.open, i + 1))
    {
      LevelAt(kids, roots, open, z, i);
      if i == top {
        FullLevel(kids', kids'[z.open[i].id], z.open[i].done, leaf);
      } else {
        LevelKept(kids, kids', kids[z.open[i].id], z.open[i].done, Above(z.open, i + 1));
      }
    }
    assert OpenIds(z'.open) == open;
    LevelKept(kids, kids', roots, z.roots, Above(z.open, 0));
    MakeRepresents(kids', roots, open, z');
  }

  lemma {:induction false} PutShape(z: Zipper, t: Tree)
    requires z.open != []
    ensures var z', top := Put(z, t), |z.open| - 1;
      && z'.roots == z.roots && |z'.open| == |z.open|
      && (forall i :: 0 <= i < top ==> z'.open[i] == z.open[i])
      && z'.open[top] == Frame(z.open[top].id, z.open[top].done + [t])
  {}

  lemma {:induction false} FullLevel(kids: seq<seq<nat>>, list: seq<nat>, done: seq<Tree>, t: Tree)
    requires list == Ids(done) + [t.id] && AreTrees(kids, done) && IsTree(kids, t)
    ensures Level(kids, list, done + [t], [])
  {
    hide IsTree, AreTrees;
    AreTreesSnoc(kids, done, t);
    IdsSnoc(done, t);
  }

  lemma {:induction false} LevelKept(kids: seq<seq<nat>>, kids': seq<seq<nat>>, list: seq<nat>, done: seq<Tree>, above: seq<nat>)
    requires Level(kids, list, done, above) && AreTrees(kids', done)
    ensures Level(kids', list, done, above)
  {}

  lemma {:induction false} PopRepresents(kids: seq<seq<nat>>, roots: seq<nat>, open: seq<nat>, z: Zipper)
    requires Represents(kids, roots, open, z) && z.open != []
    ensures Represents(kids, roots, open[..|open| - 1], Pop(z))
  {
    OpenBound(kids, roots, open, z);
    var top := |z.open| - 1;
    var f := z.open[top];
    var t := Tree(f.id, f.done);
    LevelAt(kids, roots, open, z, top);
    LevelIsTree(kids, f);
    if top == 0 {
      hide IsTree, AreTrees;
      AreTreesSnoc(kids, z.roots, t);
      IdsSnoc(z.roots, t);
    } else {
      PopInner(kids, roots, open, z, t);
    }
  }

  lemma {:induction false} LevelIsTree(kids: seq<seq<nat>>, f: Frame)
    requires f.id < |kids| && Level(kids, kids[f.id], f.done, [])
    ensures IsTree(kids, Tree(f.id, f.done))
  {}

  lemma {:induction false} PopInner(kids: seq<seq<nat>>, roots: seq<nat>, open: seq<nat>, z: Zipper, t: Tree)
    requires Represents(kids, roots, open, z) && |z.open| > 1
    requires var f := z.open[|z.open| - 1]; t == Tree(f.id, f.done)
    requires IsTree(kids, t)
    ensures Represents(kids, roots, open[..|open| - 1], Pop(z))
  {
    hide Represents, Level, IsTree, Put, Pop, AreTrees;
    var top := |z.open| - 1;
    var z' := Pop(z);
    OpenBound(kids, roots, open, z);
    PopShape(z);
    forall i | 0 <= i < top
      ensures z'.open[i].id == z.open[i].id < |kids|
      ensures Level(kids, kids[z'.open[i].id], z'.open[i].done, Above(z'.open, i + 1))
    {
      LevelAt(kids, roots, open, z, i);
      if i == top - 1 { LevelSnoc(kids, kids[z.open[i].id], z.open[i].done, t); }
    }
    assert OpenIds(z'.open) == open[..top];
    MakeRepresents(kids, roots, open[..top], z');
  }

  lemma {:induction false} PopShape(z: Zipper)
    requires |z.open| > 1
    ensures var z', top := Pop(z), |z.open| - 1;
      && z'.roots == z.roots && |z'.open| == top
      && (forall i :: 0 <= i < top - 1 ==> z'.open[i] == z.open[i])
      && z'.open[top - 1] == Frame(z.open[top - 1].id, z.open[top - 1].done + [Tree(z.open[top].id, z.open[top].done)])
  {}

  lemma {:induction false} MakeRepresents(kids: seq<seq<nat>>, roots: seq<nat>, open: seq<nat>, z: Zipper)
    requires InRange(z, |kids|) && open == OpenIds(z.open)
    requires Level(kids, roots, z.roots, Above(z.open, 0))
    requires forall i :: 0 <= i < |z.open| ==> Level(kids, kids[z.open[i].id], z.open[i].done, Above(z.open, i + 1))
    ensures Represents(kids, roots, open, z)
  {}

  /** The number that ended a list of the element above becomes that of a finished tree. */
  lemma {:induction false} LevelSnoc(kids: seq<seq<nat>>, list: seq<nat>, done: seq<Tree>, t: Tree)
    requires Level(kids, list, done, [t.id]) && IsTree(kids, t)
    ensures Level(kids, list, done + [t], [])
  {
    hide IsTree;
    AreTreesSnoc(kids, done, t);
    IdsSnoc(done, t);
  }

  // --------------------------------------------------------------- the class

  class Xml {
    var nodes: seq<Node>          // every node appended
    var kids: seq<seq<nat>>       // their m_Childs
    var nodeList: seq<nat>        // m_NodeList
    var openList: seq<nat>        // m_OpenList
    ghost var forest: Zipper

    ghost predicate Valid()
      reads this
    {
      && |kids| == |nodes|
      && Represents(kids, nodeList, openList, forest)
      && InOrder(|nodes|, forest)
    }

    constructor ()
      ensures Valid() && nodes == [] && forest == Zipper([], [])
    {
      nodes, kids, nodeList, openList := [], [], [], [];
      forest := Zipper([], []);
    }

    /** Xml::getParentNode. */
    method GetParentNode() returns (parent: Option<nat>)
      ensures parent == if openList == [] then None else Some(openList[|openList| - 1])
    {
      if |openList| == 0 { return None; }
      return Some(openList[|openList| - 1]);
    }

    /** The search of Xml::setClosedNode, from the innermost open element down. */
    method FindClosed(node: Node) returns (find: int)
      requires forall i :: 0 <= i < |openList| ==> openList[i] < |nodes|
      ensures find == FindOpen(nodes, openList, node.name)
    {
      hide FindOpen;
      find := -1;
      var k := |openList| - 1;
      FindPrefix(nodes, openList, node.name);
      while k >= 0
        invariant -1 <= k < |openList| && find == -1
        invariant FindOpen(nodes, openList[..k + 1], node.name) == FindOpen(nodes, openList, node.name)
        decreases k
      {
        FindStep(nodes, openList, k, node.name);
        if EqualsIgnoreCase(nodes[openList[k]].name, node.name) {
          return k;
        }
        k := k - 1;
      }
      FindNone(nodes, openList, node.name);
    }

    /** Xml::setClosedNode: pops down to the innermost open element of that name, if there is one. */
    method SetClosedNode(node: Node)
      requires Valid()
      modifies this`openList, this`forest
      ensures Valid()
      ensures var k := FindOpen(nodes, old(openList), node.name);
              forest == if 0 <= k <= |old(forest.open)| then PopTo(old(forest), k) else old(forest)
    {
      OpenBound(kids, nodeList, openList, forest);
      hide InOrder, FindOpen, PopTo, Represents, Pop;
      var find := FindClosed(node);
      if find == -1 { return; }
      ghost var start := forest;
      var k := |openList| - 1;
      while k >= find
        invariant find <= |openList| == |forest.open| == k + 1
        invariant Represents(kids, nodeList, openList, forest) && InOrder(|nodes|, forest)
        invariant PopTo(forest, find) == PopTo(start, find)
        decreases k
      {
        PopOne(kids, nodeList, openList, forest, find);
        openList := openList[..k];
        forest := Pop(forest);
        k := k - 1;
      }
      PopToDone(forest, find);
    }

    /** Adds the node object and makes it the last child of the innermost open element. */
    method Insert(node: Node) returns (id: nat)
      requires |kids| == |nodes| && forall i :: 0 <= i < |openList| ==> openList[i] < |kids|
      modifies this`nodes, this`kids, this`nodeList
      ensures id == old(|nodes|) && nodes == old(nodes) + [node]
      ensures kids == InsertKids(old(kids), openList) && nodeList == InsertRoots(old(nodeList), openList, id)
    {
      id := |nodes|;
      nodes := nodes + [node];
      var parent := GetParentNode();
      if parent.Some? {
        kids := kids[parent.value := kids[parent.value] + [id]] + [[]];
      } else {
        nodeList := nodeList + [id];
        kids := kids + [[]];
      }
    }

    /** Xml::append. */
    method Append(node: Node)
      requires Valid()
      modifies this
      ensures Valid()
      ensures nodes == old(nodes) + [node]
      ensures forest == Grow(old(nodes), old(forest), node)
    {
      hide Represents, InOrder, PopTo, FindOpen, Put;
      ghost var z, before, open := forest, nodes, openList;
      OpenBound(kids, nodeList, openList, forest);
      InsertOpen(kids, nodeList, openList, forest);
      InsertLeaf(kids, nodeList, openList, forest);
      PutInOrder(|nodes|, forest, node);
      var id := Insert(node);
      if Opens(node) {
        // setOpenedNode
        openList := openList + [id];
        forest := Zipper(forest.roots, forest.open + [Frame(id, [])]);
      } else {
        forest := Put(forest, Tree(id, []));
        if node.kind == CloseTag {
          FindSame(before, node, open);
          SetClosedNode(node);
        }
      }
    }

    /** Xml::text, on the tree that stands for the node. */
    method Text(id: nat, ghost t: Tree) returns (text: string)
      requires Valid() && IsTree(kids, t) && t.id == id
      ensures text == TextOf(nodes, t)
      decreases t
    {
      hide Represents, InOrder, IsTree, AreTrees, TextOf, TextAll, TextOfChild, Ids;
      text := "";
      TreeOfKids(kids, t);
      TextOfKids(nodes, t);
      var k := 0;
      while k < |kids[id]|
        invariant 0 <= k <= |kids[id]| == |t.kids|
        invariant AreTrees(kids, t.kids[k..])
        invariant TextAll(nodes, t.kids) == text + TextAll(nodes, t.kids[k..])
      {
        ghost var child := t.kids[k];
        FirstTree(kids, t.kids, k);
        TextStep(nodes, t.kids, k, text);
        var chd := kids[id][k];
        if nodes[chd].kind == Kind.Text {
          text := text + nodes[chd].text;
        } else if nodes[chd].kind == Tag {
          var test := Text(chd, child);
          text := text + test;
        }
        k := k + 1;
      }
      TextEnd(nodes, t.kids);
    }
  }

  lemma {:induction false} TreeOfKids(kids: seq<seq<nat>>, t: Tree)
    requires IsTree(kids, t)
    ensures t.id < |kids| && |kids[t.id]| == |t.kids| && AreTrees(kids, t.kids[0..])
    ensures forall k :: 0 <= k < |t.kids| ==> kids[t.id][k] == t.kids[k].id
  {
    assert t.kids[0..] == t.kids;
  }

  lemma {:induction false} FirstTree(kids: seq<seq<nat>>, ts: seq<Tree>, k: nat)
    requires k < |ts| && AreTrees(kids, ts[k..])
    ensures IsTree(kids, ts[k]) && ts[k].id < |kids| && AreTrees(kids, ts[k + 1..])
  {
    assert ts[k..][1..] == ts[k + 1..];
  }

  lemma {:induction false} TextOfKids(nodes: seq<Node>, t: Tree)
    ensures TextOf(nodes, t) == TextAll(nodes, t.kids) == "" + TextAll(nodes, t.kids[0..])
  {
    assert t.kids[0..] == t.kids;
    assert "" + TextAll(nodes, t.kids) == TextAll(nodes, t.kids);
  }

  lemma {:induction false} TextStep(nodes: seq<Node>, ts: seq<Tree>, k: nat, before: string)
    requires k < |ts| && ts[k].id < |nodes|
    ensures before + TextAll(nodes, ts[k..]) ==
            (match nodes[ts[k].id].kind
             case Text => before + nodes[ts[k].id].text
             case Tag => before + TextOf(nodes, ts[k])
             case _ => before) + TextAll(nodes, ts[k + 1..])
  {
    assert ts[k..][1..] == ts[k + 1..];
    hide TextOf;
    assert TextAll(nodes, ts[k..]) == TextOfChild(nodes, ts[k]) + TextAll(nodes, ts[k + 1..]);
    assert before + "" == before;
    assert before + (TextOfChild(nodes, ts[k]) + TextAll(nodes, ts[k + 1..]))
        == (before + TextOfChild(nodes, ts[k])) + TextAll(nodes, ts[k + 1..]);
  }

  lemma {:induction false} TextEnd(nodes: seq<Node>, ts: seq<Tree>)
    ensures TextAll(nodes, ts[|ts|..]) == ""
    ensures forall text: string :: text + "" == text
  {}

  lemma {:induction false} PopOne(kids: seq<seq<nat>>, roots: seq<nat>, open: seq<nat>, z: Zipper, k: nat)
    requires Represents(kids, roots, open, z) && InOrder(|kids|, z) && k < |z.open| == |open|
    ensures Represents(kids, roots, open[..|open| - 1], Pop(z)) && InOrder(|kids|, Pop(z))
    ensures PopTo(Pop(z), k) == PopTo(z, k) && |Pop(z).open| == |z.open| - 1
  {
    PopRepresents(kids, roots, open, z);
    PopPreorder(z);
    hide PreorderZipper;
  }

  lemma {:induction false} PutInOrder(n: nat, z: Zipper, node: Node)
    requires InOrder(n, z)
    ensures InOrder(n + 1, Put(z, Tree(n, [])))
    ensures InOrder(n + 1, Zipper(z.roots, z.open + [Frame(n, [])]))
  {
    PutPreorder(z, Tree(n, []));
    FramesSnoc(z.open, Frame(n, []));
    assert Preorder(Tree(n, [])) == [n] && [n] + PreorderAll([]) == [n];
    assert PreorderAll(z.roots) + (PreorderFrames(z.open) + [n]) == PreorderAll(z.roots) + PreorderFrames(z.open) + [n];
    assert UpTo(n) + [n] == UpTo(n + 1);
  }

  lemma {:induction false} PopToDone(z: Zipper, k: nat)
    requires k <= |z.open|
    ensures |z.open| == k ==> PopTo(z, k) == z
  {}

  lemma {:induction false} FindPrefix(nodes: seq<Node>, open: seq<nat>, name: string)
    ensures open[..|open|] == open
  {}

  lemma {:induction false} FindStep(nodes: seq<Node>, open: seq<nat>, k: nat, name: string)
    requires k < |open| && forall i :: 0 <= i < |open| ==> open[i] < |nodes|
    ensures FindOpen(nodes, open[..k + 1], name)
         == if EqualsIgnoreCase(nodes[open[k]].name, name) then k else FindOpen(nodes, open[..k], name)
  {
    assert open[..k + 1][..k] == open[..k];
  }

  lemma {:induction false} FindNone(nodes: seq<Node>, open: seq<nat>, name: string)
    ensures FindOpen(nodes, open[..0], name) == -1
  {}

  lemma {:induction false} FindSame(nodes: seq<Node>, node: Node, open: seq<nat>)
    requires forall i :: 0 <= i < |open| ==> open[i] < |nodes|
    ensures FindOpen(nodes + [node], open, node.name) == FindOpen(nodes, open, node.name)
    decreases |open|
  {
    if open != [] { FindSame(nodes, node, open[..|open| - 1]); }
  }

  // ------------------------------------------------------- whole documents

  /** The forest after a sequence of appends. */
  function GrowAll(nodes: seq<Node>, z: Zipper, stream: seq<Node>): (z': Zipper)
    decreases |stream|
  {
    if stream == [] then z else GrowAll(nodes + [stream[0]], Grow(nodes, z, stream[0]), stream[1..])
  }

  /** The finished forest: elements still open count as closed at the end. */
  function ForestOf(stream: seq<Node>): (ts: seq<Tree>) {
    PopTo(GrowAll([], Zipper([], []), stream), 0).roots
  }

  lemma {:induction false} GrowAllSnoc(nodes: seq<Node>, z: Zipper, stream: seq<Node>, node: Node)
    ensures GrowAll(nodes, z, stream + [node]) == Grow(nodes + stream, GrowAll(nodes, z, stream), node)
    decreases |stream|
  {
    hide Grow;
    if stream == [] {
      assert nodes + stream == nodes && (stream + [node])[1..] == [];
    } else {
      assert (stream + [node])[1..] == stream[1..] + [node];
      assert nodes + [stream[0]] + stream[1..] == nodes + stream;
      GrowAllSnoc(nodes + [stream[0]], Grow(nodes, z, stream[0]), stream[1..], node);
    }
  }

  lemma {:induction false} PopAllRepresents(kids: seq<seq<nat>>, roots: seq<nat>, open: seq<nat>, z: Zipper)
    requires Represents(kids, roots, open, z) && InOrder(|kids|, z)
    ensures Represents(kids, roots, [], PopTo(z, 0)) && InOrder(|kids|, PopTo(z, 0))
    decreases |z.open|
  {
    OpenBound(kids, roots, open, z);
    hide Represents, InOrder, Pop;
    if z.open == [] {
      assert open == [];
    } else {
      PopOne(kids, roots, open, z, 0);
      PopAllRepresents(kids, roots, open[..|open| - 1], Pop(z));
    }
  }

  lemma {:induction false} ClosedForest(kids: seq<seq<nat>>, roots: seq<nat>, z: Zipper)
    requires Represents(kids, roots, [], z) && InOrder(|kids|, z)
    ensures roots == Ids(z.roots) && AreTrees(kids, z.roots) && PreorderAll(z.roots) == UpTo(|kids|)
  {
    assert z.open == [];
    assert Ids(z.roots) + [] == Ids(z.roots);
    assert PreorderAll(z.roots) + [] == PreorderAll(z.roots);
  }

  /** Every open element is the last child of the one below it, the first one the last root. */
  lemma {:induction false} OpenListIsRightSpine(kids: seq<seq<nat>>, roots: seq<nat>, open: seq<nat>, z: Zipper, i: nat)
    requires Represents(kids, roots, open, z) && i < |open|
    ensures i == 0 ==> roots != [] && roots[|roots| - 1] == open[0]
    ensures i > 0 ==> open[i - 1] < |kids| && kids[open[i - 1]] != []
                      && kids[open[i - 1]][|kids[open[i - 1]]| - 1] == open[i]
  {
    hide Represents, Level, IsTree, AreTrees, Ids;
    OpenBound(kids, roots, open, z);
    if i > 0 {
      LevelAt(kids, roots, open, z, i - 1);
      LastOfLevel(kids, kids[open[i - 1]], z.open[i - 1].done, open[i]);
    } else {
      LastOfLevel(kids, roots, z.roots, open[0]);
    }
  }

  lemma {:induction false} LastOfLevel(kids: seq<seq<nat>>, list: seq<nat>, done: seq<Tree>, id: nat)
    requires Level(kids, list, done, [id])
    ensures list != [] && list[|list| - 1] == id
  {}

  /** Appends a whole stream of nodes. */
  method Load(stream: seq<Node>) returns (xml: Xml)
    ensures fresh(xml) && xml.Valid() && xml.nodes == stream
    ensures xml.nodeList == Ids(ForestOf(stream)) && AreTrees(xml.kids, ForestOf(stream))
    ensures PreorderAll(ForestOf(stream)) == UpTo(|stream|)
  {
    hide Represents, InOrder, GrowAll, PopTo, Grow;
    xml := new Xml();
    var i := 0;
    StartGrow();
    assert stream[..0] == [];
    while i < |stream|
      invariant 0 <= i <= |stream| && fresh(xml)
      invariant xml.Valid() && xml.nodes == stream[..i]
      invariant xml.forest == GrowAll([], Zipper([], []), stream[..i])
    {
      GrowAllSnoc([], Zipper([], []), stream[..i], stream[i]);
      assert [] + stream[..i] == stream[..i] && stream[..i + 1] == stream[..i] + [stream[i]];
      xml.Append(stream[i]);
      i := i + 1;
    }
    assert stream[..i] == stream;
    PopAllRepresents(xml.kids, xml.nodeList, xml.openList, xml.forest);
    ClosedForest(xml.kids, xml.nodeList, PopTo(xml.forest, 0));
  }

  /** The children lists then are a forest, and its preorder traversal is the stream. */
  method Build(stream: seq<Node>) returns (kids: seq<seq<nat>>, nodeList: seq<nat>)
    ensures |kids| == |stream|
    ensures nodeList == Ids(ForestOf(stream)) && AreTrees(kids, ForestOf(stream))
    ensures PreorderAll(ForestOf(stream)) == UpTo(|stream|)
  {
    hide ForestOf;
    var xml := Load(stream);
    kids, nodeList := xml.kids, xml.nodeList;
  }

  lemma {:induction false} StartGrow()
    ensures GrowAll([], Zipper([], []), []) == Zipper([], [])
  {}

  // ------------------------------------------------------ balanced documents

  /** Content of a document: elements with both tags, and everything else. */
  datatype Item = Leaf(node: Node) | Element(start: Node, content: seq<Item>, end: Node)

  ghost predicate Balanced(i: Item)
    decreases i, 0
  {
    match i
    case Leaf(n) => n.kind != CloseTag && (n.kind != Tag || n.closed)
    case Element(s, c, e) => s.kind == Tag && !s.closed && e.kind == CloseTag && EqualsIgnoreCase(s.name, e.name) && AllBalanced(c)
  }

  ghost predicate AllBalanced(items: seq<Item>)
    decreases items, 1
  {
    items != [] ==> Balanced(items[0]) && AllBalanced(items[1..])
  }

  function Stream(i: Item): (s: seq<Node>)
    decreases i, 0
  {
    match i
    case Leaf(n) => [n]
    case Element(s, c, e) => [s] + StreamAll(c) + [e]
  }

  function StreamAll(items: seq<Item>): (s: seq<Node>)
    decreases items, 1
  {
    if items == [] then [] else Stream(items[0]) + StreamAll(items[1..])
  }

  /** The tree of an item whose first node gets number `id`: its nodes from the start tag to the end tag. */
  function ItemTree(i: Item, id: nat): (t: Tree)
    decreases i, 0
  {
    match i
    case Leaf(_) => Tree(id, [])
    case Element(_, c, _) => Tree(id, ItemTrees(c, id + 1) + [Tree(id + 1 + |StreamAll(c)|, [])])
  }

  function ItemTrees(items: seq<Item>, id: nat): (ts: seq<Tree>)
    decreases items, 1
  {
    if items == [] then [] else [ItemTree(items[0], id)] + ItemTrees(items[1..], id + |Stream(items[0])|)
  }

  function PutAll(z: Zipper, ts: seq<Tree>): (z': Zipper)
    ensures |z'.open| == |z.open|
    decreases |ts|
  {
    if ts == [] then z else PutAll(Put(z, ts[0]), ts[1..])
  }

  lemma {:induction false} GrowAllAppend(nodes: seq<Node>, z: Zipper, s: seq<Node>, t: seq<Node>)
    ensures GrowAll(nodes, z, s + t) == GrowAll(nodes + s, GrowAll(nodes, z, s), t)
    decreases |s|
  {
    hide Grow;
    if s == [] {
      assert s + t == t && nodes + s == nodes;
    } else {
      assert (s + t)[1..] == s[1..] + t && nodes + [s[0]] + s[1..] == nodes + s;
      GrowAllAppend(nodes + [s[0]], Grow(nodes, z, s[0]), s[1..], t);
    }
  }

  /** Putting trees into a level that has just been opened collects them there. */
  lemma {:induction false} PutAllOnTop(z: Zipper, f: Frame, ts: seq<Tree>)
    ensures PutAll(Zipper(z.roots, z.open + [f]), ts) == Zipper(z.roots, z.open + [f.(done := f.done + ts)])
    decreases |ts|
  {
    if ts == [] {
      assert f.done + ts == f.done;
    } else {
      var g := f.(done := f.done + [ts[0]]);
      assert (z.open + [f])[..|z.open|] == z.open;
      assert Put(Zipper(z.roots, z.open + [f]), ts[0]) == Zipper(z.roots, z.open + [g]);
      PutAllOnTop(z, g, ts[1..]);
      assert f.done + [ts[0]] + ts[1..] == f.done + ts;
    }
  }

  /** The end tag closes exactly the element on top, which then is a finished tree. */
  lemma {:induction false} CloseTop(nodes: seq<Node>, z: Zipper, f: Frame, end: Node)
    requires end.kind == CloseTag && f.id < |nodes| && EqualsIgnoreCase(nodes[f.id].name, end.name)
    ensures Grow(nodes, Zipper(z.roots, z.open + [f]), end)
         == Put(z, Tree(f.id, f.done + [Tree(|nodes|, [])]))
  {
    var open := z.open + [f];
    var n := |z.open|;
    var g := f.(done := f.done + [Tree(|nodes|, [])]);
    assert open[..n] == z.open;
    assert OpenIds(open)[n] == f.id;
    assert FindOpen(nodes, OpenIds(open), end.name) == n;
    var put := Zipper(z.roots, z.open + [g]);
    assert Put(Zipper(z.roots, open), Tree(|nodes|, [])) == put;
    assert put.open[..n] == z.open;
    assert PopTo(put, n) == Pop(put);
  }

  /** A balanced item leaves the open elements as they were and adds its tree. */
  lemma {:induction false} ItemGrows(nodes: seq<Node>, z: Zipper, i: Item)
    requires Balanced(i)
    ensures GrowAll(nodes, z, Stream(i)) == Put(z, ItemTree(i, |nodes|))
    decreases i, 0
  {
    hide Put, Pop, PopTo, FindOpen;
    match i
    case Leaf(n) =>
      assert Stream(i) == [n] && [n][1..] == [];
    case Element(s, c, e) =>
      var id := |nodes|;
      var inside := Zipper(z.roots, z.open + [Frame(id, [])]);
      var body := StreamAll(c);
      assert Stream(i) == [s] + (body + [e]);
      assert ([s] + (body + [e]))[1..] == body + [e];
      assert Grow(nodes, z, s) == inside;
      ItemsGrow(nodes + [s], inside, c);
      PutAllOnTop(z, Frame(id, []), ItemTrees(c, id + 1));
      assert [] + ItemTrees(c, id + 1) == ItemTrees(c, id + 1);
      GrowAllSnoc(nodes + [s], inside, body, e);
      var all := nodes + [s] + body;
      assert all[id] == s;
      CloseTop(all, z, Frame(id, ItemTrees(c, id + 1)), e);
  }

  lemma {:induction false} ItemsGrow(nodes: seq<Node>, z: Zipper, items: seq<Item>)
    requires AllBalanced(items)
    ensures GrowAll(nodes, z, StreamAll(items)) == PutAll(z, ItemTrees(items, |nodes|))
    decreases items, 1
  {
    hide Put, Grow;
    if items != [] {
      var first := Stream(items[0]);
      GrowAllAppend(nodes, z, first, StreamAll(items[1..]));
      ItemGrows(nodes, z, items[0]);
      ItemsGrow(nodes + first, Put(z, ItemTree(items[0], |nodes|)), items[1..]);
    }
  }

  /** A balanced document becomes exactly the trees of its items. */
  lemma {:induction false} BalancedDocument(items: seq<Item>)
    requires AllBalanced(items)
    ensures ForestOf(StreamAll(items)) == ItemTrees(items, 0)
  {
    var z := Zipper([], []);
    ItemsGrow([], z, items);
    RootsCollected([], ItemTrees(items, 0));
    assert [] + ItemTrees(items, 0) == ItemTrees(items, 0);
  }

  lemma {:induction false} RootsCollected(done: seq<Tree>, ts: seq<Tree>)
    ensures PutAll(Zipper(done, []), ts) == Zipper(done + ts, [])
    decreases |ts|
  {
    if ts == [] {
      assert done + ts == done;
    } else {
      RootsCollected(done + [ts[0]], ts[1..]);
      assert done + [ts[0]] + ts[1..] == done + ts;
    }
  }

  function Interval(id: nat, n: nat): (ids: seq<nat>)
    ensures |ids| == n && forall k :: 0 <= k < n ==> ids[k] == id + k
  {
    seq(n, k requires 0 <= k < n => id + k)
  }

  lemma {:induction false} IntervalSplit(id: nat, m: nat, n: nat)
    ensures Interval(id, m + n) == Interval(id, m) + Interval(id + m, n)
  {}

  /** An element's subtree is its own numbers, from its start tag to its end tag. */
  lemma {:induction false} ElementIsInterval(i: Item, id: nat)
    ensures Preorder(ItemTree(i, id)) == Interval(id, |Stream(i)|)
    decreases i, 0
  {
    match i
    case Leaf(_) =>
      assert PreorderAll([]) == [];
    case Element(s, c, e) =>
      ItemsAreInterval(c, id + 1);
      var last := Tree(id + 1 + |StreamAll(c)|, []);
      PreorderSnoc(ItemTrees(c, id + 1), last);
      assert Preorder(last) == [last.id] + PreorderAll([]) == [last.id];
  }

  lemma {:induction false} ItemsAreInterval(items: seq<Item>, id: nat)
    ensures PreorderAll(ItemTrees(items, id)) == Interval(id, |StreamAll(items)|)
    decreases items, 1
  {
    hide Stream, ItemTree, Preorder;
    if items != [] {
      var n := |Stream(items[0])|;
      var first, rest := ItemTree(items[0], id), ItemTrees(items[1..], id + n);
      ElementIsInterval(items[0], id);
      ItemsAreInterval(items[1..], id + n);
      IntervalSplit(id, n, |StreamAll(items[1..])|);
      PreorderCons(first, rest);
    }
  }

  lemma {:induction false} PreorderCons(t: Tree, ts: seq<Tree>)
    ensures PreorderAll([t] + ts) == Preorder(t) + PreorderAll(ts)
  {
    assert ([t] + ts)[1..] == ts;
  }

  // ------------------------------------------------------------ text of a node

  /** What Xml::text collects below a node: its text children, and recursively its tag children. */
  function TextOf(nodes: seq<Node>, t: Tree): (text: string)
    decreases t, 0
  {
    TextAll(nodes, t.kids)
  }

  function TextAll(nodes: seq<Node>, ts: seq<Tree>): (text: string)
    decreases ts, 1
  {
    if ts == [] then "" else TextOfChild(nodes, ts[0]) + TextAll(nodes, ts[1..])
  }

  function TextOfChild(nodes: seq<Node>, t: Tree): (text: string)
    decreases t, 1
  {
    if t.id >= |nodes| then ""
    else match nodes[t.id].kind
      case Text => nodes[t.id].text
      case Tag => TextOf(nodes, t)
      case _ => ""
  }

  /** The text nodes among the given ones, in that order, joined. */
  function Texts(nodes: seq<Node>, ids: seq<nat>): (text: string) {
    if ids == [] then ""
    else (if ids[0] < |nodes| && nodes[ids[0]].kind == Text then nodes[ids[0]].text else "") + Texts(nodes, ids[1..])
  }

  /** Only tags that do not close themselves have children. */
  ghost predicate Kinds(nodes: seq<Node>, t: Tree)
    decreases t, 0
  {
    t.id < |nodes| && (t.kids != [] ==> nodes[t.id].kind == Tag && !nodes[t.id].closed) && AllKinds(nodes, t.kids)
  }

  ghost predicate AllKinds(nodes: seq<Node>, ts: seq<Tree>)
    decreases ts, 1
  {
    ts != [] ==> Kinds(nodes, ts[0]) && AllKinds(nodes, ts[1..])
  }

  ghost predicate FrameKinds(nodes: seq<Node>, f: Frame) {
    f.id < |nodes| && nodes[f.id].kind == Tag && !nodes[f.id].closed && AllKinds(nodes, f.done)
  }

  ghost predicate ZipperKinds(nodes: seq<Node>, z: Zipper) {
    AllKinds(nodes, z.roots) && forall i :: 0 <= i < |z.open| ==> FrameKinds(nodes, z.open[i])
  }

  lemma {:induction false} AllKindsSnoc(nodes: seq<Node>, ts: seq<Tree>, t: Tree)
    requires AllKinds(nodes, ts) && Kinds(nodes, t)
    ensures AllKinds(nodes, ts + [t])
  {
    hide Kinds;
    if ts == [] {
      assert (ts + [t])[1..] == [];
    } else {
      AllKindsSnoc(nodes, ts[1..], t);
      assert (ts + [t])[1..] == ts[1..] + [t];
    }
  }

  lemma {:induction false} KindsKept(nodes: seq<Node>, node: Node, ts: seq<Tree>)
    requires AllKinds(nodes, ts)
    ensures AllKinds(nodes + [node], ts)
    decreases ts
  {
    if ts != [] {
      KindsKept(nodes, node, ts[0].kids);
      KindsKept(nodes, node, ts[1..]);
    }
  }

  lemma {:induction false} PutKinds(nodes: seq<Node>, z: Zipper, t: Tree)
    requires ZipperKinds(nodes, z) && Kinds(nodes, t)
    ensures ZipperKinds(nodes, Put(z, t))
  {
    hide Kinds, AllKinds;
    if z.open == [] {
      AllKindsSnoc(nodes, z.roots, t);
    } else {
      AllKindsSnoc(nodes, z.open[|z.open| - 1].done, t);
    }
  }

  lemma {:induction false} PopToKinds(nodes: seq<Node>, z: Zipper, k: nat)
    requires ZipperKinds(nodes, z) && k <= |z.open|
    ensures ZipperKinds(nodes, PopTo(z, k))
    decreases |z.open|
  {
    hide Put;
    if |z.open| > k {
      var n := |z.open| - 1;
      var f := z.open[n];
      assert FrameKinds(nodes, f);
      PutKinds(nodes, Zipper(z.roots, z.open[..n]), Tree(f.id, f.done));
      PopToKinds(nodes, Pop(z), k);
    }
  }

  /** An append never gives a child to anything but a tag that is open. */
  lemma {:induction false} GrowKinds(nodes: seq<Node>, z: Zipper, node: Node)
    requires ZipperKinds(nodes, z)
    ensures ZipperKinds(nodes + [node], Grow(nodes, z, node))
  {
    var all := nodes + [node];
    KindsKept(nodes, node, z.roots);
    forall i | 0 <= i < |z.open| ensures FrameKinds(all, z.open[i]) {
      assert FrameKinds(nodes, z.open[i]);
      KindsKept(nodes, node, z.open[i].done);
    }
    assert ZipperKinds(all, z);
    var leaf := Tree(|nodes|, []);
    assert AllKinds(all, []);
    assert Kinds(all, leaf);
    hide Put, PopTo, FindOpen, Kinds, AllKinds;
    if Opens(node) {
      assert FrameKinds(all, Frame(|nodes|, []));
    } else {
      PutKinds(all, z, leaf);
      var k := FindOpen(nodes, OpenIds(z.open), node.name);
      if k >= 0 { PopToKinds(all, Put(z, leaf), k); }
    }
  }

  lemma {:induction false} GrowAllKinds(nodes: seq<Node>, z: Zipper, stream: seq<Node>)
    requires ZipperKinds(nodes, z)
    ensures ZipperKinds(nodes + stream, GrowAll(nodes, z, stream))
    decreases |stream|
  {
    hide Grow, ZipperKinds;
    if stream == [] {
      assert nodes + stream == nodes;
    } else {
      GrowKinds(nodes, z, stream[0]);
      GrowAllKinds(nodes + [stream[0]], Grow(nodes, z, stream[0]), stream[1..]);
      assert nodes + [stream[0]] + stream[1..] == nodes + stream;
    }
  }

  /** In every forest that appends can build, only tags that do not close themselves have children. */
  lemma {:induction false} ForestKinds(stream: seq<Node>)
    ensures AllKinds(stream, ForestOf(stream))
  {
    hide GrowAll, PopTo;
    assert AllKinds([], []);
    GrowAllKinds([], Zipper([], []), stream);
    assert [] + stream == stream;
    PopToKinds(stream, GrowAll([], Zipper([], []), stream), 0);
  }

  lemma {:induction false} TextsAppend(nodes: seq<Node>, a: seq<nat>, b: seq<nat>)
    ensures Texts(nodes, a + b) == Texts(nodes, a) + Texts(nodes, b)
    decreases |a|
  {
    if a == [] {
      assert a + b == b;
    } else {
      assert (a + b)[1..] == a[1..] + b;
      TextsAppend(nodes, a[1..], b);
    }
  }

  /** Xml::text of a node joins, in document order, exactly the text nodes below it. */
  lemma {:induction false} TextIsInOrder(nodes: seq<Node>, t: Tree)
    requires Kinds(nodes, t)
    ensures TextOf(nodes, t) == Texts(nodes, Preorder(t)[1..])
    decreases t, 0
  {
    TextsInOrder(nodes, t.kids);
    assert Preorder(t)[1..] == PreorderAll(t.kids);
  }

  lemma {:induction false} TextsInOrder(nodes: seq<Node>, ts: seq<Tree>)
    requires AllKinds(nodes, ts)
    ensures TextAll(nodes, ts) == Texts(nodes, PreorderAll(ts))
    decreases ts, 1
  {
    if ts != [] {
      ChildInOrder(nodes, ts[0]);
      TextsInOrder(nodes, ts[1..]);
      TextsAppend(nodes, Preorder(ts[0]), PreorderAll(ts[1..]));
    }
  }

  lemma {:induction false} ChildInOrder(nodes: seq<Node>, t: Tree)
    requires Kinds(nodes, t)
    ensures TextOfChild(nodes, t) == Texts(nodes, Preorder(t))
    decreases t, 1
  {
    TextIsInOrder(nodes, t);
    if t.kids == [] {
      assert Preorder(t) == [t.id] + [] == [t.id];
      assert TextAll(nodes, []) == "" && Texts(nodes, []) == "" && [t.id][1..] == [];
    }
  }

  // --------------------------------------------- the elements of a document

  /** Item `i` with its first node at `at` is among the items, or inside one, whose first node has number `id`. */
  ghost predicate Occurs(items: seq<Item>, id: nat, i: Item, at: nat)
    decreases items
  {
    items != []
    && ((items[0] == i && at == id)
        || (items[0].Element? && Occurs(items[0].content, id + 1, i, at))
        || Occurs(items[1..], id + |Stream(items[0])|, i, at))
  }

  /** The nodes of the items stand in `nodes` from `id` on. */
  predicate Stands(nodes: seq<Node>, id: nat, part: seq<Node>) {
    id + |part| <= |nodes| && nodes[id..id + |part|] == part
  }

  lemma {:induction false} StandsParts(nodes: seq<Node>, id: nat, a: seq<Node>, b: seq<Node>)
    requires Stands(nodes, id, a + b)
    ensures Stands(nodes, id, a) && Stands(nodes, id + |a|, b)
  {
    var all := nodes[id..id + |a + b|];
    assert all[..|a|] == nodes[id..id + |a|] && all[|a|..] == nodes[id + |a|..id + |a| + |b|];
  }

  lemma {:induction false} AreTreesFront(kids: seq<seq<nat>>, ts: seq<Tree>, t: Tree)
    requires AreTrees(kids, ts + [t])
    ensures AreTrees(kids, ts)
  {
    hide IsTree;
    if ts != [] {
      assert (ts + [t])[1..] == ts[1..] + [t];
      AreTreesFront(kids, ts[1..], t);
    }
  }

  lemma {:induction false} AllKindsFront(nodes: seq<Node>, ts: seq<Tree>, t: Tree)
    requires AllKinds(nodes, ts + [t])
    ensures AllKinds(nodes, ts)
  {
    hide Kinds;
    if ts != [] {
      assert (ts + [t])[1..] == ts[1..] + [t];
      AllKindsFront(nodes, ts[1..], t);
    }
  }

  /** What holds of the items of a document holds of each of them: its place, its tree, its kinds. */
  lemma {:induction false} OccurrenceMeans(nodes: seq<Node>, kids: seq<seq<nat>>, items: seq<Item>, id: nat, i: Item, at: nat)
    requires Occurs(items, id, i, at) && AllBalanced(items) && Stands(nodes, id, StreamAll(items))
    requires AllKinds(nodes, ItemTrees(items, id)) && AreTrees(kids, ItemTrees(items, id))
    ensures Balanced(i) && Stands(nodes, at, Stream(i))
    ensures Kinds(nodes, ItemTree(i, at)) && IsTree(kids, ItemTree(i, at))
    decreases items
  {
    hide Stream, ItemTree, IsTree, Kinds, Balanced, Stands;
    var first, n := items[0], |Stream(items[0])|;
    StandsParts(nodes, id, Stream(first), StreamAll(items[1..]));
    assert ItemTrees(items, id)[1..] == ItemTrees(items[1..], id + n);
    if first == i && at == id {
    } else if first.Element? && Occurs(first.content, id + 1, i, at) {
      InsideElement(nodes, kids, first, id);
      OccurrenceMeans(nodes, kids, first.content, id + 1, i, at);
    } else {
      OccurrenceMeans(nodes, kids, items[1..], id + n, i, at);
    }
  }

  lemma {:induction false} InsideElement(nodes: seq<Node>, kids: seq<seq<nat>>, i: Item, id: nat)
    requires i.Element? && Balanced(i) && Stands(nodes, id, Stream(i))
    requires Kinds(nodes, ItemTree(i, id)) && IsTree(kids, ItemTree(i, id))
    ensures AllBalanced(i.content) && Stands(nodes, id + 1, StreamAll(i.content))
    ensures AllKinds(nodes, ItemTrees(i.content, id + 1)) && AreTrees(kids, ItemTrees(i.content, id + 1))
  {
    var c := StreamAll(i.content);
    var ts, last := ItemTrees(i.content, id + 1), Tree(id + 1 + |c|, []);
    AllKindsFront(nodes, ts, last);
    AreTreesFront(kids, ts, last);
    hide Stands, AllKinds, AreTrees, ItemTrees, StreamAll;
    assert Stream(i) == [i.start] + (c + [i.end]);
    StandsParts(nodes, id, [i.start], c + [i.end]);
    StandsParts(nodes, id + 1, c, [i.end]);
  }

  /** The text of the text nodes of a stream. */
  function StreamText(s: seq<Node>): (text: string) {
    if s == [] then "" else (if s[0].kind == Text then s[0].text else "") + StreamText(s[1..])
  }

  lemma {:induction false} IntervalTexts(nodes: seq<Node>, id: nat, n: nat)
    requires id + n <= |nodes|
    ensures Texts(nodes, Interval(id, n)) == StreamText(nodes[id..id + n])
    decreases n
  {
    if n > 0 {
      assert Interval(id, n)[1..] == Interval(id + 1, n - 1);
      assert nodes[id..id + n][1..] == nodes[id + 1..id + n];
      IntervalTexts(nodes, id + 1, n - 1);
    }
  }

  /**
   * Every element of a balanced document: from its number on stand its nodes, the children
   * lists hold its tree, and its text is the text of its own nodes, joined in order.
   */
  lemma {:induction false} ElementText(items: seq<Item>, kids: seq<seq<nat>>, i: Item, at: nat)
    requires AllBalanced(items) && AreTrees(kids, ForestOf(StreamAll(items)))
    requires Occurs(items, 0, i, at) && i.Element?
    ensures var nodes := StreamAll(items);
            && Stands(nodes, at, Stream(i))
            && IsTree(kids, ItemTree(i, at)) && ItemTree(i, at).id == at
            && TextOf(nodes, ItemTree(i, at)) == StreamText(Stream(i))
  {
    hide ForestOf, AllBalanced, Occurs, AreTrees, IsTree, AllKinds, Kinds, ItemTrees, Texts, StreamText, TextOf;
    var nodes := StreamAll(items);
    BalancedDocument(items);
    ForestKinds(nodes);
    assert nodes[0..0 + |nodes|] == nodes;
    OccurrenceMeans(nodes, kids, items, 0, i, at);
    var n := |Stream(i)|;
    ElementIsInterval(i, at);
    TextIsInOrder(nodes, ItemTree(i, at));
    assert Interval(at, n)[1..] == Interval(at + 1, n - 1);
    IntervalTexts(nodes, at + 1, n - 1);
    assert nodes[at + 1..at + n] == Stream(i)[1..];
    StartHasNoText(i);
  }

  lemma {:induction false} StartHasNoText(i: Item)
    requires i.Element? && Balanced(i)
    ensures StreamText(Stream(i)) == StreamText(Stream(i)[1..])
  {
    assert Stream(i)[0] == i.start;
  }

  /** Loads a balanced document and asks for the text of one of its elements. */
  method TextOfElement(items: seq<Item>, ghost i: Item, at: nat) returns (text: string)
    requires AllBalanced(items) && Occurs(items, 0, i, at) && i.Element?
    ensures text == StreamText(Stream(i))
  {
    hide *;
    var xml := Load(StreamAll(items));
    ElementText(items, xml.kids, i, at);
    text := xml.Text(at, ItemTree(i, at));
  }
}
