/** A chain view: the branch from genesis to a tip, indexed by height. */
module ChainView {
  import opened BlockNodes

  type View = seq<Node>

  /** The view is uninitialised, or holds exactly the branch of its last node. */
  ghost predicate IsView(v: View) {
    v != [] ==> v == Path(v[|v| - 1])
  }

  function Tip(v: View): Node
    requires v != []
  {
    v[|v| - 1]
  }

  function NodeByHeight(v: View, height: int): Option<Node> {
    if height < 0 || height >= |v| then None else Some(v[height])
  }

  predicate Contains(v: View, n: Node) {
    NodeByHeight(v, n.Height()) == Some(n)
  }

  function Next(v: View, n: Node): Option<Node> {
    if !Contains(v, n) then None else NodeByHeight(v, n.Height() + 1)
  }

  /** A view contains a node exactly when the node is on the branch of the tip. */
  lemma ContainsIsBranch(v: View, n: Node)
    requires IsView(v) && v != []
    ensures Contains(v, n) <==> OnBranch(n, Tip(v))
    ensures Contains(v, n) <==> n in v
  {
    BranchIsPath(n, Tip(v));
    if n.Height() < |v| {
      PathIsAncestors(Tip(v), n.Height());
      BranchIsAncestors(n, Tip(v));
    }
  }

  lemma ViewExtend(v: View, n: Node)
    requires v != [] && IsView(v) && n.Child? && n.parent == Tip(v)
    ensures Path(n) == v + [n] && n.Height() == |v|
  {
  }

  lemma ViewShrink(v: View)
    requires v != [] && IsView(v) && Tip(v).Child?
    ensures |v| > 1 && Path(Tip(v).parent) == v[..|v| - 1]
  {
  }

  lemma ViewInside(v: View)
    requires IsView(v)
    ensures forall n <- v :: Contains(v, n)
  {
    forall n | n in v
      ensures Contains(v, n)
    {
      ContainsIsBranch(v, n);
    }
  }

  /** Entry `h` of a view is at height `h`, and the view up to it is the view of that node. */
  lemma ViewAt(v: View, h: nat)
    requires IsView(v) && h < |v|
    ensures v[h].Height() == h && v[..h + 1] == Path(v[h])
    ensures h > 0 ==> v[h].Child? && v[h].parent == v[h - 1]
  {
    PathIsAncestors(Tip(v), h);
    if h > 0 {
      assert Path(v[h]) == Path(v[h].parent) + [v[h]];
      assert v[h - 1] == v[..h + 1][h - 1] == Path(v[h].parent)[h - 1];
    }
  }

  /** The node after a node is its one child in the view, and a node off the view has none. */
  lemma NextIs(v: View, n: Node, m: Node)
    requires IsView(v)
    ensures Next(v, n) == Some(m) <==> m.Child? && m.parent == n && Contains(v, m)
  {
    hide IsView;
    if Contains(v, n) && n.Height() + 1 < |v| {
      ViewAt(v, n.Height() + 1);
    }
    if m.Child? && m.parent == n && Contains(v, m) {
      ViewAt(v, m.Height());
    }
  }

  /** The entries from height `h` on are those of `path`. */
  ghost predicate FilledFrom(cells: seq<Option<Node>>, path: View, h: nat) {
    && |cells| == |path|
    && forall i :: h <= i < |path| ==> cells[i] == Some(path[i])
  }

  /** The entries below height `h` are still those of `v`; there are none beyond the end of `v`. */
  ghost predicate UntouchedBelow(cells: seq<Option<Node>>, v: View, h: nat) {
    forall i :: 0 <= i < h && i < |cells| ==> cells[i] == NodeByHeight(v, i)
  }

  lemma PathParent(n: Node, h: nat)
    requires h <= n.Height()
    ensures Path(n)[h].Height() == h
    ensures if h > 0 then Path(n)[h].Child? && Path(n)[h].parent == Path(n)[h - 1]
            else Path(n)[h].Genesis?
  {
    assert IsView(Path(n));
    ViewAt(Path(n), h);
  }

  /** When the walk meets an entry of the old view, everything below it is right already. */
  lemma MeetsOldView(cells: seq<Option<Node>>, v: View, node: Node, h: nat)
    requires IsView(v) && h <= node.Height() && |cells| == node.Height() + 1
    requires UntouchedBelow(cells, v, h + 1) && cells[h] == Some(Path(node)[h])
    ensures forall i :: 0 <= i <= h ==> cells[i] == Some(Path(node)[i])
  {
    ViewAt(v, h);
    ViewAt(Path(node), h);
    assert v[..h + 1] == Path(node)[..h + 1];
    forall i | 0 <= i <= h
      ensures cells[i] == Some(Path(node)[i])
    {
      assert v[i] == v[..h + 1][i] && Path(node)[i] == Path(node)[..h + 1][i];
    }
  }

  /** Replaces the view by the branch of `node`, rewriting entries from the new tip downwards
      and stopping at the first one that is already right. */
  method SetTip(v: View, node: Node) returns (r: View)
    requires IsView(v)
    ensures r == Path(node) && IsView(r)
  {
    hide Path;
    var needed := node.Height() + 1;
    var cells := seq(needed, i requires 0 <= i < needed => NodeByHeight(v, i));
    var cursor := Some(node);
    ghost var path := Path(node);
    ghost var next := needed;
    while cursor.Some? && cells[cursor.value.Height()] != cursor
      invariant next == if cursor.Some? then cursor.value.Height() + 1 else 0
      invariant next <= needed && (cursor.Some? ==> path[next - 1] == cursor.value)
      invariant FilledFrom(cells, path, next)
      invariant UntouchedBelow(cells, v, next)
      decreases next
    {
      var n := cursor.value;
      cells := cells[n.Height() := cursor];
      PathParent(node, n.Height());
      cursor := if n.Child? then Some(n.parent) else None;
      next := next - 1;
    }
    if cursor.Some? {
      MeetsOldView(cells, v, node, next - 1);
    }
    assert forall i :: 0 <= i < needed ==> cells[i] == Some(path[i]);
    r := seq(needed, i requires 0 <= i < needed => cells[i].value);
    assert r == path;
  }

  /** `f` is the highest node common to the branches of `n` and `t`. */
  ghost predicate IsFork(f: Node, n: Node, t: Node) {
    && OnBranch(f, n) && OnBranch(f, t)
    && forall g {:trigger OnBranch(g, n)} | OnBranch(g, n) && OnBranch(g, t) :: OnBranch(g, f)
  }

  lemma {:induction false} RootUnique(n: Node, g: Node)
    requires OnBranch(g, n) && g.Genesis?
    ensures AncestorAt(n, 0) == g
  {
    BranchIsAncestors(g, n);
  }

  /** The last common block of the view and the branch of `node`; nothing when they share none. */
  method FindFork(v: View, node: Node) returns (fork: Option<Node>)
    requires IsView(v) && v != [] && SkipsOk(node)
    ensures fork.Some? ==> IsFork(fork.value, node, Tip(v)) && Contains(v, fork.value)
    ensures fork.None? <==> v[0] != AncestorAt(node, 0)
  {
    fork := Some(node);
    if node.Height() > |v| - 1 {
      var a, _ := Ancestor(node, |v| - 1);
      fork := a;
      BranchIsAncestors(fork.value, node);
    }
    ghost var t := Tip(v);
    assert t.Height() == |v| - 1;
    forall g | OnBranch(g, node) && OnBranch(g, t)
      ensures OnBranch(g, fork.value)
    {
      BranchWork(g, t);
      BranchWork(g, node);
      BranchLinear(g, fork.value, node);
    }
    ContainsIsBranch(v, AncestorAt(node, 0));
    BranchIsAncestors(AncestorAt(node, 0), node);
    while fork.Some? && !Contains(v, fork.value)
      invariant fork.Some? ==> OnBranch(fork.value, node)
      invariant fork.Some? ==>
                  forall g | OnBranch(g, node) && OnBranch(g, t) :: OnBranch(g, fork.value)
      invariant fork.None? ==> !Contains(v, AncestorAt(node, 0))
      decreases if fork.Some? then fork.value.Height() + 1 else 0
    {
      var n := fork.value;
      ContainsIsBranch(v, n);
      if n.Child? {
        BranchTransitive(n.parent, n, node);
        fork := Some(n.parent);
      } else {
        RootUnique(node, n);
        fork := None;
      }
    }
    if fork.Some? {
      ContainsIsBranch(v, fork.value);
      var g := AncestorAt(fork.value, 0);
      BranchIsAncestors(g, fork.value);
      BranchTransitive(g, fork.value, node);
      BranchTransitive(g, fork.value, t);
      RootUnique(node, g);
      RootUnique(t, g);
      PathIsAncestors(t, 0);
    } else {
      PathIsAncestors(t, 0);
    }
  }
}
