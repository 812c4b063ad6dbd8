/** The tree of block nodes and the status bits kept for each of them. */
module BlockTree {
  import opened BlockNodes
  import opened ChainView

  // ---------------------------------------------------------------- status

  /** The status bit field, one field per bit. */
  datatype Status = Status(dataStored: bool, valid: bool, validateFailed: bool,
                           invalidAncestor: bool, headerStored: bool)
  {
    /** `status |= flags` */
    function Or(f: Status): Status {
      Status(dataStored || f.dataStored, valid || f.valid, validateFailed || f.validateFailed,
             invalidAncestor || f.invalidAncestor, headerStored || f.headerStored)
    }

    /** `status &^= flags` */
    function AndNot(f: Status): Status {
      Status(dataStored && !f.dataStored, valid && !f.valid, validateFailed && !f.validateFailed,
             invalidAncestor && !f.invalidAncestor, headerStored && !f.headerStored)
    }

    predicate KnownInvalid() { validateFailed || invalidAncestor }
  }

  const NONE := Status(false, false, false, false, false)
  const DATA_STORED := NONE.(dataStored := true)
  const VALID := NONE.(valid := true)
  const VALIDATE_FAILED := NONE.(validateFailed := true)
  const INVALID_ANCESTOR := NONE.(invalidAncestor := true)
  const HEADER_STORED := NONE.(headerStored := true)

  type Statuses = map<Node, Status>

  // The values of map comprehensions are functions with a precondition, here and in other modules,
  // so that nothing is said about a map outside its domain.

  function FlaggedAt(st: Statuses, ns: set<Node>, f: Status, n: Node): Status
    requires n in st
  {
    if n in ns then st[n].Or(f) else st[n]
  }

  function ClearedAt(st: Statuses, ns: set<Node>, f: Status, n: Node): Status
    requires n in st
  {
    if n in ns then st[n].AndNot(f) else st[n]
  }

  /** The given flags switched on for the nodes of `ns`, everything else as before. */
  function Flagged(st: Statuses, ns: set<Node>, f: Status): Statuses {
    map n | n in st :: FlaggedAt(st, ns, f, n)
  }

  /** The given flags switched off for the nodes of `ns`, everything else as before. */
  function Cleared(st: Statuses, ns: set<Node>, f: Status): Statuses {
    map n | n in st :: ClearedAt(st, ns, f, n)
  }

  lemma FlaggedTwice(st: Statuses, a: set<Node>, b: set<Node>, f: Status)
    ensures Flagged(Flagged(st, a, f), b, f) == Flagged(st, a + b, f)
  {
  }

  lemma FlaggedNone(st: Statuses, f: Status)
    ensures Flagged(st, {}, f) == st
  {
  }

  lemma FlaggedSame(st: Statuses, n: Node, f: Status)
    requires n in st && st[n].Or(f) == st[n]
    ensures Flagged(st, {n}, f) == st
  {
  }

  lemma ClearedNone(st: Statuses, f: Status)
    ensures Cleared(st, {}, f) == st
  {
  }

  lemma ClearedTwice(st: Statuses, a: set<Node>, b: set<Node>, f: Status)
    ensures Cleared(Cleared(st, a, f), b, f) == Cleared(st, a + b, f)
  {
  }

  /** No block of the branch of `n` is known to be invalid. */
  ghost predicate Clean(st: Statuses, n: Node) {
    forall a | OnBranch(a, n) :: a in st && !st[a].KnownInvalid()
  }

  /** The data bit of every node says whether its body is in the database. */
  ghost predicate DataOk(st: Statuses, bodies: set<Node>) {
    bodies <= st.Keys && forall n <- st :: st[n].dataStored <==> n in bodies
  }

  /** The data bits are the same. */
  ghost predicate SameData(st: Statuses, st': Statuses) {
    st.Keys == st'.Keys && forall n <- st :: st[n].dataStored == st'[n].dataStored
  }

  lemma FlaggedData(st: Statuses, ns: set<Node>, f: Status)
    requires !f.dataStored
    ensures SameData(st, Flagged(st, ns, f))
  {
  }

  // ------------------------------------------------------------------ tree

  /** A set of nodes that is closed under parents and grows from one genesis. */
  ghost predicate Tree(nodes: set<Node>, root: Node) {
    && root in nodes && root.Genesis?
    && forall n <- nodes :: SkipsOk(n) && if n.Genesis? then n == root else n.parent in nodes
  }

  lemma {:induction false} TreeBranch(nodes: set<Node>, root: Node, n: Node, a: Node)
    requires Tree(nodes, root) && n in nodes
    ensures OnBranch(root, n)
    ensures OnBranch(a, n) ==> a in nodes
  {
    if n.Child? {
      TreeBranch(nodes, root, n.parent, a);
    }
  }

  /** The view starts at the genesis of the tree, and holds only nodes of the tree. */
  lemma TreeView(nodes: set<Node>, root: Node, v: View)
    requires Tree(nodes, root) && v != [] && IsView(v) && Tip(v) in nodes
    ensures v[0] == root && forall n <- v :: n in nodes
  {
    TreeBranch(nodes, root, Tip(v), root);
    RootUnique(Tip(v), root);
    PathIsAncestors(Tip(v), 0);
    forall n | n in v
      ensures n in nodes
    {
      ContainsIsBranch(v, n);
      BranchIsPath(n, Tip(v));
      TreeBranch(nodes, root, Tip(v), n);
    }
  }

  // --------------------------------------------------------- inactive tips

  /** A node off the view that has no children. */
  ghost predicate InactiveTip(nodes: set<Node>, v: View, t: Node) {
    && t in nodes && !Contains(v, t)
    && forall c <- nodes :: c.Child? ==> c.parent != t
  }

  /** A child of a node off the view is off the view too. */
  lemma OffView(v: View, c: Node)
    requires IsView(v) && v != [] && c.Child? && !Contains(v, c.parent)
    ensures !Contains(v, c)
  {
    ContainsIsBranch(v, c);
    ContainsIsBranch(v, c.parent);
    if Contains(v, c) {
      BranchTransitive(c.parent, c, Tip(v));
    }
  }

  /** A node of the tree off the view is not genesis. */
  lemma OffViewChild(nodes: set<Node>, root: Node, v: View, n: Node)
    requires Tree(nodes, root) && IsView(v) && v != [] && Tip(v) in nodes
    requires n in nodes && !Contains(v, n)
    ensures n.Child? && n.parent in nodes
  {
    TreeView(nodes, root, v);
    ViewAt(v, 0);
  }

  /** Exactly the childless nodes off the best chain. */
  method InactiveTips(nodes: set<Node>, root: Node, best: View) returns (tips: seq<Node>)
    requires Tree(nodes, root) && best != [] && IsView(best) && Tip(best) in nodes
    ensures forall t :: t in tips <==> InactiveTip(nodes, best, t)
  {
    TreeView(nodes, root, best);
    ViewAt(best, 0);
    var orphans, orphanParent: set<Node> := {}, {};
    var todo := nodes;
    while todo != {}
      invariant todo <= nodes
      invariant forall n :: n in orphans <==> n in nodes - todo && !Contains(best, n)
      invariant forall p :: p in orphanParent <==> exists n <- orphans :: n.Child? && n.parent == p
      decreases todo
    {
      var n :| n in todo;
      if !Contains(best, n) {
        orphans := orphans + {n};
        orphanParent := orphanParent + {n.parent};
      }
      todo := todo - {n};
    }
    tips := [];
    todo := orphans;
    while todo != {}
      invariant todo <= orphans
      invariant forall t :: t in tips <==> t in orphans - todo && t !in orphanParent
      decreases todo
    {
      var orphan :| orphan in todo;
      if orphan !in orphanParent {
        tips := tips + [orphan];
      }
      todo := todo - {orphan};
    }
    forall t
      ensures t in tips <==> InactiveTip(nodes, best, t)
    {
      forall c | c in nodes && c.Child? && c.parent == t && !Contains(best, t)
        ensures c in orphans
      {
        OffView(best, c);
      }
    }
  }

  /** Above every node off the view there is an inactive tip. */
  lemma {:induction false} TipAbove(nodes: set<Node>, root: Node, v: View, n: Node) returns (t: Node)
    requires Tree(nodes, root) && IsView(v) && v != [] && n in nodes && !Contains(v, n)
    ensures InactiveTip(nodes, v, t) && OnBranch(n, t)
    decreases set x <- nodes | x.Height() > n.Height()
  {
    if c: Node :| c in nodes && c.Child? && c.parent == n {
      OffView(v, c);
      var above := set x <- nodes | x.Height() > n.Height();
      assert c in above && (set x <- nodes | x.Height() > c.Height()) < above;
      t := TipAbove(nodes, root, v, c);
      BranchTransitive(n, c, t);
    } else {
      t := n;
    }
  }
}
