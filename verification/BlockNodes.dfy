/** Block nodes: the immutable part of an entry of the block index.

  A node is a header linked to its parent and, for fast walks towards genesis,
  to one skip ancestor.  `Height` and `WorkSum` are the values the program
  stores in the node when it is created.  Nodes are values: two nodes of one
  index are the same node exactly when they are equal. */
module BlockNodes {

  type Hash = nat

  datatype Option<+T> = None | Some(value: T)

  function SetOf<T>(s: seq<T>): set<T> {
    set x | x in s
  }

  // ---------------------------------------------------------------- blocks

  datatype OutPoint = OutPoint(txid: Hash, index: nat)

  datatype TxOut = TxOut(amount: int, script: nat, unspendable: bool)

  datatype Tx = Tx(id: Hash, inputs: seq<OutPoint>, outputs: seq<TxOut>)

  /** The coinbase comes first; it has no inputs to spend. */
  datatype Block = Block(coinbase: Tx, rest: seq<Tx>)

  /** What the block hash commits to.  `work` is the work of this block alone. */
  datatype Header = Header(hash: Hash, work: nat, timestamp: int, block: Block)

  // ----------------------------------------------------------------- nodes

  datatype Node =
    | Genesis(header: Header)
    | Child(header: Header, parent: Node, skip: Node)
  {
    function Hash(): Hash { header.hash }

    function Height(): nat {
      if Genesis? then 0 else parent.Height() + 1
    }

    function WorkSum(): nat {
      if Genesis? then header.work else parent.WorkSum() + header.work
    }
  }

  /** The ancestor at height `h`, found by following parents one by one. */
  function AncestorAt(n: Node, h: nat): (a: Node)
    requires h <= n.Height()
    ensures a.Height() == h
  {
    if n.Height() == h then n else AncestorAt(n.parent, h)
  }

  lemma AncestorStep(n: Node, h: nat)
    requires h <= n.Height()
    ensures if h == n.Height() then AncestorAt(n, h) == n
            else n.Child? && AncestorAt(n, h) == AncestorAt(n.parent, h)
  {
  }

  /** `a` is `n` or one of its ancestors. */
  predicate OnBranch(a: Node, n: Node) {
    a == n || (n.Child? && OnBranch(a, n.parent))
  }

  lemma BranchStep(a: Node, n: Node)
    ensures OnBranch(a, n) <==> a == n || (n.Child? && OnBranch(a, n.parent))
    ensures OnBranch(n, n) && (n.Child? ==> OnBranch(n.parent, n))
  {
  }

  /** The nodes from genesis to `n`, indexed by height. */
  function Path(n: Node): (p: seq<Node>)
    ensures |p| == n.Height() + 1
    ensures p[n.Height()] == n
  {
    if n.Genesis? then [n] else Path(n.parent) + [n]
  }

  lemma {:induction false} PathIsAncestors(n: Node, h: nat)
    requires h <= n.Height()
    ensures Path(n)[h] == AncestorAt(n, h)
    ensures Path(AncestorAt(n, h)) == Path(n)[..h + 1]
  {
    if n.Height() == h {
      assert Path(n)[..h + 1] == Path(n);
    } else {
      PathIsAncestors(n.parent, h);
      assert Path(n)[..h + 1] == Path(n.parent)[..h + 1];
    }
  }

  lemma {:induction false} BranchIsAncestors(a: Node, n: Node)
    ensures OnBranch(a, n) <==> a.Height() <= n.Height() && AncestorAt(n, a.Height()) == a
  {
    if n.Child? {
      BranchIsAncestors(a, n.parent);
    }
  }

  lemma {:induction false} BranchIsPath(a: Node, n: Node)
    ensures OnBranch(a, n) <==> a in Path(n)
    ensures OnBranch(a, n) ==> a.Height() <= n.Height() && Path(n)[a.Height()] == a
  {
    if n.Child? {
      BranchIsPath(a, n.parent);
    }
  }

  lemma {:induction false} BranchTransitive(a: Node, b: Node, c: Node)
    requires OnBranch(a, b) && OnBranch(b, c)
    ensures OnBranch(a, c)
  {
    if b != c {
      BranchTransitive(a, b, c.parent);
    }
  }

  /** Two nodes of one branch are comparable: the lower one is an ancestor of the higher one. */
  lemma {:induction false} BranchLinear(a: Node, b: Node, c: Node)
    requires OnBranch(a, c) && OnBranch(b, c) && a.Height() <= b.Height()
    ensures OnBranch(a, b)
  {
    BranchIsAncestors(a, c);
    BranchIsAncestors(b, c);
    if b != c {
      BranchLinear(a, b, c.parent);
    }
  }

  // ----------------------------------------------------------------- sums

  function Sum(s: seq<nat>): nat {
    if s == [] then 0 else s[0] + Sum(s[1..])
  }

  lemma {:induction false} SumConcat(a: seq<nat>, b: seq<nat>)
    ensures Sum(a + b) == Sum(a) + Sum(b)
  {
    if a == [] {
      assert a + b == b;
    } else {
      SumConcat(a[1..], b);
      assert (a + b)[1..] == a[1..] + b;
    }
  }

  /** The work of each of the blocks alone. */
  function Works(nodes: seq<Node>): (works: seq<nat>)
    ensures |works| == |nodes|
  {
    seq(|nodes|, i requires 0 <= i < |nodes| => nodes[i].header.work)
  }

  /** The cumulative work of a block is the sum of the works of all blocks of its branch. */
  lemma {:induction false} WorkIsSum(n: Node)
    ensures n.WorkSum() == Sum(Works(Path(n)))
  {
    if n.Genesis? {
      assert Works(Path(n)) == [n.header.work];
    } else {
      WorkIsSum(n.parent);
      assert Works(Path(n)) == Works(Path(n.parent)) + [n.header.work];
      SumConcat(Works(Path(n.parent)), [n.header.work]);
    }
  }

  /** Above an ancestor, the works of the blocks in between add up to the difference. */
  lemma WorkAbove(f: Node, n: Node)
    requires OnBranch(f, n)
    ensures f.Height() <= n.Height()
    ensures n.WorkSum() == f.WorkSum() + Sum(Works(Path(n)[f.Height() + 1..]))
  {
    hide OnBranch, Sum, Path;
    BranchWork(f, n);
    BranchIsAncestors(f, n);
    PathIsAncestors(n, f.Height());
    WorkIsSum(f);
    WorkIsSum(n);
    WorksConcat(Path(n)[..f.Height() + 1], Path(n)[f.Height() + 1..]);
    assert Path(n) == Path(n)[..f.Height() + 1] + Path(n)[f.Height() + 1..];
  }

  lemma WorksConcat(s: seq<Node>, t: seq<Node>)
    ensures Sum(Works(s + t)) == Sum(Works(s)) + Sum(Works(t))
  {
    hide Sum;
    assert Works(s + t) == Works(s) + Works(t);
    SumConcat(Works(s), Works(t));
  }

  lemma {:induction false} BranchWork(a: Node, n: Node)
    requires OnBranch(a, n)
    ensures a.Height() <= n.Height() && a.WorkSum() <= n.WorkSum()
    ensures a != n ==> a.Height() < n.Height()
  {
    if a != n {
      BranchWork(a, n.parent);
    }
  }

  // --------------------------------------------------------- skip ancestors

  /** Clears the lowest one bit of `n`. */
  function InvertLowestOne(n: nat): (r: nat)
    ensures n == 0 ==> r == 0
    ensures n > 0 ==> r < n
  {
    if n == 0 then 0
    else if n % 2 == 1 then n - 1
    else 2 * InvertLowestOne(n / 2)
  }

  function SkipHeight(height: nat): (r: nat)
    ensures height > 0 ==> r < height
  {
    InvertLowestOne(InvertLowestOne(height))
  }

  /** Every skip pointer on the branch of `n` is the true ancestor at `SkipHeight`. */
  ghost predicate SkipsOk(n: Node) {
    n.Child? ==>
      && SkipsOk(n.parent)
      && n.skip == AncestorAt(n.parent, SkipHeight(n.Height()))
  }

  lemma {:induction false} SkipsOkBelow(n: Node, h: nat)
    requires SkipsOk(n) && h <= n.Height()
    ensures SkipsOk(AncestorAt(n, h))
  {
    if n.Height() != h {
      SkipsOkBelow(n.parent, h);
    }
  }

  lemma {:induction false} AncestorOfAncestor(n: Node, h: nat, g: nat)
    requires g <= h <= n.Height()
    ensures AncestorAt(AncestorAt(n, h), g) == AncestorAt(n, g)
  {
    if n.Height() != h {
      AncestorOfAncestor(n.parent, h, g);
    }
  }

  /** The number of links the walk of `Ancestor` follows from height `n` to height `h`. */
  function Hops(n: nat, h: nat): nat
    requires h <= n
  {
    if n == h then 0
    else if SkipHeight(n) >= h then 1 + Hops(SkipHeight(n), h)
    else 1 + Hops(n - 1, h)
  }

  /** The ancestor of `node` at `height`, or nothing when the height is out of range. */
  method Ancestor(node: Node, height: int) returns (r: Option<Node>, ghost hops: nat)
    requires SkipsOk(node)
    ensures r == if 0 <= height <= node.Height() then Some(AncestorAt(node, height)) else None
    ensures 0 <= height <= node.Height() ==> hops == Hops(node.Height(), height)
  {
    hops := 0;
    if height < 0 || height > node.Height() {
      return None, 0;
    }
    var n := node;
    while n.Height() != height
      invariant height <= n.Height() <= node.Height()
      invariant SkipsOk(n) && AncestorAt(node, n.Height()) == n
      invariant hops + Hops(n.Height(), height) == Hops(node.Height(), height)
      decreases n.Height()
    {
      hops := hops + 1;
      if SkipHeight(n.Height()) >= height {
        ghost var g := SkipHeight(n.Height());
        SkipsOkBelow(n.parent, g);
        AncestorOfAncestor(node, n.Height(), g);
        n := n.skip;
      } else {
        AncestorOfAncestor(node, n.Height(), n.Height() - 1);
        n := n.parent;
      }
    }
    r := Some(n);
  }

  /** `initBlockNode`: a new node for `header` on top of `parent`. */
  method NewBlockNode(header: Header, parent: Node) returns (node: Node)
    requires SkipsOk(parent)
    ensures node.Child? && node.header == header && node.parent == parent && SkipsOk(node)
    ensures node.Height() == parent.Height() + 1 && node.WorkSum() == parent.WorkSum() + header.work
  {
    var skip, _ := Ancestor(parent, SkipHeight(parent.Height() + 1));
    node := Child(header, parent, skip.value);
  }

  /** Whether `other` is a strict ancestor of `node`. */
  method IsAncestor(node: Node, other: Node) returns (r: bool)
    requires SkipsOk(node)
    ensures r <==> OnBranch(other, node) && other != node
  {
    BranchIsAncestors(other, node);
    var ancestor, _ := Ancestor(node, other.Height());
    if ancestor.None? || node.Height() == ancestor.value.Height() {
      return false;
    }
    r := ancestor.value == other;
  }
}
