/** Runs of the chain, most of which end where a law of it fails.  In the first three a block is known to be
    invalid before its body arrives.  On top of the tip such a block extends the best chain all the
    same, which from then on carries a mark that manual invalidation does not expect; on a heavier
    side branch it is reported to be on the main chain.  In the next three manual invalidation gives
    up a tip for one of equal work, and invalidation and reconsideration leave a heavier branch behind.
    In another a body is dropped and delivered again: the heavier branch that waited for it is not
    considered.  In two runs all goes well: a reconsideration undoes an invalidation, and a shorter
    branch of more work takes over. */
module Scenarios {
  import opened BlockNodes
  import opened ChainView
  import opened BlockTree
  import opened Utxo
  import opened Ledger
  import opened ChainSpec
  import opened Selection
  import opened BlockChain
  import opened Trials
  import opened Invalidate
  import opened Reconsider

  // ------------------------------------------------------------ the blocks

  function AnyRules(): Rules {
    (n: Node, u: UtxoSet) => true
  }

  /** A header of unit work with a block that only has an empty coinbase. */
  function Plain(h: Hash): Header {
    Header(h, 1, 0, Block(Tx(h, [], []), []))
  }

  ghost predicate AllPlain(n: Node) {
    n.header == Plain(n.Hash()) && (n.Child? ==> AllPlain(n.parent))
  }

  lemma {:induction false} PlainReplays(n: Node)
    requires AllPlain(n)
    ensures LedgerOf(AnyRules(), n).Some? && LedgerOf(AnyRules(), n).value.utxo == map[]
    ensures n.WorkSum() == n.Height() + 1
  {
    hide NewBestState;
    if n.Child? {
      PlainReplays(n.parent);
    }
  }

  // ------------------------------------------------------------- the state

  /** Exactly the nodes of `bad` are known to be invalid, and those of `good` are the others. */
  ghost predicate Marks(st: Statuses, good: set<Node>, bad: set<Node>) {
    && st.Keys == good + bad
    && (forall n <- good :: n in st && !st[n].KnownInvalid())
    && (forall n <- bad :: n in st && st[n].KnownInvalid())
  }

  ghost predicate Ready(chain: BlockChain, tip: Node, good: set<Node>, bad: set<Node>, bodies: set<Node>)
    reads chain
  {
    && chain.Valid() && chain.rules == AnyRules() && chain.witnessBuffer == 0
    && Tip(chain.bestChain) == tip && Marks(chain.status, good, bad) && chain.bodies == bodies
    && forall n <- chain.status :: AllPlain(n)
  }

  /** The node of a header that is either new or known without its body. */
  ghost predicate Arrives(chain: BlockChain, h: Hash, parent: Node)
    reads chain
  {
    && parent.Hash() in chain.index && chain.index[parent.Hash()] == parent && parent in chain.bodies
    && parent in chain.status && !chain.status[parent].KnownInvalid()
    && (h in chain.index ==> var n := chain.index[h];
                             n !in chain.bodies && n.Child? && n.header == Plain(h) && n.parent == parent)
  }

  lemma MarksStored(st: Statuses, good: set<Node>, bad: set<Node>, n: Node, st': Statuses)
    requires Marks(st, good, bad) && SameVerdicts(WithBody(st, n), st')
    ensures Marks(st', if n in bad then good else good + {n}, bad)
  {
  }

  /** A block arrives on top of the tip. */
  method Extend(chain: BlockChain, h: Hash, tip: Node, ghost good: set<Node>, ghost bad: set<Node>,
                ghost bodies: set<Node>) returns (n: Node)
    requires Ready(chain, tip, good, bad, bodies) && Arrives(chain, h, tip)
    modifies chain
    ensures n.Child? && n.header == Plain(h) && n.parent == tip
    ensures Ready(chain, n, if n in bad then good else good + {n}, bad, bodies + {n})
    ensures h in old(chain.index) ==> n == old(chain.index)[h]
  {
    hide LedgerOf, IndexFor, Replayable, IsView, AllStored, OnBranch, NoneBetter, Overtaken, Clean, Truthful, Marks,
      MarkedExtends, WithBody, SameVerdicts, Passes, Attachable, OnlyStored, InvalidGrows, Node.Height, Node.WorkSum,
      AllPlain;
    ghost var st := chain.status;
    var _, _, _ := chain.ProcessBlock(Plain(h), tip.Hash(), true, true);
    n := chain.index[h];
    PlainChild(n);
    PlainReplays(n);
    MarksStored(st, good, bad, n, chain.status);
    PlainStored(st, n, chain.status);
  }

  lemma PlainChild(n: Node)
    requires n.Child? && n.header == Plain(n.Hash()) && AllPlain(n.parent)
    ensures AllPlain(n)
  {
  }

  lemma PlainStored(st: Statuses, n: Node, st': Statuses)
    requires (forall m <- st :: AllPlain(m)) && AllPlain(n) && InvalidGrows(WithBody(st, n), st')
    ensures forall m <- st' :: AllPlain(m)
  {
  }

  /** A block arrives on a side branch that has no more work than the best chain. */
  method StoreSide(chain: BlockChain, h: Hash, parent: Node, ghost tip: Node, ghost good: set<Node>,
                   ghost bad: set<Node>, ghost bodies: set<Node>) returns (n: Node)
    requires Ready(chain, tip, good, bad, bodies) && Arrives(chain, h, parent) && h !in chain.index
    requires parent != tip && parent.Height() < tip.Height()
    modifies chain
    ensures n.Child? && n.header == Plain(h) && n.parent == parent
    ensures Ready(chain, tip, good + {n}, bad, bodies + {n})
  {
    hide LedgerOf, IndexFor, Replayable, IsView, AllStored, OnBranch, NoneBetter, Overtaken, Clean, Truthful, Marks,
      MarkedExtends, WithBody, SameVerdicts, Passes, Attachable, InvalidGrows, Node.Height, Node.WorkSum, AllPlain;
    ghost var st := chain.status;
    KnownHashes(chain);
    InMarks(st, good, bad);
    var _, _, _ := chain.ProcessBlock(Plain(h), parent.Hash(), true, true);
    n := chain.index[h];
    PlainChild(n);
    PlainReplays(n);
    PlainReplays(tip);
    HeightIs(n);
    MarksStored(st, good, bad, n, chain.status);
    PlainStored(st, n, chain.status);
  }

  lemma HeightIs(n: Node)
    requires n.Child?
    ensures n.Height() == n.parent.Height() + 1
  {
  }

  /** The index holds exactly the nodes that have a status, each under its hash. */
  lemma KnownHashes(chain: BlockChain)
    requires chain.IndexOk()
    ensures forall h <- chain.index :: chain.index[h] in chain.status && chain.index[h].Hash() == h
    ensures forall n <- chain.status :: n.Hash() in chain.index && chain.index[n.Hash()] == n
    ensures chain.bodies <= chain.status.Keys
  {
    hide SkipsOk;
  }

  lemma InMarks(st: Statuses, good: set<Node>, bad: set<Node>)
    requires Marks(st, good, bad)
    ensures good + bad == st.Keys && good !! bad
    ensures forall n <- st :: n in good <==> !st[n].KnownInvalid()
  {
  }

  /** A block arrives on a side branch that then has more work, is stored and free of marks. */
  method Overtake(chain: BlockChain, h: Hash, parent: Node, ghost tip: Node, ghost good: set<Node>,
                  ghost bad: set<Node>, ghost bodies: set<Node>) returns (n: Node)
    requires Ready(chain, tip, good, bad, bodies) && Arrives(chain, h, parent) && h !in chain.index
    requires parent != tip && parent.Height() >= tip.Height()
    requires forall a | OnBranch(a, parent) && !OnBranch(a, tip) :: a in good && a in bodies
    modifies chain
    ensures n.Child? && n.header == Plain(h) && n.parent == parent
    ensures Ready(chain, n, good + {n}, bad, bodies + {n})
  {
    hide LedgerOf, IndexFor, Replayable, IsView, AllStored, OnBranch, NoneBetter, Overtaken, Clean, Truthful, Marks,
      MarkedExtends, WithBody, SameVerdicts, Passes, Attachable, InvalidGrows, Node.Height, Node.WorkSum, AllPlain;
    ghost var st, best := chain.status, chain.bestChain;
    KnownHashes(chain);
    InMarks(st, good, bad);
    var _, _, _ := chain.ProcessBlock(Plain(h), parent.Hash(), true, true);
    n := chain.index[h];
    PlainChild(n);
    PlainReplays(n);
    PlainReplays(tip);
    HeightIs(n);
    SideAttaches(st, good, bad, bodies, best, n);
    MarksStored(st, good, bad, n, chain.status);
    PlainStored(st, n, chain.status);
  }

  lemma SideAttaches(st: Statuses, good: set<Node>, bad: set<Node>, bodies: set<Node>, best: View, n: Node)
    requires best != [] && IsView(best) && Marks(st, good, bad) && n.Child? && n !in st && n.parent in good
    requires forall a | OnBranch(a, n.parent) && !OnBranch(a, Tip(best)) :: a in good && a in bodies
    requires LedgerOf(AnyRules(), n).Some?
    ensures Attachable(WithBody(st, n), best, n) && Passes(AnyRules(), bodies + {n}, best, n)
  {
    hide LedgerOf, IsView, OnBranch, Contains;
    forall a | ToAttach(best, n, a)
      ensures a == n || (a in good && a in bodies)
    {
      ContainsIsBranch(best, a);
      BranchStep(a, n);
    }
  }

  /** The header of a new block arrives. */
  method Announce(chain: BlockChain, h: Hash, parent: Node, ghost tip: Node, ghost good: set<Node>,
                  ghost bad: set<Node>, ghost bodies: set<Node>) returns (n: Node)
    requires Ready(chain, tip, good, bad, bodies) && Arrives(chain, h, parent) && h !in chain.index
    modifies chain
    ensures n.Child? && n.header == Plain(h) && n.parent == parent && n !in old(chain.status)
    ensures Ready(chain, tip, good + {n}, bad, bodies)
  {
    hide LedgerOf, IndexFor, Replayable, IsView, AllStored, OnBranch, NoneBetter, Clean, Truthful, Marks,
      Node.Height, Node.WorkSum, AllPlain;
    ghost var st := chain.status;
    KnownHashes(chain);
    InMarks(st, good, bad);
    var _, _ := chain.MaybeAcceptBlockHeader(Plain(h), parent.Hash(), true);
    n := chain.index[h];
    chain.PrevIndexed(h);
    PlainChild(n);
    MarksAnnounced(st, good, bad, n);
  }

  lemma MarksAnnounced(st: Statuses, good: set<Node>, bad: set<Node>, n: Node)
    requires Marks(st, good, bad) && n !in st
    ensures Marks(st[n := HEADER_STORED], good + {n}, bad)
  {
  }

  /** A block off the best chain, on which nothing is built, is invalidated. */
  method MarkSide(chain: BlockChain, n: Node, ghost tip: Node, ghost good: set<Node>, ghost bad: set<Node>,
                  ghost bodies: set<Node>)
    requires Ready(chain, tip, good, bad, bodies) && n in good && n.Child? && !OnBranch(n, tip)
    requires forall m <- good + bad :: OnBranch(n, m) ==> m == n
    modifies chain
    ensures Ready(chain, tip, good - {n}, bad + {n}, bodies) && chain.index == old(chain.index)
    ensures n in chain.status && chain.status[n].validateFailed
  {
    hide LedgerOf, IndexFor, Replayable, IsView, AllStored, OnBranch, Invalidated, Marks, AllPlain, ActiveOutcome,
      Contains;
    ghost var st := chain.status;
    InMarks(st, good, bad);
    chain.NodeSkips(n);
    ContainsIsBranch(chain.bestChain, n);
    NotMarkedYet(st, good, bad, n);
    var _, _ := InvalidateBlock(chain, n.Hash());
    MarksInvalidated(st, good, bad, n);
    InvalidatedKeys(st, n);
  }

  lemma NotMarkedYet(st: Statuses, good: set<Node>, bad: set<Node>, n: Node)
    requires Marks(st, good, bad) && n in good
    ensures n in st && !st[n].KnownInvalid()
  {
  }

  lemma MarksInvalidated(st: Statuses, good: set<Node>, bad: set<Node>, n: Node)
    requires Marks(st, good, bad) && n in good && forall m <- good + bad :: OnBranch(n, m) ==> m == n
    ensures Marks(Invalidated(st, n), good - {n}, bad + {n}) && Invalidated(st, n).Keys == st.Keys
  {
    hide Invalidated, OnBranch;
    InvalidatedKeys(st, n);
    forall m | m in st
      ensures Invalidated(st, n)[m].KnownInvalid() <==> m == n || st[m].KnownInvalid()
    {
      BranchReflexive(n);
      InvalidatedMeans(st, n, m);
    }
  }

  lemma InvalidatedKeys(st: Statuses, n: Node)
    ensures Invalidated(st, n).Keys == st.Keys
    ensures n in st ==> Invalidated(st, n)[n].validateFailed
  {
  }

  // ------------------------------------------------------------- the runs

  /** Invalidating the parent of a tip that is known to be invalid already fails, and changes
      nothing but the mark on the parent. */
  method MarkBelowTip(chain: BlockChain, a: Node, ghost b: Node, ghost good: set<Node>, ghost bad: set<Node>,
                      ghost bodies: set<Node>) returns (err: Option<ChainError>)
    requires Ready(chain, b, good, bad, bodies) && a in good && b in bad && a.Child? && b.Child? && b.parent == a
    modifies chain
    ensures err == Some(AssertError)
    ensures Ready(chain, b, good - {a}, bad + {a}, bodies) && chain.index == old(chain.index)
  {
    hide LedgerOf, IndexFor, Replayable, IsView, AllStored, OnBranch, Invalidated, Marks, AllPlain, Contains, Between,
      Doomed, Failed, TookOver, InvalidGrows, Unmarked, HighestMarked;
    ghost var st := chain.status;
    InMarks(st, good, bad);
    chain.NodeSkips(a);
    BranchStep(a, b);
    ContainsIsBranch(chain.bestChain, a);
    OneAbove(st, a, b, Tip(chain.bestChain));
    ghost var next;
    err, next := InvalidateBlock(chain, a.Hash());
    MarksBelow(st, good, bad, a, b);
    assert good - {a, b} == good - {a} && bad + {a, b} == bad + {a};
    OneAbove(st, a, b, Tip(chain.bestChain));
  }

  lemma OneAbove(st: Statuses, a: Node, b: Node, m: Node)
    requires a in st && b in st && b.Child? && b.parent == a
    ensures Between(st.Keys, a, b) == {b}
    ensures Unmarked(st, {b}) <==> !st[b].KnownInvalid()
    ensures HighestMarked(st, a, b, m) ==> m == b
  {
    hide OnBranch, Between, Node.Height;
    BranchStep(a, b);
    BranchReflexive(a);
    HeightIs(b);
    BetweenStep(st.Keys, a, b);
    BetweenStep(st.Keys, a, a);
    assert {b} + {} == {b};
  }

  lemma MarksBelow(st: Statuses, good: set<Node>, bad: set<Node>, a: Node, b: Node)
    requires Marks(st, good, bad) && a in good && b in good + bad && a != b
    ensures var st' := Doomed(Failed(st, a), {b});
            Marks(st', good - {a, b}, bad + {a, b}) && st'.Keys == st.Keys
  {
  }

  /** What the index says about the nodes, and the marks about both. */
  lemma Knows(chain: BlockChain, tip: Node, good: set<Node>, bad: set<Node>, bodies: set<Node>)
    requires Ready(chain, tip, good, bad, bodies)
    ensures good + bad == chain.status.Keys && good !! bad
    ensures forall n <- chain.status :: n in good <==> !chain.status[n].KnownInvalid()
    ensures forall h <- chain.index :: chain.index[h] in chain.status && chain.index[h].Hash() == h
    ensures forall n <- chain.status :: n.Hash() in chain.index && chain.index[n.Hash()] == n
    ensures chain.bodies == bodies && chain.Valid() && Tip(chain.bestChain) == tip
  {
    hide LedgerOf, IsView, Replayable, AllPlain, IndexFor, Marks;
    KnownHashes(chain);
    InMarks(chain.status, good, bad);
  }

  lemma ReadyMeans(chain: BlockChain, tip: Node, good: set<Node>, bad: set<Node>, bodies: set<Node>)
    requires Ready(chain, tip, good, bad, bodies)
    ensures Marks(chain.status, good, bad) && forall n <- chain.status :: AllPlain(n)
  {
  }

  lemma FirstReady(chain: BlockChain, g: Node)
    requires g == Genesis(Plain(0)) && chain.Valid() && chain.rules == AnyRules()
    requires chain.witnessBuffer == 0 && Tip(chain.bestChain) == g
    requires chain.status == map[g := DATA_STORED.Or(VALID)] && chain.bodies == {g}
    ensures Ready(chain, g, {g}, {}, {g}) && g.Height() == 0 && g.Hash() == 0
  {
    hide LedgerOf, IndexFor, Replayable, IsView, AllStored;
    assert chain.status.Keys == {g};
  }

  lemma Leaf(g: Node, a: Node, b: Node)
    requires g.Genesis? && a.Child? && a.parent == g && b.Child? && b.parent == a
    ensures !OnBranch(b, a) && !OnBranch(b, g) && OnBranch(b, b)
  {
    assert a.Height() == 1;
    assert b.Height() == 2;
  }

  /** A chain with a genesis block and the block `a` on it, where `b` is known to be invalid before
      it arrives on top of `a`.  It becomes the tip, and the best chain is no longer free of marks. */
  method MarkedTip() returns (chain: BlockChain, a: Node, b: Node)
    ensures fresh(chain) && Ready(chain, b, {chain.root, a}, {b}, {chain.root, a, b})
    ensures chain.root.Genesis? && chain.root.Hash() == 0
    ensures a.Child? && a.parent == chain.root && a.Hash() == 1 && b.Child? && b.parent == a && b.Hash() == 2
    ensures !Clean(chain.status, Tip(chain.bestChain))
  {
    hide OnBranch, Clean, Node.Height, Ready, BlockChain.Valid;
    var g := Genesis(Plain(0));
    chain := new BlockChain(g, AnyRules(), 0, 1);
    FirstReady(chain, g);
    Knows(chain, g, {g}, {}, {g});
    a := Extend(chain, 1, g, {g}, {}, {g});
    Knows(chain, a, {g} + {a}, {}, {g} + {a});
    b := Announce(chain, 2, a, a, {g} + {a}, {}, {g} + {a});
    Leaf(g, a, b);
    MarkSide(chain, b, a, {g} + {a} + {b}, {}, {g} + {a});
    assert {g} + {a} + {b} - {b} == {g, a} && {g} + {a} == {g, a} && {} + {b} == {b};
    Knows(chain, a, {g, a}, {b}, {g, a});
    b := Extend(chain, 2, a, {g, a}, {b}, {g, a});
    assert {g, a} + {b} == {g, a, b};
    Knows(chain, b, {g, a}, {b}, {g, a, b});
    MarkedUnclean(chain.status, b, b);
  }

  /** Invalidating `a` below a tip that is known to be invalid fails, and leaves `a` marked on the
      best chain. */
  method InvalidateFails() returns (chain: BlockChain, a: Node, err: Option<ChainError>)
    ensures fresh(chain) && chain.Valid() && err == Some(AssertError)
    ensures Contains(chain.bestChain, a) && a in chain.status && chain.status[a].KnownInvalid()
  {
    hide LedgerOf, IndexFor, Replayable, IsView, AllStored, OnBranch, Marks, AllPlain, Contains, Node.Height;
    var b;
    chain, a, b := MarkedTip();
    err := MarkBelowTip(chain, a, b, {chain.root, a}, {b}, {chain.root, a, b});
    Knows(chain, b, {chain.root, a} - {a}, {b} + {a}, {chain.root, a, b});
    BranchStep(a, b);
    ContainsIsBranch(chain.bestChain, a);
  }

  /** No tip is left once `b2` is invalidated, when `a` below it and the other branch are marked. */
  method MarkLastBranch(chain: BlockChain, g: Node, a: Node, b: Node, b2: Node, c2: Node, ghost bodies: set<Node>)
    returns (err: Option<ChainError>, ghost next: Option<Node>)
    requires Ready(chain, c2, {g, b2, c2}, {a, b}, bodies) && g.Genesis? && a.Child? && a.parent == g
    requires b2.Child? && b2.parent == a && c2.Child? && c2.parent == b2
    modifies chain
    ensures chain.Valid() && err == Some(NoTip) && next.None? && Tip(chain.bestChain) == a
    ensures a in chain.status && chain.status[a].KnownInvalid()
  {
    hide LedgerOf, IndexFor, Replayable, IsView, AllStored, OnBranch, Invalidated, Marks, AllPlain, Contains, Between,
      Doomed, Failed, InvalidGrows, Unmarked, HighestMarked, Candidate, Path, Tried, TrialError, Stays;
    ghost var st := chain.status;
    Knows(chain, c2, {g, b2, c2}, {a, b}, bodies);
    HeightIs(b2);
    HeightIs(c2);
    BranchStep(b2, c2);
    ContainsIsBranch(chain.bestChain, b2);
    OneAbove(st, b2, c2, a);
    MarksBelow(st, {g, b2, c2}, {a, b}, b2, c2);
    NoCandidate(Doomed(Failed(st, b2), {c2}), g, a, b, b2, c2);
    err, next := InvalidateBlock(chain, b2.Hash());
    StillBad(Doomed(Failed(st, b2), {c2}), {g, b2, c2} - {b2, c2}, {a, b} + {b2, c2}, chain.status);
    PathView(a);
  }

  lemma StillBad(st: Statuses, good: set<Node>, bad: set<Node>, st': Statuses)
    requires Marks(st, good, bad) && InvalidGrows(st, st')
    ensures forall n <- bad :: n in st' && st'[n].KnownInvalid()
  {
  }

  lemma NoCandidate(st: Statuses, g: Node, a: Node, b: Node, b2: Node, c2: Node)
    requires Marks(st, {g, b2, c2} - {b2, c2}, {a, b} + {b2, c2}) && a.Child? && a.parent == g
    ensures Path(a) != [] && forall t :: !Candidate(st, Path(a), t)
  {
    hide OnBranch;
    PathView(a);
    BranchStep(g, a);
    ContainsIsBranch(Path(a), g);
  }

  lemma SideBranch(g: Node, a: Node, b: Node, b2: Node)
    requires g.Genesis? && a.Child? && a.parent == g && b.Child? && b.parent == a && b2.Child? && b2.parent == a
    ensures forall n | OnBranch(n, b2) && !OnBranch(n, b) :: n == b2
  {
    hide OnBranch;
    forall n | OnBranch(n, b2) && !OnBranch(n, b)
      ensures n == b2
    {
      BranchStep(n, b2);
      BranchStep(n, b);
    }
  }

  /** Two more blocks, `b2` beside `b` and `c2` on it, and no tip is left that is not known to be
      invalid: there is nothing for invalidation to switch to. */
  method NoTipLeft() returns (chain: BlockChain, err: Option<ChainError>)
    ensures fresh(chain) && chain.Valid() && err == Some(NoTip)
    ensures Tip(chain.bestChain) in chain.status && chain.status[Tip(chain.bestChain)].KnownInvalid()
  {
    hide OnBranch, Node.Height, Ready, BlockChain.Valid;
    var a, b;
    chain, a, b := MarkedTip();
    var g := chain.root;
    Knows(chain, b, {g, a}, {b}, {g, a, b});
    HeightIs(b);
    var b2 := StoreSide(chain, 3, a, b, {g, a}, {b}, {g, a, b});
    var _ := MarkBelowTip(chain, a, b, {g, a} + {b2}, {b}, {g, a, b} + {b2});
    assert {g, a} + {b2} - {a} == {g, b2} && {b} + {a} == {a, b} && {g, a, b} + {b2} == {g, a, b, b2};
    Knows(chain, b, {g, b2}, {a, b}, {g, a, b, b2});
    HeightIs(b2);
    SideBranch(g, a, b, b2);
    var c2 := Overtake(chain, 4, b2, b, {g, b2}, {a, b}, {g, a, b, b2});
    assert {g, b2} + {c2} == {g, b2, c2};
    ghost var next;
    err, next := MarkLastBranch(chain, g, a, b, b2, c2, {g, a, b, b2} + {c2});
  }

  /** The body of a block that is known to be invalid arrives on a side branch with more work. */
  method RefuseMarked(chain: BlockChain, n: Node, ghost tip: Node, ghost good: set<Node>, ghost bad: set<Node>,
                      ghost bodies: set<Node>) returns (isMain: bool)
    requires Ready(chain, tip, good, bad, bodies) && n in bad && n.Child? && Arrives(chain, n.Hash(), n.parent)
    requires n.parent != tip && n.parent.Height() >= tip.Height() && !OnBranch(n, tip)
    modifies chain
    ensures chain.Valid() && isMain && Tip(chain.bestChain) == tip
  {
    hide LedgerOf, IndexFor, Replayable, IsView, AllStored, OnBranch, NoneBetter, Overtaken, Clean, Truthful, Marks,
      MarkedExtends, WithBody, SameVerdicts, Passes, Attachable, InvalidGrows, Node.Height, Node.WorkSum, AllPlain;
    ghost var st, best := chain.status, chain.bestChain;
    Knows(chain, tip, good, bad, bodies);
    PlainReplays(n);
    PlainReplays(tip);
    HeightIs(n);
    ContainsIsBranch(best, n);
    MarkedUnattachable(st, best, n);
    var main, _, _ := chain.ProcessBlock(Plain(n.Hash()), n.parent.Hash(), true, true);
    isMain := main;
  }

  lemma MarkedUnattachable(st: Statuses, best: View, n: Node)
    requires n in st && st[n].KnownInvalid() && !Contains(best, n)
    ensures !Attachable(WithBody(st, n), best, n)
  {
    BranchReflexive(n);
    assert ToAttach(best, n, n);
  }

  /** Beside a chain with one block `a`, the branch of `s1` gets a block `s2` that is known to be
      invalid before its body arrives: it is reported to be on the main chain, and the tip is `a`. */
  method ReportedMain() returns (chain: BlockChain, isMain: bool)
    ensures fresh(chain) && chain.Valid() && isMain && Tip(chain.bestChain).Hash() == 1
  {
    hide OnBranch, Node.Height, Ready, BlockChain.Valid;
    var g := Genesis(Plain(0));
    chain := new BlockChain(g, AnyRules(), 0, 1);
    FirstReady(chain, g);
    Knows(chain, g, {g}, {}, {g});
    var a := Extend(chain, 1, g, {g}, {}, {g});
    HeightIs(a);
    Knows(chain, a, {g} + {a}, {}, {g} + {a});
    var s1 := StoreSide(chain, 2, g, a, {g} + {a}, {}, {g} + {a});
    HeightIs(s1);
    ghost var good, bodies := {g} + {a} + {s1}, {g} + {a} + {s1};
    Knows(chain, a, good, {}, bodies);
    var s2 := Announce(chain, 3, s1, a, good, {}, bodies);
    SideLeaf(g, a, s1, s2);
    MarkSide(chain, s2, a, good + {s2}, {}, bodies);
    Knows(chain, a, good + {s2} - {s2}, {} + {s2}, bodies);
    isMain := RefuseMarked(chain, s2, a, good + {s2} - {s2}, {} + {s2}, bodies);
  }

  lemma SideLeaf(g: Node, a: Node, s1: Node, s2: Node)
    requires g.Genesis? && a.Child? && a.parent == g && s1.Child? && s1.parent == g && s2.Child? && s2.parent == s1
    ensures !OnBranch(s2, a) && !OnBranch(s2, g) && !OnBranch(s2, s1)
  {
    assert a.Height() == 1;
    Leaf(g, s1, s2);
  }

  // ----------------------------------------------------- tips and branches

  /** The tip of the best chain is invalidated, and was not known to be invalid before. */
  method MarkTip(chain: BlockChain, b: Node, ghost good: set<Node>, ghost bad: set<Node>, ghost bodies: set<Node>)
    returns (err: Option<ChainError>, ghost next: Option<Node>)
    requires Ready(chain, b, good, bad, bodies) && b in good && b.Child?
    modifies chain
    ensures chain.Valid() && chain.rules == AnyRules() && chain.bodies == bodies && chain.index == old(chain.index)
    ensures TookOver(AnyRules(), Failed(old(chain.status), b), bodies, b.parent, err, next, chain.status,
                     chain.bestChain)
    ensures Path(b.parent) != [] && forall t :: Candidate(Failed(old(chain.status), b), Path(b.parent), t) <==>
              t in good && (t == b.parent || InactiveTip(good + bad, old(chain.bestChain), t))
    ensures Marks(Failed(old(chain.status), b), good - {b}, bad + {b})
  {
    hide LedgerOf, IndexFor, Replayable, IsView, AllStored, OnBranch, Invalidated, Marks, AllPlain, Between,
      Doomed, Failed, TookOver, InvalidGrows, Unmarked, HighestMarked, Candidate, Path, InactiveTip, Contains;
    ghost var st, best := chain.status, chain.bestChain;
    Knows(chain, b, good, bad, bodies);
    TreeOf(chain.root, chain.index, st, chain.bodies);
    TipContained(best);
    NoneAbove(st, b);
    MarksFailed(st, good, bad, b);
    forall t {
      CandidatesAre(st, chain.root, best, b, t);
    }
    err, next := InvalidateBlock(chain, b.Hash());
  }

  lemma NoneAbove(st: Statuses, b: Node)
    requires b in st
    ensures Between(st.Keys, b, b) == {} && Unmarked(st, {}) && Doomed(Failed(st, b), {}) == Failed(st, b)
  {
    hide OnBranch, Node.Height;
    BranchReflexive(b);
    BetweenStep(st.Keys, b, b);
    DoomedNone(Failed(st, b), b);
  }

  lemma MarksFailed(st: Statuses, good: set<Node>, bad: set<Node>, b: Node)
    requires Marks(st, good, bad) && b in good
    ensures Marks(Failed(st, b), good - {b}, bad + {b})
  {
  }

  /** A chain of two blocks, `a` and `b`. */
  method TwoBlocks() returns (chain: BlockChain, a: Node, b: Node)
    ensures fresh(chain) && chain.root.Genesis? && chain.root.Hash() == 0
    ensures On(a, chain.root) && On(b, a) && a.Hash() == 1 && b.Hash() == 2
    ensures Ready(chain, b, {chain.root, a, b}, {}, {chain.root, a, b})
  {
    hide OnBranch, Node.Height, Ready, BlockChain.Valid;
    var g := Genesis(Plain(0));
    chain := new BlockChain(g, AnyRules(), 0, 1);
    FirstReady(chain, g);
    Knows(chain, g, {g}, {}, {g});
    a := Extend(chain, 1, g, {g}, {}, {g});
    assert {g} + {a} == {g, a};
    Knows(chain, a, {g, a}, {}, {g, a});
    b := Extend(chain, 2, a, {g, a}, {}, {g, a});
    assert {g, a} + {b} == {g, a, b};
  }

  /** A chain of two blocks, `a` and `b`, beside a block `s1` with the work of `a`. */
  method TwoAndOne() returns (chain: BlockChain, a: Node, b: Node, s1: Node)
    ensures fresh(chain) && chain.root.Genesis? && chain.root.Hash() == 0
    ensures On(a, chain.root) && On(b, a) && On(s1, chain.root) && a.Hash() == 1 && b.Hash() == 2 && s1.Hash() == 3
    ensures Ready(chain, b, {chain.root, a, b, s1}, {}, {chain.root, a, b, s1})
  {
    hide OnBranch, Node.Height, Ready, BlockChain.Valid;
    chain, a, b := TwoBlocks();
    var g := chain.root;
    HeightIs(a);
    HeightIs(b);
    Knows(chain, b, {g, a, b}, {}, {g, a, b});
    s1 := StoreSide(chain, 3, g, b, {g, a, b}, {}, {g, a, b});
    assert {g, a, b} + {s1} == {g, a, b, s1};
  }

  /** Invalidating `b` does not leave the chain at `a`: the other tip has the same work, and takes over. */
  method TieMoves() returns (chain: BlockChain, err: Option<ChainError>)
    ensures fresh(chain) && chain.Valid() && err.None? && Tip(chain.bestChain).Hash() == 3
  {
    hide OnBranch, Node.Height, Node.WorkSum, Ready, BlockChain.Valid, Candidate, InactiveTip, Contains, Failed, Marks,
      Attachable, Passes, Judged, Path;
    var a, b, s1;
    chain, a, b, s1 := TwoAndOne();
    var g := chain.root;
    ghost var st, best := chain.status, chain.bestChain;
    Knows(chain, b, {g, a, b, s1}, {}, {g, a, b, s1});
    TieTips(chain, g, a, b, s1);
    ghost var next;
    err, next := MarkTip(chain, b, {g, a, b, s1}, {}, {g, a, b, s1});
    PathView(a);
    TieTakesOver(Failed(st, b), g, a, b, s1);
  }

  /** The only inactive tip is `s1`. */
  lemma TieTips(chain: BlockChain, g: Node, a: Node, b: Node, s1: Node)
    requires Ready(chain, b, {g, a, b, s1}, {}, {g, a, b, s1}) && g.Genesis? && On(a, g) && On(b, a) && On(s1, g)
    requires a.Hash() == 1 && b.Hash() == 2 && s1.Hash() == 3 && g.Hash() == 0
    ensures var all := {g, a, b, s1} + {};
            forall t :: InactiveTip(all, chain.bestChain, t) <==> t == s1
    ensures a.WorkSum() == 2 && s1.WorkSum() == 2 && AllPlain(s1)
  {
    hide OnBranch, IsView, Contains, Replayable, LedgerOf, AllStored, IndexFor, Marks, AllPlain;
    Knows(chain, b, {g, a, b, s1}, {}, {g, a, b, s1});
    forall t | t in {g, a, b, s1}
      ensures Contains(chain.bestChain, t) <==> t != s1
    {
      ContainsIsBranch(chain.bestChain, t);
      BranchIs(g, a, b, t);
    }
    PlainReplays(a);
    PlainReplays(s1);
    HeightIs(a);
    HeightIs(s1);
  }

  lemma TieTakesOver(mid: Statuses, g: Node, a: Node, b: Node, s1: Node)
    requires Marks(mid, {g, a, b, s1} - {b}, {} + {b}) && g.Genesis? && On(a, g) && On(b, a) && On(s1, g)
    requires a.Hash() == 1 && b.Hash() == 2 && s1.Hash() == 3 && g.Hash() == 0 && AllPlain(s1)
    ensures Attachable(mid, Path(a), s1) && Passes(AnyRules(), {g, a, b, s1}, Path(a), s1)
  {
    hide OnBranch, IsView, Contains, LedgerOf, Path, AllPlain;
    PathView(a);
    PlainReplays(s1);
    forall n | ToAttach(Path(a), s1, n)
      ensures n == s1
    {
      ContainsIsBranch(Path(a), n);
      BranchStep(n, s1);
      BranchStep(g, a);
      BranchStep(n, g);
    }
  }

  /** A chain `a`, `b` beside a stored branch `s1`, `s2` of the same work, above which only a header
      is known, and known to be invalid.  Invalidating `b` leaves the chain at `a`: the stored branch
      has more work, but no tip speaks for it. */
  method HeavierLeft() returns (chain: BlockChain, err: Option<ChainError>)
    ensures fresh(chain) && chain.Valid() && err.None? && Tip(chain.bestChain).Hash() == 1 && !chain.MostWork()
  {
    hide OnBranch, Node.Height, Node.WorkSum, Ready, BlockChain.Valid, Candidate, InactiveTip, Contains, Failed, Marks,
      Tried, TrialError, Path, NoneBetter;
    var a, b, s1, s2, s3;
    chain, a, b, s1, s2, s3 := MarkedAbove();
    var g := chain.root;
    ghost var good, bodies := {g, a, b, s1, s2}, {g, a, b, s1, s2};
    ghost var st := chain.status;
    Knows(chain, b, good, {s3}, bodies);
    BuriedTips(chain, g, a, b, s1, s2, s3);
    ghost var next;
    err, next := MarkTip(chain, b, good, {s3}, bodies);
    PathView(a);
    BuriedBetter(Failed(st, b), g, a, b, s1, s2, s3);
  }

  method MarkedAbove() returns (chain: BlockChain, a: Node, b: Node, s1: Node, s2: Node, s3: Node)
    ensures fresh(chain) && TwoSides(chain.root, a, b, s1, s2, s3)
    ensures Ready(chain, b, {chain.root, a, b, s1, s2}, {s3}, {chain.root, a, b, s1, s2})
  {
    hide OnBranch, Node.Height, Ready, BlockChain.Valid;
    chain, a, b, s1 := TwoAndOne();
    var g := chain.root;
    Knows(chain, b, {g, a, b, s1}, {}, {g, a, b, s1});
    HeightIs(a);
    HeightIs(b);
    HeightIs(s1);
    s2 := StoreSide(chain, 4, s1, b, {g, a, b, s1}, {}, {g, a, b, s1});
    ghost var bodies := {g, a, b, s1} + {s2};
    Knows(chain, b, bodies, {}, bodies);
    s3 := Announce(chain, 5, s2, b, bodies, {}, bodies);
    OnlyLeaf(g, a, b, s1, s2, s3);
    MarkSide(chain, s3, b, bodies + {s3}, {}, bodies);
    assert bodies + {s3} - {s3} == {g, a, b, s1, s2} == bodies && {} + {s3} == {s3};
  }

  predicate TwoSides(g: Node, a: Node, b: Node, s1: Node, s2: Node, s3: Node) {
    && g.Genesis? && On(a, g) && On(b, a) && On(s1, g) && On(s2, s1) && On(s3, s2)
    && g.Hash() == 0 && a.Hash() == 1 && b.Hash() == 2 && s1.Hash() == 3 && s2.Hash() == 4 && s3.Hash() == 5
  }

  lemma OnlyLeaf(g: Node, a: Node, b: Node, s1: Node, s2: Node, s3: Node)
    requires TwoSides(g, a, b, s1, s2, s3)
    ensures forall m <- {g, a, b, s1, s2} :: !OnBranch(s3, m)
  {
    hide OnBranch;
    BranchIs(g, a, b, s3);
    BranchIs(g, s1, s2, s3);
    BranchStep(s3, g);
    BranchStep(s3, a);
    BranchStep(s3, s1);
  }

  lemma BuriedTips(chain: BlockChain, g: Node, a: Node, b: Node, s1: Node, s2: Node, s3: Node)
    requires TwoSides(g, a, b, s1, s2, s3)
    requires Ready(chain, b, {g, a, b, s1, s2}, {s3}, {g, a, b, s1, s2})
    ensures var all := {g, a, b, s1, s2} + {s3};
            forall t :: InactiveTip(all, chain.bestChain, t) <==> t == s3
    ensures a.WorkSum() == 2 && s2.WorkSum() == 3
  {
    hide OnBranch, IsView, Contains, Replayable, LedgerOf, AllStored, IndexFor, Marks, AllPlain;
    Knows(chain, b, {g, a, b, s1, s2}, {s3}, {g, a, b, s1, s2});
    forall t | t in {g, a, b, s1, s2} + {s3}
      ensures Contains(chain.bestChain, t) <==> t == g || t == a || t == b
    {
      ContainsIsBranch(chain.bestChain, t);
      BranchIs(g, a, b, t);
    }
    PlainReplays(a);
    PlainReplays(s2);
    BranchIs(g, s1, s2, g);
    HeightIs(a);
  }

  /** The stored branch is complete, and has more work than `a`. */
  lemma BuriedBetter(mid: Statuses, g: Node, a: Node, b: Node, s1: Node, s2: Node, s3: Node)
    requires TwoSides(g, a, b, s1, s2, s3) && Marks(mid, {g, a, b, s1, s2} - {b}, {s3} + {b})
    requires a.WorkSum() == 2 && s2.WorkSum() == 3
    ensures !NoneBetter(mid, {g, a, b, s1, s2}, a)
  {
    hide OnBranch, Node.WorkSum, Node.Height;
    forall n | OnBranch(n, s2)
      ensures n == g || n == s1 || n == s2
    {
      BranchIs(g, s1, s2, n);
    }
    assert Clean(mid, s2) && BranchStored({g, a, b, s1, s2}, s2);
  }

  /** A chain `a`, `b`, above which only a header `c` is known, and known to be invalid. */
  method HeaderAbove() returns (chain: BlockChain, a: Node, b: Node, c: Node)
    ensures fresh(chain) && Line(chain.root, a, b, c) && Ready(chain, b, {chain.root, a, b}, {c}, {chain.root, a, b})
    ensures c in chain.status && chain.status[c].validateFailed
  {
    hide OnBranch, Node.Height, Ready, BlockChain.Valid;
    chain, a, b := TwoBlocks();
    var g := chain.root;
    Knows(chain, b, {g, a, b}, {}, {g, a, b});
    c := Announce(chain, 3, b, b, {g, a, b}, {}, {g, a, b});
    LineIs(g, a, b, c, c);
    LineLeaf(g, a, b, c);
    MarkSide(chain, c, b, {g, a, b} + {c}, {}, {g, a, b});
    assert {g, a, b} + {c} - {c} == {g, a, b} && {} + {c} == {c};
  }

  predicate Line(g: Node, a: Node, b: Node, c: Node) {
    && g.Genesis? && On(a, g) && On(b, a) && On(c, b)
    && g.Hash() == 0 && a.Hash() == 1 && b.Hash() == 2 && c.Hash() == 3
  }

  lemma LineIs(g: Node, a: Node, b: Node, c: Node, n: Node)
    requires Line(g, a, b, c)
    ensures OnBranch(n, a) <==> n == g || n == a
    ensures OnBranch(n, b) <==> n == g || n == a || n == b
    ensures OnBranch(n, c) <==> n == g || n == a || n == b || n == c
  {
    hide OnBranch;
    BranchStep(n, g);
    BranchStep(n, a);
    BranchStep(n, b);
    BranchStep(n, c);
  }

  lemma LineLeaf(g: Node, a: Node, b: Node, c: Node)
    requires Line(g, a, b, c)
    ensures forall m <- {g, a, b} :: !OnBranch(c, m)
  {
    hide OnBranch;
    LineIs(g, a, b, c, c);
    BranchStep(c, g);
  }

  /** Invalidating `b` and reconsidering it does not restore the chain: the tip above `b` is still known
      to be invalid, and `b` itself, which is stored and free of marks again, is not tried. */
  method NotRestored() returns (chain: BlockChain, err: Option<ChainError>)
    ensures fresh(chain) && chain.Valid() && err.None? && Tip(chain.bestChain).Hash() == 1 && !chain.MostWork()
  {
    hide OnBranch, Node.Height, Node.WorkSum, Ready, BlockChain.Valid, Candidate, InactiveTip, Contains, Failed, Marks,
      Tried, TrialError, Path, NoneBetter, Reconsidered;
    var a, b, c;
    chain, a, b, c := HeaderAbove();
    var g := chain.root;
    ghost var st := chain.status;
    Knows(chain, b, {g, a, b}, {c}, {g, a, b});
    LineTips(chain, g, a, b, c);
    ghost var next;
    err, next := MarkTip(chain, b, {g, a, b}, {c}, {g, a, b});
    PathView(a);
    StillFailed(st, b, c);
    err := BringBack(chain, g, a, b, c);
  }

  lemma StillFailed(st: Statuses, b: Node, c: Node)
    requires b in st && c in st && b != c
    ensures b in Failed(st, b) && c in Failed(st, b) && !Failed(st, b)[b].valid && Failed(st, b)[c] == st[c]
  {
  }

  /** Reconsidering `b` from the chain that ends at `a`. */
  method BringBack(chain: BlockChain, g: Node, a: Node, b: Node, c: Node) returns (err: Option<ChainError>)
    requires chain.Valid() && chain.rules == AnyRules() && chain.bodies == {g, a, b} && Line(g, a, b, c)
    requires Marks(chain.status, {g, a, b} - {b}, {c} + {b}) && chain.bestChain == Path(a)
    requires !chain.status[b].valid && chain.status[c].validateFailed && b.Hash() in chain.index
    requires chain.index[b.Hash()] == b && a.WorkSum() == 2 && b.WorkSum() == 3
    modifies chain
    ensures chain.Valid() && err.None? && Tip(chain.bestChain) == a && !chain.MostWork()
  {
    hide LedgerOf, IndexFor, Replayable, IsView, AllStored, OnBranch, Contains, Path, Reconsidered, Marks, InactiveTip,
      Attachable, Passes, AnyCold, StopsAt, Clean, NoneBetter, InvalidGrows, Node.Height, Node.WorkSum;
    ghost var st := chain.status;
    PathView(a);
    InMarks(st, {g, a, b} - {b}, {c} + {b});
    ghost var tip;
    err, tip := ReconsiderBlock(chain, b.Hash(), {});
    OnlyTipAbove(st, g, a, b, c, tip);
    BackAgain(st, g, a, b, c);
    LeftBehind(chain.status, g, a, b, c);
  }

  lemma LineTips(chain: BlockChain, g: Node, a: Node, b: Node, c: Node)
    requires Line(g, a, b, c) && Ready(chain, b, {g, a, b}, {c}, {g, a, b})
    ensures var all := {g, a, b} + {c};
            forall t :: InactiveTip(all, chain.bestChain, t) <==> t == c
    ensures a.WorkSum() == 2 && b.WorkSum() == 3
  {
    hide OnBranch, IsView, Contains, Replayable, LedgerOf, AllStored, IndexFor, Marks, AllPlain;
    Knows(chain, b, {g, a, b}, {c}, {g, a, b});
    forall t | t in {g, a, b} + {c}
      ensures Contains(chain.bestChain, t) <==> t != c
    {
      ContainsIsBranch(chain.bestChain, t);
      LineIs(g, a, b, c, t);
    }
    PlainReplays(a);
    PlainReplays(b);
    HeightIs(a);
    HeightIs(b);
  }

  lemma OnlyTipAbove(st: Statuses, g: Node, a: Node, b: Node, c: Node, tip: Node)
    requires Line(g, a, b, c) && Marks(st, {g, a, b} - {b}, {c} + {b})
    requires (InactiveTip(st.Keys, Path(a), tip) || tip == a) && OnBranch(b, tip)
    ensures tip == c
  {
    hide OnBranch, Path, Contains;
    LineIs(g, a, b, c, b);
    BranchStep(b, g);
    assert c in st && c.parent == b;
  }

  /** Clearing the marks of `b` makes it free of marks, and leaves `c` known to be invalid. */
  lemma BackAgain(st: Statuses, g: Node, a: Node, b: Node, c: Node)
    requires Line(g, a, b, c) && Marks(st, {g, a, b} - {b}, {c} + {b}) && st[c].validateFailed
    ensures Clean(Reconsidered(st, b), b) && !Attachable(Reconsidered(st, b), Path(a), c)
  {
    hide OnBranch, Path, Contains, IsView;
    PathView(a);
    LineIs(g, a, b, c, b);
    LineIs(g, a, b, c, c);
    ContainsIsBranch(Path(a), c);
    assert ToAttach(Path(a), c, c);
    var now := Reconsidered(st, b);
    forall n | OnBranch(n, b)
      ensures n in now && !now[n].KnownInvalid()
    {
      LineIs(g, a, b, c, n);
      LineIs(g, a, b, c, b);
      BranchStep(b, g);
    }
  }

  lemma LeftBehind(st: Statuses, g: Node, a: Node, b: Node, c: Node)
    requires Line(g, a, b, c) && Clean(st, b) && a.WorkSum() == 2 && b.WorkSum() == 3
    ensures !NoneBetter(st, {g, a, b}, a)
  {
    hide OnBranch, Clean, Node.WorkSum;
    forall n | OnBranch(n, b)
      ensures n in {g, a, b}
    {
      LineIs(g, a, b, c, n);
    }
    assert BranchStored({g, a, b}, b);
  }

  /** Invalidating `a` unwinds the chain `a`, `b` to genesis, and reconsidering `a` brings both back. */
  method Restored() returns (chain: BlockChain, between: Hash, err: Option<ChainError>)
    ensures fresh(chain) && chain.Valid() && err.None? && between == 0 && Tip(chain.bestChain).Hash() == 2
  {
    hide OnBranch, Node.Height, Node.WorkSum, Ready, BlockChain.Valid, Marks, Doomed, Failed, Path, AllPlain;
    var a, b;
    chain, a, b := TwoBlocks();
    var g := chain.root;
    Knows(chain, b, {g, a, b}, {}, {g, a, b});
    ghost var st := chain.status;
    ReadyMeans(chain, b, {g, a, b}, {}, {g, a, b});
    Unwound(chain, g, a, b);
    between := Tip(chain.bestChain).Hash();
    err := Rewound(chain, st, g, a, b);
  }

  method Unwound(chain: BlockChain, g: Node, a: Node, b: Node)
    requires Ready(chain, b, {g, a, b}, {}, {g, a, b}) && Pair(g, a, b)
    modifies chain
    ensures chain.Valid() && chain.rules == AnyRules() && chain.bodies == {g, a, b} && chain.bestChain == Path(g)
    ensures chain.index == old(chain.index) && chain.status == Doomed(Failed(old(chain.status), a), {b})
  {
    hide LedgerOf, IndexFor, Replayable, IsView, AllStored, OnBranch, Marks, AllPlain, Between, Doomed, Failed,
      InvalidGrows, Unmarked, HighestMarked, Path, Tried, TrialError, Contains, Candidate, InactiveTip, Node.WorkSum;
    ghost var st, best := chain.status, chain.bestChain;
    Knows(chain, b, {g, a, b}, {}, {g, a, b});
    TreeOf(chain.root, chain.index, st, chain.bodies);
    HeightIs(a);
    BranchStep(a, b);
    ContainsIsBranch(best, a);
    OneAbove(st, a, b, b);
    PathView(g);
    forall t
      ensures Candidate(Doomed(Failed(st, a), {b}), Path(g), t) <==> t == g
    {
      CandidatesAre(st, chain.root, best, a, t);
      PairTips(st, best, g, a, b, t);
    }
    var _, _ := InvalidateBlock(chain, a.Hash());
  }

  /** No tip but that of the best chain. */
  lemma PairTips(st: Statuses, best: View, g: Node, a: Node, b: Node, t: Node)
    requires Pair(g, a, b) && st.Keys == {g, a, b} && best != [] && IsView(best) && Tip(best) == b
    ensures !InactiveTip(st.Keys, best, t)
  {
    hide OnBranch, IsView, Contains;
    ContainsIsBranch(best, t);
    BranchIs(g, a, b, t);
  }

  method Rewound(chain: BlockChain, ghost st: Statuses, g: Node, a: Node, b: Node) returns (err: Option<ChainError>)
    requires chain.Valid() && chain.rules == AnyRules() && chain.bodies == {g, a, b} && chain.bestChain == Path(g)
    requires Pair(g, a, b) && Marks(st, {g, a, b}, {}) && chain.status == Doomed(Failed(st, a), {b}) && AllPlain(b)
    requires a.Hash() in chain.index && chain.index[a.Hash()] == a
    modifies chain
    ensures chain.Valid() && err.None? && Tip(chain.bestChain) == b
  {
    hide LedgerOf, IndexFor, Replayable, IsView, AllStored, OnBranch, Contains, Path, Reconsidered, Marks, InactiveTip,
      Attachable, Passes, AnyCold, Judged, Clean, InvalidGrows, Node.Height, Node.WorkSum, Doomed, Failed, AllPlain;
    PathView(g);
    PairMarks(st, g, a, b);
    ghost var tip;
    err, tip := ReconsiderBlock(chain, a.Hash(), {});
    PairBack(st, g, a, b, tip);
  }

  lemma PairMarks(st: Statuses, g: Node, a: Node, b: Node)
    requires Pair(g, a, b) && Marks(st, {g, a, b}, {})
    ensures var mid := Doomed(Failed(st, a), {b});
            mid.Keys == {g, a, b} && !mid[a].valid
  {
  }

  /** Clearing the marks of `a` clears those of `b` too, which is the only tip above it. */
  lemma PairBack(st: Statuses, g: Node, a: Node, b: Node, tip: Node)
    requires Pair(g, a, b) && Marks(st, {g, a, b}, {}) && AllPlain(b)
    requires var mid := Doomed(Failed(st, a), {b});
             (InactiveTip(mid.Keys, Path(g), tip) || tip == g) && OnBranch(a, tip)
    ensures tip == b && b.WorkSum() > g.WorkSum() && !AnyCold(Path(g), b, {})
    ensures var cleared := Reconsidered(Doomed(Failed(st, a), {b}), a);
            Attachable(cleared, Path(g), b) && Passes(AnyRules(), {g, a, b}, Path(g), b)
  {
    hide OnBranch, Path, Contains, IsView, LedgerOf, AllPlain;
    var mid := Doomed(Failed(st, a), {b});
    BranchIs(g, a, b, a);
    BranchStep(a, g);
    HeightIs(a);
    HeightIs(b);
    assert b in mid;
    PlainReplays(b);
    PlainBelow(g, a, b);
    PlainReplays(g);
    PairCleared(st, g, a, b);
    PathView(g);
    forall n | ToAttach(Path(g), b, n)
      ensures n == a || n == b
    {
      ContainsIsBranch(Path(g), n);
      BranchIs(g, a, b, n);
      BranchStep(n, g);
    }
  }

  lemma PlainBelow(g: Node, a: Node, b: Node)
    requires Pair(g, a, b) && AllPlain(b)
    ensures AllPlain(g)
  {
    assert AllPlain(a);
  }

  lemma PairCleared(st: Statuses, g: Node, a: Node, b: Node)
    requires Pair(g, a, b) && Marks(st, {g, a, b}, {})
    ensures var cleared := Reconsidered(Doomed(Failed(st, a), {b}), a);
            cleared.Keys == {g, a, b} && forall n <- cleared :: !cleared[n].KnownInvalid()
  {
    hide OnBranch, Reconsidered;
    var mid := Doomed(Failed(st, a), {b});
    assert a in mid && mid.Keys == {g, a, b};
    ReconsideredMeans(mid, a, a);
    forall n | n in mid
      ensures Reconsidered(mid, a).Keys == mid.Keys && !Reconsidered(mid, a)[n].KnownInvalid()
    {
      ReconsideredMeans(mid, a, n);
      BranchStep(a, b);
    }
  }

  predicate Pair(g: Node, a: Node, b: Node) {
    g.Genesis? && On(a, g) && On(b, a) && g.Hash() == 0 && a.Hash() == 1 && b.Hash() == 2
  }

  // ------------------------------------------------ work, and not length

  function Weighted(h: Hash, work: nat): Header {
    Header(h, work, 0, Block(Tx(h, [], []), []))
  }

  ghost predicate Bare(n: Node) {
    n.header.block == Block(Tx(n.Hash(), [], []), []) && (n.Child? ==> Bare(n.parent))
  }

  lemma {:induction false} BareReplays(n: Node)
    requires Bare(n)
    ensures LedgerOf(AnyRules(), n).Some? && LedgerOf(AnyRules(), n).value.utxo == map[]
  {
    hide NewBestState;
    if n.Child? {
      BareReplays(n.parent);
    }
  }

  /** A chain that stores all its blocks, all of which can be replayed, and drops none. */
  ghost predicate Calm(chain: BlockChain, tip: Node, nodes: set<Node>)
    reads chain
  {
    && chain.Valid() && chain.rules == AnyRules() && chain.witnessBuffer == 0 && Tip(chain.bestChain) == tip
    && chain.bodies == nodes && chain.status.Keys == nodes && chain.TrueVerdicts() && forall n <- nodes :: Bare(n)
  }

  /** A new block arrives on any block of such a chain: it becomes the tip exactly when it extends it or
      has more cumulative work. */
  method DeliverWeighted(chain: BlockChain, h: Hash, work: nat, parent: Node, ghost tip: Node, ghost nodes: set<Node>)
    returns (n: Node)
    requires Calm(chain, tip, nodes) && parent in nodes && forall m <- nodes :: m.Hash() != h
    modifies chain
    ensures On(n, parent) && n.header == Weighted(h, work)
    ensures Calm(chain, if parent == tip || n.WorkSum() > tip.WorkSum() then n else tip, nodes + {n})
  {
    hide LedgerOf, IndexFor, Replayable, IsView, AllStored, OnBranch, NoneBetter, Overtaken, Clean, Truthful,
      MarkedExtends, WithBody, SameVerdicts, Attachable, Passes, InvalidGrows, Node.Height, Node.WorkSum, Bare,
      Contains;
    ghost var st, best := chain.status, chain.bestChain;
    TreeOf(chain.root, chain.index, st, chain.bodies);
    KnownHashes(chain);
    CalmMarks(chain, nodes);
    var _, _, _ := chain.ProcessBlock(Weighted(h, work), parent.Hash(), true, true);
    n := chain.index[h];
    BareChild(n);
    BareReplays(n);
    WithBodyKeys(st, n);
    GrowsKeys(WithBody(st, n), chain.status);
    CalmAttaches(st, chain.root, nodes, best, n);
  }

  lemma BareChild(n: Node)
    requires n.Child? && n.header.block == Block(Tx(n.Hash(), [], []), []) && Bare(n.parent)
    ensures Bare(n)
  {
  }

  lemma CalmMarks(chain: BlockChain, nodes: set<Node>)
    requires chain.rules == AnyRules() && chain.TrueVerdicts() && chain.status.Keys == nodes
    requires forall n <- nodes :: Bare(n)
    ensures forall n <- nodes :: n in chain.status && !chain.status[n].KnownInvalid()
  {
    hide LedgerOf, Bare;
    forall n | n in nodes
      ensures !chain.status[n].KnownInvalid()
    {
      BareReplays(n);
    }
  }

  lemma CalmAttaches(st: Statuses, root: Node, nodes: set<Node>, best: View, n: Node)
    requires Tree(st.Keys, root) && st.Keys == nodes && (forall m <- nodes :: !st[m].KnownInvalid())
    requires n.Child? && n !in nodes && n.parent in nodes && LedgerOf(AnyRules(), n).Some?
    ensures Attachable(WithBody(st, n), best, n) && Passes(AnyRules(), nodes + {n}, best, n)
  {
    hide LedgerOf, OnBranch, Contains, Tree;
    forall a | ToAttach(best, n, a)
      ensures a == n || a in nodes
    {
      BranchStep(a, n);
      TreeBranch(st.Keys, root, n.parent, a);
    }
  }

  /** Two blocks of little work on the best chain, and one of more work beside them: the shorter branch
      takes over. */
  method HeavierWins() returns (chain: BlockChain)
    ensures fresh(chain) && chain.Valid() && Tip(chain.bestChain).Hash() == 3 && Tip(chain.bestChain).Height() == 1
  {
    hide OnBranch, Calm, BlockChain.Valid;
    var g := Genesis(Weighted(0, 1));
    chain := new BlockChain(g, AnyRules(), 0, 1);
    FirstCalm(chain, g);
    var a := DeliverWeighted(chain, 1, 1, g, g, {g});
    var b := DeliverWeighted(chain, 2, 1, a, a, {g} + {a});
    var s := DeliverWeighted(chain, 3, 10, g, b, {g} + {a} + {b});
    assert a.WorkSum() == 2;
    CalmValid(chain, s, {g} + {a} + {b} + {s});
  }

  lemma FirstCalm(chain: BlockChain, g: Node)
    requires g == Genesis(Weighted(0, 1)) && chain.Valid() && chain.rules == AnyRules()
    requires chain.witnessBuffer == 0 && Tip(chain.bestChain) == g
    requires chain.status == map[g := DATA_STORED.Or(VALID)] && chain.bodies == {g}
    ensures Calm(chain, g, {g})
  {
    hide LedgerOf, IndexFor, Replayable, IsView, AllStored;
    assert chain.status.Keys == {g};
  }

  lemma CalmValid(chain: BlockChain, tip: Node, nodes: set<Node>)
    requires Calm(chain, tip, nodes)
    ensures chain.Valid() && Tip(chain.bestChain) == tip
  {
  }

  // ---------------------------------------------- a body delivered again

  /** A chain with a witness buffer of two blocks and a drop at every height, where all marks are
      true: since all blocks can be replayed, there are none.  The constants only keep the run short:
      what it needs is a drop at a height that leaves the upper part of a side branch. */
  ghost predicate Buffered(chain: BlockChain, tip: Node, bodies: set<Node>, nodes: set<Node>)
    reads chain
  {
    && chain.Valid() && chain.rules == AnyRules() && chain.witnessBuffer == 2 && chain.blocksPerRetarget == 1
    && Tip(chain.bestChain) == tip && chain.bodies == bodies && chain.status.Keys == nodes
    && chain.TrueVerdicts() && forall n <- nodes :: AllPlain(n)
  }

  /** A body arrives on a stored parent and does not become the tip, unless it extends the tip. */
  ghost predicate Expected(tip: Node, bodies: set<Node>, h: Hash, parent: Node) {
    || parent == tip || parent.Height() < tip.Height()
    || exists a :: OnBranch(a, parent) && !OnBranch(a, tip) && a !in bodies && a.Hash() != h
  }

  method Deliver(chain: BlockChain, h: Hash, parent: Node, ghost tip: Node, ghost bodies: set<Node>,
                 ghost nodes: set<Node>) returns (n: Node)
    requires Buffered(chain, tip, bodies, nodes) && parent in bodies && Expected(tip, bodies, h, parent)
    requires forall m <- nodes :: m.Hash() == h ==>
               m !in bodies && m.Child? && m.header == Plain(h) && m.parent == parent
    modifies chain
    ensures n.Child? && n.header == Plain(h) && n.parent == parent
    ensures forall m <- nodes :: m.Hash() == h ==> m == n
    ensures parent != tip ==> Buffered(chain, tip, bodies + {n}, nodes + {n})
    ensures parent == tip ==>
              Buffered(chain, n, bodies + {n} - chain.DroppedFrom(bodies + {n}, nodes + {n}, Path(tip), n), nodes + {n})
  {
    hide LedgerOf, IndexFor, Replayable, IsView, AllStored, OnBranch, NoneBetter, Overtaken, Clean, Truthful,
      MarkedExtends, WithBody, SameVerdicts, Attachable, InvalidGrows, Node.Height, Node.WorkSum, AllPlain,
      BlockChain.DroppedFrom, Path, Passes;
    ghost var st, best := chain.status, chain.bestChain;
    ViewIsPath(best);
    KnownHashes(chain);
    NoMarks(chain, nodes);
    var _, _, _ := chain.ProcessBlock(Plain(h), parent.Hash(), true, true);
    n := chain.index[h];
    PlainChild(n);
    PlainReplays(n);
    PlainReplays(tip);
    HeightIs(n);
    WithBodyKeys(st, n);
    GrowsKeys(WithBody(st, n), chain.status);
    if parent != tip && parent.Height() >= tip.Height() {
      Withheld(bodies, best, n);
    }
  }

  lemma NoMarks(chain: BlockChain, nodes: set<Node>)
    requires chain.rules == AnyRules() && chain.TrueVerdicts() && chain.status.Keys == nodes
    requires forall n <- nodes :: AllPlain(n)
    ensures forall n <- nodes :: n in chain.status && !chain.status[n].KnownInvalid()
  {
    hide LedgerOf, AllPlain;
    forall n | n in nodes
      ensures !chain.status[n].KnownInvalid()
    {
      PlainReplays(n);
    }
  }

  /** A branch with a body missing does not take over. */
  lemma Withheld(bodies: set<Node>, best: View, n: Node)
    requires best != [] && IsView(best) && n.Child?
    requires exists a :: OnBranch(a, n.parent) && !OnBranch(a, Tip(best)) && a !in bodies && a.Hash() != n.Hash()
    ensures !Passes(AnyRules(), bodies + {n}, best, n)
  {
    hide LedgerOf, IsView, OnBranch, Contains;
    var a :| OnBranch(a, n.parent) && !OnBranch(a, Tip(best)) && a !in bodies && a.Hash() != n.Hash();
    BranchStep(a, n);
    ContainsIsBranch(best, a);
    assert ToAttach(best, n, a);
  }

  /** `b` is a block on `a`. */
  predicate On(b: Node, a: Node) {
    b.Child? && b.parent == a
  }

  /** Two branches of two blocks on genesis. */
  predicate TwoBranches(g: Node, a1: Node, a2: Node, s1: Node, s2: Node) {
    && g.Genesis? && On(a1, g) && On(a2, a1) && On(s1, g) && On(s2, s1)
    && g.Hash() == 0 && a1.Hash() == 1 && a2.Hash() == 2 && s1.header == Plain(3) && s2.Hash() == 4
  }

  lemma BranchesAre(g: Node, a1: Node, a2: Node, s1: Node, s2: Node, n: Node)
    requires TwoBranches(g, a1, a2, s1, s2)
    ensures OnBranch(n, a2) <==> n == g || n == a1 || n == a2
    ensures OnBranch(n, s2) <==> n == g || n == s1 || n == s2
    ensures g.Height() == 0 && a1.Height() == 1 && a2.Height() == 2 && s1.Height() == 1 && s2.Height() == 2
  {
    BranchIs(g, a1, a2, n);
    BranchIs(g, s1, s2, n);
  }

  lemma BranchIs(g: Node, a1: Node, a2: Node, n: Node)
    requires g.Genesis? && On(a1, g) && On(a2, a1)
    ensures OnBranch(n, a2) <==> n == g || n == a1 || n == a2
    ensures g.Height() == 0 && a1.Height() == 1 && a2.Height() == 2
  {
    hide OnBranch;
    BranchStep(n, g);
    BranchStep(n, a1);
    BranchStep(n, a2);
  }

  /** Connecting a third block drops the first body of the other branch, and only that. */
  lemma DropsFirst(g: Node, a1: Node, a2: Node, s1: Node, s2: Node, a3: Node)
    requires TwoBranches(g, a1, a2, s1, s2) && On(a3, a2) && a3.Hash() == 5
    ensures var all := {g, a1, a2, s1, s2} + {a3};
            Stale(all, all, Path(a2), 1) == {s1} && a3.Height() == 3
  {
    hide OnBranch, Contains, IsView, Path;
    var all := {g, a1, a2, s1, s2} + {a3};
    PathView(a2);
    HeightIs(a3);
    forall n | n in all
      ensures Contains(Path(a2), n) <==> n in {g, a1, a2}
      ensures n.Height() <= 1 <==> n in {g, a1, s1}
      ensures OnBranch(n, s2) <==> n in {g, s1, s2}
    {
      BranchesAre(g, a1, a2, s1, s2, n);
      ContainsIsBranch(Path(a2), n);
    }
    assert InactiveTip(all, Path(a2), s2);
  }

  lemma DropAt(chain: BlockChain, stored: set<Node>, nodes: set<Node>, view: View, n: Node)
    requires chain.witnessBuffer == 2 && chain.blocksPerRetarget == 1 && n.Height() <= 3
    ensures chain.DroppedFrom(stored, nodes, view, n) == if n.Height() <= 2 then {} else Stale(stored, nodes, view, 1)
  {
    hide Stale, Node.Height;
  }

  lemma FirstBuffered(chain: BlockChain, g: Node)
    requires g == Genesis(Plain(0)) && chain.Valid() && chain.rules == AnyRules()
    requires chain.witnessBuffer == 2 && chain.blocksPerRetarget == 1 && Tip(chain.bestChain) == g
    requires chain.status == map[g := DATA_STORED.Or(VALID)] && chain.bodies == {g}
    ensures Buffered(chain, g, {g}, {g}) && g.Height() == 0 && g.Hash() == 0
  {
    hide LedgerOf, IndexFor, Replayable, IsView, AllStored;
    assert chain.status.Keys == {g};
  }

  lemma BufferedMeans(chain: BlockChain, tip: Node, bodies: set<Node>, nodes: set<Node>)
    requires Buffered(chain, tip, bodies, nodes)
    ensures chain.Valid() && chain.TrueVerdicts() && chain.witnessBuffer == 2 && chain.blocksPerRetarget == 1
    ensures chain.bestChain != []
  {
  }

  /** The two branches arrive, and the second ends without becoming the best chain. */
  method TwoStored() returns (chain: BlockChain, a1: Node, a2: Node, s1: Node, s2: Node)
    ensures fresh(chain) && TwoBranches(chain.root, a1, a2, s1, s2)
    ensures Buffered(chain, a2, {chain.root, a1, a2, s1, s2}, {chain.root, a1, a2, s1, s2})
  {
    hide OnBranch, Node.Height, Path, BlockChain.DroppedFrom, Buffered, BlockChain.Valid;
    var g := Genesis(Plain(0));
    chain := new BlockChain(g, AnyRules(), 2, 1);
    FirstBuffered(chain, g);
    a1 := Deliver(chain, 1, g, g, {g}, {g});
    HeightIs(a1);
    DropAt(chain, {g} + {a1}, {g} + {a1}, Path(g), a1);
    assert {g} + {a1} == {g, a1} && {g} + {a1} - {} == {g, a1};
    a2 := Deliver(chain, 2, a1, a1, {g, a1}, {g, a1});
    HeightIs(a2);
    DropAt(chain, {g, a1} + {a2}, {g, a1} + {a2}, Path(a1), a2);
    assert {g, a1} + {a2} == {g, a1, a2} && {g, a1} + {a2} - {} == {g, a1, a2};
    s1 := Deliver(chain, 3, g, a2, {g, a1, a2}, {g, a1, a2});
    HeightIs(s1);
    assert {g, a1, a2} + {s1} == {g, a1, a2, s1};
    s2 := Deliver(chain, 4, s1, a2, {g, a1, a2, s1}, {g, a1, a2, s1});
    assert {g, a1, a2, s1} + {s2} == {g, a1, a2, s1, s2};
  }

  /** A third block on the best chain drops the body of `s1`. */
  method FirstDropped() returns (chain: BlockChain, a1: Node, a2: Node, s1: Node, s2: Node, a3: Node)
    ensures fresh(chain) && TwoBranches(chain.root, a1, a2, s1, s2) && On(a3, a2) && a3.Hash() == 5
    ensures Buffered(chain, a3, {chain.root, a1, a2, s2, a3}, {chain.root, a1, a2, s1, s2, a3})
  {
    hide OnBranch, Node.Height, Path, BlockChain.DroppedFrom, Stale, Buffered, BlockChain.Valid;
    chain, a1, a2, s1, s2 := TwoStored();
    var g := chain.root;
    BufferedMeans(chain, a2, {g, a1, a2, s1, s2}, {g, a1, a2, s1, s2});
    a3 := Deliver(chain, 5, a2, a2, {g, a1, a2, s1, s2}, {g, a1, a2, s1, s2});
    DropsFirst(g, a1, a2, s1, s2, a3);
    ghost var all := {g, a1, a2, s1, s2} + {a3};
    DropAt(chain, all, all, Path(a2), a3);
    assert all == {g, a1, a2, s1, s2, a3} && all - {s1} == {g, a1, a2, s2, a3};
  }

  /** The branch of `s1` then gets more work, and cannot take over; and the body of `s1` arrives again.
      Now the branch is complete and has more work than the tip, and is not considered. */
  method DeliveredAgain() returns (chain: BlockChain)
    ensures fresh(chain) && chain.Valid() && chain.TrueVerdicts() && !chain.MostWork()
  {
    hide OnBranch, Node.Height, Path, BlockChain.DroppedFrom, Stale, NoneBetter, Buffered, BlockChain.Valid;
    var a1, a2, s1, s2, a3;
    chain, a1, a2, s1, s2, a3 := FirstDropped();
    var g := chain.root;
    ghost var bodies, nodes := {g, a1, a2, s2, a3}, {g, a1, a2, s1, s2, a3};
    BranchesAre(g, a1, a2, s1, s2, s1);
    HeightIs(a3);
    var s3 := Deliver(chain, 6, s2, a3, bodies, nodes);
    Missing(g, a1, a2, s1, s2, a3, s3);
    bodies, nodes := bodies + {s3}, nodes + {s3};
    assert Expected(a3, bodies, 7, s3);
    var s4 := Deliver(chain, 7, s3, a3, bodies, nodes);
    bodies, nodes := bodies + {s4}, nodes + {s4};
    var again := Deliver(chain, 3, g, a3, bodies, nodes);
    BufferedMeans(chain, a3, bodies + {again}, nodes + {again});
    HeavierStored(chain, g, a1, a2, s1, s2, a3, s3, s4, bodies + {again}, nodes + {again});
  }

  lemma Missing(g: Node, a1: Node, a2: Node, s1: Node, s2: Node, a3: Node, s3: Node)
    requires TwoBranches(g, a1, a2, s1, s2) && On(a3, a2) && On(s3, s2) && a3.Hash() == 5
    ensures OnBranch(s1, s3) && !OnBranch(s1, a3)
  {
    hide OnBranch;
    BranchesAre(g, a1, a2, s1, s2, s1);
    BranchStep(s1, a3);
    BranchStep(s1, s3);
  }

  lemma HeavierStored(chain: BlockChain, g: Node, a1: Node, a2: Node, s1: Node, s2: Node, a3: Node, s3: Node, s4: Node,
                      bodies: set<Node>, nodes: set<Node>)
    requires TwoBranches(g, a1, a2, s1, s2) && On(a3, a2) && On(s3, s2) && On(s4, s3)
    requires Buffered(chain, a3, bodies, nodes)
    requires g in bodies && s1 in bodies && s2 in bodies && s3 in bodies && s4 in bodies
    ensures !chain.MostWork()
  {
    hide OnBranch, IsView, Replayable, AllStored, Truthful, AllPlain, LedgerOf, SkipsOk, Tree, Clean, Node.Height,
      Node.WorkSum;
    forall n | OnBranch(n, s4)
      ensures n in chain.bodies
    {
      BranchesAre(g, a1, a2, s1, s2, n);
      BranchStep(n, s3);
      BranchStep(n, s4);
    }
    BranchesAre(g, a1, a2, s1, s2, s1);
    HeightIs(a3);
    HeightIs(s3);
    HeightIs(s4);
    PlainReplays(a3);
    PlainReplays(s4);
    TruthfulTip(chain.rules, chain.root, chain.status, s4);
    assert BranchStored(chain.bodies, s4);
  }
}
