/** Which branch becomes the best chain, and what that does to the laws of the chain: most work,
    verdicts that are true, and a best chain without invalidity marks. */
module Selection {
  import opened BlockNodes
  import opened ChainView
  import opened BlockTree
  import opened Ledger
  import opened ChainSpec

  // -------------------------------------------------------- specification

  /** The status map once the body of a block is stored. */
  function WithBody(st: Statuses, n: Node): Statuses {
    if n in st then Flagged(st, {n}, DATA_STORED) else st[n := DATA_STORED.Or(HEADER_STORED)]
  }

  /** All bodies of the branch of `n` are stored. */
  ghost predicate BranchStored(bodies: set<Node>, n: Node) {
    forall a | OnBranch(a, n) :: a in bodies
  }

  /** A stored block becomes the tip: it extends the tip and can be replayed, or its branch has more
      work, none of it is known to be invalid, all of it is stored, and it can be replayed. */
  ghost predicate TakesOver(rules: Rules, st: Statuses, bodies: set<Node>, best: View, n: Node)
    requires best != []
  {
    if n.Child? && n.parent == Tip(best) then LedgerOf(rules, n).Some?
    else n.WorkSum() > Tip(best).WorkSum() && Attachable(st, best, n) && Passes(rules, bodies, best, n)
  }

  /** A block with no more work than the tip, and not on top of it, is only stored. */
  predicate OnlyStored(best: View, n: Node)
    requires best != []
  {
    !(n.Child? && n.parent == Tip(best)) && n.WorkSum() <= Tip(best).WorkSum()
  }

  /** A branch with more work that is known to be invalid: there is nothing to reorganize, and that
      counts as a reorganization that went well. */
  ghost predicate FalseMain(st: Statuses, best: View, n: Node)
    requires best != []
  {
    && !(n.Child? && n.parent == Tip(best)) && n.WorkSum() > Tip(best).WorkSum()
    && !Attachable(st, best, n)
  }

  /** No stored branch that is free of invalidity marks has more work than the tip. */
  ghost predicate NoneBetter(st: Statuses, bodies: set<Node>, tip: Node) {
    forall n <- bodies :: Clean(st, n) && BranchStored(bodies, n) ==> n.WorkSum() <= tip.WorkSum()
  }

  /** A stored descendant of `node` that only waits for the body of `node` to have more work than
      the chain that results from storing it. */
  ghost predicate Waits(rules: Rules, st: Statuses, bodies: set<Node>, best: View, node: Node, n: Node)
    requires best != []
  {
    && OnBranch(node, n) && n != node && Clean(st, n) && BranchStored(bodies + {node}, n)
    && if TakesOver(rules, WithBody(st, node), bodies + {node}, best, node) then n.WorkSum() > node.WorkSum()
       else OnlyStored(best, node) && n.WorkSum() > Tip(best).WorkSum()
  }

  ghost predicate Overtaken(rules: Rules, st: Statuses, bodies: set<Node>, best: View, node: Node)
    requires best != []
  {
    exists n <- bodies :: Waits(rules, st, bodies, best, node, n)
  }

  /** The same blocks are known to be invalid. */
  ghost predicate SameVerdicts(st: Statuses, st': Statuses) {
    st.Keys == st'.Keys && forall n <- st :: st[n].KnownInvalid() <==> st'[n].KnownInvalid()
  }

  /** Blocks known to be invalid cannot be replayed. */
  ghost predicate Truthful(rules: Rules, st: Statuses) {
    forall n <- st :: st[n].KnownInvalid() ==> LedgerOf(rules, n).None?
  }

  /** No block of the view became known to be invalid. */
  ghost predicate SparesView(v: View, st: Statuses, st': Statuses) {
    forall n <- v :: n in st && n in st' && st'[n].KnownInvalid() ==> st[n].KnownInvalid()
  }

  /** Only bodies below a height are gone. */
  ghost predicate GoneBelow(gone: set<Node>, h: nat) {
    forall n <- gone :: n.Height() < h
  }

  /** A block that is known to be invalid extends the tip all the same. */
  ghost predicate MarkedExtends(rules: Rules, st: Statuses, tip: Node, n: Node) {
    n in st && st[n].KnownInvalid() && n.Child? && n.parent == tip && LedgerOf(rules, n).Some?
  }

  /** What accepting the block `n` into the tree does: the new tip, the marks, and exactly when the
      law of most work and the freedom of the best chain from marks survive. */
  ghost predicate Accepted(rules: Rules, st: Statuses, bodies: set<Node>, best: View, n: Node,
                           st': Statuses, bodies': set<Node>, best': View)
    requires best != [] && best' != []
  {
    && (Tip(best') == n <==> TakesOver(rules, WithBody(st, n), bodies + {n}, best, n))
    && (Tip(best') != n ==> best' == best && bodies' == bodies + {n})
    && (Tip(best') == n || OnlyStored(best, n) ==> SameVerdicts(WithBody(st, n), st'))
    && InvalidGrows(WithBody(st, n), st')
    && (NoneBetter(st, bodies, Tip(best)) ==>
          (NoneBetter(st', bodies', Tip(best')) <==> !Overtaken(rules, st, bodies, best, n)))
    && (Clean(st, Tip(best)) ==> (Clean(st', Tip(best')) <==> !MarkedExtends(rules, st, Tip(best), n)))
    && (Truthful(rules, st) ==> Truthful(rules, st'))
  }

  // ------------------------------------------------------------ more work

  /** Of two branches that part at `f`, the one has more work whose blocks above `f` have more work
      together, however many they are. */
  lemma HeavierAbove(f: Node, a: Node, b: Node)
    requires OnBranch(f, a) && OnBranch(f, b)
    ensures f.Height() <= a.Height() && f.Height() <= b.Height()
    ensures a.WorkSum() > b.WorkSum() <==>
            Sum(Works(Path(a)[f.Height() + 1..])) > Sum(Works(Path(b)[f.Height() + 1..]))
  {
    WorkAbove(f, a);
    WorkAbove(f, b);
  }

  /** A stored block that does not extend the tip takes over exactly when the works of its blocks above
      the fork add up to strictly more than those of the best chain, and its branch holds up. */
  lemma TakesOverAbove(rules: Rules, st: Statuses, bodies: set<Node>, best: View, n: Node, f: Node)
    requires best != [] && IsFork(f, n, Tip(best)) && !(n.Child? && n.parent == Tip(best))
    ensures f.Height() <= n.Height() && f.Height() <= Tip(best).Height()
    ensures TakesOver(rules, st, bodies, best, n) <==>
            && Sum(Works(Path(n)[f.Height() + 1..])) > Sum(Works(Path(Tip(best))[f.Height() + 1..]))
            && Attachable(st, best, n) && Passes(rules, bodies, best, n)
  {
    hide Attachable, Passes;
    HeavierAbove(f, n, Tip(best));
  }

  // ---------------------------------------------------------- verdict laws

  lemma VerdictsFlagged(st: Statuses, ns: set<Node>, f: Status)
    requires !f.KnownInvalid()
    ensures SameVerdicts(st, Flagged(st, ns, f))
  {
  }

  lemma VerdictsCleared(st: Statuses, ns: set<Node>)
    ensures SameVerdicts(st, Cleared(st, ns, DATA_STORED))
  {
  }

  lemma VerdictsTransitive(a: Statuses, b: Statuses, c: Statuses)
    requires SameVerdicts(a, b) && SameVerdicts(b, c)
    ensures SameVerdicts(a, c)
  {
  }

  lemma VerdictsSame(rules: Rules, v: View, st: Statuses, st': Statuses)
    requires SameVerdicts(st, st')
    ensures Truthful(rules, st) ==> Truthful(rules, st')
    ensures SparesView(v, st, st')
    ensures InvalidGrows(st, st')
    ensures forall n :: Clean(st, n) <==> Clean(st', n)
  {
    hide LedgerOf, OnBranch;
  }

  lemma SelfVerdicts(st: Statuses)
    ensures SameVerdicts(st, st)
  {
  }

  /** Marks on blocks above one that cannot be replayed are true. */
  lemma FlaggedTruthful(rules: Rules, st: Statuses, ns: set<Node>, f: Status, bad: Node)
    requires Truthful(rules, st) && LedgerOf(rules, bad).None? && forall n <- ns :: OnBranch(bad, n)
    ensures Truthful(rules, Flagged(st, ns, f))
  {
    hide LedgerOf, OnBranch;
    forall n | n in ns
      ensures LedgerOf(rules, n).None?
    {
      if LedgerOf(rules, n).Some? {
        LedgerBelow(rules, bad, n);
      }
    }
  }

  lemma FlaggedSpares(v: View, st: Statuses, ns: set<Node>, f: Status)
    requires forall n <- ns :: n !in v
    ensures SparesView(v, st, Flagged(st, ns, f))
  {
  }

  lemma FailedTruthful(rules: Rules, st: Statuses, attach: seq<Node>, k: nat)
    requires Truthful(rules, st) && Linked(attach) && k < |attach| && LedgerOf(rules, attach[k]).None?
    ensures Truthful(rules, FailedAt(st, attach, k))
  {
    hide LedgerOf, OnBranch, Flagged, Truthful, SetOf;
    var a := Flagged(st, SetOf(attach[..k]), VALID);
    var b := Flagged(a, {attach[k]}, VALIDATE_FAILED);
    VerdictsFlagged(st, SetOf(attach[..k]), VALID);
    VerdictsSame(rules, [], st, a);
    LinkedBranch(attach, k, k);
    FlaggedTruthful(rules, a, {attach[k]}, VALIDATE_FAILED, attach[k]);
    SetOfAbove(attach, k);
    FlaggedTruthful(rules, b, SetOf(attach[k + 1..]), INVALID_ANCESTOR, attach[k]);
  }

  lemma SetOfAbove(attach: seq<Node>, k: nat)
    requires Linked(attach) && k < |attach|
    ensures forall n <- SetOf(attach[k + 1..]) :: OnBranch(attach[k], n)
  {
    hide OnBranch, Linked;
    forall n | n in SetOf(attach[k + 1..])
      ensures OnBranch(attach[k], n)
    {
      var j :| 0 <= j < |attach[k + 1..]| && attach[k + 1..][j] == n;
      LinkedBranch(attach, k, k + 1 + j);
    }
  }

  lemma FailedSpares(v: View, st: Statuses, attach: seq<Node>, k: nat)
    requires k < |attach| && forall n <- attach :: n !in v
    ensures SparesView(v, st, FailedAt(st, attach, k))
  {
    forall n | n in SetOf(attach[k + 1..])
      ensures n !in v
    {
      assert n in attach[k + 1..];
    }
  }

  /** The blocks above `bad` on the branch of `node`. */
  lemma UpAbove(node: Node, bad: Node, best: View)
    requires best != [] && IsView(best) && OnBranch(bad, node)
    ensures forall a <- SetOf(Up(node, bad.Height())) :: OnBranch(bad, a)
    ensures !Contains(best, bad) ==> forall a <- SetOf(Up(node, bad.Height())) :: a !in best
  {
    hide IsView, OnBranch, Up, Contains;
    BranchWork(bad, node);
    var s := Up(node, bad.Height());
    forall a | a in SetOf(s)
      ensures OnBranch(bad, a) && (!Contains(best, bad) ==> a !in best)
    {
      assert a in s;
      var i :| 0 <= i < |s| && s[i] == a;
      UpAt(node, bad.Height(), i);
      UpLinks(node, bad.Height(), i);
      BranchLinear(bad, a, node);
      ContainsIsBranch(best, a);
      ContainsIsBranch(best, bad);
      if a in best {
        BranchTransitive(bad, a, Tip(best));
      }
    }
  }

  /** The tip of a chain whose verdicts are true has no invalidity mark on its branch. */
  lemma TruthfulTip(rules: Rules, root: Node, st: Statuses, tip: Node)
    requires Truthful(rules, st) && Tree(st.Keys, root) && tip in st && LedgerOf(rules, tip).Some?
    ensures Clean(st, tip)
  {
    hide LedgerOf, OnBranch;
    forall a | OnBranch(a, tip)
      ensures a in st && !st[a].KnownInvalid()
    {
      TreeBranch(st.Keys, root, tip, a);
      LedgerBelow(rules, a, tip);
    }
  }

  /** With true verdicts, no stored branch that can be replayed has more work than the tip. */
  lemma BestIsHeaviest(rules: Rules, root: Node, st: Statuses, bodies: set<Node>, tip: Node, n: Node)
    requires Truthful(rules, st) && Tree(st.Keys, root) && bodies <= st.Keys && NoneBetter(st, bodies, tip)
    requires n in bodies && BranchStored(bodies, n) && LedgerOf(rules, n).Some?
    ensures n.WorkSum() <= tip.WorkSum()
  {
    TruthfulTip(rules, root, st, n);
  }

  // ------------------------------------------------------------ most work

  lemma CleanBelow(st: Statuses, a: Node, n: Node)
    requires OnBranch(a, n)
    ensures Clean(st, n) ==> Clean(st, a)
  {
    forall x | OnBranch(x, a)
      ensures OnBranch(x, n)
    {
      BranchTransitive(x, a, n);
    }
  }

  lemma StoredBelow(bodies: set<Node>, a: Node, n: Node)
    requires OnBranch(a, n)
    ensures BranchStored(bodies, n) ==> BranchStored(bodies, a)
  {
    forall x | OnBranch(x, a)
      ensures OnBranch(x, n)
    {
      BranchTransitive(x, a, n);
    }
  }

  /** Storing a body does not change which known branches are free of marks. */
  lemma WithBodyClean(root: Node, st: Statuses, node: Node, n: Node)
    requires Tree(st.Keys, root) && n in st
    ensures Clean(WithBody(st, node), n) <==> Clean(st, n)
  {
    hide OnBranch;
    forall a | OnBranch(a, n)
      ensures a in st && a in WithBody(st, node)
      ensures WithBody(st, node)[a].KnownInvalid() <==> st[a].KnownInvalid()
    {
      TreeBranch(st.Keys, root, n, a);
    }
  }

  lemma CleanShrinks(st: Statuses, st': Statuses, n: Node)
    requires InvalidGrows(st, st') && Clean(st', n)
    ensures Clean(st, n)
  {
    hide OnBranch;
  }

  /** The part of acceptance that the law of most work depends on. */
  ghost predicate Decision(rules: Rules, st: Statuses, bodies: set<Node>, best: View, node: Node,
                           st': Statuses, bodies': set<Node>, best': View)
    requires best != [] && best' != []
  {
    && (Tip(best') == node <==> TakesOver(rules, WithBody(st, node), bodies + {node}, best, node))
    && Tip(best).WorkSum() <= Tip(best').WorkSum()
    && InvalidGrows(WithBody(st, node), st') && bodies' <= bodies + {node}
    && (Tip(best') == node ==>
          && SameVerdicts(WithBody(st, node), st') && IsView(best') && AllStored(best', bodies')
          && GoneBelow(bodies + {node} - bodies', node.Height()))
    && (Tip(best') != node ==> best' == best && bodies' == bodies + {node})
    && (OnlyStored(best, node) ==> st' == WithBody(st, node))
    && (Tip(best') != node && !OnlyStored(best, node) ==> !Clean(st', node) || !BranchStored(bodies + {node}, node))
  }

  lemma StillNoneBetter(rules: Rules, root: Node, st: Statuses, bodies: set<Node>, best: View, node: Node,
                        st': Statuses, bodies': set<Node>, best': View)
    requires Tree(st.Keys, root) && bodies <= st.Keys && best != [] && best' != [] && node !in bodies
    requires Decision(rules, st, bodies, best, node, st', bodies', best')
    requires NoneBetter(st, bodies, Tip(best)) && !Overtaken(rules, st, bodies, best, node)
    ensures NoneBetter(st', bodies', Tip(best'))
  {
    hide LedgerOf, TakesOver, InvalidGrows, SameVerdicts, WithBody, OnBranch, IsView, AllStored, Clean, BranchStored,
      GoneBelow, Node.WorkSum, Node.Height, Tree;
    forall n | n in bodies' && Clean(st', n) && BranchStored(bodies', n)
      ensures n.WorkSum() <= Tip(best').WorkSum()
    {
      CleanShrinks(WithBody(st, node), st', n);
      StoredFewer(bodies', bodies + {node}, n);
      if n == node {
        if Tip(best') != node && !OnlyStored(best, node) {
          assert false;
        }
      } else {
        WithBodyClean(root, st, node, n);
        if OnBranch(node, n) {
          CleanBelow(st', node, n);
          StoredBelow(bodies + {node}, node, n);
          assert !Waits(rules, st, bodies, best, node, n);
        } else {
          StoredWithout(bodies, node, n);
        }
      }
    }
  }

  lemma StoredFewer(a: set<Node>, b: set<Node>, n: Node)
    requires a <= b && BranchStored(a, n)
    ensures BranchStored(b, n)
  {
    hide OnBranch;
  }

  lemma StoredWithout(bodies: set<Node>, node: Node, n: Node)
    requires !OnBranch(node, n)
    ensures BranchStored(bodies + {node}, n) ==> BranchStored(bodies, n)
  {
    hide OnBranch;
  }

  lemma BetterWaited(rules: Rules, root: Node, st: Statuses, bodies: set<Node>, best: View, node: Node,
                     st': Statuses, bodies': set<Node>, best': View)
    requires Tree(st.Keys, root) && bodies <= st.Keys && best != [] && best' != [] && node !in bodies
    requires Decision(rules, st, bodies, best, node, st', bodies', best') && Overtaken(rules, st, bodies, best, node)
    ensures !NoneBetter(st', bodies', Tip(best'))
  {
    hide LedgerOf, TakesOver, InvalidGrows, SameVerdicts, WithBody, OnBranch, IsView, AllStored, Clean, BranchStored,
      GoneBelow, Node.WorkSum, Node.Height, Tree;
    var n :| n in bodies && Waits(rules, st, bodies, best, node, n);
    WithBodyClean(root, st, node, n);
    if Tip(best') == node {
      VerdictsSame(rules, [], WithBody(st, node), st');
      StillStored(bodies, node, bodies', best', n);
    }
  }

  /** What lies above the new tip or on its branch survives a drop below it. */
  lemma StillStored(bodies: set<Node>, node: Node, bodies': set<Node>, best': View, n: Node)
    requires best' != [] && IsView(best') && Tip(best') == node && AllStored(best', bodies')
    requires GoneBelow(bodies + {node} - bodies', node.Height()) && OnBranch(node, n)
    requires BranchStored(bodies + {node}, n) && n in bodies
    ensures BranchStored(bodies', n) && n in bodies'
  {
    hide IsView, OnBranch, Node.Height;
    BranchReflexive(n);
    forall a | OnBranch(a, n)
      ensures a in bodies'
    {
      if a.Height() <= node.Height() {
        BranchLinear(a, node, n);
        ContainsIsBranch(best', a);
      }
    }
  }

  /** The body of the genesis-rooted branch of every stored block is stored. */
  ghost predicate DataClosed(bodies: set<Node>) {
    forall n <- bodies :: n.Child? ==> n.parent in bodies
  }

  lemma {:induction false} DataClosedBranch(bodies: set<Node>, a: Node, n: Node)
    requires DataClosed(bodies) && n in bodies && OnBranch(a, n)
    ensures a in bodies
  {
    if a != n {
      DataClosedBranch(bodies, a, n.parent);
    }
  }

  lemma ClosedMore(bodies: set<Node>, n: Node)
    requires DataClosed(bodies) && (n.Child? ==> n.parent in bodies)
    ensures DataClosed(bodies + {n})
  {
  }

  /** If every stored block was stored after its parent, a block that was never stored before has no
      stored descendant to wait for it. */
  lemma NoneWaits(rules: Rules, st: Statuses, bodies: set<Node>, ever: set<Node>, best: View, node: Node)
    requires best != [] && bodies <= ever && DataClosed(ever) && node !in ever
    ensures !Overtaken(rules, st, bodies, best, node)
  {
    hide LedgerOf, TakesOver, OnBranch, Clean, BranchStored, WithBody;
    forall n | n in bodies
      ensures !OnBranch(node, n)
    {
      if OnBranch(node, n) {
        DataClosedBranch(ever, node, n);
      }
    }
  }

  /** A node without a body changes nothing about stored blocks. */
  lemma HeaderStill(root: Node, index: map<Hash, Node>, st: Statuses, bodies: set<Node>, n: Node, tip: Node)
    requires IndexFor(root, index, st, bodies) && n !in st
    ensures NoneBetter(st, bodies, tip) ==> NoneBetter(st[n := HEADER_STORED], bodies, tip)
    ensures tip in st ==> (Clean(st, tip) <==> Clean(st[n := HEADER_STORED], tip))
  {
    hide OnBranch, SkipsOk, BranchStored;
    TreeOf(root, index, st, bodies);
    forall m | m in st
      ensures Clean(st, m) <==> Clean(st[n := HEADER_STORED], m)
    {
      forall a | OnBranch(a, m)
        ensures a in st
      {
        TreeBranch(st.Keys, root, m, a);
      }
    }
  }

  // ------------------------------------------------------- clean best chain

  /** Whether the best chain is free of marks after a block was accepted. */
  lemma StillClean(rules: Rules, root: Node, st: Statuses, bodies: set<Node>, best: View, node: Node,
                   st': Statuses, bodies': set<Node>, best': View)
    requires Tree(st.Keys, root) && best != [] && best' != [] && IsView(best) && Tip(best) in st
    requires node.Child? && node.parent in st && !Contains(best, node)
    requires Decision(rules, st, bodies, best, node, st', bodies', best')
    requires Tip(best') != node ==> SparesView(best, WithBody(st, node), st')
    requires Clean(st, Tip(best))
    ensures Clean(st', Tip(best')) <==> !MarkedExtends(rules, st, Tip(best), node)
  {
    hide LedgerOf, InvalidGrows, SameVerdicts, OnBranch, IsView, AllStored, Clean, BranchStored, GoneBelow,
      Node.WorkSum, Node.Height, Tree, SparesView, Contains, Attachable, Passes, WithBody;
    WithBodyClean(root, st, node, Tip(best));
    if Tip(best') == node {
      VerdictsSame(rules, [], WithBody(st, node), st');
      if node.parent == Tip(best) {
        CleanChild(st, node);
      } else {
        AttachedClean(WithBody(st, node), best, node);
        NotMarked(st, best, node);
      }
    } else {
      SparedClean(WithBody(st, node), st', best);
    }
  }

  lemma CleanChild(st: Statuses, node: Node)
    requires node.Child? && Clean(st, node.parent)
    ensures Clean(WithBody(st, node), node) <==> !(node in st && st[node].KnownInvalid())
  {
    BranchReflexive(node);
    forall a | OnBranch(a, node)
      ensures a == node || OnBranch(a, node.parent)
    {
    }
  }

  lemma AttachedClean(st: Statuses, best: View, node: Node)
    requires best != [] && IsView(best) && Clean(st, Tip(best)) && Attachable(st, best, node)
    ensures Clean(st, node)
  {
    hide IsView, OnBranch, Contains;
    forall a | OnBranch(a, node)
      ensures a in st && !st[a].KnownInvalid()
    {
      ContainsIsBranch(best, a);
      if !Contains(best, a) {
        assert ToAttach(best, node, a);
      }
    }
  }

  lemma NotMarked(st: Statuses, best: View, node: Node)
    requires !Contains(best, node) && Attachable(WithBody(st, node), best, node)
    ensures !(node in st && st[node].KnownInvalid())
  {
    BranchReflexive(node);
    assert ToAttach(best, node, node);
  }

  lemma SparedClean(st: Statuses, st': Statuses, best: View)
    requires best != [] && IsView(best) && InvalidGrows(st, st') && SparesView(best, st, st') && Clean(st, Tip(best))
    ensures Clean(st', Tip(best))
  {
    hide IsView, OnBranch;
    forall a | OnBranch(a, Tip(best))
      ensures a in st' && !st'[a].KnownInvalid()
    {
      ContainsIsBranch(best, a);
    }
  }

  lemma DecisionIs(rules: Rules, st: Statuses, bodies: set<Node>, best: View, node: Node,
                   st': Statuses, bodies': set<Node>, best': View)
    requires best != [] && best' != []
    requires Tip(best') == node <==> TakesOver(rules, WithBody(st, node), bodies + {node}, best, node)
    requires Tip(best).WorkSum() <= Tip(best').WorkSum()
    requires InvalidGrows(WithBody(st, node), st') && bodies' <= bodies + {node}
    requires Tip(best') == node ==>
               && SameVerdicts(WithBody(st, node), st') && IsView(best') && AllStored(best', bodies')
               && GoneBelow(bodies + {node} - bodies', node.Height())
    requires Tip(best') != node ==> best' == best && bodies' == bodies + {node}
    requires OnlyStored(best, node) ==> st' == WithBody(st, node)
    requires Tip(best') != node && !OnlyStored(best, node) ==> !Clean(st', node) || !BranchStored(bodies + {node}, node)
    ensures Decision(rules, st, bodies, best, node, st', bodies', best')
  {
  }

  /** From what best-chain selection reports to the law of acceptance. */
  lemma AcceptedFrom(rules: Rules, root: Node, st: Statuses, bodies: set<Node>, best: View, node: Node,
                     st': Statuses, bodies': set<Node>, best': View)
    requires Tree(st.Keys, root) && bodies <= st.Keys && best != [] && best' != [] && IsView(best) && Tip(best) in st
    requires node.Child? && node.parent in st && node !in bodies && !Contains(best, node)
    requires Decision(rules, st, bodies, best, node, st', bodies', best')
    requires Tip(best') != node ==> SparesView(best, WithBody(st, node), st')
    requires Truthful(rules, WithBody(st, node)) ==> Truthful(rules, st')
    ensures Accepted(rules, st, bodies, best, node, st', bodies', best')
  {
    hide LedgerOf, InvalidGrows, OnBranch, IsView, AllStored, Clean, BranchStored, GoneBelow, TakesOver, Overtaken,
      NoneBetter, Truthful, Node.WorkSum, Node.Height, Tree, SparesView, Contains, MarkedExtends, WithBody,
      SameVerdicts;
    SelfVerdicts(st');
    if NoneBetter(st, bodies, Tip(best)) {
      if Overtaken(rules, st, bodies, best, node) {
        BetterWaited(rules, root, st, bodies, best, node, st', bodies', best');
      } else {
        StillNoneBetter(rules, root, st, bodies, best, node, st', bodies', best');
      }
    }
    if Clean(st, Tip(best)) {
      StillClean(rules, root, st, bodies, best, node, st', bodies', best');
    }
    WithBodyTruthful(rules, st, node);
  }

  /** `WithBody`, node by node. */
  lemma WithBodyMeans(st: Statuses, node: Node)
    ensures var st' := WithBody(st, node);
            && st'.Keys == st.Keys + {node} && (forall n <- st :: n != node ==> st'[n] == st[n])
            && st'[node] == if node in st then st[node].(dataStored := true)
                            else Status(true, false, false, false, true)
  {
  }

  lemma WithBodyKeys(st: Statuses, node: Node)
    ensures WithBody(st, node).Keys == st.Keys + {node}
  {
  }

  lemma WithBodyTruthful(rules: Rules, st: Statuses, node: Node)
    ensures Truthful(rules, st) ==> Truthful(rules, WithBody(st, node))
  {
    hide LedgerOf;
  }

  // ------------------------------------------------ how selection gets there

  lemma GoneNone(h: nat)
    ensures forall s: set<Node> :: GoneBelow(s - s, h)
  {
  }

  lemma NotTheTip(best: View, node: Node)
    requires best != [] && IsView(best) && !Contains(best, node)
    ensures Tip(best) != node
  {
    ContainsIsBranch(best, node);
  }

  /** A block on top of the tip that cannot be replayed is marked, truly, and nothing else is. */
  lemma ExtendRefused(rules: Rules, st: Statuses, best: View, node: Node)
    requires best != [] && IsView(best) && node in st && !Contains(best, node) && LedgerOf(rules, node).None?
    ensures var st' := Flagged(st, {node}, VALIDATE_FAILED);
            && InvalidGrows(st, st') && SparesView(best, st, st') && !Clean(st', node)
            && (Truthful(rules, st) ==> Truthful(rules, st'))
  {
    hide LedgerOf, IsView, OnBranch, Contains;
    BranchReflexive(node);
    ContainsIsBranch(best, node);
    GrowsFlagged(st, {node}, VALIDATE_FAILED);
    FlaggedSpares(best, st, {node}, VALIDATE_FAILED);
    if Truthful(rules, st) {
      FlaggedTruthful(rules, st, {node}, VALIDATE_FAILED, node);
    }
    FlaggedKnown(st, node);
    MarkedUnclean(Flagged(st, {node}, VALIDATE_FAILED), node, node);
  }

  /** The marks on the blocks above a known-invalid one. */
  lemma Unwound(rules: Rules, st: Statuses, best: View, node: Node, bad: Node)
    requires best != [] && IsView(best) && node.Child? && !Contains(best, node)
    requires bad in st && st[bad].KnownInvalid() && OnBranch(bad, node) && (bad == node.parent || !Contains(best, bad))
    ensures var ns := if bad == node.parent then {node} else SetOf(Up(node, bad.Height()));
            var st' := Flagged(st, ns, INVALID_ANCESTOR);
            SparesView(best, st, st') && (Truthful(rules, st) ==> Truthful(rules, st'))
  {
    hide LedgerOf, IsView, OnBranch, Contains, Up, Flagged, SparesView, SetOf, Node.Height;
    var ns := if bad == node.parent then {node} else SetOf(Up(node, bad.Height()));
    UpAbove(node, bad, best);
    ContainsIsBranch(best, node);
    FlaggedSpares(best, st, ns, INVALID_ANCESTOR);
    if Truthful(rules, st) {
      FlaggedTruthful(rules, st, ns, INVALID_ANCESTOR, bad);
    }
  }

  lemma SwitchVerdicts(rules: Rules, st: Statuses, ns: set<Node>, gone: set<Node>)
    ensures var st' := Cleared(Flagged(st, ns, VALID), gone, DATA_STORED);
            SameVerdicts(st, st') && (Truthful(rules, st) ==> Truthful(rules, st'))
  {
    hide LedgerOf, Flagged, Cleared, SameVerdicts, Truthful;
    var mid := Flagged(st, ns, VALID);
    VerdictsFlagged(st, ns, VALID);
    VerdictsCleared(mid, gone);
    VerdictsTransitive(st, mid, Cleared(mid, gone, DATA_STORED));
    VerdictsSame(rules, [], st, Cleared(mid, gone, DATA_STORED));
  }

  /** The marks of a verification that stopped at a block to attach. */
  lemma Stopped(rules: Rules, st: Statuses, best: View, detach: seq<Node>, attach: seq<Node>, k: nat, bodies: set<Node>)
    requires best != [] && IsView(best) && ReorgLists(best, detach, attach) && k < |attach| && Last(attach) in st
    requires forall n <- attach :: ToAttach(best, Last(attach), n)
    requires attach[k] !in bodies || LedgerOf(rules, attach[k]).None?
    ensures var st' := if attach[k] !in bodies then Flagged(st, SetOf(attach[..k]), VALID) else FailedAt(st, attach, k);
            && SparesView(best, st, st') && (Truthful(rules, st) ==> Truthful(rules, st'))
            && (!Clean(st', Last(attach)) || !BranchStored(bodies, Last(attach)))
  {
    hide LedgerOf, IsView, OnBranch, Flagged, SparesView, SetOf, FailedAt, Truthful, Clean;
    AttachOnBranch(best, detach, attach, k);
    if attach[k] !in bodies {
      VerdictsFlagged(st, SetOf(attach[..k]), VALID);
      VerdictsSame(rules, best, st, Flagged(st, SetOf(attach[..k]), VALID));
    } else {
      ForkFacts(best, detach, attach);
      forall n | n in attach
        ensures n !in best
      {
        ContainsIsBranch(best, n);
      }
      FailedSpares(best, st, attach, k);
      if Truthful(rules, st) {
        FailedTruthful(rules, st, attach, k);
      }
      FailedAtGrows(st, attach, k);
      BranchReflexive(Last(attach));
      GrowsKeys(st, FailedAt(st, attach, k));
      MarkedUnclean(FailedAt(st, attach, k), Last(attach), Last(attach));
    }
  }

  lemma HeaderTruthful(rules: Rules, st: Statuses, n: Node)
    requires n !in st
    ensures Truthful(rules, st) ==> Truthful(rules, st[n := HEADER_STORED])
  {
    hide LedgerOf;
  }

  lemma AcceptedTruthful(rules: Rules, st: Statuses, bodies: set<Node>, best: View, n: Node,
                         st': Statuses, bodies': set<Node>, best': View)
    requires best != [] && best' != [] && Accepted(rules, st, bodies, best, n, st', bodies', best')
    ensures Truthful(rules, st) ==> Truthful(rules, st')
  {
  }

  /** The law of most work survives the arrival of a block that was never stored before. */
  lemma ArrivedKeeps(rules: Rules, st: Statuses, bodies: set<Node>, best: View, n: Node,
                     st': Statuses, bodies': set<Node>, best': View, ever: set<Node>)
    requires best != [] && best' != [] && Accepted(rules, st, bodies, best, n, st', bodies', best')
    requires NoneBetter(st, bodies, Tip(best)) && bodies <= ever && DataClosed(ever)
    requires n !in ever && n.Child? && n.parent in bodies && bodies' <= bodies + {n}
    ensures NoneBetter(st', bodies', Tip(best')) && bodies' <= ever + {n} && DataClosed(ever + {n})
  {
    hide LedgerOf, OnBranch, Clean, TakesOver, NoneBetter, Overtaken, DataClosed, Truthful, MarkedExtends;
    NoneWaits(rules, st, bodies, ever, best, n);
    ClosedMore(ever, n);
  }
}
