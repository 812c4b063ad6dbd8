/** Invalidating and reconsidering blocks by hand. */
module Invalidate {
  import opened BlockNodes
  import opened ChainView
  import opened BlockTree
  import opened Ledger
  import opened ChainSpec
  import opened BlockChain
  import opened Trials

  // -------------------------------------------------------- specification

  /** The blocks of `ns` that were not known to be invalid get an invalid ancestor and lose their
      valid mark; everything else stays. */
  function Doomed(st: Statuses, ns: set<Node>): Statuses {
    map n | n in st :: DoomedFor(st, ns, n)
  }

  function DoomedFor(st: Statuses, ns: set<Node>, n: Node): Status
    requires n in st
  {
    if n in ns && !st[n].KnownInvalid() then st[n].Or(INVALID_ANCESTOR).AndNot(VALID) else st[n]
  }

  /** The strict descendants of `node`. */
  function Descendants(nodes: set<Node>, node: Node): set<Node> {
    set n | n in nodes && OnBranch(node, n) && n != node
  }

  /** The status map after a block was marked as failing validation. */
  function Failed(st: Statuses, node: Node): Statuses {
    Cleared(Flagged(st, {node}, VALIDATE_FAILED), {node}, VALID)
  }

  /** The block itself failed validation, its descendants have an invalid ancestor. */
  function Invalidated(st: Statuses, node: Node): Statuses {
    Doomed(Failed(st, node), Descendants(st.Keys, node))
  }

  lemma DoomedTwice(st: Statuses, a: set<Node>, b: set<Node>)
    ensures Doomed(Doomed(st, a), b) == Doomed(st, a + b)
  {
  }

  lemma DoomedOne(st: Statuses, n: Node)
    requires n in st && !st[n].KnownInvalid()
    ensures Doomed(st, {n}) == Cleared(Flagged(st, {n}, INVALID_ANCESTOR), {n}, VALID)
  {
  }

  lemma DoomedNone(st: Statuses, n: Node)
    ensures Doomed(st, {}) == st
    ensures n in st && st[n].KnownInvalid() ==> Doomed(st, {n}) == st
  {
  }

  /** `Invalidated`, node by node: the block failed validation and is not valid; every descendant that was
      not known to be invalid has an invalid ancestor and is not valid; nothing else changed. */
  lemma InvalidatedMeans(st: Statuses, node: Node, n: Node)
    requires node in st && n in st
    ensures Invalidated(st, node).Keys == st.Keys
    ensures var s := Invalidated(st, node)[n];
            && (n == node ==> s == st[n].(validateFailed := true, valid := false))
            && (n != node && OnBranch(node, n) ==>
                  s == if st[n].validateFailed || st[n].invalidAncestor then st[n]
                       else st[n].(invalidAncestor := true, valid := false))
            && (!OnBranch(node, n) ==> s == st[n])
  {
    BranchReflexive(node);
  }

  /** Marks that only take validity away keep everything else about the index. */
  lemma DoomedKeeps(rules: Rules, root: Node, index: map<Hash, Node>, st: Statuses, bodies: set<Node>, ns: set<Node>)
    requires IndexFor(root, index, st, bodies) && Replayable(rules, st)
    ensures IndexFor(root, index, Doomed(st, ns), bodies) && Replayable(rules, Doomed(st, ns))
    ensures Doomed(st, ns).Keys == st.Keys && InvalidGrows(st, Doomed(st, ns))
  {
    hide IndexFor, LedgerOf;
    IndexSame(root, index, st, Doomed(st, ns), bodies);
  }

  // ------------------------------------------------------------ algorithm

  /** The blocks strictly between `node` and `tip`, and `tip` itself. */
  function Between(nodes: set<Node>, node: Node, tip: Node): set<Node> {
    set n | n in nodes && OnBranch(n, tip) && OnBranch(node, n) && n != node
  }

  lemma BetweenStep(nodes: set<Node>, node: Node, n: Node)
    requires n in nodes && OnBranch(node, n)
    ensures n == node ==> Between(nodes, node, n) == {}
    ensures n != node ==> n.Child? && OnBranch(node, n.parent)
                          && Between(nodes, node, n) == {n} + Between(nodes, node, n.parent)
  {
    forall m | m in Between(nodes, node, n)
      ensures m == n || m in Between(nodes, node, n.parent)
      ensures n != node
    {
      if n == node {
        BranchWork(m, n);
        BranchWork(node, m);
      }
    }
  }

  /** No block of `ns` is known to be invalid. */
  ghost predicate Unmarked(st: Statuses, ns: set<Node>) {
    forall n <- ns :: n in st ==> !st[n].KnownInvalid()
  }

  lemma BetweenHas(st: Statuses, node: Node, tip: Node, n: Node)
    requires n in st && OnBranch(n, tip) && OnBranch(node, n) && n != node
    ensures n in Between(st.Keys, node, tip)
    ensures Unmarked(st, Between(st.Keys, node, tip)) ==> !st[n].KnownInvalid()
    ensures n.Child? && OnBranch(n.parent, tip) && n.parent.Height() < n.Height()
    ensures node.Height() < n.Height()
  {
    BranchStep(n.parent, n);
    BranchTransitive(n.parent, n, tip);
    BranchWork(node, n.parent);
  }

  lemma DoomedAt(st: Statuses, ns: set<Node>, n: Node)
    requires n in st && n !in ns
    ensures n in Doomed(st, ns) && Doomed(st, ns)[n] == st[n]
  {
  }

  /** The blocks of a list that are not known to be invalid, in order. */
  function Kept(st: Statuses, s: seq<Node>): (kept: seq<Node>)
    ensures |kept| <= |s|
  {
    if s == [] then []
    else if s[0] in st && !st[s[0]].KnownInvalid() then [s[0]] + Kept(st, s[1..])
    else Kept(st, s[1..])
  }

  lemma KeptStep(st: Statuses, n: Node, s: seq<Node>)
    ensures Kept(st, [n] + s) == if n in st && !st[n].KnownInvalid() then [n] + Kept(st, s) else Kept(st, s)
  {
    assert ([n] + s)[1..] == s;
  }

  /** `m` is the highest block above `node` on the branch of `tip` that is known to be invalid. */
  ghost predicate HighestMarked(st: Statuses, node: Node, tip: Node, m: Node) {
    && m in Between(st.Keys, node, tip) && m in st && st[m].KnownInvalid()
    && forall n <- Between(st.Keys, node, tip) :: n.Height() > m.Height() ==> n in st && !st[n].KnownInvalid()
  }

  /** Gives one block an invalid ancestor, unless it is known to be invalid already. */
  method MarkOne(chain: BlockChain, n: Node)
    requires chain.Valid() && n in chain.status
    modifies chain`status
    ensures chain.Valid() && chain.status.Keys == old(chain.status).Keys
    ensures chain.status == Doomed(old(chain.status), {n})
  {
    hide LedgerOf, IndexFor, Replayable, IsView, AllStored, Doomed, Flagged, Cleared, InvalidGrows;
    DoomedKeeps(chain.rules, chain.root, chain.index, chain.status, chain.bodies, {n});
    if chain.status[n].KnownInvalid() {
      DoomedNone(chain.status, n);
      return;
    }
    DoomedOne(chain.status, n);
    FlagKeys(chain.status, n);
    chain.SetStatusFlags(n, INVALID_ANCESTOR);
    chain.UnsetStatusFlags(n, VALID);
  }

  /** Walks from a tip down to the invalidated block, marking what is not marked yet; `marked` lists
      what got marked, highest first. */
  method MarkWalk(chain: BlockChain, tip: Node, node: Node) returns (marked: seq<Node>)
    requires chain.Valid() && tip in chain.status && node in chain.status && OnBranch(node, tip)
    modifies chain`status
    ensures chain.Valid()
    ensures chain.status == Doomed(old(chain.status), Between(old(chain.status).Keys, node, tip))
    ensures marked == Kept(old(chain.status), Down(tip, node.Height()))
    ensures forall d <- marked :: OnBranch(d, tip) && d.Child?
  {
    hide LedgerOf, IndexFor, Replayable, IsView, AllStored, OnBranch, Doomed, Between, Flagged, Cleared, InvalidGrows,
      Kept, Down, Node.Height, SkipsOk, Path, AncestorAt, WalkAt;
    var n := tip;
    marked := [];
    ghost var done: set<Node> := {};
    ghost var st := chain.status;
    WalkStart(st, node, tip);
    while n != node
      invariant chain.Valid() && chain.status == Doomed(st, done) && chain.status.Keys == st.Keys && n in chain.status
      invariant WalkAt(st, node, tip, n, done, marked)
      decreases n.Height()
    {
      WalkNext(st, node, tip, n, done, marked);
      if !chain.status[n].KnownInvalid() {
        marked := marked + [n];
      }
      MarkOne(chain, n);
      done := done + {n};
      chain.ParentIndexed(n);
      n := n.parent;
    }
    WalkEnd(st, node, tip, done, marked);
  }

  /** A walk from `tip` that has come to `n`: `done` is behind it, and `marked` lists what it marked. */
  ghost predicate WalkAt(st: Statuses, node: Node, tip: Node, n: Node, done: set<Node>, marked: seq<Node>) {
    && n in st && OnBranch(node, n) && OnBranch(n, tip)
    && done + Between(st.Keys, node, n) == Between(st.Keys, node, tip)
    && (forall d <- done :: d.Height() > n.Height())
    && (forall d <- marked :: OnBranch(d, tip) && d.Child?)
    && marked + Kept(st, Down(n, node.Height())) == Kept(st, Down(tip, node.Height()))
  }

  lemma WalkStart(st: Statuses, node: Node, tip: Node)
    requires tip in st && OnBranch(node, tip)
    ensures WalkAt(st, node, tip, tip, {}, []) && Doomed(st, {}) == st
  {
    hide OnBranch, Between, Kept, Down;
    BranchReflexive(tip);
  }

  lemma WalkNext(st: Statuses, node: Node, tip: Node, n: Node, done: set<Node>, marked: seq<Node>)
    requires WalkAt(st, node, tip, n, done, marked) && n != node
    ensures n in st && n.Child? && n.parent.Height() < n.Height()
    ensures n in Doomed(st, done) && Doomed(st, done)[n] == st[n]
    ensures Doomed(Doomed(st, done), {n}) == Doomed(st, done + {n})
    ensures n.parent in st ==>
              WalkAt(st, node, tip, n.parent, done + {n}, if st[n].KnownInvalid() then marked else marked + [n])
  {
    hide OnBranch, Doomed, Between, Kept, Down, Node.Height;
    BetweenStep(st.Keys, node, n);
    BetweenHas(st, node, tip, n);
    DownStep(n, node.Height());
    KeptStep(st, n, Down(n.parent, node.Height()));
    DoomedAt(st, done, n);
    DoomedTwice(st, done, {n});
    var rest := Kept(st, Down(n.parent, node.Height()));
    assert marked + ([n] + rest) == marked + [n] + rest;
  }

  lemma WalkEnd(st: Statuses, node: Node, tip: Node, done: set<Node>, marked: seq<Node>)
    requires WalkAt(st, node, tip, node, done, marked)
    ensures done == Between(st.Keys, node, tip)
    ensures forall d <- marked :: OnBranch(d, tip) && d.Child?
    ensures marked == Kept(st, Down(tip, node.Height()))
  {
    hide OnBranch, Between, Down;
    BetweenStep(st.Keys, node, node);
    DownStep(node, node.Height());
  }

  lemma FlagKeys(st: Statuses, n: Node)
    requires n in st
    ensures n in Flagged(st, {n}, INVALID_ANCESTOR)
  {
  }

  /** The blocks on the walks from the tips of a list that descend from `node`. */
  function Reached(nodes: set<Node>, node: Node, tips: seq<Node>): set<Node> {
    set n | n in nodes && OnBranch(node, n) && n != node && exists t <- tips :: OnBranch(n, t)
  }

  lemma ReachedStep(nodes: set<Node>, node: Node, tips: seq<Node>, i: nat)
    requires i < |tips|
    ensures Reached(nodes, node, tips[..i + 1]) ==
            if OnBranch(node, tips[i]) && tips[i] != node
            then Reached(nodes, node, tips[..i]) + Between(nodes, node, tips[i])
            else Reached(nodes, node, tips[..i])
  {
    assert tips[..i + 1] == tips[..i] + [tips[i]];
    forall n | OnBranch(node, n) && OnBranch(n, tips[i])
      ensures OnBranch(node, tips[i])
    {
      BranchTransitive(node, n, tips[i]);
    }
    forall n | OnBranch(n, node) && OnBranch(node, n)
      ensures n == node
    {
      BranchWork(n, node);
      BranchWork(node, n);
    }
  }

  lemma ReachedNone(nodes: set<Node>, node: Node, tips: seq<Node>)
    ensures Reached(nodes, node, tips[..0]) == {}
  {
  }

  /** The walks from the inactive tips cover every descendant of a block off the best chain. */
  lemma ReachedAll(nodes: set<Node>, root: Node, best: View, node: Node, tips: seq<Node>)
    requires Tree(nodes, root) && best != [] && IsView(best) && node in nodes && !Contains(best, node)
    requires forall t :: t in tips <==> InactiveTip(nodes, best, t)
    ensures Reached(nodes, node, tips) == Descendants(nodes, node)
  {
    forall n | n in Descendants(nodes, node)
      ensures n in Reached(nodes, node, tips)
    {
      ContainsIsBranch(best, n);
      ContainsIsBranch(best, node);
      if Contains(best, n) {
        BranchTransitive(node, n, Tip(best));
      }
      var t := TipAbove(nodes, root, best, n);
      assert t in tips && OnBranch(n, t);
    }
  }

  /** Marks every descendant of a block off the best chain. */
  method MarkDescendants(chain: BlockChain, node: Node)
    requires chain.Valid() && node in chain.status && !Contains(chain.bestChain, node)
    modifies chain`status
    ensures chain.Valid()
    ensures chain.status == Doomed(old(chain.status), Descendants(old(chain.status).Keys, node))
  {
    hide LedgerOf, IndexFor, Replayable, IsView, AllStored, OnBranch, Doomed, Between, InvalidGrows, Reached,
      Descendants, InactiveTip, SkipsOk, Contains;
    ghost var nodes := chain.status.Keys;
    TreeOf(chain.root, chain.index, chain.status, chain.bodies);
    var tips := InactiveTips(chain.status.Keys, chain.root, chain.bestChain);
    ReachedAll(nodes, chain.root, chain.bestChain, node, tips);
    TipsIndexed(nodes, chain.bestChain, tips);
    ReachedNone(nodes, node, tips);
    DoomedNone(chain.status, node);
    var i := 0;
    while i < |tips|
      invariant 0 <= i <= |tips| && chain.Valid() && chain.status.Keys == nodes
      invariant chain.status == Doomed(old(chain.status), Reached(nodes, node, tips[..i]))
    {
      chain.NodeSkips(tips[i]);
      var below := IsAncestor(tips[i], node);
      ReachedStep(nodes, node, tips, i);
      if below {
        DoomedTwice(old(chain.status), Reached(nodes, node, tips[..i]), Between(nodes, node, tips[i]));
        var _ := MarkWalk(chain, tips[i], node);
        DoomedKeys(old(chain.status), Reached(nodes, node, tips[..i + 1]));
      }
      i := i + 1;
    }
    assert tips[..i] == tips;
  }

  lemma DoomedKeys(st: Statuses, ns: set<Node>)
    ensures Doomed(st, ns).Keys == st.Keys
  {
  }

  lemma TipsIndexed(nodes: set<Node>, best: View, tips: seq<Node>)
    requires forall t :: t in tips <==> InactiveTip(nodes, best, t)
    ensures forall t <- tips :: t in nodes && !Contains(best, t)
  {
  }

  lemma FailedKeeps(rules: Rules, root: Node, index: map<Hash, Node>, st: Statuses, bodies: set<Node>, node: Node)
    requires IndexFor(root, index, st, bodies) && Replayable(rules, st) && node in st
    ensures IndexFor(root, index, Failed(st, node), bodies) && Replayable(rules, Failed(st, node))
    ensures node in Failed(st, node) && node in Flagged(st, {node}, VALIDATE_FAILED)
    ensures Failed(st, node).Keys == st.Keys && InvalidGrows(st, Failed(st, node))
    ensures Failed(st, node)[node].KnownInvalid()
  {
    hide IndexFor, LedgerOf;
    IndexSame(root, index, st, Failed(st, node), bodies);
  }

  lemma FailedElsewhere(st: Statuses, node: Node, tip: Node, m: Node)
    ensures var above := Between(st.Keys, node, tip);
            Unmarked(Failed(st, node), above) <==> Unmarked(st, above)
    ensures HighestMarked(Failed(st, node), node, tip, m) ==> HighestMarked(st, node, tip, m)
    ensures Failed(st, node).Keys == st.Keys
  {
    hide OnBranch, Node.Height;
    forall n | n in Between(st.Keys, node, tip)
      ensures n in st && Failed(st, node)[n] == st[n]
    {
    }
  }

  method FailNode(chain: BlockChain, node: Node)
    requires chain.Valid() && node in chain.status
    modifies chain`status
    ensures chain.Valid() && chain.status == Failed(old(chain.status), node)
    ensures chain.status.Keys == old(chain.status).Keys
    ensures InvalidGrows(old(chain.status), chain.status) && chain.status[node].KnownInvalid()
  {
    hide LedgerOf, IndexFor, Replayable, IsView, AllStored, Flagged, Cleared, InvalidGrows;
    FailedKeeps(chain.rules, chain.root, chain.index, chain.status, chain.bodies, node);
    chain.SetStatusFlags(node, VALIDATE_FAILED);
    chain.UnsetStatusFlags(node, VALID);
  }

  lemma MarkedIsDetach(best: View, marked: seq<Node>, node: Node)
    requires best != [] && IsView(best) && Contains(best, node) && node.Child?
    requires forall d <- marked :: OnBranch(d, Tip(best)) && d.Child?
    ensures ReorgLists(best, marked + [node], [])
    ensures Contiguous(marked + [node], Tip(best)) <==> marked == Down(Tip(best), node.Height())
  {
    hide IsView, OnBranch, Down, Contains;
    ContainsIsBranch(best, node);
    forall d | d in marked + [node]
      ensures d.Child? && d in best
    {
      ContainsIsBranch(best, d);
    }
    DownExtend(Tip(best), node);
    var above := Down(Tip(best), node.Height());
    assert (marked + [node])[..|marked|] == marked && (above + [node])[..|above|] == above;
    assert Last(marked + [node]) == node;
  }

  lemma ParentKnown(nodes: set<Node>, root: Node, node: Node, n: Node)
    requires Tree(nodes, root) && n in nodes && OnBranch(node, n) && n != node
    ensures n.Child? && n.parent in nodes && OnBranch(node, n.parent)
    ensures n.parent.Height() < n.Height() && node.Height() < n.Height()
  {
    BranchWork(node, n.parent);
  }

  /** The list of a walk is the whole branch exactly when nothing on it was known to be invalid. */
  lemma {:induction false} KeptAll(st: Statuses, root: Node, node: Node, tip: Node)
    requires Tree(st.Keys, root) && tip in st && OnBranch(node, tip)
    ensures var s := Down(tip, node.Height());
            Kept(st, s) == s <==> Unmarked(st, Between(st.Keys, node, tip))
    ensures forall n <- Kept(st, Down(tip, node.Height())) :: n.Height() <= tip.Height()
    decreases tip
  {
    hide OnBranch, Between, Down, Kept, Tree, Node.Height;
    BetweenStep(st.Keys, node, tip);
    DownStep(tip, node.Height());
    if tip == node {
      assert Kept(st, []) == [];
    } else {
      ParentKnown(st.Keys, root, node, tip);
      KeptAll(st, root, node, tip.parent);
      KeptStep(st, tip, Down(tip.parent, node.Height()));
      var rest := Down(tip.parent, node.Height());
      assert ([tip] + rest)[1..] == rest && ([tip] + Kept(st, rest))[1..] == Kept(st, rest);
    }
  }

  /** Detaching what a walk marked stops at the highest block it left out. */
  lemma {:induction false} StopsAtMarked(st: Statuses, root: Node, node: Node, top: Node, k: nat, tip: Node)
    requires Tree(st.Keys, root) && top in st && OnBranch(node, top)
    requires Interrupted(top, Kept(st, Down(top, node.Height())) + [node], k, tip)
    ensures HighestMarked(st, node, top, tip)
    decreases top
  {
    hide OnBranch, Between, Down, Kept, Tree, Node.Height, HighestMarked;
    BetweenStep(st.Keys, node, top);
    DownStep(top, node.Height());
    DownStep(top, tip.Height());
    InterruptedTop(top, tip);
    BranchStep(tip, top);
    var list := Kept(st, Down(top, node.Height())) + [node];
    if top != node {
      ParentKnown(st.Keys, root, node, top);
      var rest := Down(top.parent, node.Height());
      KeptStep(st, top, rest);
      KeptAll(st, root, node, top.parent);
      assert k > 0 ==> list[..k][0] == list[0];
      if st[top].KnownInvalid() {
        assert list[0] != top;
        TopMarked(st, node, top);
      } else {
        var list' := Kept(st, rest) + [node];
        assert list == [top] + list';
        assert list[..k][1..] == list'[..k - 1];
        StopsAtMarked(st, root, node, top.parent, k - 1, tip);
        MarkedLower(st, node, top, tip);
      }
    }
  }

  lemma InterruptedTop(top: Node, tip: Node)
    requires OnBranch(tip, top)
    ensures tip.Height() <= top.Height() && (tip.Height() == top.Height() ==> tip == top)
  {
    BranchWork(tip, top);
  }

  lemma TopMarked(st: Statuses, node: Node, top: Node)
    requires top in st && OnBranch(node, top) && top != node && st[top].KnownInvalid()
    ensures HighestMarked(st, node, top, top)
  {
    BranchReflexive(top);
    forall n | n in Between(st.Keys, node, top)
      ensures n.Height() <= top.Height()
    {
      BranchWork(n, top);
    }
  }

  lemma MarkedLower(st: Statuses, node: Node, top: Node, m: Node)
    requires top in st && OnBranch(node, top) && top != node && !st[top].KnownInvalid()
    requires HighestMarked(st, node, top.parent, m)
    ensures HighestMarked(st, node, top, m)
  {
    hide OnBranch, Between, Node.Height;
    BetweenStep(st.Keys, node, top);
  }

  /** Marks the best chain above `node` and unwinds it to the parent of `node`, which works exactly
      when no block above `node` was known to be invalid before.  Otherwise the unwinding stops at
      the highest such block. */
  method Unwind(chain: BlockChain, node: Node) returns (err: Option<ChainError>)
    requires chain.Valid() && node in chain.status && Contains(chain.bestChain, node) && node.Child?
    modifies chain`bestChain, chain`utxo, chain`journal, chain`best, chain`status, chain`bodies
    ensures chain.Valid() && chain.bodies == old(chain.bodies)
    ensures chain.status == Doomed(old(chain.status), Between(old(chain.status).Keys, node, old(Tip(chain.bestChain))))
    ensures err.None? <==> Unmarked(old(chain.status), Between(old(chain.status).Keys, node, old(Tip(chain.bestChain))))
    ensures err.None? ==> Tip(chain.bestChain) == node.parent
    ensures err.Some? ==>
              && err.value == AssertError
              && HighestMarked(old(chain.status), node, old(Tip(chain.bestChain)), Tip(chain.bestChain))
  {
    hide LedgerOf, IndexFor, Replayable, IsView, AllStored, OnBranch, Doomed, Between, InvalidGrows, Unmarked, Down,
      Flagged, Cleared, SetOf, Contains, Contiguous, ReorgLists, Kept, HighestMarked, Interrupted;
    ghost var st := chain.status;
    ghost var tip := Tip(chain.bestChain);
    ContainsIsBranch(chain.bestChain, node);
    var marked := MarkWalk(chain, Tip(chain.bestChain), node);
    MarkedIsDetach(chain.bestChain, marked, node);
    TreeOf(chain.root, chain.index, st, chain.bodies);
    KeptAll(st, chain.root, node, tip);
    ghost var k;
    err, k := chain.ReorganizeChain(marked + [node], []);
    if err.Some? {
      StopsAtMarked(st, chain.root, node, tip, k, Tip(chain.bestChain));
    }
  }

  /** A tip that may become the tip of the best chain. */
  ghost predicate Candidate(st: Statuses, best: View, t: Node)
    requires best != []
  {
    t in st && !st[t].KnownInvalid() && (t == Tip(best) || InactiveTip(st.Keys, best, t))
  }

  /** The tip of the best chain is not known to be invalid and has more work than every other tip
      that is not. */
  ghost predicate Stays(st: Statuses, best: View)
    requires best != []
  {
    && Candidate(st, best, Tip(best))
    && forall t | Candidate(st, best, t) && t != Tip(best) :: t.WorkSum() < Tip(best).WorkSum()
  }

  /** A tip of most work among those not known to be invalid.  The tip of the best chain comes last in
      the list, so that it loses every tie. */
  method BestValidTip(chain: BlockChain) returns (bestTip: Option<Node>)
    requires chain.Valid()
    ensures bestTip.None? ==> forall t :: !Candidate(chain.status, chain.bestChain, t)
    ensures bestTip.Some? ==>
              && Candidate(chain.status, chain.bestChain, bestTip.value)
              && forall t | Candidate(chain.status, chain.bestChain, t) :: t.WorkSum() <= bestTip.value.WorkSum()
    ensures bestTip == Some(Tip(chain.bestChain)) <==> Stays(chain.status, chain.bestChain)
  {
    hide LedgerOf, IndexFor, Replayable, IsView, AllStored, InactiveTip, Contains, Node.WorkSum;
    ghost var tip := Tip(chain.bestChain);
    TipContained(chain.bestChain);
    TreeOf(chain.root, chain.index, chain.status, chain.bodies);
    var tips := InactiveTips(chain.status.Keys, chain.root, chain.bestChain);
    TipsIndexed(chain.status.Keys, chain.bestChain, tips);
    bestTip := PickTip(chain.status, tips + [Tip(chain.bestChain)]);
    ghost var j :| FirstBest(chain.status, tips + [Tip(chain.bestChain)], bestTip, j);
    LastLoses(chain.status, chain.bestChain, tips, bestTip, j);
  }

  /** The first of the tips of most work among those not known to be invalid. */
  method PickTip(st: Statuses, tips: seq<Node>) returns (bestTip: Option<Node>)
    requires forall t <- tips :: t in st
    ensures exists j: nat :: FirstBest(st, tips, bestTip, j)
  {
    hide Node.WorkSum;
    bestTip := None;
    ghost var j := 0;
    for i := 0 to |tips|
      invariant FirstBest(st, tips[..i], bestTip, j)
    {
      assert tips[..i + 1] == tips[..i] + [tips[i]];
      if st[tips[i]].KnownInvalid() {
        continue;
      }
      if bestTip.None? || tips[i].WorkSum() > bestTip.value.WorkSum() {
        bestTip, j := Some(tips[i]), i;
      }
    }
    assert tips[..|tips|] == tips;
  }

  /** `bestTip` is at place `j`, and the first of the best; or there is none. */
  ghost predicate FirstBest(st: Statuses, tips: seq<Node>, bestTip: Option<Node>, j: nat)
    requires forall t <- tips :: t in st
  {
    if bestTip.None? then forall i :: 0 <= i < |tips| ==> st[tips[i]].KnownInvalid()
    else
      && j < |tips| && tips[j] == bestTip.value && !st[tips[j]].KnownInvalid()
      && (forall i :: 0 <= i < |tips| && !st[tips[i]].KnownInvalid() ==> tips[i].WorkSum() <= tips[j].WorkSum())
      && (forall i :: 0 <= i < j && !st[tips[i]].KnownInvalid() ==> tips[i].WorkSum() < tips[j].WorkSum())
  }

  /** The tip of the best chain, which comes last, is chosen exactly when all others have less work. */
  lemma LastLoses(st: Statuses, best: View, tips: seq<Node>, bestTip: Option<Node>, j: nat)
    requires best != [] && Tip(best) in st && Contains(best, Tip(best))
    requires (forall t :: t in tips <==> InactiveTip(st.Keys, best, t)) && (forall t <- tips :: t in st)
    requires FirstBest(st, tips + [Tip(best)], bestTip, j)
    ensures bestTip.None? ==> forall t :: !Candidate(st, best, t)
    ensures bestTip.Some? ==>
              && Candidate(st, best, bestTip.value)
              && forall t | Candidate(st, best, t) :: t.WorkSum() <= bestTip.value.WorkSum()
    ensures bestTip == Some(Tip(best)) <==> Stays(st, best)
  {
    hide Contains, Node.WorkSum;
    var all := tips + [Tip(best)];
    assert Tip(best) == all[|tips|] && Tip(best) !in tips;
    forall t | Candidate(st, best, t)
      ensures exists i :: 0 <= i < |all| && all[i] == t && (t != Tip(best) ==> i < |tips|)
    {
      if t != Tip(best) {
        var i :| 0 <= i < |tips| && tips[i] == t;
        assert all[i] == t;
      }
    }
    if bestTip.Some? && j < |tips| {
      assert tips[j] in tips;
    }
  }

  lemma TipContained(v: View)
    requires v != [] && IsView(v)
    ensures Contains(v, Tip(v))
  {
  }

  lemma CandidateOff(st: Statuses, best: View, t: Node)
    requires best != [] && Candidate(st, best, t) && t != Tip(best)
    ensures !Contains(best, t) && t in st
  {
  }

  /** A reorganization that attaches only blocks not known to be invalid leaves out a block that is
      known to be invalid and whose parent was the tip. */
  lemma StaysOut(st: Statuses, best: View, detach: seq<Node>, attach: seq<Node>, best': View, node: Node)
    requires best != [] && IsView(best) && node.Child? && Tip(best) == node.parent
    requires attach == [] || ReorgLists(best, detach, attach)
    requires node in st && st[node].KnownInvalid() && forall n <- attach :: n in st && !st[n].KnownInvalid()
    requires best' != [] && IsView(best') && Tip(best') == if attach == [] then Tip(best) else Last(attach)
    ensures !Contains(best', node)
  {
    ContainsIsBranch(best', node);
    if attach == [] {
      if OnBranch(node, node.parent) {
        BranchWork(node, node.parent);
      }
    } else if OnBranch(node, Last(attach)) {
      var h := attach[0].parent.Height();
      ForkFacts(best, detach, attach);
      BranchIsAncestors(node, Last(attach));
      UpAt(Last(attach), h, node.Height() - h - 1);
    }
  }

  /** What invalidating a block of the best chain comes to.  The block and the best chain above it
      are known to be invalid, and nothing stops being so.  When a block above was known to be
      invalid already, it fails, and the best chain is left unwound to the highest such block.
      Otherwise it is first unwound to the parent of the block, and then `next`, a tip of most work
      among those not known to be invalid, takes over. */
  ghost predicate ActiveOutcome(rules: Rules, st: Statuses, bodies: set<Node>, best: View, node: Node,
                                err: Option<ChainError>, next: Option<Node>, st': Statuses, best': View)
    requires best != [] && best' != [] && node.Child?
  {
    var above := Between(st.Keys, node, Tip(best));
    var mid := Doomed(Failed(st, node), above);
    && InvalidGrows(mid, st')
    && (err.None? ==> Unmarked(st, above) && !Contains(best', node))
    && (Unmarked(st, above) ==> TookOver(rules, mid, bodies, node.parent, err, next, st', best'))
    && (!Unmarked(st, above) ==>
          && err == Some(AssertError) && next.None? && st' == mid
          && HighestMarked(st, node, Tip(best), Tip(best')) && best' == Path(Tip(best')))
  }

  /** From the branch of `parent`, the best candidate takes over exactly when its branch has no block
      known to be invalid, is stored and can be replayed.  The chain stays at `parent` exactly when
      every other candidate has less work. */
  ghost predicate TookOver(rules: Rules, mid: Statuses, bodies: set<Node>, parent: Node, err: Option<ChainError>,
                           next: Option<Node>, st': Statuses, best': View)
    requires best' != []
  {
    if next.None? then
      && err == Some(NoTip) && best' == Path(parent) && st' == mid
      && forall t :: !Candidate(mid, Path(parent), t)
    else
      && Candidate(mid, Path(parent), next.value)
      && (forall t | Candidate(mid, Path(parent), t) :: t.WorkSum() <= next.value.WorkSum())
      && (next.value == parent <==> Stays(mid, Path(parent)))
      && if next.value == parent then err.None? && best' == Path(parent) && st' == mid
         else
           && Tried(rules, mid, bodies, Path(parent), next.value, st', best')
           && TrialError(rules, mid, bodies, Path(parent), next.value, err)
  }

  /** The marks that unwinding leaves: those that were there, `node`, and the best chain above it. */
  lemma UnwoundMarks(st: Statuses, node: Node, tip: Node, n: Node)
    requires n in st && node in st
    ensures var mid := Doomed(Failed(st, node), Between(st.Keys, node, tip));
            && mid.Keys == st.Keys
            && (mid[n].KnownInvalid() <==>
                  st[n].KnownInvalid() || n == node || (OnBranch(node, n) && OnBranch(n, tip)))
  {
    hide OnBranch;
    BranchReflexive(node);
  }

  /** The status map after the unwinding, node by node. */
  lemma UnwoundMeans(st: Statuses, node: Node, tip: Node, n: Node)
    requires n in st && node in st
    ensures var mid := Doomed(Failed(st, node), Between(st.Keys, node, tip));
            && n in mid
            && (n == node ==> mid[n] == st[n].(validateFailed := true, valid := false))
            && (n != node && OnBranch(node, n) && OnBranch(n, tip) ==>
                  mid[n] == if st[n].validateFailed || st[n].invalidAncestor then st[n]
                            else st[n].(invalidAncestor := true, valid := false))
            && (n != node && !(OnBranch(node, n) && OnBranch(n, tip)) ==> mid[n] == st[n])
  {
    hide OnBranch;
  }

  /** The tips to choose from after the unwinding, in terms of the marks before: the parent of the
      block and the inactive tips, as far as they were not known to be invalid. */
  lemma CandidatesAre(st: Statuses, root: Node, best: View, node: Node, t: Node)
    requires Tree(st.Keys, root) && best != [] && IsView(best) && Tip(best) in st
    requires Contains(best, node) && node.Child?
    ensures var mid := Doomed(Failed(st, node), Between(st.Keys, node, Tip(best)));
            && Path(node.parent) != [] && Tip(Path(node.parent)) == node.parent && node.parent in st
            && (Candidate(mid, Path(node.parent), t) <==>
                  t in st && !st[t].KnownInvalid() && (t == node.parent || InactiveTip(st.Keys, best, t)))
  {
    hide OnBranch, IsView, Contains, Doomed, Failed, Between, Tree, Path, InactiveTip, Node.Height;
    var p := node.parent;
    ContainsIsBranch(best, node);
    BranchStep(p, node);
    BranchTransitive(p, node, Tip(best));
    TreeBranch(st.Keys, root, Tip(best), node);
    TreeBranch(st.Keys, root, Tip(best), p);
    PathView(p);
    ParentBelow(node);
    DoomedKeys(Failed(st, node), Between(st.Keys, node, Tip(best)));
    FailedElsewhere(st, node, Tip(best), node);
    if t in st {
      TipsMove(st.Keys, best, node, t);
      UnwoundMarks(st, node, Tip(best), t);
    }
  }

  /** Invalidation finds no tip to switch to exactly when the parent of the block and all inactive
      tips were known to be invalid before. */
  lemma NoTipExactly(st: Statuses, root: Node, best: View, node: Node)
    requires Tree(st.Keys, root) && best != [] && IsView(best) && Tip(best) in st
    requires Contains(best, node) && node.Child?
    ensures var mid := Doomed(Failed(st, node), Between(st.Keys, node, Tip(best)));
            && Path(node.parent) != [] && node.parent in st
            && ((forall t :: !Candidate(mid, Path(node.parent), t)) <==>
                  st[node.parent].KnownInvalid() && forall t | InactiveTip(st.Keys, best, t) :: st[t].KnownInvalid())
  {
    hide IsView, Contains, Doomed, Failed, Between, Tree, Path, Candidate;
    forall t {
      CandidatesAre(st, root, best, node, t);
    }
  }

  /** The chain stays at the parent of the block exactly when the parent was not known to be invalid and
      has more work than every inactive tip that was not: of two equal ones the other is chosen. */
  lemma StaysExactly(st: Statuses, root: Node, best: View, node: Node)
    requires Tree(st.Keys, root) && best != [] && IsView(best) && Tip(best) in st
    requires Contains(best, node) && node.Child?
    ensures var mid := Doomed(Failed(st, node), Between(st.Keys, node, Tip(best)));
            && Path(node.parent) != [] && node.parent in st
            && (Stays(mid, Path(node.parent)) <==>
                  && !st[node.parent].KnownInvalid()
                  && forall t | InactiveTip(st.Keys, best, t) && !st[t].KnownInvalid() ::
                       t.WorkSum() < node.parent.WorkSum())
  {
    hide IsView, Doomed, Failed, Between, Tree, Path, Candidate, Node.WorkSum, Node.Height;
    forall t {
      CandidatesAre(st, root, best, node, t);
    }
    ParentActive(best, node);
  }

  lemma ParentActive(best: View, node: Node)
    requires best != [] && IsView(best) && Contains(best, node) && node.Child?
    ensures Contains(best, node.parent)
  {
    hide IsView, OnBranch, Contains;
    ContainsIsBranch(best, node);
    ContainsIsBranch(best, node.parent);
    BranchStep(node.parent, node);
    BranchTransitive(node.parent, node, Tip(best));
  }

  lemma ParentBelow(node: Node)
    requires node.Child?
    ensures node.parent != node && !OnBranch(node, node.parent)
  {
    if OnBranch(node, node.parent) {
      BranchWork(node, node.parent);
    }
  }

  lemma PathView(n: Node)
    ensures Path(n) != [] && IsView(Path(n)) && Tip(Path(n)) == n
  {
  }

  /** The inactive tips once the best chain ends below `node`: those there were, and what it left. */
  lemma TipsMove(nodes: set<Node>, best: View, node: Node, t: Node)
    requires best != [] && IsView(best) && OnBranch(node, Tip(best)) && node.Child?
    requires Path(node.parent) != [] && IsView(Path(node.parent)) && Tip(Path(node.parent)) == node.parent
    ensures InactiveTip(nodes, best, t) ==> InactiveTip(nodes, Path(node.parent), t)
    ensures InactiveTip(nodes, Path(node.parent), t) ==>
              InactiveTip(nodes, best, t) || (OnBranch(node, t) && OnBranch(t, Tip(best)))
    ensures InactiveTip(nodes, best, t) ==> t != node && !OnBranch(t, Tip(best))
  {
    hide OnBranch, IsView, Contains, Path, Node.Height;
    ContainsIsBranch(best, t);
    ContainsIsBranch(Path(node.parent), t);
    BranchStep(node.parent, node);
    BranchTransitive(node.parent, node, Tip(best));
    if OnBranch(t, node.parent) {
      BranchTransitive(t, node.parent, Tip(best));
    }
    if OnBranch(t, Tip(best)) {
      if t.Height() <= node.Height() {
        BranchLinear(t, node, Tip(best));
        BranchStep(t, node);
        BranchReflexive(node);
      } else {
        BranchLinear(node, t, Tip(best));
      }
    }
  }

  /** Makes the best of the tips that are not known to be invalid the tip of the best chain. */
  method SwitchToBest(chain: BlockChain, ghost node: Node) returns (err: Option<ChainError>, ghost next: Option<Node>)
    requires chain.Valid() && node in chain.status && chain.status[node].KnownInvalid()
    requires node.Child? && node.parent == Tip(chain.bestChain)
    modifies chain`bestChain, chain`utxo, chain`journal, chain`best, chain`status, chain`bodies
    ensures chain.Valid() && InvalidGrows(old(chain.status), chain.status)
    ensures chain.bodies <= old(chain.bodies) && (chain.witnessBuffer <= 0 ==> chain.bodies == old(chain.bodies))
    ensures err.None? ==> !Contains(chain.bestChain, node)
    ensures TookOver(chain.rules, old(chain.status), old(chain.bodies), node.parent, err, next, chain.status,
                     chain.bestChain)
  {
    hide LedgerOf, IndexFor, Replayable, IsView, AllStored, InvalidGrows, Contains, Flagged, Cleared, SetOf, Path,
      Clean, Candidate, ReorgLists, Up, OnBranch, FailedAt, Attachable, Passes, ToAttach, Judged, StopsAt, Stays,
      Node.Height, Node.WorkSum;
    ghost var st, was := chain.status, chain.bestChain;
    ViewIsPath(was);
    GrowsSame(st);
    err := None;
    var best := BestValidTip(chain);
    next := best;
    if best.None? {
      return Some(NoTip), next;
    }
    if best.value == Tip(chain.bestChain) {
      StaysOut(st, was, [], [], was, node);
      return;
    }
    CandidateOff(st, was, best.value);
    var detach, attach;
    ghost var bad, k;
    detach, attach, bad := chain.GetReorganizeNodes(best.value);
    ghost var mid := chain.status;
    GrowsKeys(st, mid);
    EmptyLists(chain.bestChain);
    err, k := chain.ReorganizeChain(detach, attach);
    GrowsTransitive(st, mid, chain.status);
    if attach == [] {
      NotAttachable(st, was, best.value, bad);
      UnattachableJudged(chain.rules, st, chain.bodies, was, best.value, bad);
      StaysOut(st, was, [], [], chain.bestChain, node);
    } else {
      AttachableIs(st, was, best.value, attach);
      if err.None? {
        StaysOut(st, was, detach, attach, chain.bestChain, node);
        SwitchedPasses(chain.rules, old(chain.bodies), was, best.value, chain.bestChain, chain.bodies);
        PassedJudged(chain.rules, st, old(chain.bodies), was, best.value, SetOf(attach),
                     old(chain.bodies) - chain.bodies);
      } else {
        StoppedJudged(chain.rules, st, chain.bodies, was, detach, attach, k, err);
      }
    }
  }

  lemma ViewIsPath(v: View)
    requires v != [] && IsView(v)
    ensures v == Path(Tip(v))
  {
  }

  /** Invalidates a block of the best chain. */
  method InvalidateActive(chain: BlockChain, node: Node) returns (err: Option<ChainError>, ghost next: Option<Node>)
    requires chain.Valid() && node in chain.status && Contains(chain.bestChain, node) && node.Child?
    modifies chain`bestChain, chain`utxo, chain`journal, chain`best, chain`status, chain`bodies
    ensures chain.Valid()
    ensures chain.bodies <= old(chain.bodies) && (chain.witnessBuffer <= 0 ==> chain.bodies == old(chain.bodies))
    ensures ActiveOutcome(chain.rules, old(chain.status), old(chain.bodies), old(chain.bestChain), node, err, next,
                          chain.status, chain.bestChain)
  {
    hide LedgerOf, IndexFor, Replayable, IsView, AllStored, InvalidGrows, Contains, Flagged, Cleared, Path, Failed,
      Candidate, OnBranch, Doomed, Between, Unmarked, TookOver, HighestMarked;
    next := None;
    ghost var st, top := chain.status, Tip(chain.bestChain);
    BetweenNot(st.Keys, node, top);
    FailNode(chain, node);
    ghost var failed := chain.status;
    err := Unwind(chain, node);
    FailedElsewhere(st, node, top, Tip(chain.bestChain));
    ghost var mid := chain.status;
    DoomedGrows(failed, Between(st.Keys, node, top));
    GrowsSame(mid);
    if err.Some? {
      ViewIsPath(chain.bestChain);
      return;
    }
    BadStays(failed, mid, node);
    err, next := SwitchToBest(chain, node);
  }

  lemma BetweenNot(nodes: set<Node>, node: Node, tip: Node)
    ensures node !in Between(nodes, node, tip)
  {
  }

  lemma DoomedGrows(st: Statuses, ns: set<Node>)
    ensures InvalidGrows(st, Doomed(st, ns))
  {
  }

  /** Marks a block as failing validation, and what is built on it as having an invalid ancestor. */
  method InvalidateBlock(chain: BlockChain, hash: Hash) returns (err: Option<ChainError>, ghost next: Option<Node>)
    requires chain.Valid()
    modifies chain`bestChain, chain`utxo, chain`journal, chain`best, chain`status, chain`bodies
    ensures chain.Valid()
    ensures chain.bodies <= old(chain.bodies) && (chain.witnessBuffer <= 0 ==> chain.bodies == old(chain.bodies))
    ensures hash !in chain.index ==> err == Some(UnknownBlock) && unchanged(chain)
    ensures hash in chain.index ==>
              var node := chain.index[hash];
              && node in old(chain.status)
              && if node.Height() == 0 then err == Some(GenesisBlock) && unchanged(chain)
                 else if old(chain.status)[node].KnownInvalid() then err.None? && unchanged(chain)
                 else if !Contains(old(chain.bestChain), node) then
                   && err.None? && chain.status == Invalidated(old(chain.status), node)
                   && unchanged(chain`bestChain, chain`utxo, chain`journal, chain`best, chain`bodies)
                 else if 0 < chain.witnessBuffer <= old(Tip(chain.bestChain)).Height() - (node.Height() - 1) then
                   err == Some(WitnessExcised) && unchanged(chain)
                 else
                   ActiveOutcome(chain.rules, old(chain.status), old(chain.bodies), old(chain.bestChain), node, err,
                                 next, chain.status, chain.bestChain)
  {
    hide LedgerOf, IndexFor, Replayable, IsView, AllStored, InvalidGrows, Contains, Flagged, Cleared, Path,
      OnBranch, Doomed, Between, Unmarked, ActiveOutcome, Descendants, Failed;
    next := None;
    if hash !in chain.index {
      return Some(UnknownBlock), next;
    }
    var node := chain.index[hash];
    chain.PrevIndexed(hash);
    if node.Height() == 0 {
      return Some(GenesisBlock), next;
    }
    if chain.status[node].KnownInvalid() {
      return None, next;
    }
    if chain.witnessBuffer > 0 && Contains(chain.bestChain, node) {
      var newTipHeight := node.Height() - 1;
      if Tip(chain.bestChain).Height() - newTipHeight >= chain.witnessBuffer {
        return Some(WitnessExcised), next;
      }
    }
    if !Contains(chain.bestChain, node) {
      FailNode(chain, node);
      MarkDescendants(chain, node);
      return None, next;
    }
    err, next := InvalidateActive(chain, node);
  }
}
