/** When the law of most work holds again after manual invalidation and reconsideration.  Both look
    at tips of the tree only, and at whole branches up to them. */
module WorkLaw {
  import opened BlockNodes
  import opened ChainView
  import opened BlockTree
  import opened Ledger
  import opened ChainSpec
  import opened Selection
  import opened BlockChain
  import opened Trials
  import opened Invalidate
  import opened Reconsider

  /** A stored block whose branch is stored and free of marks. */
  ghost predicate Complete(st: Statuses, bodies: set<Node>, n: Node) {
    n in bodies && Clean(st, n) && BranchStored(bodies, n)
  }

  lemma LawIs(st: Statuses, bodies: set<Node>, tip: Node)
    ensures NoneBetter(st, bodies, tip) <==> forall n | Complete(st, bodies, n) :: n.WorkSum() <= tip.WorkSum()
  {
    hide Clean, BranchStored, Node.WorkSum;
    if forall n | Complete(st, bodies, n) :: n.WorkSum() <= tip.WorkSum() {
      forall n | n in bodies && Clean(st, n) && BranchStored(bodies, n)
        ensures n.WorkSum() <= tip.WorkSum()
      {
        assert Complete(st, bodies, n);
      }
    }
  }

  lemma FewerBodies(st: Statuses, bodies: set<Node>, bodies': set<Node>, tip: Node)
    requires bodies' <= bodies
    ensures NoneBetter(st, bodies, tip) ==> NoneBetter(st, bodies', tip)
  {
    hide Clean, OnBranch, Node.WorkSum;
  }

  // --------------------------------------------------------- invalidation

  /** Invalidating a block off the best chain keeps the law. */
  lemma InvalidatedLaw(st: Statuses, bodies: set<Node>, tip: Node, node: Node)
    requires node in st
    ensures NoneBetter(st, bodies, tip) ==> NoneBetter(Invalidated(st, node), bodies, tip)
  {
    hide BranchStored, Invalidated, OnBranch, Node.WorkSum;
    forall n | Clean(Invalidated(st, node), n)
      ensures Clean(st, n)
    {
      forall a | OnBranch(a, n)
        ensures a in st && !st[a].KnownInvalid()
      {
        InvalidatedKeeps(st, node, a);
      }
    }
  }

  lemma InvalidatedKeeps(st: Statuses, node: Node, a: Node)
    ensures a in Invalidated(st, node) <==> a in st
    ensures a in st && st[a].KnownInvalid() ==> Invalidated(st, node)[a].KnownInvalid()
  {
  }

  /** The chosen tip becomes, or stays, the tip. */
  ghost predicate Lands(rules: Rules, mid: Statuses, bodies: set<Node>, parent: Node, next: Option<Node>) {
    && next.Some?
    && (next.value == parent
        || (Attachable(mid, Path(parent), next.value) && Passes(rules, bodies, Path(parent), next.value)))
  }

  /** All the tips above a block are known to be invalid. */
  ghost predicate Buried(st: Statuses, best: View, n: Node)
    requires best != []
  {
    forall t | (t == Tip(best) || InactiveTip(st.Keys, best, t)) && OnBranch(n, t) :: t in st ==> st[t].KnownInvalid()
  }

  /** A complete block that invalidation leaves behind with more work than the tip it ends with.  If
      the chosen tip takes over, all the tips above such a block are known to be invalid, so that no
      tip spoke for it; if the chosen tip fails, no other is tried. */
  ghost predicate PassedOver(rules: Rules, mid: Statuses, bodies: set<Node>, parent: Node, next: Option<Node>, n: Node)
  {
    && Complete(mid, bodies, n) && Path(parent) != []
    && if Lands(rules, mid, bodies, parent, next)
       then n.WorkSum() > next.value.WorkSum() && Buried(mid, Path(parent), n)
       else n.WorkSum() > parent.WorkSum()
            && (next.Some? ==> !Convicted(rules, mid, bodies, Path(parent), next.value, n))
  }

  /** After the unwinding of the best chain the law of most work holds exactly when no block is passed
      over; bodies that are dropped on the way can only help. */
  lemma InvalidationLaw(rules: Rules, mid: Statuses, bodies: set<Node>, parent: Node, err: Option<ChainError>,
                        next: Option<Node>, st': Statuses, best': View, bodies': set<Node>)
    requires best' != [] && TookOver(rules, mid, bodies, parent, err, next, st', best') && bodies' <= bodies
    ensures (forall n :: !PassedOver(rules, mid, bodies, parent, next, n)) ==> NoneBetter(st', bodies', Tip(best'))
    ensures bodies' == bodies && NoneBetter(st', bodies', Tip(best')) ==>
              forall n :: !PassedOver(rules, mid, bodies, parent, next, n)
  {
    hide LedgerOf, NoneBetter, Clean, BranchStored, OnBranch, Attachable, Passes, Path, Candidate, Stays, TrialError,
      StopsAt, Node.WorkSum, Node.Height;
    PathView(parent);
    LawIs(st', bodies, Tip(best'));
    FewerBodies(st', bodies, bodies', Tip(best'));
    forall n
      ensures PassedOver(rules, mid, bodies, parent, next, n) <==>
              Complete(st', bodies, n) && n.WorkSum() > Tip(best').WorkSum()
    {
      AfterUnwinding(rules, mid, bodies, parent, err, next, st', best', n);
    }
  }

  lemma AfterUnwinding(rules: Rules, mid: Statuses, bodies: set<Node>, parent: Node, err: Option<ChainError>,
                       next: Option<Node>, st': Statuses, best': View, n: Node)
    requires best' != [] && TookOver(rules, mid, bodies, parent, err, next, st', best')
    ensures PassedOver(rules, mid, bodies, parent, next, n) <==>
            Complete(st', bodies, n) && n.WorkSum() > Tip(best').WorkSum()
  {
    hide LedgerOf, Clean, BranchStored, OnBranch, Attachable, Passes, Path, Stays, TrialError, StopsAt, Node.WorkSum,
      Node.Height;
    PathView(parent);
    if Lands(rules, mid, bodies, parent, next) {
      if next.value != parent && Convicted(rules, mid, bodies, Path(parent), next.value, n) {
        var s :| StopsAt(rules, bodies, Path(parent), next.value, s) && s in bodies && OnBranch(s, n);
        PassesNoStop(rules, bodies, Path(parent), next.value, s);
      }
      forall t | (t == parent || InactiveTip(mid.Keys, Path(parent), t)) && OnBranch(n, t) && t in mid
        ensures mid[t].KnownInvalid() || n.WorkSum() <= next.value.WorkSum()
      {
        BranchWork(n, t);
        assert mid[t].KnownInvalid() || Candidate(mid, Path(parent), t);
      }
    }
  }

  // ------------------------------------------------------- reconsideration

  /** The tip that reconsideration ends with. */
  ghost predicate Moves(rules: Rules, cleared: Statuses, bodies: set<Node>, best: View, tip: Node)
    requires best != []
  {
    && tip.WorkSum() > Tip(best).WorkSum()
    && Attachable(cleared, best, tip) && Passes(rules, bodies, best, tip)
  }

  /** A complete block at or above the reconsidered one, with more work than the tip it ends with, that
      the one tip that is tried does not convict. */
  ghost predicate Overlooked(rules: Rules, st: Statuses, bodies: set<Node>, best: View, node: Node, tip: Node, n: Node)
    requires best != []
  {
    var cleared := Reconsidered(st, node);
    && OnBranch(node, n) && Complete(cleared, bodies, n)
    && n.WorkSum() > (if Moves(rules, cleared, bodies, best, tip) then tip else Tip(best)).WorkSum()
    && (tip.WorkSum() > Tip(best).WorkSum() ==> !Convicted(rules, cleared, bodies, best, tip, n))
  }

  /** If the law of most work held before, it holds after a reconsideration exactly when no block is
      overlooked. */
  lemma ReconsiderationLaw(rules: Rules, st: Statuses, bodies: set<Node>, best: View, node: Node, tip: Node,
                           st': Statuses, best': View, bodies': set<Node>)
    requires best != [] && best' != [] && node in st && NoneBetter(st, bodies, Tip(best)) && bodies' <= bodies
    requires if tip.WorkSum() <= Tip(best).WorkSum() then st' == Reconsidered(st, node) && best' == best
             else Tried(rules, Reconsidered(st, node), bodies, best, tip, st', best')
    ensures (forall n :: !Overlooked(rules, st, bodies, best, node, tip, n)) ==> NoneBetter(st', bodies', Tip(best'))
    ensures bodies' == bodies && NoneBetter(st', bodies', Tip(best')) ==>
              forall n :: !Overlooked(rules, st, bodies, best, node, tip, n)
  {
    hide LedgerOf, NoneBetter, Clean, BranchStored, OnBranch, Attachable, Passes, StopsAt, Reconsidered, Node.WorkSum,
      Node.Height;
    LawIs(st, bodies, Tip(best));
    LawIs(st', bodies, Tip(best'));
    FewerBodies(st', bodies, bodies', Tip(best'));
    forall n
      ensures Overlooked(rules, st, bodies, best, node, tip, n) <==>
              Complete(st', bodies, n) && n.WorkSum() > Tip(best').WorkSum()
    {
      AfterClearing(rules, st, bodies, best, node, tip, st', best', n);
    }
  }

  lemma AfterClearing(rules: Rules, st: Statuses, bodies: set<Node>, best: View, node: Node, tip: Node,
                      st': Statuses, best': View, n: Node)
    requires best != [] && best' != [] && node in st
    requires Complete(st, bodies, n) ==> n.WorkSum() <= Tip(best).WorkSum()
    requires if tip.WorkSum() <= Tip(best).WorkSum() then st' == Reconsidered(st, node) && best' == best
             else Tried(rules, Reconsidered(st, node), bodies, best, tip, st', best')
    ensures Overlooked(rules, st, bodies, best, node, tip, n) <==>
            Complete(st', bodies, n) && n.WorkSum() > Tip(best').WorkSum()
  {
    hide LedgerOf, Clean, BranchStored, OnBranch, Attachable, Passes, StopsAt, Reconsidered, Node.WorkSum, Node.Height;
    ClearedElsewhere(st, node, n);
    if Moves(rules, Reconsidered(st, node), bodies, best, tip) {
      if Convicted(rules, Reconsidered(st, node), bodies, best, tip, n) {
        var s :| StopsAt(rules, bodies, best, tip, s) && s in bodies && OnBranch(s, n);
        PassesNoStop(rules, bodies, best, tip, s);
      }
    }
  }

  /** Only at or above the reconsidered block can a branch lose its last mark. */
  lemma ClearedElsewhere(st: Statuses, node: Node, n: Node)
    requires node in st
    ensures Clean(Reconsidered(st, node), n) && !Clean(st, n) ==> OnBranch(node, n)
  {
    hide OnBranch;
    forall a | OnBranch(a, n) && OnBranch(node, a)
      ensures OnBranch(node, n)
    {
      BranchTransitive(node, a, n);
    }
    forall a | OnBranch(a, n) && !OnBranch(node, a) && a in st
      ensures Reconsidered(st, node)[a] == st[a]
    {
      BranchReflexive(node);
    }
  }
}
