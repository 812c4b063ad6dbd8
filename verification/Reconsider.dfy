/** Reconsidering a block that was found or declared invalid. */
module Reconsider {
  import opened BlockNodes
  import opened ChainView
  import opened BlockTree
  import opened Ledger
  import opened ChainSpec
  import opened Selection
  import opened BlockChain
  import opened Trials
  import opened Invalidate

  // -------------------------------------------------------- specification

  const INVALID := VALIDATE_FAILED.Or(INVALID_ANCESTOR)

  /** The block loses both invalidity marks, its descendants lose the mark of an invalid ancestor. */
  function Reconsidered(st: Statuses, node: Node): Statuses {
    Cleared(Cleared(st, {node}, INVALID), Descendants(st.Keys, node), INVALID_ANCESTOR)
  }

  ghost predicate AnyCold(best: View, tip: Node, cold: set<Node>) {
    exists n | n in cold :: ToAttach(best, tip, n)
  }

  /** `Reconsidered`, node by node: the block has neither invalidity mark; every strict descendant has no
      mark of an invalid ancestor and keeps its own failed mark; nothing else changed. */
  lemma ReconsideredMeans(st: Statuses, node: Node, n: Node)
    requires node in st && n in st
    ensures Reconsidered(st, node).Keys == st.Keys
    ensures var s := Reconsidered(st, node)[n];
            && (n == node ==> s == st[n].(validateFailed := false, invalidAncestor := false))
            && (n != node && OnBranch(node, n) ==> s == st[n].(invalidAncestor := false))
            && (!OnBranch(node, n) ==> s == st[n])
  {
    BranchReflexive(node);
  }

  /** Reconsidering a block undoes its invalidation, as far as the verdicts go, exactly when neither the
      block was known to be invalid before nor any descendant had an invalid ancestor only. */
  lemma UndoesInvalidation(st: Statuses, node: Node)
    requires node in st
    ensures SameVerdicts(st, Reconsidered(Invalidated(st, node), node)) <==>
            && !st[node].KnownInvalid()
            && forall n <- st :: OnBranch(node, n) && st[n].invalidAncestor ==> st[n].validateFailed
  {
    hide OnBranch, Reconsidered, Invalidated;
    forall n | n in st
      ensures Invalidated(st, node).Keys == st.Keys && Reconsidered(Invalidated(st, node), node).Keys == st.Keys
      ensures Reconsidered(Invalidated(st, node), node)[n].KnownInvalid() <==>
              if OnBranch(node, n) then n != node && st[n].validateFailed else st[n].KnownInvalid()
    {
      InvalidatedMeans(st, node, n);
      ReconsideredMeans(Invalidated(st, node), node, n);
    }
    BranchReflexive(node);
  }

  // ---------------------------------------------------------------- marks

  lemma ReconsideredKeeps(rules: Rules, root: Node, index: map<Hash, Node>, st: Statuses, bodies: set<Node>,
                          ns: set<Node>, f: Status)
    requires IndexFor(root, index, st, bodies) && Replayable(rules, st) && !f.dataStored
    ensures IndexFor(root, index, Cleared(st, ns, f), bodies) && Replayable(rules, Cleared(st, ns, f))
    ensures Cleared(st, ns, f).Keys == st.Keys
  {
    hide IndexFor, LedgerOf;
    IndexSame(root, index, st, Cleared(st, ns, f), bodies);
  }

  /** The saved marks of one block. */
  datatype Snap = Snap(node: Node, flags: Status)

  /** The list holds the invalidity marks of the blocks of `ns`, wherever there are any. */
  ghost predicate Saved(snaps: seq<Snap>, st: Statuses, ns: set<Node>) {
    && (forall s <- snaps :: s.node in ns && s.node in st && s.flags == InvalidBits(st[s.node]))
    && (forall n <- ns :: n in st && st[n].KnownInvalid() ==> Snap(n, InvalidBits(st[n])) in snaps)
  }

  function InvalidBits(s: Status): Status {
    NONE.(validateFailed := s.validateFailed, invalidAncestor := s.invalidAncestor)
  }

  /** Appends the invalidity marks of a block, if it has any. */
  method SaveInvalid(st: Statuses, snaps: seq<Snap>, n: Node, ghost ns: set<Node>) returns (r: seq<Snap>)
    requires n in st && Saved(snaps, st, ns)
    ensures Saved(r, st, ns + {n})
  {
    var flags := InvalidBits(st[n]);
    r := if flags != NONE then snaps + [Snap(n, flags)] else snaps;
  }

  /** Saves the marks on the way from a tip down to the block. */
  method SaveWalk(chain: BlockChain, st: Statuses, snaps: seq<Snap>, tip: Node, node: Node, ghost ns: set<Node>)
    returns (r: seq<Snap>)
    requires chain.Valid() && st == chain.status && tip in st && node in st && OnBranch(node, tip)
             && Saved(snaps, st, ns)
    ensures Saved(r, st, ns + Between(st.Keys, node, tip))
  {
    hide LedgerOf, IndexFor, Replayable, IsView, AllStored, OnBranch, Between, Saved;
    var n := tip;
    r := snaps;
    ghost var done: set<Node> := {};
    assert ns + {} == ns;
    while n != node
      invariant n in st && OnBranch(node, n)
      invariant done + Between(st.Keys, node, n) == Between(st.Keys, node, tip)
      invariant Saved(r, st, ns + done)
      decreases n.Height()
    {
      BetweenStep(st.Keys, node, n);
      r := SaveInvalid(st, r, n, ns + done);
      assert ns + done + {n} == ns + (done + {n});
      done := done + {n};
      chain.ParentIndexed(n);
      n := n.parent;
    }
    BetweenStep(st.Keys, node, node);
    assert done == Between(st.Keys, node, tip);
  }

  /** The walks from the inactive tips and the tip cover every descendant of the block, and one of
      those tips is the block or a descendant of it. */
  lemma ReachedByTips(nodes: set<Node>, root: Node, best: View, node: Node, tips: seq<Node>) returns (t: Node)
    requires Tree(nodes, root) && best != [] && IsView(best) && Tip(best) in nodes && node in nodes
    requires forall t :: t in tips <==> InactiveTip(nodes, best, t) || t == Tip(best)
    ensures Reached(nodes, node, tips) == Descendants(nodes, node)
    ensures t in tips && OnBranch(node, t)
  {
    forall n | n in nodes
      ensures exists t <- tips :: OnBranch(n, t)
    {
      var _ := TipOver(nodes, root, best, n, tips);
    }
    t := TipOver(nodes, root, best, node, tips);
  }

  lemma TipOver(nodes: set<Node>, root: Node, best: View, n: Node, tips: seq<Node>) returns (t: Node)
    requires Tree(nodes, root) && best != [] && IsView(best) && n in nodes
    requires forall t :: t in tips <==> InactiveTip(nodes, best, t) || t == Tip(best)
    ensures t in tips && OnBranch(n, t)
  {
    ContainsIsBranch(best, n);
    if Contains(best, n) {
      t := Tip(best);
    } else {
      t := TipAbove(nodes, root, best, n);
    }
  }

  /** All the tips: the inactive ones and the tip of the best chain. */
  method AllTips(chain: BlockChain) returns (tips: seq<Node>)
    requires chain.Valid()
    ensures forall t :: t in tips <==> InactiveTip(chain.status.Keys, chain.bestChain, t) || t == Tip(chain.bestChain)
    ensures forall t <- tips :: t in chain.status && SkipsOk(t)
  {
    hide LedgerOf, IndexFor, Replayable, IsView, AllStored, InactiveTip, SkipsOk;
    TreeOf(chain.root, chain.index, chain.status, chain.bodies);
    tips := InactiveTips(chain.status.Keys, chain.root, chain.bestChain);
    TipsIndexed(chain.status.Keys, chain.bestChain, tips);
    tips := tips + [Tip(chain.bestChain)];
    forall t | t in tips
      ensures SkipsOk(t)
    {
      chain.NodeSkips(t);
    }
  }

  /** Finds the tip to reconsider and saves the marks of the block and of the walks down to it. */
  method Snapshot(chain: BlockChain, st: Statuses, node: Node, tips: seq<Node>)
    returns (tip: Option<Node>, snaps: seq<Snap>)
    requires chain.Valid() && st == chain.status && node in st && forall t <- tips :: t in st && SkipsOk(t)
    ensures tip.Some? ==> tip.value in tips && OnBranch(node, tip.value)
    ensures tip.None? ==> forall t <- tips :: !OnBranch(node, t)
    ensures Saved(snaps, st, {node} + Reached(st.Keys, node, tips))
  {
    hide LedgerOf, IndexFor, Replayable, IsView, AllStored, OnBranch, Between, Saved, Reached, SkipsOk;
    tip := None;
    SavedNone(st);
    snaps := SaveInvalid(st, [], node, {});
    ReachedNone(st.Keys, node, tips);
    ghost var ns := {node};
    assert {} + {node} == ns == ns + {};
    BranchReflexive(node);
    var i := 0;
    while i < |tips|
      invariant 0 <= i <= |tips|
      invariant tip.Some? ==> tip.value in tips && OnBranch(node, tip.value)
      invariant tip.None? ==> forall t <- tips[..i] :: !OnBranch(node, t)
      invariant Saved(snaps, st, ns + Reached(st.Keys, node, tips[..i]))
    {
      assert tips[..i + 1] == tips[..i] + [tips[i]];
      ReachedStep(st.Keys, node, tips, i);
      var below := IsAncestor(tips[i], node);
      if !below {
        if tips[i] == node {
          tip := Some(node);
        }
      } else {
        tip := Some(tips[i]);
        ghost var done := Reached(st.Keys, node, tips[..i]);
        snaps := SaveWalk(chain, st, snaps, tips[i], node, ns + done);
        assert ns + done + Between(st.Keys, node, tips[i]) == ns + (done + Between(st.Keys, node, tips[i]));
      }
      i := i + 1;
    }
    assert tips[..i] == tips;
  }

  lemma SavedNone(st: Statuses)
    ensures Saved([], st, {})
  {
  }

  /** Clears the mark of an invalid ancestor from a tip down to the block. */
  method ClearWalk(chain: BlockChain, tip: Node, node: Node)
    requires chain.Valid() && tip in chain.status && node in chain.status && OnBranch(node, tip)
    modifies chain`status
    ensures chain.Valid()
    ensures chain.status == Cleared(old(chain.status), Between(old(chain.status).Keys, node, tip), INVALID_ANCESTOR)
  {
    hide LedgerOf, IndexFor, Replayable, IsView, AllStored, OnBranch, Between, Cleared;
    var n := tip;
    ghost var done: set<Node> := {};
    ghost var st := chain.status;
    ClearedNone(st, INVALID_ANCESTOR);
    while n != node
      invariant chain.Valid() && chain.status.Keys == st.Keys && n in st && OnBranch(node, n)
      invariant done + Between(st.Keys, node, n) == Between(st.Keys, node, tip)
      invariant chain.status == Cleared(st, done, INVALID_ANCESTOR)
      decreases n.Height()
    {
      BetweenStep(st.Keys, node, n);
      ClearedTwice(st, done, {n}, INVALID_ANCESTOR);
      ReconsideredKeeps(chain.rules, chain.root, chain.index, chain.status, chain.bodies, {n}, INVALID_ANCESTOR);
      chain.UnsetStatusFlags(n, INVALID_ANCESTOR);
      done := done + {n};
      chain.ParentIndexed(n);
      n := n.parent;
    }
    BetweenStep(st.Keys, node, node);
    assert done == Between(st.Keys, node, tip);
  }

  /** Clears the marks of the block and of the walks down to it. */
  method ClearBranch(chain: BlockChain, node: Node, tips: seq<Node>)
    requires chain.Valid() && node in chain.status && forall t <- tips :: t in chain.status && SkipsOk(t)
    requires Reached(chain.status.Keys, node, tips) == Descendants(chain.status.Keys, node)
    modifies chain`status
    ensures chain.Valid() && chain.status == Reconsidered(old(chain.status), node)
    ensures chain.status.Keys == old(chain.status).Keys
  {
    hide LedgerOf, IndexFor, Replayable, IsView, AllStored, OnBranch, Between, Cleared, Reached, Descendants, SkipsOk;
    ghost var nodes := chain.status.Keys;
    ReconsideredKeeps(chain.rules, chain.root, chain.index, chain.status, chain.bodies, {node}, INVALID);
    ClearedBoth(chain.status, node);
    chain.UnsetStatusFlags(node, INVALID_ANCESTOR);
    chain.UnsetStatusFlags(node, VALIDATE_FAILED);
    ghost var st := chain.status;
    ReachedNone(nodes, node, tips);
    ClearedNone(st, INVALID_ANCESTOR);
    var i := 0;
    while i < |tips|
      invariant 0 <= i <= |tips| && chain.Valid() && chain.status.Keys == nodes
      invariant chain.status == Cleared(st, Reached(nodes, node, tips[..i]), INVALID_ANCESTOR)
    {
      ReachedStep(nodes, node, tips, i);
      var below := IsAncestor(tips[i], node);
      if below {
        ClearedTwice(st, Reached(nodes, node, tips[..i]), Between(nodes, node, tips[i]), INVALID_ANCESTOR);
        ClearedKeys(st, Reached(nodes, node, tips[..i + 1]));
        ClearWalk(chain, tips[i], node);
      }
      i := i + 1;
    }
    assert tips[..i] == tips;
  }

  lemma ClearedBoth(st: Statuses, node: Node)
    requires node in st
    ensures Cleared(Cleared(st, {node}, INVALID_ANCESTOR), {node}, VALIDATE_FAILED) == Cleared(st, {node}, INVALID)
    ensures node in Cleared(st, {node}, INVALID_ANCESTOR)
  {
  }

  lemma ClearedKeys(st: Statuses, ns: set<Node>)
    ensures Cleared(st, ns, INVALID_ANCESTOR).Keys == st.Keys
  {
  }

  /** Every difference between two status maps can be undone from the list. */
  ghost predicate Undoable(snaps: seq<Snap>, now: Statuses, st: Statuses) {
    && now.Keys == st.Keys
    && (forall s <- snaps :: s.node in st && st[s.node].Or(s.flags) == st[s.node]
                             && now[s.node].Or(s.flags) == st[s.node])
    && (forall n <- st :: now[n] == st[n] || exists s <- snaps :: s.node == n)
  }

  lemma ClearedUndoable(snaps: seq<Snap>, st: Statuses, node: Node)
    requires node in st && Saved(snaps, st, {node} + Descendants(st.Keys, node))
    ensures Undoable(snaps, Reconsidered(st, node), st)
  {
    hide OnBranch;
    var now := Reconsidered(st, node);
    forall s | s in snaps
      ensures st[s.node].Or(s.flags) == st[s.node] && now[s.node].Or(s.flags) == st[s.node]
    {
    }
    forall n | n in st && now[n] != st[n]
      ensures exists s <- snaps :: s.node == n
    {
      assert Snap(n, InvalidBits(st[n])) in snaps;
    }
  }

  /** Puts the saved marks back. */
  method RestoreInvalid(chain: BlockChain, snaps: seq<Snap>, ghost st: Statuses)
    requires Undoable(snaps, chain.status, st)
    modifies chain`status
    ensures chain.status == st && st.Keys == old(chain.status).Keys
  {
    var i := 0;
    assert snaps[0..] == snaps;
    while i < |snaps|
      invariant 0 <= i <= |snaps| && Undoable(snaps[i..], chain.status, st)
    {
      RestoreStep(snaps[i..], chain.status, st);
      assert snaps[i..][0] == snaps[i] && snaps[i..][1..] == snaps[i + 1..];
      chain.SetStatusFlags(snaps[i].node, snaps[i].flags);
      i := i + 1;
    }
    assert snaps[i..] == [];
  }

  lemma RestoreStep(snaps: seq<Snap>, now: Statuses, st: Statuses)
    requires Undoable(snaps, now, st) && snaps != []
    ensures Undoable(snaps[1..], Flagged(now, {snaps[0].node}, snaps[0].flags), st)
  {
    var s0 := snaps[0];
    var next := Flagged(now, {s0.node}, s0.flags);
    forall n | n in st && next[n] != st[n]
      ensures exists s <- snaps[1..] :: s.node == n
    {
      var s :| s in snaps && s.node == n;
      assert s in snaps[1..];
    }
  }

  // ------------------------------------------------------------ algorithm

  /** Whether a block to attach is stored without its witness data. */
  method RejectCold(attach: seq<Node>, cold: set<Node>) returns (found: bool)
    ensures found <==> exists n <- attach :: n in cold
  {
    for i := 0 to |attach|
      invariant forall n <- attach[..i] :: n !in cold
    {
      if attach[i] in cold {
        return true;
      }
    }
    assert attach[..|attach|] == attach;
    found := false;
  }

  lemma ColdIs(best: View, tip: Node, attach: seq<Node>, cold: set<Node>)
    requires forall n :: n in attach <==> ToAttach(best, tip, n)
    ensures AnyCold(best, tip, cold) <==> exists n <- attach :: n in cold
  {
  }

  /** Verifies the reorganization, then carries it out; a branch that fails is no error. */
  method VerifyAndSwitch(chain: BlockChain, tip: Node, detach: seq<Node>, attach: seq<Node>)
    returns (err: Option<ChainError>)
    requires chain.Valid() && attach != [] && ReorgLists(chain.bestChain, detach, attach) && Last(attach) == tip
    requires forall n :: n in attach <==> ToAttach(chain.bestChain, tip, n)
    requires (forall n <- attach :: n in chain.status) && Attachable(chain.status, chain.bestChain, tip)
    modifies chain`bestChain, chain`utxo, chain`journal, chain`best, chain`status, chain`bodies
    ensures chain.Valid() && err.None?
    ensures chain.bodies <= old(chain.bodies) && (chain.witnessBuffer <= 0 ==> chain.bodies == old(chain.bodies))
    ensures Tried(chain.rules, old(chain.status), old(chain.bodies), old(chain.bestChain), tip, chain.status,
                  chain.bestChain)
    ensures chain.bestChain == old(chain.bestChain) ==> unchanged(chain`utxo, chain`journal, chain`best, chain`bodies)
  {
    hide LedgerOf, IndexFor, Replayable, IsView, AllStored, InvalidGrows, Contains, Flagged, Cleared, SetOf, Path,
      Up, OnBranch, FailedAt, ToAttach, Attachable, Passes, Judged, StopsAt, ReorgLists;
    ForkFacts(chain.bestChain, detach, attach);
    ghost var st, was := chain.status, chain.bestChain;
    var failed, spent;
    ghost var k;
    failed, spent, k := chain.VerifyReorganizationValidity(detach, attach);
    if failed.Some? {
      StoppedJudged(chain.rules, st, chain.bodies, was, detach, attach, k, failed);
      if attach[k] in chain.bodies {
        FailedAtGrows(st, attach, k);
      } else {
        GrowsFlagged(st, SetOf(attach[..k]), VALID);
      }
      return None;
    }
    PassesIs(chain.rules, chain.bodies, was, tip, attach);
    FlaggedHas(st, SetOf(attach), attach);
    ghost var k2;
    err, k2 := chain.ReorganizeChain(detach, attach);
    if err.Some? {
      StoppedFails(chain.rules, chain.bodies, was, tip, attach[k2]);
    }
    FlaggedTwice(st, SetOf(attach), SetOf(attach), VALID);
    PassedJudged(chain.rules, st, old(chain.bodies), was, tip, SetOf(attach) + SetOf(attach),
                 old(chain.bodies) - chain.bodies);
    TipMoved(was, tip, attach);
  }

  lemma FlaggedHas(st: Statuses, ns: set<Node>, attach: seq<Node>)
    requires forall n <- attach :: n in st
    ensures forall n <- attach :: n in Flagged(st, ns, VALID)
  {
  }

  lemma TipMoved(best: View, tip: Node, attach: seq<Node>)
    requires best != [] && IsView(best) && attach != [] && Last(attach) == tip
    requires forall n :: n in attach <==> ToAttach(best, tip, n)
    ensures Tip(best) != tip
  {
    ContainsIsBranch(best, tip);
    assert tip in attach;
  }

  /** Makes a tip with more work than the best chain its tip, unless its branch is invalid or needs
      blocks whose witness data is gone; then everything is put back as it was in `st`. */
  method TryTip(chain: BlockChain, tip: Node, cold: set<Node>, snaps: seq<Snap>, ghost st: Statuses)
    returns (err: Option<ChainError>)
    requires chain.Valid() && tip in chain.status && tip.WorkSum() > Tip(chain.bestChain).WorkSum()
    requires Undoable(snaps, chain.status, st)
    requires IndexFor(chain.root, chain.index, st, chain.bodies) && Replayable(chain.rules, st)
    modifies chain`bestChain, chain`utxo, chain`journal, chain`best, chain`status, chain`bodies
    ensures chain.Valid()
    ensures chain.bodies <= old(chain.bodies) && (chain.witnessBuffer <= 0 ==> chain.bodies == old(chain.bodies))
    ensures if Attachable(old(chain.status), old(chain.bestChain), tip) && AnyCold(old(chain.bestChain), tip, cold)
            then err == Some(WitnessExcised) && chain.status == st && chain.bestChain == old(chain.bestChain)
            else err.None? && Tried(chain.rules, old(chain.status), old(chain.bodies), old(chain.bestChain), tip,
                                    chain.status, chain.bestChain)
    ensures chain.bestChain == old(chain.bestChain) ==> unchanged(chain`utxo, chain`journal, chain`best, chain`bodies)
  {
    hide LedgerOf, IndexFor, Replayable, IsView, AllStored, InvalidGrows, Contains, Flagged, Cleared, SetOf, Path,
      Up, OnBranch, ToAttach, Attachable, Passes, Undoable, AnyCold, ReorgLists, Judged, StopsAt, Node.Height;
    NotInBest(chain.bestChain, tip);
    ghost var now := chain.status;
    var detach, attach;
    ghost var bad, k;
    detach, attach, bad := chain.GetReorganizeNodes(tip);
    GrowsKeys(now, chain.status);
    if attach == [] {
      NotAttachable(now, chain.bestChain, tip, bad);
      UnattachableJudged(chain.rules, now, chain.bodies, chain.bestChain, tip, bad);
      EmptyLists(chain.bestChain);
      err, k := chain.ReorganizeChain(detach, attach);
      return;
    }
    AttachableIs(now, chain.bestChain, tip, attach);
    ColdIs(chain.bestChain, tip, attach, cold);
    var found := RejectCold(attach, cold);
    if found {
      RestoreInvalid(chain, snaps, st);
      return Some(WitnessExcised);
    }
    err := VerifyAndSwitch(chain, tip, detach, attach);
  }

  lemma NotInBest(best: View, tip: Node)
    requires best != [] && IsView(best) && tip.WorkSum() > Tip(best).WorkSum()
    ensures !Contains(best, tip)
  {
    if Contains(best, tip) {
      InViewWork(best, tip);
    }
  }

  /** Clears the invalidity marks of a block and its branches, and switches to `tip`, a tip above the
      block, if that branch has the most work and holds up.  `cold` is the set of blocks stored
      without witness data. */
  method ReconsiderBlock(chain: BlockChain, hash: Hash, cold: set<Node>)
    returns (err: Option<ChainError>, ghost tip: Node)
    requires chain.Valid()
    modifies chain`bestChain, chain`utxo, chain`journal, chain`best, chain`status, chain`bodies
    ensures chain.Valid()
    ensures chain.bodies <= old(chain.bodies) && (chain.witnessBuffer <= 0 ==> chain.bodies == old(chain.bodies))
    ensures hash !in chain.index ==> err == Some(UnknownBlock) && unchanged(chain)
    ensures err == Some(WitnessExcised) ==> unchanged(chain)
    ensures chain.bestChain == old(chain.bestChain) ==> unchanged(chain`utxo, chain`journal, chain`best, chain`bodies)
    ensures hash in chain.index ==>
              var node := chain.index[hash];
              var st, best := old(chain.status), old(chain.bestChain);
              && node in st
              && if st[node].valid then err.None? && unchanged(chain)
                 else
                   var cleared := Reconsidered(st, node);
                   && (InactiveTip(st.Keys, best, tip) || tip == Tip(best)) && OnBranch(node, tip)
                   && if tip.WorkSum() <= Tip(best).WorkSum() then
                        err.None? && chain.status == cleared && chain.bestChain == best
                      else if Attachable(cleared, best, tip) && AnyCold(best, tip, cold) then
                        err == Some(WitnessExcised)
                      else
                        && err.None?
                        && Tried(chain.rules, cleared, old(chain.bodies), best, tip, chain.status, chain.bestChain)
  {
    hide LedgerOf, IndexFor, Replayable, IsView, AllStored, Contains, OnBranch, Attachable, AnyCold, Undoable, Tried,
      Reached, Descendants, Reconsidered, InactiveTip, Saved, SkipsOk;
    tip := chain.root;
    if hash !in chain.index {
      return Some(UnknownBlock), tip;
    }
    var node := chain.index[hash];
    chain.PrevIndexed(hash);
    if chain.status[node].valid {
      return None, tip;
    }
    ghost var st := chain.status;
    var tips := AllTips(chain);
    TreeOf(chain.root, chain.index, chain.status, chain.bodies);
    ghost var over := ReachedByTips(st.Keys, chain.root, chain.bestChain, node, tips);
    var reconsiderTip, snaps := Snapshot(chain, chain.status, node, tips);
    ClearedUndoable(snaps, st, node);
    ClearBranch(chain, node, tips);
    tip := reconsiderTip.value;
    if reconsiderTip.value.WorkSum() <= Tip(chain.bestChain).WorkSum() {
      return None, tip;
    }
    err := TryTip(chain, reconsiderTip.value, cold, snaps, st);
  }
}
