/** What trying a branch comes to: at which block it stops, with which error, and which branches are
    free of marks afterwards. */
module Trials {
  import opened BlockNodes
  import opened ChainView
  import opened BlockTree
  import opened Ledger
  import opened ChainSpec
  import opened Selection
  import opened BlockChain

  // -------------------------------------------------------- specification

  /** The lowest block to attach that is not stored or cannot be replayed. */
  ghost predicate StopsAt(rules: Rules, bodies: set<Node>, best: View, tip: Node, s: Node) {
    && ToAttach(best, tip, s) && (s !in bodies || LedgerOf(rules, s).None?)
    && forall a | ToAttach(best, tip, a) && OnBranch(a, s) && a != s :: a in bodies && LedgerOf(rules, a).Some?
  }

  /** `n` is built on the block that the trial finds invalid. */
  ghost predicate Convicted(rules: Rules, st: Statuses, bodies: set<Node>, best: View, tip: Node, n: Node) {
    Attachable(st, best, tip) && exists s :: StopsAt(rules, bodies, best, tip, s) && s in bodies && OnBranch(s, n)
  }

  /** The trial takes the freedom of marks exactly from what is built on the block it finds invalid. */
  ghost predicate Judged(rules: Rules, st: Statuses, bodies: set<Node>, best: View, tip: Node, st': Statuses) {
    forall n :: Clean(st', n) <==> Clean(st, n) && !Convicted(rules, st, bodies, best, tip, n)
  }

  /** What trying to make `tip` the tip comes to, given the status map `st` after the marks were
      cleared: a branch that is still known to be invalid changes nothing but marks; one that passes
      is switched to; any other only leaves its verdict in the marks. */
  ghost predicate Tried(rules: Rules, st: Statuses, bodies: set<Node>, best: View, tip: Node, st': Statuses,
                        best': View)
    requires best' != []
  {
    && Judged(rules, st, bodies, best, tip, st')
    && if Attachable(st, best, tip) && Passes(rules, bodies, best, tip) then Tip(best') == tip
       else best' == best && InvalidGrows(st, st')
  }

  /** The error of a trial: none when the branch is known to be invalid, since then there is nothing
      to reorganize, and none when it passes; otherwise it tells what is wrong with the block at which
      the trial stops. */
  ghost predicate TrialError(rules: Rules, st: Statuses, bodies: set<Node>, best: View, tip: Node,
                             err: Option<ChainError>)
  {
    if !Attachable(st, best, tip) || Passes(rules, bodies, best, tip) then err.None?
    else exists s :: StopsAt(rules, bodies, best, tip, s) && err == Some(if s in bodies then RuleError else MissingData)
  }

  // ----------------------------------------------------------------- laws

  /** There is only one such block. */
  lemma StopUnique(rules: Rules, bodies: set<Node>, best: View, tip: Node, s: Node, t: Node)
    requires StopsAt(rules, bodies, best, tip, s) && StopsAt(rules, bodies, best, tip, t)
    ensures s == t
  {
    hide LedgerOf, OnBranch, Contains, Node.Height;
    if s.Height() <= t.Height() {
      BranchLinear(s, t, tip);
    } else {
      BranchLinear(t, s, tip);
    }
  }

  lemma PassesNoStop(rules: Rules, bodies: set<Node>, best: View, tip: Node, s: Node)
    requires Passes(rules, bodies, best, tip)
    ensures !StopsAt(rules, bodies, best, tip, s)
  {
    hide LedgerOf, OnBranch, Contains;
    if ToAttach(best, tip, s) {
      LedgerBelow(rules, s, tip);
    }
  }

  /** The block of the list at which the verification stopped. */
  lemma StopsHere(rules: Rules, bodies: set<Node>, best: View, detach: seq<Node>, attach: seq<Node>, k: nat)
    requires best != [] && IsView(best) && ReorgLists(best, detach, attach) && k < |attach|
    requires forall n :: n in attach <==> ToAttach(best, Last(attach), n)
    requires forall j :: 0 <= j < k ==> attach[j] in bodies && LedgerOf(rules, attach[j]).Some?
    requires attach[k] !in bodies || LedgerOf(rules, attach[k]).None?
    ensures StopsAt(rules, bodies, best, Last(attach), attach[k])
  {
    hide LedgerOf, OnBranch, Contains, IsView, Node.Height, ToAttach, ReorgLists;
    ForkFacts(best, detach, attach);
    hide Linked;
    assert attach[k] in attach;
    forall a | ToAttach(best, Last(attach), a) && OnBranch(a, attach[k]) && a != attach[k]
      ensures a in bodies && LedgerOf(rules, a).Some?
    {
      var j :| 0 <= j < |attach| && attach[j] == a;
      if j > k {
        LinkedBranch(attach, k, j);
        BranchAntisymmetric(attach[k], a);
      }
    }
  }

  lemma BranchAntisymmetric(a: Node, b: Node)
    requires OnBranch(a, b) && OnBranch(b, a)
    ensures a == b
  {
    BranchWork(a, b);
    BranchWork(b, a);
    BranchIsAncestors(a, b);
  }

  lemma SameJudged(rules: Rules, st: Statuses, bodies: set<Node>, best: View, tip: Node, st': Statuses)
    requires forall n :: Clean(st', n) <==> Clean(st, n)
    requires forall s | StopsAt(rules, bodies, best, tip, s) :: s !in bodies || !Attachable(st, best, tip)
    ensures Judged(rules, st, bodies, best, tip, st')
  {
    hide LedgerOf, OnBranch, Clean, StopsAt, Attachable;
  }

  /** A branch that is known to be invalid: only what is built on the invalid block gets marks. */
  lemma UnattachableJudged(rules: Rules, st: Statuses, bodies: set<Node>, best: View, tip: Node, bad: Node)
    requires best != [] && IsView(best) && tip.Child? && !Attachable(st, best, tip)
    requires bad in st && st[bad].KnownInvalid() && OnBranch(bad, tip)
    ensures var ns := if bad == tip.parent then {tip} else SetOf(Up(tip, bad.Height()));
            Judged(rules, st, bodies, best, tip, Flagged(st, ns, INVALID_ANCESTOR))
  {
    hide LedgerOf, OnBranch, IsView, Up, Attachable, StopsAt, Node.Height;
    var ns := if bad == tip.parent then {tip} else SetOf(Up(tip, bad.Height()));
    UpAbove(tip, bad, best);
    forall n
      ensures Clean(Flagged(st, ns, INVALID_ANCESTOR), n) <==> Clean(st, n)
    {
      FlaggedClean(st, ns, bad, n);
    }
    SameJudged(rules, st, bodies, best, tip, Flagged(st, ns, INVALID_ANCESTOR));
  }

  lemma FlaggedClean(st: Statuses, ns: set<Node>, bad: Node, n: Node)
    requires bad in st && st[bad].KnownInvalid() && forall a <- ns :: OnBranch(bad, a)
    ensures Clean(Flagged(st, ns, INVALID_ANCESTOR), n) <==> Clean(st, n)
  {
    hide OnBranch;
    forall a | a in ns && OnBranch(a, n)
      ensures !Clean(st, n)
    {
      BranchTransitive(bad, a, n);
    }
  }

  /** A branch that passes, or that misses a body, convicts nothing. */
  lemma VerdictsJudged(rules: Rules, st: Statuses, bodies: set<Node>, best: View, tip: Node, st': Statuses)
    requires SameVerdicts(st, st')
    requires forall s | StopsAt(rules, bodies, best, tip, s) :: s !in bodies
    ensures Judged(rules, st, bodies, best, tip, st')
  {
    hide LedgerOf, OnBranch, StopsAt, SameVerdicts, Attachable;
    VerdictsSame(rules, [], st, st');
    SameJudged(rules, st, bodies, best, tip, st');
  }

  lemma FailedJudged(rules: Rules, st: Statuses, bodies: set<Node>, best: View, attach: seq<Node>, k: nat)
    requires k < |attach| && Linked(attach) && Attachable(st, best, Last(attach)) && attach[k] in bodies
             && attach[k] in st
    requires StopsAt(rules, bodies, best, Last(attach), attach[k])
    ensures Judged(rules, st, bodies, best, Last(attach), FailedAt(st, attach, k))
  {
    hide LedgerOf, OnBranch, StopsAt, Attachable, FailedAt, Linked, Clean;
    forall n
      ensures Clean(FailedAt(st, attach, k), n) <==>
              Clean(st, n) && !Convicted(rules, st, bodies, best, Last(attach), n)
    {
      if Convicted(rules, st, bodies, best, Last(attach), n) {
        var s :| StopsAt(rules, bodies, best, Last(attach), s) && s in bodies && OnBranch(s, n);
        StopUnique(rules, bodies, best, Last(attach), s, attach[k]);
      }
      FailedClean(st, attach, k, n);
    }
  }

  lemma FailedClean(st: Statuses, attach: seq<Node>, k: nat, n: Node)
    requires k < |attach| && Linked(attach) && attach[k] in st
    ensures Clean(FailedAt(st, attach, k), n) <==> Clean(st, n) && !OnBranch(attach[k], n)
  {
    hide OnBranch, Linked, SetOf;
    SetOfAbove(attach, k);
    forall a | a in SetOf(attach[k + 1..]) && OnBranch(a, n)
      ensures OnBranch(attach[k], n)
    {
      BranchTransitive(attach[k], a, n);
    }
  }

  lemma PassedJudged(rules: Rules, st: Statuses, bodies: set<Node>, best: View, tip: Node, ns: set<Node>,
                     gone: set<Node>)
    requires Passes(rules, bodies, best, tip)
    ensures Judged(rules, st, bodies, best, tip, Cleared(Flagged(st, ns, VALID), gone, DATA_STORED))
  {
    hide LedgerOf, StopsAt, Passes, Judged, Truthful, Cleared, Flagged, SameVerdicts;
    SwitchVerdicts(rules, st, ns, gone);
    forall s
      ensures !StopsAt(rules, bodies, best, tip, s)
    {
      PassesNoStop(rules, bodies, best, tip, s);
    }
    VerdictsJudged(rules, st, bodies, best, tip, Cleared(Flagged(st, ns, VALID), gone, DATA_STORED));
  }

  /** The verification stopped at a block of the list. */
  lemma StoppedJudged(rules: Rules, st: Statuses, bodies: set<Node>, best: View, detach: seq<Node>, attach: seq<Node>,
                      k: nat, err: Option<ChainError>)
    requires best != [] && IsView(best) && ReorgLists(best, detach, attach) && k < |attach|
    requires (forall n :: n in attach <==> ToAttach(best, Last(attach), n)) && (forall n <- attach :: n in st)
    requires Attachable(st, best, Last(attach))
    requires forall j :: 0 <= j < k ==> attach[j] in bodies && LedgerOf(rules, attach[j]).Some?
    requires attach[k] !in bodies || LedgerOf(rules, attach[k]).None?
    requires err == Some(if attach[k] in bodies then RuleError else MissingData)
    ensures !Passes(rules, bodies, best, Last(attach)) && TrialError(rules, st, bodies, best, Last(attach), err)
    ensures var st' := if attach[k] !in bodies then Flagged(st, SetOf(attach[..k]), VALID) else FailedAt(st, attach, k);
            Judged(rules, st, bodies, best, Last(attach), st')
  {
    hide LedgerOf, StopsAt, Passes, Judged, Flagged, FailedAt, ToAttach, OnBranch, IsView, ReorgLists, Attachable,
      SameVerdicts, SetOf;
    StopsHere(rules, bodies, best, detach, attach, k);
    StoppedFails(rules, bodies, best, Last(attach), attach[k]);
    ForkFacts(best, detach, attach);
    hide Linked;
    if attach[k] in bodies {
      FailedJudged(rules, st, bodies, best, attach, k);
    } else {
      forall s | StopsAt(rules, bodies, best, Last(attach), s)
        ensures s !in bodies
      {
        StopUnique(rules, bodies, best, Last(attach), s, attach[k]);
      }
      VerdictsFlagged(st, SetOf(attach[..k]), VALID);
      VerdictsJudged(rules, st, bodies, best, Last(attach), Flagged(st, SetOf(attach[..k]), VALID));
    }
  }
}
