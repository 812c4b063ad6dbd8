/** What the methods of the block chain are specified with: the lists of a reorganization, the index,
    the verdicts on blocks, and the work and the bodies of side chains. */
module ChainSpec {
  import opened BlockNodes
  import opened ChainView
  import opened BlockTree
  import opened Ledger

  // -------------------------------------------------------- lists of nodes

  /** The nodes of the branch of `n` above height `h`, highest first. */
  function Down(n: Node, h: nat): (s: seq<Node>) {
    if n.Height() <= h then [] else [n] + Down(n.parent, h)
  }

  /** The nodes of the branch of `n` above height `h`, lowest first. */
  function Up(n: Node, h: nat): (s: seq<Node>) {
    if n.Height() <= h then [] else Up(n.parent, h) + [n]
  }

  lemma DownStep(n: Node, h: nat)
    ensures Down(n, h) == if n.Height() <= h then [] else [n] + Down(n.parent, h)
  {
  }

  lemma {:induction false} DownAt(n: Node, h: nat, i: nat)
    requires h <= n.Height()
    ensures |Down(n, h)| == n.Height() - h
    ensures i < |Down(n, h)| ==> Down(n, h)[i] == AncestorAt(n, n.Height() - i)
    ensures i < |Down(n, h)| ==> Down(n, h)[i].Child? && OnBranch(Down(n, h)[i], n)
  {
    if n.Height() > h {
      if i > 0 {
        DownAt(n.parent, h, i - 1);
      } else {
        DownAt(n.parent, h, 0);
      }
    }
  }

  lemma BranchReflexive(n: Node)
    ensures OnBranch(n, n)
  {
  }

  lemma {:induction false} DownExtend(top: Node, n: Node)
    requires OnBranch(n, top) && n.Child?
    ensures Down(top, n.parent.Height()) == Down(top, n.Height()) + [n]
    ensures OnBranch(n.parent, top) && n.parent.Height() < n.Height() <= top.Height()
  {
    if n == top {
      BranchStep(n.parent, n);
    } else {
      DownExtend(top.parent, n);
    }
  }

  lemma DownNext(top: Node, n: Node, h: nat, i: nat)
    requires OnBranch(n, top) && i == |Down(top, n.Height())| && i < |Down(top, h)|
    ensures Down(top, h)[i] == n
  {
    BranchIsAncestors(n, top);
    DownAt(top, n.Height(), i);
    DownStep(top, h);
    DownAt(top, h, i);
  }

  /** Consecutive elements of `Up` are parent and child, starting right above height `h`. */
  lemma UpLinks(n: Node, h: nat, i: nat)
    requires h <= n.Height() && i < |Up(n, h)|
    ensures Up(n, h)[i].Child? && Up(n, h)[i].Height() == h + 1 + i
    ensures i > 0 ==> Up(n, h)[i].parent == Up(n, h)[i - 1]
    ensures Up(n, h)[|Up(n, h)| - 1] == n
  {
    UpAt(n, h, i);
    UpAt(n, h, |Up(n, h)| - 1);
    if i > 0 {
      UpAt(n, h, i - 1);
    }
  }

  lemma {:induction false} UpAt(n: Node, h: nat, i: nat)
    requires h <= n.Height()
    ensures |Up(n, h)| == n.Height() - h
    ensures i < |Up(n, h)| ==> Up(n, h)[i] == AncestorAt(n, h + 1 + i)
    ensures i < |Up(n, h)| ==> Up(n, h)[i].Child? && OnBranch(Up(n, h)[i], n)
    ensures i < |Up(n, h)| ==> Up(n, h)[i].parent == AncestorAt(n, h + i)
  {
    if n.Height() > h {
      UpAt(n.parent, h, i);
    }
  }

  lemma {:induction false} UpFront(n: Node, h: nat)
    requires h < n.Height()
    ensures Up(n, h) == [AncestorAt(n, h + 1)] + Up(n, h + 1)
  {
    if h + 1 < n.Height() {
      UpFront(n.parent, h);
    }
  }

  lemma UpTop(n: Node)
    ensures Up(n, n.Height()) == []
  {
  }

  function Last(s: seq<Node>): Node
    requires s != []
  {
    s[|s| - 1]
  }

  lemma SetOfNone(s: seq<Node>)
    ensures SetOf(s[..0]) == {}
  {
  }

  lemma SetOfStep(s: seq<Node>, k: nat)
    requires k < |s|
    ensures SetOf(s[..k + 1]) == SetOf(s[..k]) + {s[k]}
    ensures SetOf(s[k..]) == {s[k]} + SetOf(s[k + 1..])
  {
    assert s[..k + 1] == s[..k] + [s[k]];
    assert s[k..] == [s[k]] + s[k + 1..];
  }

  /** The detach list walks the best chain from its tip without gaps. */
  ghost predicate Contiguous(detach: seq<Node>, tip: Node) {
    detach != [] ==> Last(detach).Child? && detach == Down(tip, Last(detach).parent.Height())
  }

  /** The lists describe a reorganization: when there is something to attach, the detach list
      ends, and the attach list starts, right above one node of the best chain. */
  ghost predicate ReorgLists(best: View, detach: seq<Node>, attach: seq<Node>)
    requires best != []
  {
    && (forall n <- detach :: n.Child? && n in best)
    && (attach != [] ==>
          && attach[0].Child?
          && Contains(best, attach[0].parent)
          && detach == Down(Tip(best), attach[0].parent.Height())
          && attach == Up(Last(attach), attach[0].parent.Height()))
  }

  /** Where a reorganization with these lists ends. */
  function Target(best: View, detach: seq<Node>, attach: seq<Node>): Node
    requires best != [] && (detach != [] ==> Last(detach).Child?)
  {
    if attach != [] then Last(attach)
    else if detach != [] then Last(detach).parent
    else Tip(best)
  }

  /** The list runs from child to child. */
  ghost predicate Linked(s: seq<Node>) {
    forall i :: 0 <= i < |s| ==> s[i].Child? && (i > 0 ==> s[i].parent == s[i - 1])
  }

  lemma LinkedUp(n: Node, h: nat)
    requires h <= n.Height()
    ensures Linked(Up(n, h))
    ensures forall i, j :: 0 <= i < j < |Up(n, h)| ==> Up(n, h)[i] != Up(n, h)[j]
  {
    forall i | 0 <= i < |Up(n, h)|
      ensures Up(n, h)[i].Child? && (i > 0 ==> Up(n, h)[i].parent == Up(n, h)[i - 1])
      ensures Up(n, h)[i].Height() == h + 1 + i
    {
      UpLinks(n, h, i);
    }
  }

  lemma {:induction false} LinkedBranch(s: seq<Node>, i: nat, j: nat)
    requires Linked(s) && i <= j < |s|
    ensures OnBranch(s[i], s[j]) && s[i].Height() <= s[j].Height()
  {
    if i < j {
      LinkedBranch(s, i, j - 1);
    }
  }

  /** A detach list down to a node of the best chain is contiguous and ends right above it. */
  lemma DownContiguous(tip: Node, h: nat)
    requires h <= tip.Height()
    ensures Contiguous(Down(tip, h), tip)
    ensures if Down(tip, h) == [] then AncestorAt(tip, h) == tip
            else Last(Down(tip, h)).parent == AncestorAt(tip, h)
  {
    hide OnBranch, AncestorAt, Down;
    var d := Down(tip, h);
    DownAt(tip, h, 0);
    AncestorStep(tip, h);
    if d != [] {
      DownAt(tip, h, |d| - 1);
      AncestorOfAncestor(tip, h + 1, h);
      AncestorStep(Last(d), h);
      AncestorStep(Last(d).parent, h);
    }
  }

  /** Detaching a list from the branch of `top` stopped before its `k`-th block, which was not the
      tip at that point. */
  ghost predicate Interrupted(top: Node, detach: seq<Node>, k: nat, tip: Node) {
    && k < |detach| && detach[k] != tip
    && OnBranch(tip, top) && detach[..k] == Down(top, tip.Height())
  }

  lemma NotStarted(top: Node, detach: seq<Node>)
    ensures detach != [] && detach[0] != top ==> Interrupted(top, detach, 0, top)
  {
    BranchReflexive(top);
    DownStep(top, top.Height());
  }

  lemma ContiguousFirst(detach: seq<Node>, tip: Node)
    requires Contiguous(detach, tip) && detach != []
    ensures detach[0] == tip
  {
    DownStep(tip, Last(detach).parent.Height());
  }

  // --------------------------------------------------------------- index

  ghost predicate IndexFor(root: Node, index: map<Hash, Node>, st: Statuses, bodies: set<Node>) {
    && Tree(st.Keys, root)
    && (forall h <- index :: index[h] in st && index[h].Hash() == h)
    && (forall n <- st :: n.Hash() in index && index[n.Hash()] == n)
    && DataOk(st, bodies)
  }

  lemma IndexSame(root: Node, index: map<Hash, Node>, st: Statuses, st': Statuses, bodies: set<Node>)
    requires IndexFor(root, index, st, bodies) && SameData(st, st')
    ensures IndexFor(root, index, st', bodies) && st.Keys == st'.Keys
  {
  }

  ghost predicate AllStored(v: View, bodies: set<Node>) {
    forall n <- v :: n in bodies
  }

  lemma StoredMoreAll(v: View, bodies: set<Node>)
    requires AllStored(v, bodies)
    ensures forall n :: AllStored(v, bodies + {n})
  {
  }

  lemma InViewWork(v: View, n: Node)
    requires v != [] && IsView(v) && Contains(v, n)
    ensures n.WorkSum() <= Tip(v).WorkSum()
  {
    hide IsView;
    ContainsIsBranch(v, n);
    BranchWork(n, Tip(v));
  }

  lemma TopOfView(n: Node)
    ensures Tip(Path(n)) == n && Contains(Path(n), n)
  {
  }

  // ------------------------------------------------------------ verdicts

  /** Nothing that was known to be invalid stopped being so. */
  ghost predicate InvalidGrows(st: Statuses, st': Statuses) {
    st.Keys == st'.Keys && forall n <- st :: st[n].KnownInvalid() ==> st'[n].KnownInvalid()
  }

  lemma GrowsFlagged(st: Statuses, ns: set<Node>, f: Status)
    ensures InvalidGrows(st, Flagged(st, ns, f))
  {
  }

  lemma GrowsCleared(st: Statuses, ns: set<Node>)
    ensures InvalidGrows(st, Cleared(st, ns, DATA_STORED))
  {
  }

  lemma FlaggedKnown(st: Statuses, n: Node)
    requires n in st
    ensures n in Flagged(st, {n}, VALIDATE_FAILED) && Flagged(st, {n}, VALIDATE_FAILED)[n].KnownInvalid()
  {
  }

  lemma GrowsSame(st: Statuses)
    ensures InvalidGrows(st, st)
  {
  }

  lemma GrowsKeys(a: Statuses, b: Statuses)
    requires InvalidGrows(a, b)
    ensures a.Keys == b.Keys
  {
  }

  lemma GrowsTransitive(a: Statuses, b: Statuses, c: Statuses)
    requires InvalidGrows(a, b) && InvalidGrows(b, c)
    ensures InvalidGrows(a, c)
  {
  }

  /** Every block marked valid can be replayed. */
  ghost predicate Replayable(rules: Rules, st: Statuses) {
    forall n <- st :: st[n].valid ==> LedgerOf(rules, n).Some?
  }

  lemma ReplayableFlagged(rules: Rules, st: Statuses, ns: set<Node>, f: Status)
    requires Replayable(rules, st)
    requires f.valid ==> forall n <- ns :: LedgerOf(rules, n).Some?
    ensures Replayable(rules, Flagged(st, ns, f)) && Flagged(st, ns, f).Keys == st.Keys
  {
  }

  lemma ReplayableCleared(rules: Rules, st: Statuses, ns: set<Node>)
    requires Replayable(rules, st)
    ensures Replayable(rules, Cleared(st, ns, DATA_STORED)) && Cleared(st, ns, DATA_STORED).Keys == st.Keys
  {
  }

  /** Marking blocks as invalid keeps the index and the meaning of the valid marks. */
  lemma FlagKeeps(rules: Rules, root: Node, index: map<Hash, Node>, st: Statuses, bodies: set<Node>,
                  ns: set<Node>, f: Status)
    requires IndexFor(root, index, st, bodies) && Replayable(rules, st) && !f.dataStored && !f.valid
    ensures IndexFor(root, index, Flagged(st, ns, f), bodies) && Replayable(rules, Flagged(st, ns, f))
    ensures Flagged(st, ns, f).Keys == st.Keys
  {
    FlaggedData(st, ns, f);
    IndexSame(root, index, st, Flagged(st, ns, f), bodies);
    ReplayableFlagged(rules, st, ns, f);
  }

  /** The marks of a verification that failed at the `k`-th block to attach. */
  function FailedAt(st: Statuses, attach: seq<Node>, k: nat): Statuses
    requires k < |attach|
  {
    Flagged(Flagged(Flagged(st, SetOf(attach[..k]), VALID), {attach[k]}, VALIDATE_FAILED),
            SetOf(attach[k + 1..]), INVALID_ANCESTOR)
  }

  /** `FailedAt`, node by node: the blocks to attach below the failed one are valid, the block itself
      failed validation, those above have an invalid ancestor, and nothing else changed. */
  lemma FailedAtMeans(st: Statuses, attach: seq<Node>, k: nat, n: Node)
    requires k < |attach| && n in st && forall i, j :: 0 <= i < j < |attach| ==> attach[i] != attach[j]
    ensures n in FailedAt(st, attach, k) && FailedAt(st, attach, k).Keys == st.Keys
    ensures var s := FailedAt(st, attach, k)[n];
            && (forall i :: 0 <= i < k && n == attach[i] ==> s == st[n].(valid := true))
            && (n == attach[k] ==> s == st[n].(validateFailed := true))
            && (forall i :: k < i < |attach| && n == attach[i] ==> s == st[n].(invalidAncestor := true))
            && (n !in attach ==> s == st[n])
  {
    assert attach == attach[..k] + [attach[k]] + attach[k + 1..];
    forall i | 0 <= i < |attach| && n == attach[i]
      ensures n in attach[..k] <==> i < k
      ensures n in attach[k + 1..] <==> i > k
    {
      if i < k {
        assert attach[..k][i] == n;
      }
      if i > k {
        assert attach[k + 1..][i - k - 1] == n;
      }
    }
  }

  lemma FailedAtData(st: Statuses, attach: seq<Node>, k: nat)
    requires k < |attach|
    ensures SameData(st, FailedAt(st, attach, k))
  {
    hide Flagged;
    var a := Flagged(st, SetOf(attach[..k]), VALID);
    var b := Flagged(a, {attach[k]}, VALIDATE_FAILED);
    FlaggedData(st, SetOf(attach[..k]), VALID);
    FlaggedData(a, {attach[k]}, VALIDATE_FAILED);
    FlaggedData(b, SetOf(attach[k + 1..]), INVALID_ANCESTOR);
  }

  /** After a failed verification the last block to attach is known to be invalid. */
  lemma FailedAtGrows(st: Statuses, attach: seq<Node>, k: nat)
    requires k < |attach| && Last(attach) in st
    ensures InvalidGrows(st, FailedAt(st, attach, k))
    ensures FailedAt(st, attach, k)[Last(attach)].KnownInvalid()
  {
    if k < |attach| - 1 {
      assert Last(attach) == attach[k + 1..][|attach| - k - 2];
    }
  }

  // ----------------------------------------------------------- acceptance

  /** A block hash commits to the header and to the parent: what the index holds under the hash
      of a block is the node of that very block. */
  ghost predicate Commits(index: map<Hash, Node>, header: Header, prev: Hash) {
    header.hash in index ==>
      var n := index[header.hash];
      n.header == header && (n.Child? ==> n.parent.Hash() == prev)
  }

  /** The index kept every entry, and has at most one new one, for this block. */
  ghost predicate IndexGrows(was: map<Hash, Node>, now: map<Hash, Node>, header: Header, prev: Hash) {
    && (forall h <- was :: h in now && now[h] == was[h])
    && (forall h <- now :: h in was || h == header.hash)
    && (header.hash in now && header.hash !in was ==>
          prev in was && now[header.hash].Child? && now[header.hash].header == header
          && now[header.hash].parent == was[prev])
  }

  lemma IndexGrowsNot(index: map<Hash, Node>, header: Header, prev: Hash)
    ensures IndexGrows(index, index, header, prev)
  {
  }

  lemma TreeOf(root: Node, index: map<Hash, Node>, st: Statuses, bodies: set<Node>)
    requires IndexFor(root, index, st, bodies)
    ensures Tree(st.Keys, root) && bodies <= st.Keys
  {
    hide SkipsOk;
  }

  /** A block that is not a duplicate is not stored, whatever node it gets. */
  lemma NotStored(root: Node, index: map<Hash, Node>, st: Statuses, bodies: set<Node>, n: Node)
    requires IndexFor(root, index, st, bodies)
    requires n.Hash() in index ==> index[n.Hash()] !in bodies
    ensures n !in bodies
  {
    hide SkipsOk;
  }

  lemma NotInView(v: View, bodies: set<Node>, n: Node)
    requires v != [] && IsView(v) && AllStored(v, bodies) && n !in bodies
    ensures !Contains(v, n)
  {
    hide IsView;
    ContainsIsBranch(v, n);
  }

  lemma IndexGrowsBy(index: map<Hash, Node>, n: Node, prev: Hash)
    ensures IndexGrows(index, index, n.header, prev)
    ensures n.Hash() !in index && n.Child? && prev in index && index[prev] == n.parent ==>
              IndexGrows(index, index[n.Hash() := n], n.header, prev)
  {
  }

  /** A new node keeps the tree, the hash lookup and the data bits consistent. */
  lemma AddKeeps(rules: Rules, root: Node, index: map<Hash, Node>, st: Statuses, bodies: set<Node>, n: Node, f: Status,
                 bodies': set<Node>)
    requires IndexFor(root, index, st, bodies) && Replayable(rules, st) && !f.valid
    requires n.Child? && n.parent in st && SkipsOk(n) && n.Hash() !in index
    requires bodies' == if f.dataStored then bodies + {n} else bodies
    ensures IndexFor(root, index[n.Hash() := n], st[n := f], bodies') && Replayable(rules, st[n := f])
    ensures n !in st
  {
    hide SkipsOk, LedgerOf;
    var index', st' := index[n.Hash() := n], st[n := f];
    assert st'.Keys == st.Keys + {n} && n !in st;
    assert Tree(st'.Keys, root);
    assert DataOk(st', bodies');
  }

  lemma UpgradeKeeps(rules: Rules, root: Node, index: map<Hash, Node>, st: Statuses, bodies: set<Node>, n: Node)
    requires IndexFor(root, index, st, bodies) && Replayable(rules, st) && n in st
    ensures var st' := Flagged(st, {n}, DATA_STORED);
            IndexFor(root, index, st', bodies + {n}) && Replayable(rules, st') && st'.Keys == st.Keys
  {
    hide SkipsOk, LedgerOf, Tree;
    ReplayableFlagged(rules, st, {n}, DATA_STORED);
  }

  // ----------------------------------------------------- forks and lists

  lemma MarkedUnclean(st: Statuses, a: Node, n: Node)
    requires (a == n || OnBranch(a, n)) && a in st && st[a].KnownInvalid()
    ensures !Clean(st, n)
  {
  }

  lemma BadStays(st: Statuses, st': Statuses, n: Node)
    requires InvalidGrows(st, st') && n in st && st[n].KnownInvalid()
    ensures n in st' && st'[n].KnownInvalid()
  {
  }

  lemma EmptyLists(best: View)
    requires best != []
    ensures ReorgLists(best, [], [])
  {
  }

  lemma AttachOnBranch(best: View, detach: seq<Node>, attach: seq<Node>, k: nat)
    requires best != [] && IsView(best) && ReorgLists(best, detach, attach) && k < |attach|
    ensures OnBranch(attach[k], Last(attach))
  {
    ForkFacts(best, detach, attach);
    LinkedBranch(attach, k, |attach| - 1);
  }

  /** What a reorganization's lists have in common with the best chain. */
  lemma ForkFacts(best: View, detach: seq<Node>, attach: seq<Node>)
    requires best != [] && IsView(best) && ReorgLists(best, detach, attach) && attach != []
    ensures var h := attach[0].parent.Height();
            && h <= Tip(best).Height() && AncestorAt(Tip(best), h) == attach[0].parent
            && h < Last(attach).Height() && Linked(attach)
            && (detach != [] ==> detach[0] == Tip(best))
  {
    var h := attach[0].parent.Height();
    ContainsIsBranch(best, attach[0].parent);
    BranchIsAncestors(attach[0].parent, Tip(best));
    LinkedUp(Last(attach), h);
    DownStep(Tip(best), h);
  }

  /** One step of the walk from `node` towards `f`. */
  lemma WalkStep(node: Node, n: Node, f: Node)
    requires OnBranch(f, n) && n != f && OnBranch(n, node)
    ensures n.Child? && OnBranch(f, n.parent) && OnBranch(n.parent, node)
    ensures Up(node, n.parent.Height()) == [n] + Up(node, n.Height())
  {
    BranchTransitive(n.parent, n, node);
    BranchIsAncestors(n, node);
    UpFront(node, n.Height() - 1);
  }

  lemma AboveFork(best: View, node: Node, f: Node, n: Node)
    requires best != [] && IsView(best) && IsFork(f, node, Tip(best))
    requires OnBranch(f, n) && n != f && OnBranch(n, node)
    ensures !Contains(best, n)
  {
    ContainsIsBranch(best, n);
    if OnBranch(n, f) {
      BranchWork(n, f);
      BranchWork(f, n);
    }
  }

  /** The blocks a reorganization to `tip` has to attach. */
  ghost predicate ToAttach(best: View, tip: Node, n: Node) {
    OnBranch(n, tip) && !Contains(best, n)
  }

  lemma AttachIs(best: View, node: Node, f: Node, n: Node)
    requires best != [] && IsView(best) && IsFork(f, node, Tip(best))
    ensures n in Up(node, f.Height()) <==> ToAttach(best, node, n)
  {
    var h := f.Height();
    BranchWork(f, node);
    ContainsIsBranch(best, n);
    if i :| 0 <= i < |Up(node, h)| && Up(node, h)[i] == n {
      UpAt(node, h, i);
      UpLinks(node, h, i);
      if OnBranch(n, f) {
        BranchWork(n, f);
      }
    }
    if ToAttach(best, node, n) {
      BranchWork(n, node);
      BranchIsAncestors(n, node);
      if n.Height() <= h {
        BranchLinear(n, f, node);
        BranchTransitive(n, f, Tip(best));
      }
      UpAt(node, h, n.Height() - h - 1);
    }
  }

  /** The lists that lead from the tip of `best` through `f` to `node`. */
  lemma ListsThrough(best: View, node: Node, f: Node)
    requires best != [] && IsView(best) && Contains(best, f) && OnBranch(f, node) && node != f
    ensures Up(node, f.Height()) != [] && Last(Up(node, f.Height())) == node
    ensures ReorgLists(best, Down(Tip(best), f.Height()), Up(node, f.Height()))
  {
    var h := f.Height();
    BranchWork(f, node);
    BranchIsAncestors(f, node);
    ContainsIsBranch(best, f);
    BranchWork(f, Tip(best));
    UpAt(node, h, 0);
    UpLinks(node, h, 0);
    var d := Down(Tip(best), h);
    forall i | 0 <= i < |d|
      ensures d[i].Child? && d[i] in best
    {
      DownAt(Tip(best), h, i);
      ContainsIsBranch(best, d[i]);
    }
  }

  // -------------------------------------------------------- switching tips

  /** No block to attach, nor the parent of the tip, is known to be invalid. */
  ghost predicate Attachable(st: Statuses, best: View, tip: Node) {
    && (tip.Child? ==> tip.parent in st && !st[tip.parent].KnownInvalid())
    && forall n | ToAttach(best, tip, n) :: n in st && !st[n].KnownInvalid()
  }

  /** All the blocks to attach are stored and the branch can be replayed. */
  ghost predicate Passes(rules: Rules, bodies: set<Node>, best: View, tip: Node) {
    LedgerOf(rules, tip).Some? && forall n | ToAttach(best, tip, n) :: n in bodies
  }

  lemma AttachableIs(st: Statuses, best: View, tip: Node, attach: seq<Node>)
    requires tip.Child? && tip.parent in st && !st[tip.parent].KnownInvalid()
    requires forall n :: n in attach <==> ToAttach(best, tip, n)
    requires forall n <- attach :: n in st && !st[n].KnownInvalid()
    ensures Attachable(st, best, tip)
  {
  }

  lemma NotAttachable(st: Statuses, best: View, tip: Node, bad: Node)
    requires tip.Child? && bad in st && st[bad].KnownInvalid() && OnBranch(bad, tip)
    requires bad == tip.parent || !Contains(best, bad)
    ensures !Attachable(st, best, tip)
  {
    if bad != tip.parent {
      assert ToAttach(best, tip, bad);
    }
  }

  /** A branch can be replayed only if all its blocks can. */
  lemma StoppedFails(rules: Rules, bodies: set<Node>, best: View, tip: Node, n: Node)
    requires ToAttach(best, tip, n) && (n !in bodies || LedgerOf(rules, n).None?)
    ensures !Passes(rules, bodies, best, tip)
  {
    if LedgerOf(rules, tip).Some? {
      LedgerBelow(rules, n, tip);
    }
  }

  lemma SwitchedPasses(rules: Rules, bodies: set<Node>, best: View, tip: Node, best': View, bodies': set<Node>)
    requires best' != [] && IsView(best') && Tip(best') == tip && AllStored(best', bodies') && bodies' <= bodies
    requires LedgerOf(rules, tip).Some?
    ensures Passes(rules, bodies, best, tip)
  {
    hide LedgerOf, IsView, OnBranch;
    forall n | ToAttach(best, tip, n)
      ensures n in bodies
    {
      ContainsIsBranch(best', n);
    }
  }

  lemma PassesIs(rules: Rules, bodies: set<Node>, best: View, tip: Node, attach: seq<Node>)
    requires LedgerOf(rules, tip).Some? && forall n <- attach :: n in bodies
    requires forall n :: n in attach <==> ToAttach(best, tip, n)
    ensures Passes(rules, bodies, best, tip)
  {
  }

  // --------------------------------------------------------- stale bodies

  /** The side-chain bodies a drop removes: stored blocks off the best chain, no higher than the
      drop height, that lead to an inactive tip no higher than the connected tip. */
  ghost function Stale(bodies: set<Node>, nodes: set<Node>, best: View, dropHeight: int): set<Node>
  {
    set n | n in bodies && !Contains(best, n) && n.Height() <= dropHeight
            && exists t :: InactiveTip(nodes, best, t) && t.Height() < |best| && OnBranch(n, t)
  }

  /** A drop never touches the best chain, nor any block above the drop height: neither the
      block being connected nor the blocks a running reorganization has yet to attach. */
  lemma StaleOffView(bodies: set<Node>, nodes: set<Node>, best: View, dropHeight: int, n: Node)
    requires IsView(best)
    ensures AllStored(best, bodies) ==> AllStored(best, bodies - Stale(bodies, nodes, best, dropHeight))
    ensures n.Height() > dropHeight ==> n !in Stale(bodies, nodes, best, dropHeight)
  {
    hide IsView;
    ViewInside(best);
  }

  /** The part of `Stale` on the branch of one inactive tip. */
  ghost function StaleOn(bodies: set<Node>, best: View, tip: Node, dropHeight: int): set<Node> {
    set n | n in bodies && !Contains(best, n) && n.Height() <= dropHeight && OnBranch(n, tip)
  }

  lemma StaleStep(bodies: set<Node>, best: View, n: Node, dropHeight: int)
    requires n.Child?
    ensures n !in StaleOn(bodies, best, n.parent, dropHeight)
    ensures StaleOn(bodies, best, n, dropHeight) ==
            StaleOn(bodies, best, n.parent, dropHeight) +
            if n in bodies && !Contains(best, n) && n.Height() <= dropHeight then {n} else {}
  {
    if OnBranch(n, n.parent) {
      BranchWork(n, n.parent);
    }
  }

  lemma NothingStaleOn(bodies: set<Node>, best: View, n: Node, dropHeight: int)
    requires best != [] && IsView(best) && Contains(best, n)
    ensures StaleOn(bodies, best, n, dropHeight) == {}
  {
    forall a | OnBranch(a, n)
      ensures Contains(best, a)
    {
      ContainsIsBranch(best, n);
      ContainsIsBranch(best, a);
      BranchTransitive(a, n, Tip(best));
    }
  }

  ghost function StaleTips(bodies: set<Node>, best: View, tips: seq<Node>, dropHeight: int): set<Node> {
    set n | n in bodies && !Contains(best, n) && n.Height() <= dropHeight
            && exists t <- tips :: t.Height() < |best| && OnBranch(n, t)
  }

  lemma StaleAsTips(bodies: set<Node>, nodes: set<Node>, best: View, tips: seq<Node>, dropHeight: int)
    requires forall t :: t in tips <==> InactiveTip(nodes, best, t)
    ensures Stale(bodies, nodes, best, dropHeight) == StaleTips(bodies, best, tips, dropHeight)
    ensures StaleTips(bodies, best, tips[..0], dropHeight) == {}
    ensures forall t <- tips :: t in nodes
  {
  }

  lemma StaleTipsStep(bodies: set<Node>, best: View, tips: seq<Node>, i: nat, gone: set<Node>, dropHeight: int)
    requires i < |tips|
    ensures gone <= StaleTips(bodies, best, tips[..i], dropHeight) ==>
              StaleTips(bodies, best, tips[..i + 1], dropHeight) ==
              StaleTips(bodies, best, tips[..i], dropHeight) +
              if tips[i].Height() < |best| then StaleOn(bodies - gone, best, tips[i], dropHeight) else {}
  {
    assert tips[..i + 1] == tips[..i] + [tips[i]];
  }
}
