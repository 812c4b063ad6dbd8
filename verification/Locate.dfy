/** Answers to getblocks and getheaders, and the interval lookup behind getcfcheckpt. */
module Locate {
  import opened BlockNodes
  import opened ChainView

  /** What the lookups read: the block index and the best chain. */
  datatype Chain = Chain(index: map<Hash, Node>, best: View)
  {
    ghost predicate Valid() {
      && best != [] && IsView(best)
      && (forall h <- index :: index[h].Hash() == h && SkipsOk(index[h]))
      && (forall i :: 0 <= i < |best| ==> best[i].Hash() in index && index[best[i].Hash()] == best[i])
    }

    function Lookup(h: Hash): Option<Node> {
      if h in index then Some(index[h]) else None
    }
  }

  function Hashes(nodes: seq<Node>): (hs: seq<Hash>)
    ensures |hs| == |nodes|
    ensures forall i :: 0 <= i < |nodes| ==> hs[i] == nodes[i].Hash()
  {
    seq(|nodes|, i requires 0 <= i < |nodes| => nodes[i].Hash())
  }

  // -------------------------------------------------------- specification

  /** The height of the first locator hash that is on the best chain; 0 when there is none. */
  function KnownHeight(c: Chain, locator: seq<Hash>): (h: nat)
    requires c.best != []
    ensures h < |c.best|
  {
    if locator == [] then 0
    else if c.Lookup(locator[0]).Some? && Contains(c.best, c.Lookup(locator[0]).value)
    then c.Lookup(locator[0]).value.Height()
    else KnownHeight(c, locator[1..])
  }

  /** The first locator hash that is on the best chain is the one that counts: no earlier one is. */
  lemma {:induction false} KnownHeightMeans(c: Chain, locator: seq<Hash>, i: nat)
    requires c.best != [] && i < |locator|
    requires forall j :: 0 <= j < i ==> !OnBest(c, locator[j])
    ensures OnBest(c, locator[i]) ==> KnownHeight(c, locator) == c.index[locator[i]].Height()
    ensures !OnBest(c, locator[i]) && i == |locator| - 1 ==> KnownHeight(c, locator) == 0
  {
    assert locator[0] == locator[0..][0];
    if i > 0 {
      assert !OnBest(c, locator[0]);
      KnownHeightMeans(c, locator[1..], i - 1);
    }
  }

  predicate OnBest(c: Chain, h: Hash) {
    h in c.index && Contains(c.best, c.index[h])
  }

  /** One past the last height of a reply that starts at `start`: the stop block when it is on
      the best chain and not before `start`, else the tip. */
  function EndHeight(c: Chain, start: nat, stop: Hash): (e: nat)
    requires start <= |c.best|
    ensures start <= e <= |c.best|
  {
    var s := c.Lookup(stop);
    if s.Some? && Contains(c.best, s.value) && s.value.Height() >= start
    then s.value.Height() + 1
    else |c.best|
  }

  /** The contiguous segment of the best chain that answers a request with a locator. */
  function Segment(c: Chain, locator: seq<Hash>, stop: Hash, max: nat): (s: seq<Node>)
    requires c.best != []
  {
    var start := KnownHeight(c, locator) + 1;
    var end := EndHeight(c, start, stop);
    c.best[start..if end - start > max then start + max else end]
  }

  // ------------------------------------------------------------ algorithm

  /** The first locator block that is on the best chain, or genesis. */
  method FirstKnown(c: Chain, locator: seq<Hash>) returns (node: Node)
    requires c.Valid()
    ensures Contains(c.best, node) && node.Height() == KnownHeight(c, locator)
  {
    hide IsView;
    var i := 0;
    while i < |locator|
      invariant 0 <= i <= |locator|
      invariant KnownHeight(c, locator) == KnownHeight(c, locator[i..])
    {
      var found := c.Lookup(locator[i]);
      if found.Some? && Contains(c.best, found.value) {
        return found.value;
      }
      i := i + 1;
    }
    ViewAt(c.best, 0);
    node := c.best[0];
  }

  method LocateInventory(c: Chain, locator: seq<Hash>, stop: Hash, max: nat)
    returns (start: Option<Node>, total: nat)
    requires c.Valid()
    ensures locator == [] ==> start == c.Lookup(stop) && total == if start.Some? then 1 else 0
    ensures locator != [] ==> total == |Segment(c, locator, stop, max)|
    ensures locator != [] ==> start == NodeByHeight(c.best, KnownHeight(c, locator) + 1)
  {
    var stopNode := c.Lookup(stop);
    if locator == [] {
      if stopNode.None? {
        return None, 0;
      }
      return stopNode, 1;
    }
    hide IsView, KnownHeight;
    var startNode := FirstKnown(c, locator);
    start := Next(c.best, startNode);
    if start.None? {
      return None, 0;
    }
    ViewAt(c.best, startNode.Height() + 1);
    total := |c.best| - 1 - start.value.Height() + 1;
    if stopNode.Some? && Contains(c.best, stopNode.value)
       && stopNode.value.Height() >= start.value.Height() {
      total := stopNode.value.Height() - start.value.Height() + 1;
    }
    if total > max {
      total := max;
    }
  }

  lemma NextInSegment(c: Chain, locator: seq<Hash>, stop: Hash, max: nat, i: nat)
    requires c.Valid() && i + 1 < |Segment(c, locator, stop, max)|
    ensures Next(c.best, Segment(c, locator, stop, max)[i]) == Some(Segment(c, locator, stop, max)[i + 1])
  {
    hide IsView, KnownHeight, EndHeight, SkipsOk;
    ViewAt(c.best, KnownHeight(c, locator) + 1 + i);
  }

  method LocateBlocks(c: Chain, locator: seq<Hash>, stop: Hash, max: nat) returns (hashes: seq<Hash>)
    requires c.Valid()
    ensures locator == [] ==> hashes == if stop in c.index then [stop] else []
    ensures locator != [] ==> hashes == Hashes(Segment(c, locator, stop, max))
  {
    hide IsView, KnownHeight, EndHeight;
    var start, total := LocateInventory(c, locator, stop, max);
    hashes := [];
    if total == 0 {
      return;
    }
    var node := start;
    var i := 0;
    ghost var nodes := if locator == [] then [start.value] else Segment(c, locator, stop, max);
    while i < total
      invariant 0 <= i <= total == |nodes|
      invariant i < total ==> node == Some(nodes[i])
      invariant hashes == Hashes(nodes)[..i]
    {
      hashes := hashes + [node.value.Hash()];
      if i + 1 < total {
        NextInSegment(c, locator, stop, max, i);
      }
      node := Next(c.best, node.value);
      i := i + 1;
    }
    assert Hashes(nodes)[..total] == Hashes(nodes);
  }

  // ------------------------------------------------------------- theorems

  lemma DistinctHashes(c: Chain, from: nat)
    requires c.Valid() && from < |c.best|
    ensures var all := Hashes(c.best[from + 1..]);
            forall i, j :: 0 <= i < j < |all| ==> all[i] != all[j]
  {
    hide IsView;
    forall i, j | from < i < j < |c.best|
      ensures c.best[i].Hash() != c.best[j].Hash()
    {
      ViewAt(c.best, i);
      ViewAt(c.best, j);
    }
  }

  /** What a request without a known stop returns after the block at height `h`. */
  function PageAfter(best: View, h: nat, max: nat): seq<Node>
    requires h < |best|
  {
    best[h + 1..if |best| - h - 1 > max then h + 1 + max else |best|]
  }

  /** A locator holding one best-chain hash starts the reply right after that block. */
  lemma AfterKnown(c: Chain, h: nat, stop: Hash, max: nat)
    requires c.Valid() && h < |c.best| && stop !in c.index
    ensures Segment(c, [c.best[h].Hash()], stop, max) == PageAfter(c.best, h, max)
  {
    hide IsView, SkipsOk;
    ViewAt(c.best, h);
  }

  /** The end of a page and the page itself extend what was received so far. */
  lemma PageExtends(best: View, from: nat, h: nat, max: nat)
    requires from <= h < |best| && max >= 1
    ensures var p := PageAfter(best, h, max);
            && (p == [] <==> h + 1 == |best|)
            && h + |p| < |best|
            && (p != [] ==> p[|p| - 1] == best[h + |p|])
            && Hashes(best[from + 1..h + 1]) + Hashes(p) == Hashes(best[from + 1..h + |p| + 1])
  {
    var p := PageAfter(best, h, max);
    assert best[from + 1..h + |p| + 1] == best[from + 1..h + 1] + p;
    HashesConcat(best[from + 1..h + 1], p);
  }

  lemma HashesConcat(a: seq<Node>, b: seq<Node>)
    ensures Hashes(a + b) == Hashes(a) + Hashes(b)
  {
  }

  /** Asking again with the last hash received, until a reply is empty, yields every block after
      the start exactly once and in height order. */
  method PageThrough(c: Chain, from: nat, stop: Hash, max: nat) returns (all: seq<Hash>)
    requires c.Valid() && from < |c.best| && stop !in c.index && max >= 1
    ensures all == Hashes(c.best[from + 1..])
    ensures forall i, j :: 0 <= i < j < |all| ==> all[i] != all[j]
  {
    hide IsView, Segment, PageAfter;
    all := [];
    var last := c.best[from].Hash();
    ghost var h := from;
    AfterKnown(c, from, stop, max);
    var page := LocateBlocks(c, [last], stop, max);
    while page != []
      invariant from <= h < |c.best| && last == c.best[h].Hash()
      invariant all == Hashes(c.best[from + 1..h + 1])
      invariant page == Hashes(PageAfter(c.best, h, max))
      decreases |c.best| - h
    {
      PageExtends(c.best, from, h, max);
      all := all + page;
      last := page[|page| - 1];
      h := h + |page|;
      AfterKnown(c, h, stop, max);
      page := LocateBlocks(c, [last], stop, max);
    }
    PageExtends(c.best, from, h, max);
    assert c.best[from + 1..h + 1] == c.best[from + 1..];
    DistinctHashes(c, from);
  }

  /** A stop block that is on the chain after the start ends the reply, unless the limit does so first. */
  lemma StopsAtStop(c: Chain, locator: seq<Hash>, e: nat, max: nat)
    requires c.Valid() && KnownHeight(c, locator) < e < |c.best|
    ensures var start := KnownHeight(c, locator) + 1;
            Segment(c, locator, c.best[e].Hash(), max) ==
            c.best[start..if e + 1 - start > max then start + max else e + 1]
  {
    hide IsView, SkipsOk, KnownHeight;
    ViewAt(c.best, e);
  }

  /** A stop block at or before the start is ignored: the reply runs to the tip or the limit. */
  lemma StopBeforeStart(c: Chain, locator: seq<Hash>, e: nat, max: nat)
    requires c.Valid() && e <= KnownHeight(c, locator)
    ensures var start := KnownHeight(c, locator) + 1;
            Segment(c, locator, c.best[e].Hash(), max) ==
            c.best[start..if |c.best| - start > max then start + max else |c.best|]
  {
    hide IsView, SkipsOk, KnownHeight;
    ViewAt(c.best, e);
  }

  /** A stop block that is not on the best chain is ignored too. */
  lemma StopOffChain(c: Chain, locator: seq<Hash>, stop: Hash, max: nat)
    requires c.Valid() && !OnBest(c, stop)
    ensures var start := KnownHeight(c, locator) + 1;
            Segment(c, locator, stop, max) ==
            c.best[start..if |c.best| - start > max then start + max else |c.best|]
  {
    hide IsView, SkipsOk, KnownHeight;
  }

  // ------------------------------------------------------ interval lookup

  datatype LookupError = UnknownBlock | NotValidated

  datatype Result<+T> = Ok(value: T) | Err(error: LookupError)

  /** The ancestors of `n` (itself included) at heights interval, 2 * interval, ... */
  function IntervalNodes(n: Node, interval: nat): (r: seq<Node>)
    requires interval > 0
    ensures |r| == n.Height() / interval
  {
    seq(n.Height() / interval, i requires 0 <= i < n.Height() / interval =>
      IntervalFits(n.Height(), interval, i + 1);
      AncestorAt(n, Multiple(i + 1, interval)))
  }

  /** `a` is the block of the branch of `n` at the height of the `i`-th multiple, counted from 0. */
  ghost predicate Checkpoint(a: Node, n: Node, interval: nat, i: nat) {
    OnBranch(a, n) && a.Height() == (i + 1) * interval
  }

  /** The hashes of the blocks of the branch of `n` at the positive multiples of the interval, lowest
      first, and all of them. */
  ghost predicate AtIntervals(hashes: seq<Hash>, n: Node, interval: nat) {
    && (forall i: nat | i < |hashes| :: HasCheckpoint(hashes[i], n, interval, i))
    && (forall a, i: nat | Checkpoint(a, n, interval, i) :: i < |hashes| && hashes[i] == a.Hash())
  }

  ghost predicate HasCheckpoint(h: Hash, n: Node, interval: nat, i: nat) {
    exists a :: Checkpoint(a, n, interval, i) && h == a.Hash()
  }

  lemma IntervalsMean(n: Node, interval: nat)
    requires interval > 0
    ensures AtIntervals(Hashes(IntervalNodes(n, interval)), n, interval)
  {
    hide OnBranch, AncestorAt, Node.Height;
    var nodes := IntervalNodes(n, interval);
    var hashes := Hashes(nodes);
    forall i: nat | i < |hashes|
      ensures HasCheckpoint(hashes[i], n, interval, i)
    {
      IntervalFits(n.Height(), interval, i + 1);
      AncestorOnBranch(n, (i + 1) * interval);
      assert Checkpoint(nodes[i], n, interval, i);
    }
    forall a, i: nat | Checkpoint(a, n, interval, i)
      ensures i < |nodes| && nodes[i] == a
    {
      BranchIsAncestors(a, n);
      if i + 1 > n.Height() / interval {
        MultipleTooHigh(i + 1, interval, n.Height());
      }
    }
  }

  lemma AncestorOnBranch(n: Node, h: nat)
    requires h <= n.Height()
    ensures OnBranch(AncestorAt(n, h), n)
  {
    BranchIsAncestors(AncestorAt(n, h), n);
  }

  lemma MultipleTooHigh(k: nat, interval: nat, height: nat)
    requires interval > 0 && k > height / interval
    ensures k * interval > height
  {
    var q := height / interval;
    assert (q + 1) * interval > height;
    assert k * interval == (q + 1) * interval + (k - q - 1) * interval;
  }

  function Multiple(i: nat, interval: nat): nat {
    i * interval
  }

  lemma IntervalFits(height: nat, interval: nat, i: nat)
    requires interval > 0 && i <= height / interval
    ensures Multiple(i, interval) <= height
  {
    assert height / interval * interval <= height;
    assert i * interval <= height / interval * interval;
  }

  lemma MultipleStep(i: nat, interval: nat)
    requires i > 0
    ensures Multiple(i - 1, interval) <= Multiple(i, interval)
  {
  }

  lemma AncestorSelf(n: Node)
    ensures AncestorAt(n, n.Height()) == n
  {
  }

  /** On the best chain, the view entry at a height is the ancestor at that height. */
  lemma ViewBelow(v: View, n: Node, h: nat)
    requires IsView(v) && Contains(v, n) && h <= n.Height()
    ensures v[h] == AncestorAt(n, h)
  {
    ViewAt(v, n.Height());
    PathIsAncestors(n, h);
    assert v[h] == v[..n.Height() + 1][h];
  }

  /** The ancestor at `height`, read from the best-chain view when the node is on it. */
  method StepBack(c: Chain, node: Node, height: nat) returns (r: Node)
    requires c.Valid() && SkipsOk(node) && height <= node.Height()
    ensures r == AncestorAt(node, height)
  {
    if Contains(c.best, node) {
      ViewBelow(c.best, node, height);
      r := c.best[height];
    } else {
      var a, _ := Ancestor(node, height);
      r := a.value;
    }
  }

  /** Walks from the end block, switching to the best-chain view once the walk is on it. */
  method IntervalBlockHashes(c: Chain, knownValid: Node -> bool, endHash: Hash, interval: nat)
    returns (r: Result<seq<Hash>>)
    requires c.Valid() && interval > 0
    ensures r == if endHash !in c.index then Err(UnknownBlock)
                 else if !knownValid(c.index[endHash]) then Err(NotValidated)
                 else Ok(Hashes(IntervalNodes(c.index[endHash], interval)))
    ensures r.Ok? ==> endHash in c.index && AtIntervals(r.value, c.index[endHash], interval)
  {
    hide IsView, AncestorAt, SkipsOk, Multiple, AtIntervals, Node.Height;
    var found := c.Lookup(endHash);
    if found.None? {
      return Err(UnknownBlock);
    }
    var end := found.value;
    if !knownValid(end) {
      return Err(NotValidated);
    }
    ghost var spec := IntervalNodes(end, interval);
    IntervalsMean(end, interval);
    var index := end.Height() / interval;
    var hashes := seq(index, _ => 0);
    var node := end;
    AncestorSelf(end);
    IntervalFits(end.Height(), interval, index);
    while index > 0
      invariant 0 <= index <= |spec| == |hashes|
      invariant Multiple(index, interval) <= node.Height() <= end.Height()
      invariant node == AncestorAt(end, node.Height())
      invariant forall i :: index <= i < |spec| ==> hashes[i] == spec[i].Hash()
    {
      var height := Multiple(index, interval);
      AncestorOfAncestor(end, node.Height(), height);
      MultipleStep(index, interval);
      SkipsOkBelow(end, node.Height());
      node := StepBack(c, node, height);
      index := index - 1;
      hashes := hashes[index := node.Hash()];
    }
    assert hashes == Hashes(spec);
    r := Ok(hashes);
  }
}
