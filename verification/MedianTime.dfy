/** Past median time, and why it never goes backwards along a branch. */
module MedianTime {
  import opened BlockNodes

  const MEDIAN_TIME_BLOCKS := 11

  // -------------------------------------------------------- specification

  /** The timestamps of `n` and of its ancestors, `window` of them or all there are, newest first. */
  function Window(n: Node, window: nat): (w: seq<int>)
    ensures |w| == if window <= n.Height() + 1 then window else n.Height() + 1
  {
    if window == 0 then []
    else if n.Genesis? then [n.header.timestamp]
    else [n.header.timestamp] + Window(n.parent, window - 1)
  }

  predicate Sorted(s: seq<int>) {
    forall i, j :: 0 <= i < j < |s| ==> s[i] <= s[j]
  }

  function InsertSorted(s: seq<int>, x: int): (r: seq<int>) {
    if s == [] || x <= s[0] then [x] + s else [s[0]] + InsertSorted(s[1..], x)
  }

  /** The sorted permutation of `s`, as the library sort produces it; see `SortLaws`. */
  function Sort(s: seq<int>): (r: seq<int>) {
    if s == [] then [] else InsertSorted(Sort(s[1..]), s[0])
  }

  /** The element at index `|w| / 2` of the sorted window: for an even count, the upper middle one. */
  function Median(n: Node, window: nat): int
    requires window > 0
  {
    SortLaws(Window(n, window));
    Sort(Window(n, window))[|Window(n, window)| / 2]
  }

  lemma SortedCons(x: int, s: seq<int>)
    requires Sorted(s) && forall i :: 0 <= i < |s| ==> x <= s[i]
    ensures Sorted([x] + s)
  {
  }

  lemma {:induction false} InsertLaws(s: seq<int>, x: int)
    requires Sorted(s)
    ensures Sorted(InsertSorted(s, x)) && multiset(InsertSorted(s, x)) == multiset(s) + multiset{x}
    ensures |InsertSorted(s, x)| == |s| + 1
  {
    if s != [] && x > s[0] {
      InsertLaws(s[1..], x);
      assert s == [s[0]] + s[1..];
      InsertAbove(s[1..], x, s[0], InsertSorted(s[1..], x));
    } else if s != [] {
      assert InsertSorted(s, x) == [x] + s;
      SortedCons(x, s);
    }
  }

  /** What is at least `low` before an insertion is so after it. */
  lemma InsertAbove(s: seq<int>, x: int, low: int, r: seq<int>)
    requires Sorted(r) && multiset(r) == multiset(s) + multiset{x}
    requires low <= x && forall i :: 0 <= i < |s| ==> low <= s[i]
    ensures Sorted([low] + r)
  {
    hide Sorted;
    forall i | 0 <= i < |r|
      ensures low <= r[i]
    {
      assert r[i] in multiset(r);
      assert r[i] == x || r[i] in s;
    }
    SortedCons(low, r);
  }

  lemma {:induction false} SortLaws(s: seq<int>)
    ensures Sorted(Sort(s)) && multiset(Sort(s)) == multiset(s) && |Sort(s)| == |s|
  {
    if s != [] {
      SortLaws(s[1..]);
      InsertLaws(Sort(s[1..]), s[0]);
      assert s == [s[0]] + s[1..];
    }
  }

  // ------------------------------------------------------------- counting

  /** How many elements are below `m`. */
  function Below(s: seq<int>, m: int): (c: nat)
    ensures c <= |s|
  {
    if s == [] then 0 else (if s[0] < m then 1 else 0) + Below(s[1..], m)
  }

  lemma {:induction false} BelowInsert(s: seq<int>, x: int, m: int)
    ensures Below(InsertSorted(s, x), m) == Below(s, m) + if x < m then 1 else 0
  {
    if s != [] && x > s[0] {
      BelowInsert(s[1..], x, m);
    }
  }

  lemma {:induction false} BelowSort(s: seq<int>, m: int)
    ensures Below(Sort(s), m) == Below(s, m)
  {
    if s != [] {
      BelowSort(s[1..], m);
      BelowInsert(Sort(s[1..]), s[0], m);
    }
  }

  /** In a sorted sequence, an element is at least `m` exactly when at most its index many are below `m`. */
  lemma {:induction false} RankSorted(s: seq<int>, i: nat, m: int)
    requires Sorted(s) && i < |s|
    ensures s[i] >= m <==> Below(s, m) <= i
  {
    if s[0] >= m {
      NoneBelow(s, m);
    } else if i > 0 {
      RankSorted(s[1..], i - 1, m);
    }
  }

  lemma {:induction false} NoneBelow(s: seq<int>, m: int)
    requires forall i :: 0 <= i < |s| ==> s[i] >= m
    ensures Below(s, m) == 0
  {
    if s != [] {
      NoneBelow(s[1..], m);
    }
  }

  /** The window holds the timestamps of the block and of its nearest ancestors. */
  lemma {:induction false} WindowAt(n: Node, window: nat, i: nat)
    requires i < |Window(n, window)|
    ensures i <= n.Height() && Window(n, window)[i] == AncestorAt(n, n.Height() - i).header.timestamp
  {
    if i > 0 {
      WindowAt(n.parent, window - 1, i - 1);
    }
  }

  /** The median splits its window: at most half of the timestamps are below it, and more than half are
      not above it.  Of an even number it is the upper middle one. */
  lemma MedianSplits(n: Node, window: nat)
    requires window > 0
    ensures var w, m := Window(n, window), Median(n, window);
            Below(w, m) <= |w| / 2 < Below(w, m + 1)
  {
    hide Window, Sort, Below;
    var w, m := Window(n, window), Median(n, window);
    SortLaws(w);
    RankSorted(Sort(w), |w| / 2, m);
    RankSorted(Sort(w), |w| / 2, m + 1);
    BelowSort(w, m);
    BelowSort(w, m + 1);
  }

  /** A longer window has at least as many timestamps below `m`. */
  lemma {:induction false} BelowWindow(n: Node, window: nat, m: int)
    ensures Below(Window(n, window), m) <= Below(Window(n, window + 1), m)
  {
    if window > 0 && n.Child? {
      BelowWindow(n.parent, window - 1, m);
    }
  }

  lemma MedianRank(n: Node, window: nat, m: int)
    requires window > 0
    ensures Median(n, window) >= m <==> Below(Window(n, window), m) <= |Window(n, window)| / 2
  {
    var w := Window(n, window);
    SortLaws(w);
    BelowSort(w, m);
    RankSorted(Sort(w), |w| / 2, m);
  }

  // ------------------------------------------------------------- theorems

  /** A block later than its parent's past median time does not lower the past median time. */
  lemma MedianStep(n: Node, window: nat)
    requires window > 0 && n.Child?
    requires n.header.timestamp > Median(n.parent, window)
    ensures Median(n, window) >= Median(n.parent, window)
  {
    hide Median, Node.Height;
    var m := Median(n.parent, window);
    MedianRank(n.parent, window, m);
    MedianRank(n, window, m);
    BelowWindow(n.parent, window - 1, m);
    assert Window(n, window)[1..] == Window(n.parent, window - 1);
  }

  /** Every block of the branch of `n` is later than its parent's past median time. */
  predicate TimesOk(n: Node, window: nat)
    requires window > 0
  {
    n.Child? ==> TimesOk(n.parent, window) && n.header.timestamp > Median(n.parent, window)
  }

  /** Past median time never decreases along a branch, for any window size. */
  lemma {:induction false} MedianMonotone(a: Node, n: Node, window: nat)
    requires window > 0 && TimesOk(n, window) && OnBranch(a, n)
    ensures Median(a, window) <= Median(n, window)
  {
    if a != n {
      MedianMonotone(a, n.parent, window);
      MedianStep(n, window);
    }
  }

  /** With the window of the program the rule also keeps every block later than the median of
      each of its ancestors. */
  lemma LaterThanEveryMedian(a: Node, n: Node)
    requires TimesOk(n, MEDIAN_TIME_BLOCKS) && OnBranch(a, n) && a != n
    ensures n.header.timestamp > Median(a, MEDIAN_TIME_BLOCKS)
  {
    MedianMonotone(a, n.parent, MEDIAN_TIME_BLOCKS);
  }

  // ------------------------------------------------------------ algorithm

  /** The loop of the program over the last `window` ancestors. */
  method CalcPastMedianTime(node: Node, window: nat) returns (median: int)
    requires window > 0
    ensures median == Median(node, window)
  {
    hide Sort, Node.Height, Window;
    var timestamps := new int[window];
    var numNodes := FillTimestamps(node, timestamps);
    SortLaws(Window(node, window));
    var sorted := Sort(timestamps[..numNodes]);
    median := sorted[numNodes / 2];
  }

  /** Walks back from the node, storing timestamps until the array is full or genesis is passed. */
  method FillTimestamps(node: Node, timestamps: array<int>) returns (numNodes: nat)
    requires timestamps.Length > 0
    modifies timestamps
    ensures numNodes <= timestamps.Length && timestamps[..numNodes] == Window(node, timestamps.Length)
  {
    hide Window, Node.Height;
    var window := timestamps.Length;
    numNodes := 0;
    var iter := Some(node);
    ghost var done, left: seq<int> := [], Window(node, window);
    while numNodes < window && iter.Some?
      invariant numNodes <= window && timestamps[..numNodes] == done
      invariant left == if iter.Some? then Window(iter.value, window - numNodes) else []
      invariant done + left == Window(node, window)
      decreases window - numNodes
    {
      WindowStep(iter.value, window - numNodes);
      Regroup(done, left);
      timestamps[numNodes] := iter.value.header.timestamp;
      numNodes := numNodes + 1;
      done, left := done + [left[0]], left[1..];
      iter := if iter.value.Genesis? then None else Some(iter.value.parent);
    }
    if iter.Some? {
      WindowNone(iter.value);
    }
    assert done + [] == done;
  }

  lemma Regroup(done: seq<int>, left: seq<int>)
    requires left != []
    ensures (done + [left[0]]) + left[1..] == done + left
  {
  }

  lemma WindowStep(n: Node, k: nat)
    requires k > 0
    ensures Window(n, k) == [n.header.timestamp] + if n.Genesis? then [] else Window(n.parent, k - 1)
  {
  }

  lemma WindowNone(n: Node)
    ensures Window(n, 0) == []
  {
  }
}
