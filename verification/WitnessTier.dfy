/** The hot and the cold tier of block storage: a block that falls out of the witness buffer moves to
    the cold tier, which keeps it without witness data, and the indexes that hold byte offsets into
    the block are rewritten to match. */
module WitnessTier {
  import opened BlockNodes
  import opened ChainView

  /** An index entry points into the block with, or without, its witness data. */
  datatype Offset = Full | Stripped

  type Entries = map<Node, seq<Offset>>

  /** What goes wrong in the database while one block is connected. */
  datatype Faults = Faults(
    indexFails: bool,                // adding the index entries of the connected block
    tierUnknown: bool,               // asking for the tier of the block that falls out
    fetchFails: bool,                // reading or parsing that block
    journalMissing: bool,            // its spend journal is gone
    compactFails: bool,              // queueing its move to the cold tier
    rewriteFailsAt: Option<nat>,     // the entry whose rewrite fails
    cancelFails: bool,               // taking the move back
    dropFails: bool)                 // dropping stale side-chain bodies

  /** What a database transaction is about to commit. */
  datatype Pending = Pending(cold: set<Node>, offsets: Entries)

  // -------------------------------------------------------- specification

  /** The first `k` entries point into the stripped block, the others are as before. */
  function Rewritten(s: seq<Offset>, k: nat): (r: seq<Offset>)
    requires k <= |s|
  {
    seq(k, i => Stripped) + s[k..]
  }

  /** The block that leaves the witness buffer when `node` is connected. */
  function FallsOut(best: View, witnessBuffer: int, node: Node): Option<Node> {
    if witnessBuffer <= 0 || node.Height() <= witnessBuffer then None
    else NodeByHeight(best, node.Height() - witnessBuffer)
  }

  /** The move to the cold tier is attempted. */
  predicate Attempted(p: Pending, a: Node, f: Faults) {
    a !in p.cold && !f.journalMissing && !f.compactFails
  }

  /** The rewrite of the entries of `a` stops before the last one. */
  predicate Stops(p: Pending, a: Node, f: Faults) {
    f.rewriteFailsAt.Some? && a in p.offsets && f.rewriteFailsAt.value < |p.offsets[a]|
  }

  /** The state to commit after age-out, or none when the whole transaction fails. */
  function AgedOut(best: View, witnessBuffer: int, node: Node, f: Faults, p: Pending): Option<Pending> {
    match FallsOut(best, witnessBuffer, node)
    case None => if witnessBuffer > 0 && node.Height() > witnessBuffer && f.dropFails then None else Some(p)
    case Some(a) =>
      if f.tierUnknown || f.dropFails || (a !in p.cold && f.fetchFails) then None
      else if !Attempted(p, a, f) then Some(p)
      else if a !in p.offsets then Some(p.(cold := p.cold + {a}))
      else if !Stops(p, a, f) then Some(Pending(p.cold + {a}, p.offsets[a := Rewritten(p.offsets[a], |p.offsets[a]|)]))
      else if f.cancelFails then None
      else Some(p.(offsets := p.offsets[a := Rewritten(p.offsets[a], f.rewriteFailsAt.value)]))
  }

  /** An entry points into the stripped block exactly when its block is cold. */
  ghost predicate Agree(p: Pending) {
    forall n <- p.offsets, o <- p.offsets[n] :: o == Stripped <==> n in p.cold
  }

  /** A rewrite of the entries of the block falling out fails after at least one of them was written. */
  predicate TornRewrite(best: View, witnessBuffer: int, node: Node, f: Faults, p: Pending) {
    var out := FallsOut(best, witnessBuffer, node);
    && out.Some? && Attempted(p, out.value, f) && Stops(p, out.value, f) && f.rewriteFailsAt.value > 0
  }

  /** Age-out keeps the tiers and the offsets in agreement if and only if no rewrite is torn. */
  lemma AgreementKept(best: View, witnessBuffer: int, node: Node, f: Faults, p: Pending)
    requires Agree(p) && AgedOut(best, witnessBuffer, node, f, p).Some?
    ensures Agree(AgedOut(best, witnessBuffer, node, f, p).value) <==> !TornRewrite(best, witnessBuffer, node, f, p)
  {
    var q := AgedOut(best, witnessBuffer, node, f, p).value;
    var out := FallsOut(best, witnessBuffer, node);
    if out.Some? && out.value in p.offsets {
      var a := out.value;
      forall n | n in p.offsets && n != a
        ensures q.offsets[n] == p.offsets[n] && (n in q.cold <==> n in p.cold)
      {
      }
      if TornRewrite(best, witnessBuffer, node, f, p) {
        assert q.offsets[a][0] == Stripped && Stripped in q.offsets[a] && a !in q.cold && a in q.offsets;
      } else if Attempted(p, a, f) && Stops(p, a, f) {
        assert Rewritten(p.offsets[a], 0) == p.offsets[a];
      }
    }
  }

  /** A torn rewrite does happen: the block stays hot, and its first entry is stripped. */
  lemma TornRewriteExample(g: Node, a: Node, n: Node)
    requires g.Genesis? && a.Child? && a.parent == g && n.Child? && n.parent == a
    ensures var p := Pending({}, map[a := [Full, Full]]);
            var f := Faults(false, false, false, false, false, Some(1), false, false);
            && Agree(p) && AgedOut([g, a], 1, n, f, p) == Some(Pending({}, map[a := [Stripped, Full]]))
            && !Agree(AgedOut([g, a], 1, n, f, p).value)
  {
    var p := Pending({}, map[a := [Full, Full]]);
    var f := Faults(false, false, false, false, false, Some(1), false, false);
    assert n.Height() == 2 && a.Height() == 1 && FallsOut([g, a], 1, n) == Some(a);
    var q := Pending({}, map[a := [Stripped, Full]]);
    assert Attempted(p, a, f) && Stops(p, a, f) && p.offsets[a := [Stripped, Full]] == q.offsets;
    assert Rewritten([Full, Full], 1) == [Stripped, Full];
    assert AgedOut([g, a], 1, n, f, p) == Some(q);
    assert Stripped in q.offsets[a] && a !in q.cold;
  }

  /** Age-out turns at most one block cold, and that one is exactly `witnessBuffer` below the block
      being connected; when nothing is skipped it is cold afterwards. */
  lemma AgesExactly(best: View, witnessBuffer: int, node: Node, f: Faults, p: Pending)
    requires AgedOut(best, witnessBuffer, node, f, p).Some?
    ensures var q := AgedOut(best, witnessBuffer, node, f, p).value;
            && q.offsets.Keys == p.offsets.Keys
            && (forall n <- p.offsets :: |q.offsets[n]| == |p.offsets[n]|)
            && match FallsOut(best, witnessBuffer, node)
               case None => q.cold == p.cold
               case Some(a) => q.cold == p.cold + {a} || (q.cold == p.cold && Skipped(f))
  {
  }

  /** The transaction fails exactly when a block is due and dropping stale bodies fails, or the tier of
      that block is unknown, or it is hot and cannot be read, or taking its move back fails after a
      rewrite that failed. */
  lemma FailsExactly(best: View, witnessBuffer: int, node: Node, f: Faults, p: Pending)
    requires best != [] && IsView(best) && node.Height() == |best|
    ensures AgedOut(best, witnessBuffer, node, f, p).None? <==>
            && 0 < witnessBuffer < node.Height()
            && var a := best[node.Height() - witnessBuffer];
               || f.dropFails || f.tierUnknown || (a !in p.cold && f.fetchFails)
               || (a !in p.cold && !f.journalMissing && !f.compactFails && f.cancelFails && a in p.offsets
                   && f.rewriteFailsAt.Some? && f.rewriteFailsAt.value < |p.offsets[a]|)
  {
    hide IsView;
    FallsOutHeight(best, witnessBuffer, node);
  }

  /** What a transaction that does not fail commits: only the block that falls out changes.  It turns
      cold, with all its entries stripped, exactly when it was hot, its journal is there, its move can
      be queued and no rewrite fails; a rewrite that fails leaves it hot with the entries before stripped. */
  lemma AgedOutMeans(best: View, witnessBuffer: int, node: Node, f: Faults, p: Pending, n: Node, i: nat)
    requires best != [] && IsView(best) && node.Height() == |best|
    requires AgedOut(best, witnessBuffer, node, f, p).Some?
    ensures var q := AgedOut(best, witnessBuffer, node, f, p).value;
            var due := 0 < witnessBuffer < node.Height() && n == best[node.Height() - witnessBuffer];
            var moves := due && n !in p.cold && !f.journalMissing && !f.compactFails;
            var stop := n in p.offsets && f.rewriteFailsAt.Some? && f.rewriteFailsAt.value < |p.offsets[n]|;
            && (n in q.cold <==> n in p.cold || (moves && !stop))
            && (n in q.offsets <==> n in p.offsets)
            && (n in p.offsets && i < |p.offsets[n]| ==>
                  && |q.offsets[n]| == |p.offsets[n]|
                  && q.offsets[n][i] == if moves && (stop ==> i < f.rewriteFailsAt.value) then Stripped
                                        else p.offsets[n][i])
  {
    hide IsView;
    FallsOutHeight(best, witnessBuffer, node);
  }

  /** Some fault makes age-out leave the block hot without failing the transaction. */
  predicate Skipped(f: Faults) {
    f.journalMissing || f.compactFails || f.rewriteFailsAt.Some?
  }

  // ---------------------------------------------------------------- store

  /** Rewrites the entries one after the other until one fails. */
  method RewriteTxOffsets(entries: seq<Offset>, failsAt: Option<nat>) returns (r: seq<Offset>, ok: bool)
    ensures ok <==> !(failsAt.Some? && failsAt.value < |entries|)
    ensures r == Rewritten(entries, if ok then |entries| else failsAt.value)
  {
    r := entries;
    for i := 0 to |entries|
      invariant failsAt.Some? ==> i <= failsAt.value
      invariant r == Rewritten(entries, i)
    {
      if failsAt == Some(i) {
        return r, false;
      }
      r := r[i := Stripped];
    }
    ok := true;
  }

  /** The best chain is stored, and its blocks above genesis are exactly the indexed ones. */
  ghost predicate Shape(units: Node -> nat, best: View, stored: set<Node>, cold: set<Node>, offsets: Entries) {
    && cold <= stored
    && (forall n <- best :: n in stored)
    && (forall n :: n in offsets <==> n in best && n.Child?)
    && (forall n <- offsets :: |offsets[n]| == units(n))
  }

  /** Offsets for a block being connected, relative to the bytes its tier holds. */
  function Indexed(units: Node -> nat, offsets: Entries, node: Node, cold: set<Node>): Entries {
    offsets[node := seq(units(node), i => if node in cold then Stripped else Full)]
  }

  lemma IndexedAgrees(units: Node -> nat, offsets: Entries, node: Node, cold: set<Node>)
    ensures Agree(Pending(cold, offsets)) && node !in offsets ==>
              Agree(Pending(cold, Indexed(units, offsets, node, cold)))
  {
  }

  lemma ShapeFacts(units: Node -> nat, best: View, stored: set<Node>, cold: set<Node>, offsets: Entries, node: Node)
    requires Shape(units, best, stored, cold, offsets)
    ensures cold <= stored && (forall n <- best :: n in stored) && (node !in best ==> node !in offsets)
  {
  }

  ghost predicate AgedFor(witnessBuffer: int, best: View, cold: set<Node>) {
    witnessBuffer > 0 ==> forall h | 0 < h < |best| - witnessBuffer :: best[h] in cold
  }

  ghost predicate DeepFor(witnessBuffer: int, cold: set<Node>, peak: int) {
    forall n <- cold :: witnessBuffer > 0 && n.Height() + witnessBuffer <= peak
  }

  lemma ConnectAges(witnessBuffer: int, best: View, cold: set<Node>, node: Node, peak: int, cold': set<Node>,
                    peak': int)
    requires best != [] && IsView(best) && node.Height() == |best| && peak <= peak' && node.Height() <= peak'
    requires cold' == cold
             || (0 < witnessBuffer < node.Height() && cold' == cold + {best[node.Height() - witnessBuffer]})
    ensures AgedFor(witnessBuffer, best, cold)
            && (0 < witnessBuffer < node.Height() ==> best[node.Height() - witnessBuffer] in cold')
            ==> AgedFor(witnessBuffer, best + [node], cold')
    ensures DeepFor(witnessBuffer, cold, peak) ==> DeepFor(witnessBuffer, cold', peak')
  {
    hide IsView;
    if 0 < witnessBuffer < node.Height() {
      ViewAt(best, node.Height() - witnessBuffer);
    }
  }

  lemma ConnectShape(units: Node -> nat, best: View, stored: set<Node>, cold: set<Node>, offsets: Entries, node: Node,
                     q: Pending)
    requires Shape(units, best, stored, cold, offsets) && node in stored && node.Child? && node !in best
    requires q.offsets.Keys == offsets.Keys + {node} && q.cold <= stored
    requires |q.offsets[node]| == units(node) && forall n <- offsets :: |q.offsets[n]| == |offsets[n]|
    ensures Shape(units, best + [node], stored, q.cold, q.offsets)
  {
  }

  lemma InViewNot(v: View, node: Node)
    requires v != [] && IsView(v) && node.Child? && node.parent == Tip(v)
    ensures node !in v && IsView(v + [node]) && node.Height() == |v|
  {
    ViewExtend(v, node);
    ContainsIsBranch(v, node);
  }

  lemma FallsOutHeight(v: View, witnessBuffer: int, node: Node)
    requires v != [] && IsView(v) && node.Height() == |v|
    ensures var out := FallsOut(v, witnessBuffer, node);
            && (out.Some? <==> 0 < witnessBuffer < node.Height())
            && (out.Some? ==> out.value == v[node.Height() - witnessBuffer] && out.value in v
                              && out.value.Height() == node.Height() - witnessBuffer)
  {
    if 0 < witnessBuffer < node.Height() {
      ViewAt(v, node.Height() - witnessBuffer);
    }
  }

  /** What connecting a block does to the tiers and the indexes. */
  lemma ConnectFacts(units: Node -> nat, witnessBuffer: int, best: View, stored: set<Node>, cold: set<Node>,
                     offsets: Entries, node: Node, f: Faults, q: Pending)
    requires best != [] && IsView(best) && Shape(units, best, stored, cold, offsets)
    requires node in stored && node.Child? && node !in best && node.Height() == |best|
    requires AgedOut(best, witnessBuffer, node, f, Pending(cold, Indexed(units, offsets, node, cold))) == Some(q)
    ensures Shape(units, best + [node], stored, q.cold, q.offsets)
    ensures if 0 < witnessBuffer < node.Height()
            then q.cold == cold + {best[node.Height() - witnessBuffer]} || (q.cold == cold && Skipped(f))
            else q.cold == cold
    ensures Agree(Pending(cold, offsets)) ==>
              (Agree(q) <==>
               !TornRewrite(best, witnessBuffer, node, f, Pending(cold, Indexed(units, offsets, node, cold))))
  {
    hide IsView, AgedOut, Shape, Agree, TornRewrite, FallsOut;
    ShapeFacts(units, best, stored, cold, offsets, node);
    IndexedAgrees(units, offsets, node, cold);
    var p := Pending(cold, Indexed(units, offsets, node, cold));
    AgesExactly(best, witnessBuffer, node, f, p);
    if Agree(p) {
      AgreementKept(best, witnessBuffer, node, f, p);
    }
    FallsOutHeight(best, witnessBuffer, node);
    ConnectShape(units, best, stored, cold, offsets, node, q);
  }

  class TierStore {
    const witnessBuffer: int
    const units: Node -> nat            // how many offset-bearing index entries a block has
    var bestChain: View
    var stored: set<Node>
    var cold: set<Node>
    var offsets: Entries
    ghost var peak: nat                 // the greatest height ever connected

    ghost predicate Valid()
      reads this
    {
      && bestChain != [] && IsView(bestChain) && |bestChain| - 1 <= peak
      && Shape(units, bestChain, stored, cold, offsets)
    }

    ghost predicate Consistent()
      reads this
    {
      Agree(Pending(cold, offsets))
    }

    /** Every best-chain block above the witness buffer has its ancestor that far below it cold. */
    ghost predicate Aged()
      reads this
    {
      AgedFor(witnessBuffer, bestChain, cold)
    }

    /** A cold block is at least the witness buffer below the greatest height ever connected. */
    ghost predicate ColdIsDeep()
      reads this
    {
      DeepFor(witnessBuffer, cold, peak)
    }

    constructor (genesis: Node, witnessBuffer: int, units: Node -> nat)
      requires genesis.Genesis?
      ensures Valid() && Consistent() && Aged() && ColdIsDeep() && bestChain == [genesis]
      ensures this.witnessBuffer == witnessBuffer && this.units == units
    {
      this.witnessBuffer := witnessBuffer;
      this.units := units;
      bestChain := [genesis];
      stored := {genesis};
      cold := {};
      offsets := map[];
      peak := 0;
    }

    /** Stores the body of a block off the best chain, hot or directly cold. */
    method StoreBlock(node: Node, toCold: bool)
      requires Valid() && node !in bestChain
      modifies `stored, `cold
      ensures Valid() && stored == old(stored) + {node}
      ensures cold == if toCold && node !in old(stored) then old(cold) + {node} else old(cold)
      ensures old(Consistent()) ==> Consistent()
      ensures old(Aged()) ==> Aged()
      ensures old(ColdIsDeep()) && !toCold ==> ColdIsDeep()
    {
      if node !in stored {
        stored := stored + {node};
        if toCold {
          cold := cold + {node};
        }
      }
    }

    /** Deletes bodies of blocks off the best chain. */
    method DeleteBlocks(gone: set<Node>)
      requires Valid() && forall n <- gone :: n !in bestChain
      modifies `stored, `cold
      ensures Valid() && stored == old(stored) - gone && cold == old(cold) - gone
      ensures old(Consistent()) ==> Consistent()
      ensures old(Aged()) ==> Aged()
      ensures old(ColdIsDeep()) ==> ColdIsDeep()
    {
      stored := stored - gone;
      cold := cold - gone;
    }

    /** Compacts the block that just left the hot window, inside a transaction. */
    method AgeOutFallenWindow(node: Node, f: Faults, p: Pending) returns (r: Option<Pending>)
      requires witnessBuffer > 0 && node.Height() > witnessBuffer ==> bestChain != []
      ensures r == AgedOut(bestChain, witnessBuffer, node, f, p)
    {
      if witnessBuffer <= 0 || node.Height() <= witnessBuffer {
        return Some(p);
      }
      var ageOutNode := NodeByHeight(bestChain, node.Height() - witnessBuffer);
      if ageOutNode.None? {
        return if f.dropFails then None else Some(p);
      }
      var a := ageOutNode.value;
      if f.tierUnknown {
        return None;
      }
      if a in p.cold {
        return if f.dropFails then None else Some(p);
      }
      r := CompactHotAgeOut(a, f, p);
      if r.Some? && f.dropFails {
        r := None;
      }
    }

    /** Moves a hot block to the cold tier and rewrites its index entries; a failed rewrite takes the
        move back. */
    method CompactHotAgeOut(a: Node, f: Faults, p: Pending) returns (r: Option<Pending>)
      requires a !in p.cold
      ensures r == if f.fetchFails then None
                   else if !Attempted(p, a, f) then Some(p)
                   else if a !in p.offsets then Some(p.(cold := p.cold + {a}))
                   else if !Stops(p, a, f)
                   then Some(Pending(p.cold + {a}, p.offsets[a := Rewritten(p.offsets[a], |p.offsets[a]|)]))
                   else if f.cancelFails then None
                   else Some(p.(offsets := p.offsets[a := Rewritten(p.offsets[a], f.rewriteFailsAt.value)]))
    {
      if f.fetchFails {
        return None;
      }
      if f.journalMissing || f.compactFails {
        return Some(p);
      }
      var cold := p.cold + {a};
      if a !in p.offsets {
        return Some(p.(cold := cold));
      }
      var entries, ok := RewriteTxOffsets(p.offsets[a], f.rewriteFailsAt);
      if ok {
        return Some(Pending(cold, p.offsets[a := entries]));
      }
      if f.cancelFails {
        return None;
      }
      assert cold - {a} == p.cold;
      r := Some(Pending(cold - {a}, p.offsets[a := entries]));
    }

    /** Connects a stored block: its index entries are relative to the tier it is in, then the block
        leaving the witness buffer ages out.  Nothing changes when the transaction fails. */
    method ConnectBlock(node: Node, f: Faults) returns (ok: bool)
      requires Valid() && node in stored && node.Child? && node.parent == Tip(bestChain)
      modifies `bestChain, `cold, `offsets, `peak
      ensures Valid()
      ensures !ok ==> unchanged(this)
      ensures ok ==> bestChain == old(bestChain) + [node] && node.Height() == |old(bestChain)|
      ensures ok ==>
                if 0 < witnessBuffer < node.Height()
                then cold == old(cold) + {bestChain[node.Height() - witnessBuffer]} || (cold == old(cold) && Skipped(f))
                else cold == old(cold)
      ensures ok && old(Consistent()) ==>
                (Consistent() <==>
                 !TornRewrite(old(bestChain), witnessBuffer, node, f,
                              Pending(old(cold), Indexed(units, old(offsets), node, old(cold)))))
      ensures old(Aged()) && !Skipped(f) ==> Aged()
      ensures old(ColdIsDeep()) ==> ColdIsDeep()
    {
      hide IsView, AgedOut, Shape, Agree, TornRewrite, FallsOut, AgedFor, DeepFor, Indexed, Skipped, Node.Height;
      InViewNot(bestChain, node);
      if f.indexFails {
        return false;
      }
      var p := Pending(cold, Indexed(units, offsets, node, cold));
      var r := AgeOutFallenWindow(node, f, p);
      if r.None? {
        return false;
      }
      ghost var peak' := if node.Height() > peak then node.Height() else peak;
      ConnectFacts(units, witnessBuffer, bestChain, stored, cold, offsets, node, f, r.value);
      ConnectAges(witnessBuffer, bestChain, cold, node, peak, r.value.cold, peak');
      cold, offsets, bestChain, peak := r.value.cold, r.value.offsets, bestChain + [node], peak';
      ok := true;
    }

    /** Disconnects the tip: its index entries go, the tier it is in stays. */
    method DisconnectBlock()
      requires Valid() && |bestChain| > 1
      modifies `bestChain, `offsets
      ensures Valid() && bestChain == old(bestChain)[..|old(bestChain)| - 1]
      ensures offsets == old(offsets) - {old(Tip(bestChain))}
      ensures old(Consistent()) ==> Consistent()
      ensures old(Aged()) ==> Aged()
      ensures old(ColdIsDeep()) ==> ColdIsDeep()
    {
      hide IsView;
      ShrunkView(bestChain);
      offsets := offsets - {Tip(bestChain)};
      bestChain := bestChain[..|bestChain| - 1];
    }

    lemma ShrunkView(v: View)
      requires IsView(v) && |v| > 1
      ensures IsView(v[..|v| - 1]) && Tip(v).Child? && Tip(v) !in v[..|v| - 1]
    {
      ViewAt(v, |v| - 2);
      ViewAt(v, |v| - 1);
      forall i | 0 <= i < |v| - 1
        ensures v[i] != Tip(v)
      {
        ViewAt(v, i);
      }
    }
  }

  // ----------------------------------------------------------------- runs

  datatype TierEvent =
    | Store(node: Node, toCold: bool)
    | Connect(node: Node, faults: Faults)
    | Disconnect
    | Delete(gone: set<Node>)

  /** Whether the chain makes this call in its current state. */
  predicate Possible(s: TierStore, e: TierEvent)
    reads s
  {
    match e
    case Store(node, _) => node !in s.bestChain
    case Connect(node, _) => s.bestChain != [] && node in s.stored && node.Child? && node.parent == Tip(s.bestChain)
    case Disconnect => |s.bestChain| > 1
    case Delete(gone) => forall n <- gone :: n !in s.bestChain
  }

  /** One step of a run. */
  method Step(s: TierStore, e: TierEvent)
    requires s.Valid() && Possible(s, e)
    modifies s
    ensures s.Valid()
    ensures old(s.Aged()) && !(e.Connect? && Skipped(e.faults)) ==> s.Aged()
    ensures old(s.ColdIsDeep()) && !(e.Store? && e.toCold) ==> s.ColdIsDeep()
    ensures old(s.Consistent()) && !MayTear(e) ==> s.Consistent()
  {
    match e {
      case Store(node, toCold) => s.StoreBlock(node, toCold);
      case Connect(node, faults) => var _ := s.ConnectBlock(node, faults);
      case Disconnect => s.DisconnectBlock();
      case Delete(gone) => s.DeleteBlocks(gone);
    }
  }

  /** Whole runs of stores, connects, disconnects and deletions from any valid state.  Without skipped
      age-outs every best-chain block above the witness buffer has its ancestor that far below it
      cold; with hot stores only, cold blocks are deep; without torn rewrites, a block is cold
      exactly when its index entries are stripped. */
  method RunTier(s: TierStore, events: seq<TierEvent>)
    requires s.Valid()
    modifies s
    ensures s.Valid()
    ensures old(s.Aged()) && (forall e <- events :: !(e.Connect? && Skipped(e.faults))) ==> s.Aged()
    ensures old(s.ColdIsDeep()) && (forall e <- events :: !(e.Store? && e.toCold)) ==> s.ColdIsDeep()
    ensures old(s.Consistent()) && (forall e <- events :: !MayTear(e)) ==> s.Consistent()
  {
    hide IsView, Shape, Agree, AgedFor, DeepFor, Skipped, MayTear;
    var i := 0;
    while i < |events|
      invariant 0 <= i <= |events| && s.Valid()
      invariant old(s.Aged()) && (forall e <- events :: !(e.Connect? && Skipped(e.faults))) ==> s.Aged()
      invariant old(s.ColdIsDeep()) && (forall e <- events :: !(e.Store? && e.toCold)) ==> s.ColdIsDeep()
      invariant old(s.Consistent()) && (forall e <- events :: !MayTear(e)) ==> s.Consistent()
    {
      if Possible(s, events[i]) {
        Step(s, events[i]);
      }
      i := i + 1;
    }
  }

  predicate MayTear(e: TierEvent) {
    e.Connect? && e.faults.rewriteFailsAt.Some? && e.faults.rewriteFailsAt.value > 0
  }

  /** With hot stores only, the tip is cold only after the best chain was unwound by at least the
      witness buffer from its greatest height. */
  lemma ColdTipIsUnwound(s: TierStore)
    requires s.Valid() && s.ColdIsDeep() && Tip(s.bestChain) in s.cold
    ensures 0 < s.witnessBuffer <= s.peak - (|s.bestChain| - 1)
  {
    ViewAt(s.bestChain, |s.bestChain| - 1);
  }
}
