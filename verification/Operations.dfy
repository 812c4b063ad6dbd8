/** Whole runs of the chain: arrivals of blocks and headers mixed with manual invalidation and
    reconsideration. */
module Operations {
  import opened BlockNodes
  import opened ChainView
  import opened BlockTree
  import opened Ledger
  import opened MedianTime
  import opened Outputs
  import opened ChainSpec
  import opened BlockChain
  import opened Trials
  import opened Invalidate
  import opened Reconsider

  datatype Command =
    | Arrive(event: Event)
    | InvalidateHash(hash: Hash)
    | ReconsiderHash(hash: Hash, cold: set<Node>)

  /** What a valid chain state means: unspent outputs, journal and snapshot are those of replaying
      the best chain; the unspent outputs are exactly those its transactions created and did not spend;
      the snapshot is the tip's, its transaction total counts the transactions of the best chain, and
      the journal has a record for exactly the blocks of the best chain above genesis. */
  lemma StateIsReplay(chain: BlockChain)
    requires chain.Valid()
    ensures LedgerOf(chain.rules, Tip(chain.bestChain)) == Some(Ledger(chain.utxo, chain.journal, chain.best))
    ensures chain.best.hash == Tip(chain.bestChain).Hash() && chain.best.height == |chain.bestChain| - 1
    ensures Holds(chain.utxo, History(Tip(chain.bestChain)))
    ensures chain.best.totalTxns == Sum(TxCounts(chain.bestChain))
    ensures chain.best.numTxns ==
            |[Tip(chain.bestChain).header.block.coinbase] + Tip(chain.bestChain).header.block.rest|
    ensures chain.best.medianTime == Median(Tip(chain.bestChain), 11)
    ensures forall n :: n in chain.journal <==> n in chain.bestChain && n.Child?
    ensures forall n <- chain.bestChain :: n in chain.bodies
  {
    hide IndexFor, Replayable, Holds, History, Median;
    var tip := Tip(chain.bestChain);
    LedgerFields(chain.rules, tip);
    LedgerHolds(chain.rules, tip);
    TotalIsSum(tip);
    forall n ensures n in chain.bestChain <==> OnBranch(n, tip) {
      ContainsIsBranch(chain.bestChain, n);
    }
    ViewAt(chain.bestChain, |chain.bestChain| - 1);
  }

  /** Every run keeps the chain valid, whatever arrives, whatever is invalidated or reconsidered,
      and however many bodies are dropped on the way; the node of a hash is never replaced, and the
      tip of the best header chain never loses work. */
  method RunCommands(chain: BlockChain, commands: seq<Command>, ghost events: seq<Event>)
    requires chain.Valid() && AllCommit(chain.index, events)
    requires forall c <- commands :: c.Arrive? ==> c.event in events
    modifies chain
    ensures chain.Valid()
    ensures Tip(chain.bestHeader).WorkSum() >= old(Tip(chain.bestHeader).WorkSum())
    ensures forall h <- old(chain.index) :: h in chain.index && chain.index[h] == old(chain.index[h])
  {
    hide LedgerOf, IsView, Replayable, AllStored, OnBranch, SkipsOk, IndexFor, Contains, Path, Commits, AllCommit,
      ActiveOutcome, Invalidated, Reconsidered, Attachable, AnyCold, Tried, InactiveTip;
    var i := 0;
    while i < |commands|
      invariant 0 <= i <= |commands|
      invariant chain.Valid() && AllCommit(chain.index, events)
      invariant Tip(chain.bestHeader).WorkSum() >= old(Tip(chain.bestHeader).WorkSum())
      invariant forall h <- old(chain.index) :: h in chain.index && chain.index[h] == old(chain.index[h])
    {
      match commands[i] {
        case Arrive(e) =>
          ghost var _ := ArriveOne(chain, e, events, false, {});
        case InvalidateHash(hash) =>
          var _, _ := InvalidateBlock(chain, hash);
        case ReconsiderHash(hash, cold) =>
          var _, _ := ReconsiderBlock(chain, hash, cold);
      }
      i := i + 1;
    }
  }
}
