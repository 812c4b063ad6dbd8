/** What the program keeps about its best chain, and what it must equal: the result of replaying
    the blocks of that chain from genesis. */
module Ledger {
  import opened BlockNodes
  import opened Utxo
  import opened MedianTime

  /** The checks of a block against the unspent outputs before it that are not modelled here
      (scripts, amounts, maturity, sequence locks): an arbitrary predicate. */
  type Rules = (Node, UtxoSet) -> bool

  /** `checkConnectBlock`: the other rules, plus the ones the bookkeeping itself relies on. */
  predicate CheckConnect(rules: Rules, n: Node, u: UtxoSet) {
    && rules(n, u)
    && DistinctIds(n.header.block)
    && NoOverwrite(u, n.header.block)
    && ConnectBlock(u, n.header.block, n.Height()).Some?
  }

  datatype BestState = BestState(hash: Hash, height: nat, numTxns: nat, totalTxns: int, medianTime: int)

  /** The unspent outputs, the spend journal (one record per connected block) and the snapshot. */
  datatype Ledger = Ledger(utxo: UtxoSet, journal: map<Node, seq<Entry>>, best: BestState)

  function NumTxns(n: Node): nat {
    1 + |n.header.block.rest|
  }

  function NewBestState(n: Node, totalTxns: int): BestState {
    BestState(n.Hash(), n.Height(), NumTxns(n), totalTxns, Median(n, MEDIAN_TIME_BLOCKS))
  }

  /** Replays the branch of `n` from genesis, checking every block on the way. */
  function LedgerOf(rules: Rules, n: Node): Option<Ledger> {
    if n.Genesis? then Some(Ledger(map[], map[], NewBestState(n, NumTxns(n))))
    else
      match LedgerOf(rules, n.parent)
      case None => None
      case Some(l) =>
        if !CheckConnect(rules, n, l.utxo) then None
        else
          var c := ConnectBlock(l.utxo, n.header.block, n.Height()).value;
          Some(Ledger(c.utxo, l.journal[n := c.spent],
                      NewBestState(n, l.best.totalTxns + NumTxns(n))))
  }

  function TotalTxns(n: Node): nat {
    NumTxns(n) + if n.Genesis? then 0 else TotalTxns(n.parent)
  }

  /** The replay, read field by field: the snapshot is the tip's, the transaction total is the
      sum over the branch, and the journal has a record for exactly the non-genesis blocks, each
      with one entry per input the block spends. */
  lemma {:induction false} LedgerFields(rules: Rules, n: Node)
    requires LedgerOf(rules, n).Some?
    ensures LedgerOf(rules, n).value.best == NewBestState(n, TotalTxns(n))
    ensures forall a <- LedgerOf(rules, n).value.journal :: OnBranch(a, n) && a.Child?
    ensures forall a | OnBranch(a, n) && a.Child? :: a in LedgerOf(rules, n).value.journal
    ensures forall a <- LedgerOf(rules, n).value.journal ::
              |LedgerOf(rules, n).value.journal[a]| == CountSpent(a.header.block.rest)
  {
    if n.Child? {
      LedgerFields(rules, n.parent);
      var u := LedgerOf(rules, n.parent).value.utxo;
      UndoBlock(u, n.header.block, n.Height());
    }
  }

  /** The transaction total counts every transaction of every block of the branch, the coinbases and
      genesis included. */
  lemma {:induction false} TotalIsSum(n: Node)
    ensures TotalTxns(n) == Sum(TxCounts(Path(n)))
  {
    if n.Genesis? {
      assert TxCounts(Path(n)) == [NumTxns(n)];
    } else {
      TotalIsSum(n.parent);
      assert TxCounts(Path(n)) == TxCounts(Path(n.parent)) + [NumTxns(n)];
      SumConcat(TxCounts(Path(n.parent)), [NumTxns(n)]);
    }
  }

  function TxCounts(nodes: seq<Node>): seq<nat> {
    seq(|nodes|, i requires 0 <= i < |nodes| => |[nodes[i].header.block.coinbase] + nodes[i].header.block.rest|)
  }

  /** The ledger after connecting `n` to the chain that ends in its parent. */
  lemma LedgerChild(rules: Rules, n: Node, l: Ledger)
    requires n.Child? && LedgerOf(rules, n.parent) == Some(l) && CheckConnect(rules, n, l.utxo)
    ensures var c := ConnectBlock(l.utxo, n.header.block, n.Height()).value;
            LedgerOf(rules, n) == Some(Ledger(c.utxo, l.journal[n := c.spent],
                                              NewBestState(n, l.best.totalTxns + NumTxns(n))))
  {
    hide ConnectBlock, NewBestState, DistinctIds, NoOverwrite;
  }

  lemma LedgerParent(rules: Rules, n: Node)
    requires n.Child? && LedgerOf(rules, n).Some?
    ensures LedgerOf(rules, n.parent).Some?
    ensures CheckConnect(rules, n, LedgerOf(rules, n.parent).value.utxo)
  {
  }

  /** Every block below a replayable one is replayable. */
  lemma {:induction false} LedgerBelow(rules: Rules, a: Node, n: Node)
    requires LedgerOf(rules, n).Some? && OnBranch(a, n)
    ensures LedgerOf(rules, a).Some?
  {
    if a != n {
      LedgerBelow(rules, a, n.parent);
    }
  }

  /** The journal record of a block stays the same while blocks are connected above it. */
  lemma {:induction false} LedgerJournal(rules: Rules, a: Node, n: Node)
    requires LedgerOf(rules, n).Some? && OnBranch(a, n) && a.Child?
    ensures LedgerOf(rules, a).Some? && a in LedgerOf(rules, a).value.journal && a in LedgerOf(rules, n).value.journal
    ensures LedgerOf(rules, n).value.journal[a] == LedgerOf(rules, a).value.journal[a]
    ensures |LedgerOf(rules, n).value.journal[a]| == CountSpent(a.header.block.rest)
  {
    LedgerFields(rules, n);
    if a != n {
      LedgerParent(rules, n);
      LedgerChild(rules, n, LedgerOf(rules, n.parent).value);
      LedgerJournal(rules, a, n.parent);
    }
  }

  /** Disconnecting the tip with its own journal record gives the replay of its parent. */
  lemma LedgerUndo(rules: Rules, n: Node, l: Ledger)
    requires n.Child? && LedgerOf(rules, n) == Some(l)
    ensures n in l.journal && |l.journal[n]| == CountSpent(n.header.block.rest)
    ensures LedgerOf(rules, n.parent) ==
            Some(Ledger(DisconnectBlock(l.utxo, n.header.block, l.journal[n]),
                        l.journal - {n},
                        NewBestState(n.parent, l.best.totalTxns - NumTxns(n))))
  {
    hide LedgerOf, ConnectBlock, DisconnectBlock, DistinctIds, NoOverwrite, Lost, Median;
    LedgerParent(rules, n);
    var p := LedgerOf(rules, n.parent).value;
    LedgerChild(rules, n, p);
    LedgerFields(rules, n.parent);
    LedgerFields(rules, n);
    UndoBlock(p.utxo, n.header.block, n.Height());
    NothingLost(p.utxo, n.header.block, n.Height());
    assert n !in p.journal by {
      if n in p.journal {
        BranchWork(n, n.parent);
      }
    }
    assert l.journal - {n} == p.journal;
  }
}
