/** What the unspent outputs and the spend journal of a replayed branch hold, told from the
    transactions of the branch alone. */
module Outputs {
  import opened BlockNodes
  import opened Utxo
  import opened Ledger

  // -------------------------------------------------------- specification

  /** A transaction of a branch, with the height of its block. */
  datatype Item = Item(tx: Tx, height: nat, coinbase: bool)

  predicate Creates(i: Item, o: OutPoint) {
    o.txid == i.tx.id && o.index < |i.tx.outputs| && !i.tx.outputs[o.index].unspendable
  }

  /** The coinbase spends nothing. */
  predicate Spends(i: Item, o: OutPoint) {
    !i.coinbase && o in i.tx.inputs
  }

  function OutputOf(i: Item, o: OutPoint): Entry
    requires Creates(i, o)
  {
    var out := i.tx.outputs[o.index];
    Entry(out.amount, out.script, i.height, i.coinbase)
  }

  function TxItems(txs: seq<Tx>, height: nat): (items: seq<Item>)
    ensures |items| == |txs|
  {
    seq(|txs|, j requires 0 <= j < |txs| => Item(txs[j], height, false))
  }

  function BlockItems(b: Block, height: nat): seq<Item> {
    [Item(b.coinbase, height, true)] + TxItems(b.rest, height)
  }

  /** The transactions of a branch in order, without those of genesis. */
  function History(n: Node): seq<Item> {
    if n.Genesis? then [] else History(n.parent) + BlockItems(n.header.block, n.Height())
  }

  /** The output `o` of the `i`-th transaction is spendable, and no later transaction spends it. */
  ghost predicate Unspent(h: seq<Item>, o: OutPoint, i: nat) {
    i < |h| && Creates(h[i], o) && forall j :: i < j < |h| ==> !Spends(h[j], o)
  }

  /** The set holds exactly the unspent outputs of the transactions, each as it was created. */
  ghost predicate Holds(u: UtxoSet, h: seq<Item>) {
    && (forall o <- u :: exists i: nat :: Unspent(h, o, i))
    && (forall o, i: nat | Unspent(h, o, i) :: o in u && u[o] == OutputOf(h[i], o))
  }

  // --------------------------------------------------------------- proofs

  lemma CreatedIs(tx: Tx, height: nat, coinbase: bool, o: OutPoint)
    ensures o in Created(tx) <==> Creates(Item(tx, height, coinbase), o)
    ensures o in Created(tx) ==> EntryOf(tx, o, height, coinbase) == OutputOf(Item(tx, height, coinbase), o)
  {
  }

  lemma UnspentMore(h: seq<Item>, it: Item, o: OutPoint, i: nat)
    ensures Unspent(h + [it], o, i) <==>
            if i < |h| then Unspent(h, o, i) && !Spends(it, o) else i == |h| && Creates(it, o)
  {
    var more := h + [it];
    if i < |h| && Unspent(h, o, i) && !Spends(it, o) {
      assert forall j :: i < j < |more| ==> !Spends(more[j], o);
    }
    if i < |h| && Unspent(more, o, i) {
      assert more[|h|] == it;
      assert forall j :: i < j < |h| ==> h[j] == more[j];
    }
  }

  /** One more transaction: what it spends goes, and what it creates, none of it unspent before, comes. */
  lemma HoldsMore(u: UtxoSet, h: seq<Item>, it: Item, left: UtxoSet, u': UtxoSet)
    requires Holds(u, h)
    requires left.Keys <= u.Keys && (forall o <- left :: left[o] == u[o])
    requires forall o <- u :: o in left <==> !Spends(it, o)
    requires forall o | Creates(it, o) :: o !in left && o in u' && u'[o] == OutputOf(it, o)
    requires forall o | !Creates(it, o) :: o in u' <==> o in left
    requires forall o <- left :: o in u' && u'[o] == left[o]
    ensures Holds(u', h + [it])
  {
    hide Creates, Spends, Unspent;
    forall o | o in u'
      ensures exists i: nat :: Unspent(h + [it], o, i)
    {
      UnspentMore(h, it, o, |h|);
      if !Creates(it, o) {
        var i: nat :| Unspent(h, o, i);
        UnspentLow(h, o, i);
        UnspentMore(h, it, o, i);
      }
    }
    var more := h + [it];
    forall o, i: nat | Unspent(more, o, i)
      ensures i < |more| && Creates(more[i], o) && o in u' && u'[o] == OutputOf(more[i], o)
    {
      UnspentMore(h, it, o, i);
      UnspentLow(more, o, i);
    }
  }

  lemma UnspentLow(h: seq<Item>, o: OutPoint, i: nat)
    requires Unspent(h, o, i)
    ensures i < |h| && Creates(h[i], o)
  {
  }

  lemma CoinbaseHolds(u: UtxoSet, h: seq<Item>, tx: Tx, height: nat)
    requires Holds(u, h) && Created(tx) !! u.Keys
    ensures Holds(AddOutputs(u, tx, height, true), h + [Item(tx, height, true)])
  {
    hide Holds, Creates;
    var it := Item(tx, height, true);
    forall o {
      CreatedIs(tx, height, true, o);
    }
    hide Created, EntryOf;
    HoldsMore(u, h, it, u, AddOutputs(u, tx, height, true));
  }

  lemma TxHolds(u: UtxoSet, h: seq<Item>, tx: Tx, height: nat)
    requires Holds(u, h) && SpendInputs(u, tx.inputs).Some?
    requires Created(tx) !! SpendInputs(u, tx.inputs).value.utxo.Keys
    ensures Holds(AddOutputs(SpendInputs(u, tx.inputs).value.utxo, tx, height, false), h + [Item(tx, height, false)])
  {
    SpendLaws(u, tx.inputs);
    hide Holds, Creates, SpendInputs;
    var it := Item(tx, height, false);
    forall o {
      CreatedIs(tx, height, false, o);
    }
    hide Created, EntryOf;
    var left := SpendInputs(u, tx.inputs).value.utxo;
    HoldsMore(u, h, it, left, AddOutputs(left, tx, height, false));
  }

  /** What is recorded of the inputs of one transaction: the entries they name. */
  lemma {:induction false} SpentEntries(u: UtxoSet, inputs: seq<OutPoint>, m: nat)
    requires SpendInputs(u, inputs).Some? && m < |inputs|
    ensures |SpendInputs(u, inputs).value.spent| == |inputs|
    ensures inputs[m] in u && SpendInputs(u, inputs).value.spent[m] == u[inputs[m]]
  {
    SpendLaws(u, inputs);
    if m > 0 {
      SpentEntries(u - {inputs[0]}, inputs[1..], m - 1);
    }
  }

  lemma FirstKept(u: UtxoSet, txs: seq<Tx>, height: nat)
    requires txs != [] && SpendInputs(u, txs[0].inputs).Some? && LostTxs(u, txs, height) == {}
    ensures var c := SpendInputs(u, txs[0].inputs).value;
            && Created(txs[0]) !! c.utxo.Keys
            && LostTxs(AddOutputs(c.utxo, txs[0], height, false), txs[1..], height) == {}
  {
    var c := SpendInputs(u, txs[0].inputs).value;
    var first := Created(txs[0]) * c.utxo.Keys;
    assert first <= LostTxs(u, txs, height);
    assert LostTxs(AddOutputs(c.utxo, txs[0], height, false), txs[1..], height) <= LostTxs(u, txs, height);
    forall o | o in Created(txs[0])
      ensures o !in c.utxo.Keys
    {
      assert o !in first;
    }
  }

  lemma {:induction false} TxsHold(u: UtxoSet, h: seq<Item>, txs: seq<Tx>, height: nat)
    requires Holds(u, h) && ConnectTxs(u, txs, height).Some? && LostTxs(u, txs, height) == {}
    ensures Holds(ConnectTxs(u, txs, height).value.utxo, h + TxItems(txs, height))
    decreases txs
  {
    hide Holds, SpendInputs;
    if txs == [] {
      assert h + TxItems(txs, height) == h;
    } else {
      var c := SpendInputs(u, txs[0].inputs).value;
      FirstKept(u, txs, height);
      TxHolds(u, h, txs[0], height);
      var first := Item(txs[0], height, false);
      TxsHold(AddOutputs(c.utxo, txs[0], height, false), h + [first], txs[1..], height);
      assert h + TxItems(txs, height) == h + [first] + TxItems(txs[1..], height);
    }
  }

  /** The journal of a run of transactions: the entry at the place of the `m`-th input of the `t`-th
      transaction is the output that the input names. */
  lemma {:induction false} TxsJournal(u: UtxoSet, h: seq<Item>, txs: seq<Tx>, height: nat, t: nat, m: nat)
    returns (i: nat)
    requires Holds(u, h) && ConnectTxs(u, txs, height).Some? && LostTxs(u, txs, height) == {}
    requires t < |txs| && m < |txs[t].inputs|
    ensures var p := CountSpent(txs[..t]) + m;
            var before := h + TxItems(txs[..t], height);
            var d := ConnectTxs(u, txs, height).value;
            && p < |d.spent| && Unspent(before, txs[t].inputs[m], i)
            && d.spent[p] == OutputOf(before[i], txs[t].inputs[m])
    decreases txs
  {
    hide Holds, SpendInputs, Unspent;
    var c := SpendInputs(u, txs[0].inputs).value;
    SpendLaws(u, txs[0].inputs);
    FirstKept(u, txs, height);
    TxHolds(u, h, txs[0], height);
    var first := Item(txs[0], height, false);
    var u' := AddOutputs(c.utxo, txs[0], height, false);
    var d, e := ConnectTxs(u, txs, height).value, ConnectTxs(u', txs[1..], height).value;
    assert d.spent == c.spent + e.spent;
    if t == 0 {
      assert h + TxItems(txs[..0], height) == h && txs[..0] == [];
      SpentEntries(u, txs[0].inputs, m);
      i := HeldOutput(u, h, txs[0].inputs[m]);
    } else {
      i := TxsJournal(u', h + [first], txs[1..], height, t - 1, m);
      assert txs[1..][..t - 1] == txs[..t][1..] && txs[..t][0] == txs[0];
      assert h + TxItems(txs[..t], height) == h + [first] + TxItems(txs[1..][..t - 1], height);
    }
  }

  lemma HeldOutput(u: UtxoSet, h: seq<Item>, o: OutPoint) returns (i: nat)
    requires Holds(u, h) && o in u
    ensures Unspent(h, o, i) && u[o] == OutputOf(h[i], o)
  {
    i :| Unspent(h, o, i);
  }

  /** The unspent outputs after replaying a branch: an output is there if and only if a transaction of a
      non-genesis block of the branch created it and no later one spends it, and then with its amount,
      script, height and origin. */
  lemma {:induction false} LedgerHolds(rules: Rules, n: Node)
    requires LedgerOf(rules, n).Some?
    ensures Holds(LedgerOf(rules, n).value.utxo, History(n))
  {
    if n.Child? {
      LedgerParent(rules, n);
      LedgerHolds(rules, n.parent);
      var l := LedgerOf(rules, n.parent).value;
      LedgerChild(rules, n, l);
      BlockHolds(l.utxo, History(n.parent), n.header.block, n.Height());
    }
  }

  lemma BlockHolds(u: UtxoSet, h: seq<Item>, b: Block, height: nat)
    requires Holds(u, h) && DistinctIds(b) && NoOverwrite(u, b) && ConnectBlock(u, b, height).Some?
    ensures Holds(ConnectBlock(u, b, height).value.utxo, h + BlockItems(b, height))
  {
    hide Holds, ConnectTxs, LostTxs, DistinctIds;
    NothingLost(u, b, height);
    assert b.coinbase in [b.coinbase] + b.rest;
    hide NoOverwrite;
    var first := Item(b.coinbase, height, true);
    CoinbaseHolds(u, h, b.coinbase, height);
    TxsHold(AddOutputs(u, b.coinbase, height, true), h + [first], b.rest, height);
    assert h + [first] + TxItems(b.rest, height) == h + BlockItems(b, height);
  }

  /** The journal after replaying a branch: the entry at the place of the `m`-th input of the `t`-th
      transaction of block `a` is the output that the input names, unspent at that point. */
  lemma LedgerJournalNames(rules: Rules, n: Node, a: Node, t: nat, m: nat) returns (i: nat)
    requires LedgerOf(rules, n).Some? && OnBranch(a, n) && a.Child?
    requires t < |a.header.block.rest| && m < |a.header.block.rest[t].inputs|
    ensures var b := a.header.block;
            var p := CountSpent(b.rest[..t]) + m;
            var before := History(a.parent) + BlockItems(b, a.Height())[..t + 1];
            var journal := LedgerOf(rules, n).value.journal;
            && a in journal && p < |journal[a]| && Unspent(before, b.rest[t].inputs[m], i)
            && journal[a][p] == OutputOf(before[i], b.rest[t].inputs[m])
  {
    hide LedgerOf, Holds, ConnectTxs, LostTxs, DistinctIds, Unspent, CountSpent, NewBestState, OnBranch;
    LedgerJournal(rules, a, n);
    LedgerParent(rules, a);
    LedgerHolds(rules, a.parent);
    var l, b, h := LedgerOf(rules, a.parent).value, a.header.block, History(a.parent);
    LedgerChild(rules, a, l);
    NothingLost(l.utxo, b, a.Height());
    assert b.coinbase in [b.coinbase] + b.rest;
    var first := Item(b.coinbase, a.Height(), true);
    CoinbaseHolds(l.utxo, h, b.coinbase, a.Height());
    i := TxsJournal(AddOutputs(l.utxo, b.coinbase, a.Height(), true), h + [first], b.rest, a.Height(), t, m);
    assert h + [first] + TxItems(b.rest[..t], a.Height()) == h + BlockItems(b, a.Height())[..t + 1];
  }

  /** Every transaction of the history is one of a non-genesis block of the branch, with its height. */
  lemma {:induction false} HistoryBlock(n: Node, i: nat) returns (a: Node)
    requires i < |History(n)|
    ensures OnBranch(a, n) && a.Child? && a.Height() == History(n)[i].height
    ensures if History(n)[i].coinbase then History(n)[i].tx == a.header.block.coinbase
            else History(n)[i].tx in a.header.block.rest
  {
    if i < |History(n.parent)| {
      a := HistoryBlock(n.parent, i);
    } else {
      a := n;
    }
  }

  // ------------------------------------------------ what can be replayed

  /** Some transaction created the output, and no later one spends it. */
  ghost predicate Available(h: seq<Item>, o: OutPoint) {
    exists i: nat :: Unspent(h, o, i)
  }

  predicate NoRepeats(s: seq<OutPoint>) {
    forall i, j :: 0 <= i < j < |s| ==> s[i] != s[j]
  }

  /** The inputs of the `t`-th transaction are distinct outputs that are available when its turn comes. */
  ghost predicate InputsFit(h: seq<Item>, txs: seq<Tx>, height: nat, t: nat)
    requires t < |txs|
  {
    && NoRepeats(txs[t].inputs)
    && forall o <- txs[t].inputs :: Available(h + TxItems(txs[..t], height), o)
  }

  /** A block fits on a history: its transactions are distinct, none creates an output that is
      available already, and all inputs fit. */
  ghost predicate BlockFits(h: seq<Item>, b: Block, height: nat) {
    && (forall i, j :: 0 <= i < j < |b.rest| ==> b.rest[i].id != b.rest[j].id)
    && (forall i :: 0 <= i < |b.rest| ==> b.rest[i].id != b.coinbase.id)
    && (forall it <- BlockItems(b, height), o | Creates(it, o) :: !Available(h, o))
    && forall t :: 0 <= t < |b.rest| ==> InputsFit(h + [Item(b.coinbase, height, true)], b.rest, height, t)
  }

  /** Only one set of outputs is the one that a history leaves. */
  lemma HoldsUnique(u: UtxoSet, v: UtxoSet, h: seq<Item>)
    requires Holds(u, h) && Holds(v, h)
    ensures u == v
  {
    forall o | o in u
      ensures o in v && u[o] == v[o]
    {
      var i := HeldOutput(u, h, o);
    }
    forall o | o in v
      ensures o in u
    {
      var i := HeldOutput(v, h, o);
    }
  }

  lemma HoldsAvailable(u: UtxoSet, h: seq<Item>, o: OutPoint)
    requires Holds(u, h)
    ensures o in u <==> Available(h, o)
  {
  }

  /** Inputs can be spent exactly when they are distinct and unspent. */
  lemma {:induction false} SpendsExactly(u: UtxoSet, inputs: seq<OutPoint>)
    ensures SpendInputs(u, inputs).Some? <==> NoRepeats(inputs) && forall o <- inputs :: o in u
  {
    if inputs != [] {
      var rest := inputs[1..];
      SpendsExactly(u - {inputs[0]}, rest);
      if NoRepeats(inputs) {
        assert forall i :: 0 <= i < |rest| ==> rest[i] == inputs[i + 1];
      }
      if NoRepeats(rest) && inputs[0] !in rest {
        assert forall i :: 0 < i < |inputs| ==> inputs[i] == rest[i - 1];
      }
    }
  }

  lemma {:induction false} TxsConnectExactly(u: UtxoSet, h: seq<Item>, txs: seq<Tx>, height: nat)
    requires Holds(u, h) && LostTxs(u, txs, height) == {}
    ensures ConnectTxs(u, txs, height).Some? <==> forall t :: 0 <= t < |txs| ==> InputsFit(h, txs, height, t)
    decreases txs
  {
    hide Holds, SpendInputs, Available;
    if txs != [] {
      FirstFits(u, h, txs, height);
      SpendsExactly(u, txs[0].inputs);
      if SpendInputs(u, txs[0].inputs).Some? {
        var c := SpendInputs(u, txs[0].inputs).value;
        FirstKept(u, txs, height);
        TxHolds(u, h, txs[0], height);
        var h' := h + [Item(txs[0], height, false)];
        TxsConnectExactly(AddOutputs(c.utxo, txs[0], height, false), h', txs[1..], height);
        FitsFromFirst(h, txs, height);
      } else {
        assert !InputsFit(h, txs, height, 0);
      }
    }
  }

  lemma FitsFromFirst(h: seq<Item>, txs: seq<Tx>, height: nat)
    requires txs != []
    ensures var h' := h + [Item(txs[0], height, false)];
            (forall t :: 0 <= t < |txs| ==> InputsFit(h, txs, height, t)) <==>
            && InputsFit(h, txs, height, 0)
            && forall t :: 0 <= t < |txs[1..]| ==> InputsFit(h', txs[1..], height, t)
  {
    hide Available;
    var h', rest := h + [Item(txs[0], height, false)], txs[1..];
    forall t | 0 <= t < |rest|
      ensures InputsFit(h, txs, height, t + 1) <==> InputsFit(h', rest, height, t)
    {
      assert h + TxItems(txs[..t + 1], height) == h' + TxItems(rest[..t], height);
    }
    hide InputsFit;
    if InputsFit(h, txs, height, 0) && forall t :: 0 <= t < |rest| ==> InputsFit(h', rest, height, t) {
      forall t | 0 <= t < |txs|
        ensures InputsFit(h, txs, height, t)
      {
        if t > 0 {
          assert InputsFit(h', rest, height, t - 1);
        }
      }
    }
  }

  lemma FirstFits(u: UtxoSet, h: seq<Item>, txs: seq<Tx>, height: nat)
    requires Holds(u, h) && txs != []
    ensures InputsFit(h, txs, height, 0) <==> NoRepeats(txs[0].inputs) && forall o <- txs[0].inputs :: o in u
  {
    hide Holds, Available;
    assert h + TxItems(txs[..0], height) == h;
    forall o | o in txs[0].inputs
      ensures o in u <==> Available(h, o)
    {
      HoldsAvailable(u, h, o);
    }
  }

  /** A block connects, apart from the rules that are not modelled, exactly when it fits. */
  lemma BlockConnectsExactly(u: UtxoSet, h: seq<Item>, b: Block, height: nat)
    requires Holds(u, h)
    ensures DistinctIds(b) && NoOverwrite(u, b) && ConnectBlock(u, b, height).Some? <==> BlockFits(h, b, height)
  {
    hide Holds, ConnectTxs, LostTxs, Available, InputsFit;
    DistinctIs(b);
    OverwriteIs(u, h, b, height);
    hide DistinctIds, NoOverwrite;
    if DistinctIds(b) && NoOverwrite(u, b) {
      NothingLost(u, b, height);
      CoinbaseNew(u, b);
      CoinbaseHolds(u, h, b.coinbase, height);
      TxsConnectExactly(AddOutputs(u, b.coinbase, height, true), h + [Item(b.coinbase, height, true)], b.rest, height);
    }
  }

  lemma CoinbaseNew(u: UtxoSet, b: Block)
    requires NoOverwrite(u, b)
    ensures Created(b.coinbase) !! u.Keys
  {
    assert b.coinbase in [b.coinbase] + b.rest;
  }

  lemma DistinctIs(b: Block)
    ensures DistinctIds(b) <==>
            && (forall i, j :: 0 <= i < j < |b.rest| ==> b.rest[i].id != b.rest[j].id)
            && (forall i :: 0 <= i < |b.rest| ==> b.rest[i].id != b.coinbase.id)
  {
    var txs := [b.coinbase] + b.rest;
    if DistinctIds(b) {
      forall i, j | 0 <= i < j < |b.rest|
        ensures b.rest[i].id != b.rest[j].id
      {
        assert txs[i + 1].id != txs[j + 1].id;
      }
      forall i | 0 <= i < |b.rest|
        ensures b.rest[i].id != b.coinbase.id
      {
        assert txs[0].id != txs[i + 1].id;
      }
    } else {
      var i, j :| 0 <= i < j < |txs| && txs[i].id == txs[j].id;
      assert txs[j] == b.rest[j - 1] && (i > 0 ==> txs[i] == b.rest[i - 1]);
    }
  }

  lemma OverwriteIs(u: UtxoSet, h: seq<Item>, b: Block, height: nat)
    requires Holds(u, h)
    ensures NoOverwrite(u, b) <==> forall it <- BlockItems(b, height), o | Creates(it, o) :: !Available(h, o)
  {
    hide Holds, Available, Creates;
    var txs, items := [b.coinbase] + b.rest, BlockItems(b, height);
    assert forall i :: 0 <= i < |txs| ==> items[i].tx == txs[i];
    forall i, o | 0 <= i < |txs|
      ensures o in Created(txs[i]) <==> Creates(items[i], o)
      ensures o in u <==> Available(h, o)
    {
      CreatedIs(txs[i], items[i].height, items[i].coinbase, o);
      HoldsAvailable(u, h, o);
    }
  }

  /** A block passes: it fits on the history before it, and the rules that are not modelled accept it
      on the outputs that this history leaves. */
  ghost predicate BlockPasses(rules: Rules, a: Node)
    requires a.Child?
  {
    && BlockFits(History(a.parent), a.header.block, a.Height())
    && exists u :: Holds(u, History(a.parent)) && rules(a, u)
  }

  /** A branch can be replayed exactly when each of its blocks passes. */
  lemma {:induction false} ReplaysExactly(rules: Rules, n: Node)
    ensures LedgerOf(rules, n).Some? <==> forall a | OnBranch(a, n) && a.Child? :: BlockPasses(rules, a)
  {
    hide Holds, BlockFits, ConnectBlock, DistinctIds, NoOverwrite;
    if n.Child? {
      ReplaysExactly(rules, n.parent);
      if LedgerOf(rules, n.parent).Some? {
        LedgerHolds(rules, n.parent);
        var u := LedgerOf(rules, n.parent).value.utxo;
        BlockConnectsExactly(u, History(n.parent), n.header.block, n.Height());
        forall v | Holds(v, History(n.parent))
          ensures v == u
        {
          HoldsUnique(u, v, History(n.parent));
        }
        assert LedgerOf(rules, n).Some? <==> BlockPasses(rules, n);
      }
    }
  }
}
