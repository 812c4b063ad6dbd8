/** The set of unspent outputs: connecting a block, and undoing it with its spend journal. */
module Utxo {
  import opened BlockNodes

  /** An unspent output, and equally a spent one kept in the spend journal. */
  datatype Entry = Entry(amount: int, script: nat, height: nat, coinbase: bool)

  type UtxoSet = map<OutPoint, Entry>

  datatype Connected = Connected(utxo: UtxoSet, spent: seq<Entry>)

  // ------------------------------------------------------- one transaction

  /** The outputs a transaction creates; provably unspendable ones are never stored. */
  function Created(tx: Tx): set<OutPoint> {
    set j | 0 <= j < |tx.outputs| && !tx.outputs[j].unspendable :: OutPoint(tx.id, j)
  }

  /** Adds the outputs of `tx`; an entry already present is overwritten. */
  function AddOutputs(u: UtxoSet, tx: Tx, height: nat, coinbase: bool): UtxoSet {
    u + map o | o in Created(tx) :: EntryOf(tx, o, height, coinbase)
  }

  function EntryOf(tx: Tx, o: OutPoint, height: nat, coinbase: bool): Entry
    requires o in Created(tx)
  {
    Entry(tx.outputs[o.index].amount, tx.outputs[o.index].script, height, coinbase)
  }

  /** Spends the inputs in order, recording what was spent; fails on a missing input. */
  function SpendInputs(u: UtxoSet, inputs: seq<OutPoint>): Option<Connected> {
    if inputs == [] then Some(Connected(u, []))
    else if inputs[0] !in u then None
    else
      match SpendInputs(u - {inputs[0]}, inputs[1..])
      case None => None
      case Some(c) => Some(Connected(c.utxo, [u[inputs[0]]] + c.spent))
  }

  /** Restores spent inputs, last one first. */
  function Restore(u: UtxoSet, inputs: seq<OutPoint>, spent: seq<Entry>): UtxoSet
    requires |inputs| == |spent|
  {
    if inputs == [] then u
    else Restore(u, inputs[1..], spent[1..])[inputs[0] := spent[0]]
  }

  // --------------------------------------------------------------- a block

  function CountSpent(txs: seq<Tx>): nat {
    if txs == [] then 0 else |txs[0].inputs| + CountSpent(txs[1..])
  }

  function ConnectTxs(u: UtxoSet, txs: seq<Tx>, height: nat): Option<Connected>
    decreases txs
  {
    if txs == [] then Some(Connected(u, []))
    else
      match SpendInputs(u, txs[0].inputs)
      case None => None
      case Some(c) =>
        match ConnectTxs(AddOutputs(c.utxo, txs[0], height, false), txs[1..], height)
        case None => None
        case Some(d) => Some(Connected(d.utxo, c.spent + d.spent))
  }

  /** Undoes the transactions in reverse order. */
  function DisconnectTxs(u: UtxoSet, txs: seq<Tx>, spent: seq<Entry>): UtxoSet
    requires |spent| == CountSpent(txs)
  {
    if txs == [] then u
    else
      var k := |txs[0].inputs|;
      Restore(DisconnectTxs(u, txs[1..], spent[k..]) - Created(txs[0]), txs[0].inputs, spent[..k])
  }

  function ConnectBlock(u: UtxoSet, b: Block, height: nat): Option<Connected> {
    ConnectTxs(AddOutputs(u, b.coinbase, height, true), b.rest, height)
  }

  function DisconnectBlock(u: UtxoSet, b: Block, spent: seq<Entry>): UtxoSet
    requires |spent| == CountSpent(b.rest)
  {
    DisconnectTxs(u, b.rest, spent) - Created(b.coinbase)
  }

  // ------------------------------------------------------------------ undo

  /** Block sanity: no transaction appears twice. */
  predicate DistinctTxs(txs: seq<Tx>) {
    forall i, j :: 0 <= i < j < |txs| ==> txs[i].id != txs[j].id
  }

  predicate DistinctIds(b: Block) {
    DistinctTxs([b.coinbase] + b.rest)
  }

  /** The entries that are overwritten while unspent, when `txs` are connected to `u`. */
  function LostTxs(u: UtxoSet, txs: seq<Tx>, height: nat): set<OutPoint>
    decreases txs
  {
    if txs == [] then {}
    else
      match SpendInputs(u, txs[0].inputs)
      case None => {}
      case Some(c) =>
        Created(txs[0]) * c.utxo.Keys +
        LostTxs(AddOutputs(c.utxo, txs[0], height, false), txs[1..], height)
  }

  function Lost(u: UtxoSet, b: Block, height: nat): set<OutPoint> {
    Created(b.coinbase) * u.Keys + LostTxs(AddOutputs(u, b.coinbase, height, true), b.rest, height)
  }

  lemma {:induction false} SpendLaws(u: UtxoSet, inputs: seq<OutPoint>)
    requires SpendInputs(u, inputs).Some?
    ensures var c := SpendInputs(u, inputs).value;
            && |c.spent| == |inputs|
            && c.utxo.Keys <= u.Keys
            && (forall o <- inputs :: o in u && o !in c.utxo)
            && (forall o <- c.utxo :: c.utxo[o] == u[o])
            && (forall o <- u :: o in c.utxo || o in inputs)
  {
    if inputs != [] {
      SpendLaws(u - {inputs[0]}, inputs[1..]);
    }
  }

  /** Restoring what was spent gives back `u`, less whatever else was removed meanwhile. */
  lemma {:induction false} RestoreLaw(u: UtxoSet, inputs: seq<OutPoint>, gone: set<OutPoint>)
    requires SpendInputs(u, inputs).Some? && gone <= SpendInputs(u, inputs).value.utxo.Keys
    ensures var c := SpendInputs(u, inputs).value;
            |c.spent| == |inputs| && Restore(c.utxo - gone, inputs, c.spent) == u - gone
  {
    SpendLaws(u, inputs);
    if inputs != [] {
      var c := SpendInputs(u, inputs).value;
      var d := SpendInputs(u - {inputs[0]}, inputs[1..]).value;
      RestoreLaw(u - {inputs[0]}, inputs[1..], gone);
      assert c.spent[1..] == d.spent;
      assert inputs[0] !in gone;
      assert (u - {inputs[0]} - gone)[inputs[0] := u[inputs[0]]] == u - gone;
    }
  }

  lemma {:induction false} LostAreOld(u: UtxoSet, txs: seq<Tx>, height: nat)
    requires DistinctTxs(txs)
    ensures LostTxs(u, txs, height) <= u.Keys
    ensures forall o <- LostTxs(u, txs, height) :: exists i :: 0 <= i < |txs| && o.txid == txs[i].id
    decreases txs
  {
    if txs != [] && SpendInputs(u, txs[0].inputs).Some? {
      SpendLaws(u, txs[0].inputs);
      var c := SpendInputs(u, txs[0].inputs).value;
      var u' := AddOutputs(c.utxo, txs[0], height, false);
      LostAreOld(u', txs[1..], height);
      forall o | o in LostTxs(u', txs[1..], height)
        ensures o in u && exists i :: 0 <= i < |txs| && o.txid == txs[i].id
      {
        var i :| 0 <= i < |txs[1..]| && o.txid == txs[1..][i].id;
        assert txs[i + 1] == txs[1..][i];
        assert o !in Created(txs[0]);
      }
    }
  }

  /** What undoing a connected run of transactions gives back: exactly the old set less the
      entries that were overwritten while unspent. */
  lemma {:induction false} UndoTxs(u: UtxoSet, txs: seq<Tx>, height: nat)
    requires DistinctTxs(txs) && ConnectTxs(u, txs, height).Some?
    ensures var d := ConnectTxs(u, txs, height).value;
            && |d.spent| == CountSpent(txs)
            && DisconnectTxs(d.utxo, txs, d.spent) == u - LostTxs(u, txs, height)
    decreases txs
  {
    if txs == [] {
      assert u - {} == u;
    } else {
      var t, rest := txs[0], txs[1..];
      SpendLaws(u, t.inputs);
      var c := SpendInputs(u, t.inputs).value;
      var u' := AddOutputs(c.utxo, t, height, false);
      var lost := LostTxs(u', rest, height);
      var d, e := ConnectTxs(u, txs, height).value, ConnectTxs(u', rest, height).value;
      assert d.spent == c.spent + e.spent && d.utxo == e.utxo;
      UndoTxs(u', rest, height);
      assert LostTxs(u, txs, height) == Created(t) * c.utxo.Keys + lost;
      hide ConnectTxs, LostTxs, SpendInputs, Restore;
      assert d.spent[..|t.inputs|] == c.spent && d.spent[|t.inputs|..] == e.spent;
      UndoFirst(u, c, t, height, lost, txs);
    }
  }

  /** Undoing the first transaction, when undoing the others gave back all but `lost`. */
  lemma UndoFirst(u: UtxoSet, c: Connected, t: Tx, height: nat, lost: set<OutPoint>, txs: seq<Tx>)
    requires txs != [] && t == txs[0] && DistinctTxs(txs) && SpendInputs(u, t.inputs) == Some(c)
    requires lost == LostTxs(AddOutputs(c.utxo, t, height, false), txs[1..], height)
    ensures |c.spent| == |t.inputs|
    ensures var u' := AddOutputs(c.utxo, t, height, false);
            Restore((u' - lost) - Created(t), t.inputs, c.spent) == u - (Created(t) * c.utxo.Keys + lost)
  {
    var u' := AddOutputs(c.utxo, t, height, false);
    LostAreOld(u', txs[1..], height);
    LostNotCreated(u', txs, height);
    hide LostTxs, SpendInputs, Restore, DistinctTxs;
    var gone := Created(t) * c.utxo.Keys + lost;
    assert (u' - lost) - Created(t) == c.utxo - gone;
    RestoreLaw(u, t.inputs, gone);
  }

  lemma LostNotCreated(u: UtxoSet, txs: seq<Tx>, height: nat)
    requires DistinctTxs(txs) && txs != []
    ensures LostTxs(u, txs[1..], height) !! Created(txs[0])
  {
    LostAreOld(u, txs[1..], height);
    forall o | o in LostTxs(u, txs[1..], height)
      ensures o !in Created(txs[0])
    {
      var i :| 0 <= i < |txs[1..]| && o.txid == txs[1..][i].id;
      assert txs[i + 1] == txs[1..][i];
    }
  }

  /** Disconnecting a block with the journal of its own connection restores the unspent outputs
      if and only if no output it created was unspent already when it was created. */
  lemma UndoBlock(u: UtxoSet, b: Block, height: nat)
    requires DistinctIds(b) && ConnectBlock(u, b, height).Some?
    ensures var d := ConnectBlock(u, b, height).value;
            && |d.spent| == CountSpent(b.rest)
            && DisconnectBlock(d.utxo, b, d.spent) == u - Lost(u, b, height)
            && (DisconnectBlock(d.utxo, b, d.spent) == u <==> Lost(u, b, height) == {})
  {
    hide LostTxs, ConnectTxs, DisconnectTxs, CountSpent, SpendInputs, Restore;
    var u' := AddOutputs(u, b.coinbase, height, true);
    var txs := [b.coinbase] + b.rest;
    assert txs[1..] == b.rest;
    UndoTxs(u', b.rest, height);
    LostAreOld(u', b.rest, height);
    LostNotCreated(u', txs, height);
    var lost := LostTxs(u', b.rest, height);
    assert (u' - lost) - Created(b.coinbase) == u - Lost(u, b, height);
    MinusNone(u, Lost(u, b, height));
  }

  lemma MinusNone(u: UtxoSet, gone: set<OutPoint>)
    requires gone <= u.Keys
    ensures u - gone == u <==> gone == {}
  {
    if gone != {} {
      var o :| o in gone;
      assert o in u && o !in u - gone;
    }
  }

  /** The rule of BIP 30, checked against the unspent outputs before the block. */
  predicate NoOverwrite(u: UtxoSet, b: Block) {
    forall t <- [b.coinbase] + b.rest :: Created(t) !! u.Keys
  }

  lemma {:induction false} NothingLostTxs(u: UtxoSet, txs: seq<Tx>, height: nat)
    requires DistinctTxs(txs) && forall t <- txs :: Created(t) !! u.Keys
    ensures LostTxs(u, txs, height) == {}
    decreases txs
  {
    if txs != [] && SpendInputs(u, txs[0].inputs).Some? {
      SpendLaws(u, txs[0].inputs);
      var u' := AddOutputs(SpendInputs(u, txs[0].inputs).value.utxo, txs[0], height, false);
      forall t | t in txs[1..]
        ensures Created(t) !! u'.Keys
      {
        var i :| 0 <= i < |txs[1..]| && t == txs[1..][i];
        assert txs[i + 1] == t;
      }
      NothingLostTxs(u', txs[1..], height);
    }
  }

  lemma NothingLost(u: UtxoSet, b: Block, height: nat)
    requires DistinctIds(b) && NoOverwrite(u, b)
    ensures Lost(u, b, height) == {}
  {
    var txs := [b.coinbase] + b.rest;
    assert txs[1..] == b.rest && txs[0] == b.coinbase;
    var u' := AddOutputs(u, b.coinbase, height, true);
    forall t | t in b.rest
      ensures Created(t) !! u'.Keys
    {
      var i :| 0 <= i < |b.rest| && t == b.rest[i];
      assert txs[i + 1] == t;
    }
    NothingLostTxs(u', b.rest, height);
  }
}
