/** The registrations of websocket clients: who is told about what, kept by a single loop over
    messages in maps by key and, for each client, in sets of its own requests. */
module Registrations {
  import opened BlockNodes

  datatype Client = Client(quit: nat)

  type Address = string

  /** A transaction as the notifications see it: the outputs it spends, and the addresses that each
      of its own outputs pays to. */
  datatype WatchedTx = WatchedTx(hash: nat, inputs: seq<OutPoint>, outputs: seq<seq<Address>>)

  datatype Notification = Redeeming(tx: WatchedTx, inBlock: bool) | Received(tx: WatchedTx, inBlock: bool)

  datatype Queued = Queued(client: Client, note: Notification)

  // -------------------------------------------------------- specification

  function RequestsOf<K>(reqs: map<Client, set<K>>, c: Client): set<K> {
    if c in reqs then reqs[c] else {}
  }

  predicate Watches<K>(watched: map<K, set<Client>>, k: K, c: Client) {
    k in watched && c in watched[k]
  }

  /** The two sides agree, and no key has an empty set of clients. */
  ghost predicate Mirror<K(!new)>(watched: map<K, set<Client>>, reqs: map<Client, set<K>>) {
    && (forall k, c :: Watches(watched, k, c) <==> k in RequestsOf(reqs, c))
    && (forall k <- watched :: watched[k] != {})
  }

  function AddWatch<K>(watched: map<K, set<Client>>, k: K, c: Client): map<K, set<Client>> {
    watched[k := (if k in watched then watched[k] else {}) + {c}]
  }

  function DropWatch<K>(watched: map<K, set<Client>>, k: K, c: Client): map<K, set<Client>> {
    if k !in watched then watched
    else if watched[k] - {c} == {} then watched - {k}
    else watched[k := watched[k] - {c}]
  }

  function AddRequest<K>(reqs: map<Client, set<K>>, k: K, c: Client): map<Client, set<K>> {
    reqs[c := RequestsOf(reqs, c) + {k}]
  }

  function DropRequest<K>(reqs: map<Client, set<K>>, k: K, c: Client): map<Client, set<K>> {
    reqs[c := RequestsOf(reqs, c) - {k}]
  }

  lemma AddMirrors<K(!new)>(watched: map<K, set<Client>>, reqs: map<Client, set<K>>, k: K, c: Client)
    requires Mirror(watched, reqs)
    ensures Mirror(AddWatch(watched, k, c), AddRequest(reqs, k, c))
    ensures forall x, d :: Watches(AddWatch(watched, k, c), x, d) <==> Watches(watched, x, d) || (x == k && d == c)
  {
    forall x, d ensures Watches(AddWatch(watched, k, c), x, d) <==> x in RequestsOf(AddRequest(reqs, k, c), d) {
      assert Watches(watched, x, d) <==> x in RequestsOf(reqs, d);
    }
  }

  lemma DropMirrors<K(!new)>(watched: map<K, set<Client>>, reqs: map<Client, set<K>>, k: K, c: Client)
    requires Mirror(watched, reqs)
    ensures Mirror(DropWatch(watched, k, c), DropRequest(reqs, k, c))
    ensures forall x, d :: Watches(DropWatch(watched, k, c), x, d) <==> Watches(watched, x, d) && !(x == k && d == c)
  {
    forall x, d ensures Watches(DropWatch(watched, k, c), x, d) <==> x in RequestsOf(DropRequest(reqs, k, c), d) {
      assert k in watched && d != c ==> (d in watched[k] <==> d in watched[k] - {c});
      assert Watches(watched, x, d) <==> x in RequestsOf(reqs, d);
    }
  }

  /** The maps once nobody watches a key any more. */
  function Unwatched<K>(watched: map<K, set<Client>>, ks: set<K>): map<K, set<Client>> {
    watched - ks
  }

  function Unrequested<K>(reqs: map<Client, set<K>>, ks: set<K>): map<Client, set<K>> {
    map c | c in reqs :: UnrequestedBy(reqs, ks, c)
  }

  function UnrequestedBy<K>(reqs: map<Client, set<K>>, ks: set<K>, c: Client): set<K>
    requires c in reqs
  {
    reqs[c] - ks
  }

  /** The clients that watch one of the keys. */
  function Watchers<K>(watched: map<K, set<Client>>, ks: seq<K>): set<Client> {
    if ks == [] then {}
    else
      var k := ks[|ks| - 1];
      Watchers(watched, ks[..|ks| - 1]) + if k in watched then watched[k] else {}
  }

  lemma {:induction false} WatchersIs<K>(watched: map<K, set<Client>>, ks: seq<K>, c: Client)
    ensures c in Watchers(watched, ks) <==> exists k <- ks :: Watches(watched, k, c)
  {
    if ks != [] {
      var rest, last := ks[..|ks| - 1], ks[|ks| - 1];
      WatchersIs(watched, rest, c);
      assert ks == rest + [last];
      if Watches(watched, last, c) {
        assert last in ks;
      }
      if k :| k in ks && Watches(watched, k, c) {
        assert k in rest || k == last;
      }
    }
  }

  /** One notification for each client of a set. */
  function ForEach(clients: set<Client>, note: Notification): multiset<Queued> {
    multiset(set c | c in clients :: Queued(c, note))
  }

  /** Exactly one for each client of the set, and none for others. */
  lemma ForEachIs(clients: set<Client>, note: Notification, q: Queued)
    ensures ForEach(clients, note)[q] == if q.note == note && q.client in clients then 1 else 0
  {
    var s := set c | c in clients :: Queued(c, note);
    assert q in s <==> q.note == note && q.client in clients;
  }

  lemma ForEachMore(clients: set<Client>, c: Client, note: Notification)
    ensures c !in clients ==> ForEach(clients + {c}, note) == ForEach(clients, note) + multiset{Queued(c, note)}
    ensures c in clients ==> clients + {c} == clients
  {
    var s := set d | d in clients :: Queued(d, note);
    assert (set d | d in clients + {c} :: Queued(d, note)) == s + {Queued(c, note)};
  }

  // -------------------------------------------------------------- manager

  class NotificationManager {
    var clients: set<Client>
    var blockNotifications: set<Client>
    var txNotifications: set<Client>
    var watchedOutPoints: map<OutPoint, set<Client>>
    var watchedAddrs: map<Address, set<Client>>
    var spentRequests: map<Client, set<OutPoint>>     // kept in each client
    var addrRequests: map<Client, set<Address>>       // kept in each client
    var queued: seq<Queued>                           // notifications queued to clients so far

    ghost predicate SpentOk()
      reads `watchedOutPoints, `spentRequests
    {
      Mirror(watchedOutPoints, spentRequests)
    }

    ghost predicate AddrOk()
      reads `watchedAddrs, `addrRequests
    {
      Mirror(watchedAddrs, addrRequests)
    }

    ghost predicate Valid()
      reads this
    {
      SpentOk() && AddrOk()
    }

    constructor ()
      ensures Valid() && clients == {} && queued == []
    {
      clients, blockNotifications, txNotifications := {}, {}, {};
      watchedOutPoints, watchedAddrs, spentRequests, addrRequests := map[], map[], map[], map[];
      queued := [];
    }

    /** Stops watching an outpoint for a client. */
    method RemoveSpentRequest(c: Client, op: OutPoint)
      requires SpentOk()
      modifies `watchedOutPoints, `spentRequests
      ensures SpentOk()
      ensures watchedOutPoints == DropWatch(old(watchedOutPoints), op, c)
      ensures spentRequests == DropRequest(old(spentRequests), op, c)
    {
      hide Mirror;
      DropMirrors(watchedOutPoints, spentRequests, op, c);
      spentRequests := spentRequests[c := RequestsOf(spentRequests, c) - {op}];
      if op !in watchedOutPoints {
        return;
      }
      watchedOutPoints := watchedOutPoints[op := watchedOutPoints[op] - {c}];
      if watchedOutPoints[op] == {} {
        watchedOutPoints := watchedOutPoints - {op};
        assert watchedOutPoints == old(watchedOutPoints) - {op};
      }
    }

    method RemoveAddrRequest(c: Client, addr: Address)
      requires AddrOk()
      modifies `watchedAddrs, `addrRequests
      ensures AddrOk()
      ensures watchedAddrs == DropWatch(old(watchedAddrs), addr, c)
      ensures addrRequests == DropRequest(old(addrRequests), addr, c)
    {
      hide Mirror;
      DropMirrors(watchedAddrs, addrRequests, addr, c);
      addrRequests := addrRequests[c := RequestsOf(addrRequests, c) - {addr}];
      if addr !in watchedAddrs {
        return;
      }
      watchedAddrs := watchedAddrs[addr := watchedAddrs[addr] - {c}];
      if watchedAddrs[addr] == {} {
        watchedAddrs := watchedAddrs - {addr};
        assert watchedAddrs == old(watchedAddrs) - {addr};
      }
    }
    method AddAddrRequests(c: Client, addrs: seq<Address>)
      requires AddrOk()
      modifies `watchedAddrs, `addrRequests
      ensures AddrOk()
      ensures forall a, d :: Watches(watchedAddrs, a, d) <==> Watches(old(watchedAddrs), a, d) || (d == c && a in addrs)
    {
      hide Mirror, AddWatch, AddRequest, Watches;
      var i := 0;
      while i < |addrs|
        invariant 0 <= i <= |addrs| && AddrOk()
        invariant forall a, d :: Watches(watchedAddrs, a, d) <==>
                                 Watches(old(watchedAddrs), a, d) || (d == c && a in addrs[..i])
      {
        assert addrs[..i + 1] == addrs[..i] + [addrs[i]];
        AddMirrors(watchedAddrs, addrRequests, addrs[i], c);
        addrRequests := AddRequest(addrRequests, addrs[i], c);
        watchedAddrs := AddWatch(watchedAddrs, addrs[i], c);
        i := i + 1;
      }
      assert addrs[..i] == addrs;
    }

    /** Watches outpoints for a client. */
    method WatchOutPoints(c: Client, ops: seq<OutPoint>)
      requires SpentOk()
      modifies `watchedOutPoints, `spentRequests
      ensures SpentOk()
      ensures forall o, d :: Watches(watchedOutPoints, o, d) <==>
              Watches(old(watchedOutPoints), o, d) || (d == c && o in ops)
    {
      hide Mirror, AddWatch, AddRequest, Watches;
      var i := 0;
      while i < |ops|
        invariant 0 <= i <= |ops| && SpentOk()
        invariant forall o, d :: Watches(watchedOutPoints, o, d) <==>
                                 Watches(old(watchedOutPoints), o, d) || (d == c && o in ops[..i])
      {
        assert ops[..i + 1] == ops[..i] + [ops[i]];
        AddMirrors(watchedOutPoints, spentRequests, ops[i], c);
        spentRequests := AddRequest(spentRequests, ops[i], c);
        watchedOutPoints := AddWatch(watchedOutPoints, ops[i], c);
        i := i + 1;
      }
      assert ops[..i] == ops;
    }

    /** Tells the clients that watch an outpoint, each at most once per transaction, and stops watching
        it when the spend is in a block.  The clients are walked in any order, while the set shrinks. */
    method NotifyWatchers(op: OutPoint, note: Notification, remove: bool, notified: set<Client>)
      returns (told: set<Client>)
      requires SpentOk() && op in watchedOutPoints
      modifies `watchedOutPoints, `spentRequests, `queued
      ensures SpentOk() && told == notified + old(watchedOutPoints[op])
      ensures watchedOutPoints == if remove then Unwatched(old(watchedOutPoints), {op}) else old(watchedOutPoints)
      ensures spentRequests == if remove then Unrequested(old(spentRequests), {op}) else old(spentRequests)
      ensures multiset(queued) == multiset(old(queued)) + ForEach(told - notified, note)
    {
      hide Mirror, ForEach;
      ghost var ops, reqs := watchedOutPoints, spentRequests;
      var cmap := watchedOutPoints[op];
      var todo := cmap;
      told := notified;
      NothingTold(notified, note);
      StillAll(ops, reqs, op);
      while todo != {}
        invariant todo <= cmap && SpentOk() && told == notified + (cmap - todo)
        invariant watchedOutPoints == if remove then Shrunk(ops, op, todo) else ops
        invariant spentRequests == if remove then Shed(reqs, op, todo) else reqs
        invariant multiset(queued) == multiset(old(queued)) + ForEach(told - notified, note)
      {
        var c :| c in todo;
        if remove {
          ShrinkStep(ops, reqs, op, todo, c);
          RemoveSpentRequest(c, op);
        }
        ForEachMore(told - notified, c, note);
        if c !in told {
          assert told + {c} - notified == told - notified + {c};
          told := told + {c};
          queued := queued + [Queued(c, note)];
        }
        todo := todo - {c};
      }
    }

    /** Tells the clients that watch an output the transaction spends, each once; in a block, the
        outputs it spends are no longer watched afterwards. */
    method NotifyForTxIns(tx: WatchedTx, inBlock: bool)
      requires SpentOk()
      modifies `watchedOutPoints, `spentRequests, `queued
      ensures SpentOk()
      ensures watchedOutPoints == if inBlock then Unwatched(old(watchedOutPoints), SetOf(tx.inputs))
              else old(watchedOutPoints)
      ensures spentRequests == if inBlock then Unrequested(old(spentRequests), SetOf(tx.inputs)) else old(spentRequests)
      ensures multiset(queued) ==
              multiset(old(queued)) + ForEach(Watchers(old(watchedOutPoints), tx.inputs), Redeeming(tx, inBlock))
    {
      hide Mirror, ForEach, Unwatched, Unrequested, SetOf, Watchers;
      ghost var ops, reqs := watchedOutPoints, spentRequests;
      if watchedOutPoints == map[] {
        NobodyWatches(reqs, tx.inputs, Redeeming(tx, inBlock));
        return;
      }
      var notified: set<Client> := {};
      InsStart(ops, reqs, tx.inputs, Redeeming(tx, inBlock));
      var i := 0;
      while i < |tx.inputs|
        invariant 0 <= i <= |tx.inputs| && SpentOk()
        invariant watchedOutPoints == if inBlock then Unwatched(ops, SetOf(tx.inputs[..i])) else ops
        invariant spentRequests == if inBlock then Unrequested(reqs, SetOf(tx.inputs[..i])) else reqs
        invariant notified == Watchers(ops, tx.inputs[..i])
        invariant multiset(queued) == multiset(old(queued)) + ForEach(notified, Redeeming(tx, inBlock))
      {
        var prevOut := tx.inputs[i];
        InsStep(ops, reqs, tx.inputs, i, inBlock);
        if prevOut in watchedOutPoints {
          ghost var before := notified;
          InsTold(notified, watchedOutPoints[prevOut], Redeeming(tx, inBlock));
          notified := NotifyWatchers(prevOut, Redeeming(tx, inBlock), inBlock, notified);
        }
        i := i + 1;
      }
      assert tx.inputs[..i] == tx.inputs;
    }

    /** Watches outpoints for a client, and tells about transactions in the memory pool that spend them
        already. */
    method AddSpentRequests(c: Client, ops: seq<OutPoint>, mempool: OutPoint -> Option<WatchedTx>)
      requires SpentOk()
      modifies `watchedOutPoints, `spentRequests, `queued
      ensures SpentOk()
      ensures forall o, d :: Watches(watchedOutPoints, o, d) <==>
              Watches(old(watchedOutPoints), o, d) || (d == c && o in ops)
      ensures Spends(old(queued), queued, PoolSpends(mempool, ops), watchedOutPoints)
    {
      hide Mirror, Watches, ForEach, Watchers, Spends;
      WatchOutPoints(c, ops);
      var spends: set<WatchedTx> := {};
      var i := 0;
      while i < |ops|
        invariant 0 <= i <= |ops| && spends == PoolSpends(mempool, ops[..i])
      {
        assert ops[..i + 1] == ops[..i] + [ops[i]];
        var spend := mempool(ops[i]);
        if spend.Some? {
          spends := spends + {spend.value};
        }
        i := i + 1;
      }
      assert ops[..i] == ops;
      ghost var watched, told := watchedOutPoints, queued;
      ghost var done: set<WatchedTx> := {};
      var todo := spends;
      SpendsNone(told, watched);
      while todo != {}
        invariant todo <= spends && done == spends - todo && SpentOk() && watchedOutPoints == watched
        invariant Spends(told, queued, done, watched)
      {
        var spend :| spend in todo;
        ghost var before := queued;
        NotifyForTxIns(spend, false);
        SpendsStep(told, before, queued, done, watched, spend);
        todo := todo - {spend};
        done := done + {spend};
      }
      assert done == spends;
    }

    /** Watches one output for every client of a set, and tells those of them that were not told yet. */
    method NotifyPayees(op: OutPoint, cmap: set<Client>, note: Notification, notified: set<Client>,
                        mempool: OutPoint -> Option<WatchedTx>)
      returns (told: set<Client>)
      requires SpentOk() && note.Received?
      modifies `watchedOutPoints, `spentRequests, `queued
      ensures SpentOk() && told == notified + cmap
      ensures forall o, d :: Watches(watchedOutPoints, o, d) <==>
              Watches(old(watchedOutPoints), o, d) || (o == op && d in cmap)
      ensures Receipts(old(queued), queued, told - notified, note)
    {
      hide Mirror, Watches, Spends, PoolSpends;
      var todo := cmap;
      told := notified;
      while todo != {}
        invariant todo <= cmap && SpentOk() && told == notified + (cmap - todo)
        invariant forall o, d :: Watches(watchedOutPoints, o, d) <==>
                                 Watches(old(watchedOutPoints), o, d) || (o == op && d in cmap && d !in todo)
        invariant Receipts(old(queued), queued, told - notified, note)
      {
        var c :| c in todo;
        ghost var before := queued;
        AddSpentRequests(c, [op], mempool);
        SpendsKeepReceipts(before, queued, PoolSpends(mempool, [op]), watchedOutPoints);
        if c !in told {
          assert told + {c} - notified == told - notified + {c};
          told := told + {c};
          queued := queued + [Queued(c, note)];
        }
        todo := todo - {c};
      }
    }

    /** Tells the clients that watch an address the transaction pays to, each once, and watches the
        outputs that pay to it for them. */
    method NotifyForTxOuts(tx: WatchedTx, inBlock: bool, mempool: OutPoint -> Option<WatchedTx>)
      requires SpentOk()
      modifies `watchedOutPoints, `spentRequests, `queued
      ensures SpentOk()
      ensures forall o, d :: Watches(watchedOutPoints, o, d) <==>
                             Watches(old(watchedOutPoints), o, d) || PaidTo(Payments(tx), watchedAddrs, o, d)
      ensures Receipts(old(queued), queued, Watchers(watchedAddrs, Addresses(Payments(tx))), Received(tx, inBlock))
    {
      hide Mirror, Watches, Payments, Watchers, PaidTo, Receipts;
      var payments := Payments(tx);
      var note := Received(tx, inBlock);
      OutsStart(watchedAddrs, payments, queued, note);
      if watchedAddrs == map[] {
        NobodyPaid(payments, queued, note);
        return;
      }
      var wscNotified: set<Client> := {};
      var i := 0;
      while i < |payments|
        invariant 0 <= i <= |payments| && SpentOk()
        invariant wscNotified == Watchers(watchedAddrs, Addresses(payments[..i]))
        invariant forall o, d :: Watches(watchedOutPoints, o, d) <==>
                                 Watches(old(watchedOutPoints), o, d) || PaidTo(payments[..i], watchedAddrs, o, d)
        invariant Receipts(old(queued), queued, wscNotified, note)
      {
        OutsStep(watchedAddrs, payments, i);
        if payments[i].addr in watchedAddrs {
          ghost var before, was := queued, wscNotified;
          wscNotified := NotifyPayees(payments[i].op, watchedAddrs[payments[i].addr], note, wscNotified, mempool);
          ReceiptsMore(old(queued), before, queued, was, wscNotified, note);
        }
        i := i + 1;
      }
      assert payments[..i] == payments;
    }

    /** Looks at the inputs and then at the outputs of a transaction. */
    method NotifyForTx(tx: WatchedTx, inBlock: bool, mempool: OutPoint -> Option<WatchedTx>)
      requires SpentOk()
      modifies `watchedOutPoints, `spentRequests, `queued
      ensures SpentOk()
      ensures forall o, d :: Watches(watchedOutPoints, o, d) <==>
                             (Watches(old(watchedOutPoints), o, d) && !(inBlock && o in tx.inputs))
                             || PaidTo(Payments(tx), watchedAddrs, o, d)
    {
      hide Mirror, Payments, Watchers, PaidTo, Receipts, ForEach, Unrequested;
      NotifyForTxIns(tx, inBlock);
      NotifyForTxOuts(tx, inBlock, mempool);
    }

    /** Forgets a client and everything it asked for. */
    method UnregisterClient(c: Client)
      requires Valid()
      modifies this
      ensures Valid() && queued == old(queued)
      ensures c !in clients && c !in blockNotifications && c !in txNotifications
      ensures forall o :: !Watches(watchedOutPoints, o, c)
      ensures forall a :: !Watches(watchedAddrs, a, c)
      ensures clients == old(clients) - {c} && blockNotifications == old(blockNotifications) - {c}
      ensures txNotifications == old(txNotifications) - {c}
      ensures forall o, d :: d != c ==> (Watches(watchedOutPoints, o, d) <==> Watches(old(watchedOutPoints), o, d))
      ensures forall a, d :: d != c ==> (Watches(watchedAddrs, a, d) <==> Watches(old(watchedAddrs), a, d))
    {
      hide Mirror;
      blockNotifications := blockNotifications - {c};
      txNotifications := txNotifications - {c};
      RemoveAllSpent(c);
      RemoveAllAddr(c);
      clients := clients - {c};
    }

    method RemoveAllSpent(c: Client)
      requires SpentOk()
      modifies `watchedOutPoints, `spentRequests
      ensures SpentOk() && forall o :: !Watches(watchedOutPoints, o, c)
      ensures forall o, d :: d != c ==> (Watches(watchedOutPoints, o, d) <==> Watches(old(watchedOutPoints), o, d))
    {
      hide Mirror, DropWatch, Watches;
      var todo := RequestsOf(spentRequests, c);
      while todo != {}
        invariant SpentOk() && RequestsOf(spentRequests, c) == todo
        invariant forall o, d :: d != c ==> (Watches(watchedOutPoints, o, d) <==> Watches(old(watchedOutPoints), o, d))
      {
        var op :| op in todo;
        DropMirrors(watchedOutPoints, spentRequests, op, c);
        RemoveSpentRequest(c, op);
        todo := todo - {op};
      }
      NoRequests(watchedOutPoints, spentRequests, c);
    }

    method RemoveAllAddr(c: Client)
      requires AddrOk()
      modifies `watchedAddrs, `addrRequests
      ensures AddrOk() && forall a :: !Watches(watchedAddrs, a, c)
      ensures forall a, d :: d != c ==> (Watches(watchedAddrs, a, d) <==> Watches(old(watchedAddrs), a, d))
    {
      hide Mirror, DropWatch, Watches;
      var todo := RequestsOf(addrRequests, c);
      while todo != {}
        invariant AddrOk() && RequestsOf(addrRequests, c) == todo
        invariant forall a, d :: d != c ==> (Watches(watchedAddrs, a, d) <==> Watches(old(watchedAddrs), a, d))
      {
        var addr :| addr in todo;
        DropMirrors(watchedAddrs, addrRequests, addr, c);
        RemoveAddrRequest(c, addr);
        todo := todo - {addr};
      }
      NoRequests(watchedAddrs, addrRequests, c);
    }

    /** Looks at every transaction of a connected block, unless nothing is watched. */
    method BlockConnected(txs: seq<WatchedTx>, mempool: OutPoint -> Option<WatchedTx>)
      requires Valid()
      modifies `watchedOutPoints, `spentRequests, `queued
      ensures Valid()
      ensures forall o, d :: Watches(watchedOutPoints, o, d) <==>
              WatchedAfter(txs, old(watchedOutPoints), watchedAddrs, o, d)
    {
      hide Mirror, Payments, PaidTo, Watches, WatchedAfter;
      AfterNone(txs, watchedOutPoints, watchedAddrs);
      if watchedOutPoints == map[] && watchedAddrs == map[] {
        NoneAfter(txs);
        return;
      }
      var i := 0;
      while i < |txs|
        invariant 0 <= i <= |txs| && SpentOk()
        invariant forall o, d :: Watches(watchedOutPoints, o, d) <==>
                                 WatchedAfter(txs[..i], old(watchedOutPoints), watchedAddrs, o, d)
      {
        AfterStep(txs, i, old(watchedOutPoints), watchedAddrs);
        NotifyForTx(txs[i], true, mempool);
        i := i + 1;
      }
      assert txs[..i] == txs;
    }

    /** Handles one message, each with its own effect on the three sets and on both kinds of watches. */
    method Handle(m: Message)
      requires Valid()
      modifies this
      ensures Valid()
      ensures clients == (if m.RegisterWsClient? then old(clients) + {m.client}
                          else if m.UnregisterWsClient? then old(clients) - {m.client} else old(clients))
      ensures blockNotifications == (if m.RegisterBlocks? then old(blockNotifications) + {m.client}
                                     else if m.UnregisterBlocks? || m.UnregisterWsClient?
                                     then old(blockNotifications) - {m.client} else old(blockNotifications))
      ensures txNotifications == (if m.RegisterMempoolTxs? then old(txNotifications) + {m.client}
                                  else if m.UnregisterMempoolTxs? || m.UnregisterWsClient?
                                  then old(txNotifications) - {m.client} else old(txNotifications))
      ensures forall o, d :: Watches(watchedOutPoints, o, d) <==>
              OutPointAfter(m, old(watchedOutPoints), old(watchedAddrs), o, d)
      ensures forall a, d :: Watches(watchedAddrs, a, d) <==> AddrAfter(m, old(watchedAddrs), a, d)
    {
      hide Mirror, Watches, PaidTo, Payments, Spends, PoolSpends, DropWatch, DropRequest, WatchedAfter;
      if m.UnregisterSpent? {
        DropMirrors(watchedOutPoints, spentRequests, m.op, m.client);
      }
      if m.UnregisterAddr? {
        DropMirrors(watchedAddrs, addrRequests, m.addr, m.client);
      }
      match m {
        case ConnectedBlock(txs, mempool) => BlockConnected(txs, mempool);
        case AcceptedTx(tx, mempool) => NotifyForTx(tx, false, mempool);
        case RegisterBlocks(c) => blockNotifications := blockNotifications + {c};
        case UnregisterBlocks(c) => blockNotifications := blockNotifications - {c};
        case RegisterWsClient(c) => clients := clients + {c};
        case UnregisterWsClient(c) => UnregisterClient(c);
        case RegisterSpent(c, ops, mempool) => AddSpentRequests(c, ops, mempool);
        case UnregisterSpent(c, op) => RemoveSpentRequest(c, op);
        case RegisterAddr(c, addrs) => AddAddrRequests(c, addrs);
        case UnregisterAddr(c, addr) => RemoveAddrRequest(c, addr);
        case RegisterMempoolTxs(c) => txNotifications := txNotifications + {c};
        case UnregisterMempoolTxs(c) => txNotifications := txNotifications - {c};
      }
    }
  }

  /** Whether a client watches an outpoint after a message. */
  ghost predicate OutPointAfter(m: Message, ops: map<OutPoint, set<Client>>, addrs: map<Address, set<Client>>,
                                o: OutPoint, d: Client)
  {
    match m
    case ConnectedBlock(txs, _) => WatchedAfter(txs, ops, addrs, o, d)
    case AcceptedTx(tx, _) => Watches(ops, o, d) || PaidTo(Payments(tx), addrs, o, d)
    case RegisterSpent(c, more, _) => Watches(ops, o, d) || (d == c && o in more)
    case UnregisterSpent(c, op) => Watches(ops, o, d) && !(d == c && o == op)
    case UnregisterWsClient(c) => Watches(ops, o, d) && d != c
    case _ => Watches(ops, o, d)
  }

  /** Whether a client watches an address after a message. */
  ghost predicate AddrAfter(m: Message, addrs: map<Address, set<Client>>, a: Address, d: Client) {
    match m
    case RegisterAddr(c, more) => Watches(addrs, a, d) || (d == c && a in more)
    case UnregisterAddr(c, addr) => Watches(addrs, a, d) && !(d == c && a == addr)
    case UnregisterWsClient(c) => Watches(addrs, a, d) && d != c
    case _ => Watches(addrs, a, d)
  }

  /** The messages of the loop that concern registrations. */
  datatype Message =
    | ConnectedBlock(txs: seq<WatchedTx>, mempool: OutPoint -> Option<WatchedTx>)
    | AcceptedTx(tx: WatchedTx, mempool: OutPoint -> Option<WatchedTx>)
    | RegisterBlocks(client: Client)
    | UnregisterBlocks(client: Client)
    | RegisterWsClient(client: Client)
    | UnregisterWsClient(client: Client)
    | RegisterSpent(client: Client, ops: seq<OutPoint>, mempool: OutPoint -> Option<WatchedTx>)
    | UnregisterSpent(client: Client, op: OutPoint)
    | RegisterAddr(client: Client, addrs: seq<Address>)
    | UnregisterAddr(client: Client, addr: Address)
    | RegisterMempoolTxs(client: Client)
    | UnregisterMempoolTxs(client: Client)

  /** Every sequence of messages keeps both indexes in agreement with the clients' own requests. */
  method RunMessages(m: NotificationManager, messages: seq<Message>)
    requires m.Valid()
    modifies m
    ensures m.Valid()
  {
    hide Mirror, Watches;
    var i := 0;
    while i < |messages|
      invariant 0 <= i <= |messages| && m.Valid()
    {
      m.Handle(messages[i]);
      i := i + 1;
    }
  }

  lemma NoRequests<K(!new)>(watched: map<K, set<Client>>, reqs: map<Client, set<K>>, c: Client)
    requires Mirror(watched, reqs) && RequestsOf(reqs, c) == {}
    ensures forall k :: !Watches(watched, k, c)
  {
  }

  /** Whether a client watches an outpoint after the transactions of a block, in order: each one ends
      the watches on what it spends and starts those on what it pays to watched addresses. */
  ghost predicate WatchedAfter(txs: seq<WatchedTx>, ops: map<OutPoint, set<Client>>, addrs: map<Address, set<Client>>,
                               o: OutPoint, c: Client)
  {
    if txs == [] then Watches(ops, o, c)
    else
      var last := txs[|txs| - 1];
      (WatchedAfter(txs[..|txs| - 1], ops, addrs, o, c) && o !in last.inputs) || PaidTo(Payments(last), addrs, o, c)
  }

  /** The watches after a block, told at once: a watch is an old one that no transaction spends, or one
      that a transaction's payment started and no later transaction spends. */
  lemma {:induction false} AfterMeans(txs: seq<WatchedTx>, ops: map<OutPoint, set<Client>>,
                                      addrs: map<Address, set<Client>>, o: OutPoint, c: Client)
    ensures WatchedAfter(txs, ops, addrs, o, c) <==>
            || (Watches(ops, o, c) && forall tx <- txs :: o !in tx.inputs)
            || exists i: nat :: StartedAt(txs, addrs, o, c, i)
  {
    if txs != [] {
      var rest, last := txs[..|txs| - 1], txs[|txs| - 1];
      assert txs == rest + [last];
      AfterMeans(rest, ops, addrs, o, c);
      forall i: nat
        ensures StartedAt(txs, addrs, o, c, i) <==>
                if i < |rest| then StartedAt(rest, addrs, o, c, i) && o !in last.inputs
                else i == |rest| && PaidTo(Payments(last), addrs, o, c)
      {
        StartedMore(rest, last, addrs, o, c, i);
      }
      assert (forall tx <- txs :: o !in tx.inputs) <==> (forall tx <- rest :: o !in tx.inputs) && o !in last.inputs;
      hide StartedAt, PaidTo;
      if PaidTo(Payments(last), addrs, o, c) {
        assert StartedAt(txs, addrs, o, c, |rest|);
      }
    }
  }

  /** The `i`-th transaction pays to an address the client watches, and no later one spends that. */
  ghost predicate StartedAt(txs: seq<WatchedTx>, addrs: map<Address, set<Client>>, o: OutPoint, c: Client, i: nat) {
    && i < |txs| && PaidTo(Payments(txs[i]), addrs, o, c)
    && forall j :: i < j < |txs| ==> o !in txs[j].inputs
  }

  lemma StartedMore(rest: seq<WatchedTx>, last: WatchedTx, addrs: map<Address, set<Client>>, o: OutPoint, c: Client,
                    i: nat)
    ensures StartedAt(rest + [last], addrs, o, c, i) <==>
            if i < |rest| then StartedAt(rest, addrs, o, c, i) && o !in last.inputs
            else i == |rest| && PaidTo(Payments(last), addrs, o, c)
  {
    hide PaidTo, Payments;
    var txs := rest + [last];
    if i < |rest| && StartedAt(rest, addrs, o, c, i) && o !in last.inputs {
      assert forall j :: i < j < |txs| ==> o !in txs[j].inputs;
    }
    if i < |rest| && StartedAt(txs, addrs, o, c, i) {
      assert txs[|rest|] == last;
      assert forall j :: i < j < |rest| ==> rest[j] == txs[j];
    }
  }

  lemma AfterNone(txs: seq<WatchedTx>, ops: map<OutPoint, set<Client>>, addrs: map<Address, set<Client>>)
    ensures forall o, d :: WatchedAfter(txs[..0], ops, addrs, o, d) <==> Watches(ops, o, d)
  {
  }

  lemma {:induction false} NoneAfter(txs: seq<WatchedTx>)
    ensures forall o, d :: !WatchedAfter(txs, map[], map[], o, d) && !Watches(map[], o, d)
  {
    if txs != [] {
      NoneAfter(txs[..|txs| - 1]);
    }
  }

  lemma AfterStep(txs: seq<WatchedTx>, i: nat, ops: map<OutPoint, set<Client>>, addrs: map<Address, set<Client>>)
    requires i < |txs|
    ensures forall o, d :: WatchedAfter(txs[..i + 1], ops, addrs, o, d) <==>
                           (WatchedAfter(txs[..i], ops, addrs, o, d) && o !in txs[i].inputs)
                           || PaidTo(Payments(txs[i]), addrs, o, d)
  {
    assert txs[..i + 1][..i] == txs[..i];
  }

  /** One address paid by one output. */
  datatype Payment = Payment(op: OutPoint, addr: Address)

  function PaymentsUpTo(tx: WatchedTx, n: nat): seq<Payment>
    requires n <= |tx.outputs|
  {
    if n == 0 then []
    else
      PaymentsUpTo(tx, n - 1) +
      seq(|tx.outputs[n - 1]|,
          j requires 0 <= j < |tx.outputs[n - 1]| => Payment(OutPoint(tx.hash, n - 1), tx.outputs[n - 1][j]))
  }

  /** The payments of a transaction, output by output and address by address. */
  function Payments(tx: WatchedTx): seq<Payment> {
    PaymentsUpTo(tx, |tx.outputs|)
  }

  lemma {:induction false} PaymentsAre(tx: WatchedTx, n: nat, p: Payment)
    requires n <= |tx.outputs|
    ensures p in PaymentsUpTo(tx, n) <==> p.op.txid == tx.hash && p.op.index < n && p.addr in tx.outputs[p.op.index]
  {
    if n > 0 {
      PaymentsAre(tx, n - 1, p);
      var last := seq(|tx.outputs[n - 1]|, j requires 0 <= j < |tx.outputs[n - 1]| =>
                                             Payment(OutPoint(tx.hash, n - 1), tx.outputs[n - 1][j]));
      if p.op == OutPoint(tx.hash, n - 1) && p.addr in tx.outputs[n - 1] {
        var j :| 0 <= j < |tx.outputs[n - 1]| && tx.outputs[n - 1][j] == p.addr;
        assert last[j] == p;
      }
    }
  }

  function Addresses(ps: seq<Payment>): seq<Address> {
    seq(|ps|, i requires 0 <= i < |ps| => ps[i].addr)
  }

  /** One of the payments is from this output to an address the client watches. */
  ghost predicate PaidTo(ps: seq<Payment>, addrs: map<Address, set<Client>>, o: OutPoint, c: Client) {
    exists p <- ps :: p.op == o && Watches(addrs, p.addr, c)
  }

  /** An output makes a client watch it exactly when it pays to an address the client watches. */
  lemma PaidMeans(tx: WatchedTx, addrs: map<Address, set<Client>>, o: OutPoint, c: Client)
    ensures PaidTo(Payments(tx), addrs, o, c) <==>
            && o.txid == tx.hash && o.index < |tx.outputs|
            && exists a <- tx.outputs[o.index] :: Watches(addrs, a, c)
  {
    hide PaymentsUpTo;
    forall p {
      PaymentsAre(tx, |tx.outputs|, p);
    }
    if o.txid == tx.hash && o.index < |tx.outputs| {
      if a :| a in tx.outputs[o.index] && Watches(addrs, a, c) {
        assert Payment(o, a) in Payments(tx);
      }
    }
  }

  /** The clients that are told of a transaction's payments: those that watch an address it pays to. */
  lemma PayeesMean(tx: WatchedTx, addrs: map<Address, set<Client>>, c: Client)
    ensures c in Watchers(addrs, Addresses(Payments(tx))) <==>
            exists i, a | 0 <= i < |tx.outputs| && a in tx.outputs[i] :: Watches(addrs, a, c)
  {
    hide PaymentsUpTo, Watchers;
    var ps := Payments(tx);
    WatchersIs(addrs, Addresses(ps), c);
    forall p {
      PaymentsAre(tx, |tx.outputs|, p);
    }
    if i, a :| 0 <= i < |tx.outputs| && a in tx.outputs[i] && Watches(addrs, a, c) {
      var p := Payment(OutPoint(tx.hash, i), a);
      assert p in ps;
      var j :| 0 <= j < |ps| && ps[j] == p;
      assert Addresses(ps)[j] == a;
    }
    if a :| a in Addresses(ps) && Watches(addrs, a, c) {
      var j :| 0 <= j < |ps| && Addresses(ps)[j] == a;
      assert ps[j] in ps && a in tx.outputs[ps[j].op.index];
    }
  }

  /** Of the receipts, exactly one was added for each of the clients. */
  ghost predicate Receipts(was: seq<Queued>, now: seq<Queued>, clients: set<Client>, note: Notification) {
    forall q: Queued | q.note.Received? ::
      multiset(now)[q] == multiset(was)[q] + if q.note == note && q.client in clients then 1 else 0
  }

  lemma ReceiptsMore(was: seq<Queued>, mid: seq<Queued>, now: seq<Queued>, a: set<Client>, b: set<Client>,
                     note: Notification)
    requires a <= b && Receipts(was, mid, a, note) && Receipts(mid, now, b - a, note)
    ensures Receipts(was, now, b, note)
  {
  }

  lemma SpendsKeepReceipts(was: seq<Queued>, now: seq<Queued>, txs: set<WatchedTx>, watched: map<OutPoint, set<Client>>)
    requires Spends(was, now, txs, watched)
    ensures forall q: Queued | q.note.Received? :: multiset(now)[q] == multiset(was)[q]
  {
  }

  lemma OutsStart(addrs: map<Address, set<Client>>, ps: seq<Payment>, queued: seq<Queued>, note: Notification)
    ensures Watchers(addrs, Addresses(ps[..0])) == {} && Receipts(queued, queued, {}, note)
    ensures forall o, d :: !PaidTo(ps[..0], addrs, o, d)
  {
  }

  lemma NobodyPaid(ps: seq<Payment>, queued: seq<Queued>, note: Notification)
    ensures Receipts(queued, queued, Watchers(map[], Addresses(ps)), note)
    ensures forall o, d :: !PaidTo(ps, map[], o, d)
  {
    forall c ensures c !in Watchers(map[], Addresses(ps)) {
      WatchersIs(map[], Addresses(ps), c);
    }
  }

  lemma OutsStep(addrs: map<Address, set<Client>>, ps: seq<Payment>, i: nat)
    requires i < |ps|
    ensures var told := Watchers(addrs, Addresses(ps[..i]));
            Watchers(addrs, Addresses(ps[..i + 1])) == if ps[i].addr in addrs then told + addrs[ps[i].addr] else told
    ensures forall o, d :: PaidTo(ps[..i + 1], addrs, o, d) <==>
                           PaidTo(ps[..i], addrs, o, d)
                           || (ps[i].op == o && ps[i].addr in addrs && d in addrs[ps[i].addr])
  {
    assert ps[..i + 1] == ps[..i] + [ps[i]];
    assert Addresses(ps[..i + 1])[..i] == Addresses(ps[..i]);
    forall o, d ensures PaidTo(ps[..i + 1], addrs, o, d) <==>
                        PaidTo(ps[..i], addrs, o, d) || (ps[i].op == o && ps[i].addr in addrs && d in addrs[ps[i].addr])
    {
      if ps[i].op == o && Watches(addrs, ps[i].addr, d) {
        assert ps[i] in ps[..i + 1];
      }
    }
  }

  /** The transactions of the memory pool that spend one of the outpoints. */
  function PoolSpends(mempool: OutPoint -> Option<WatchedTx>, ops: seq<OutPoint>): set<WatchedTx> {
    set o | o in ops && mempool(o).Some? :: mempool(o).value
  }

  /** Exactly one notification was added for each of the transactions and each client that watches
      an output it spends. */
  ghost predicate Spends(was: seq<Queued>, now: seq<Queued>, txs: set<WatchedTx>, watched: map<OutPoint, set<Client>>) {
    forall q :: multiset(now)[q] == multiset(was)[q] + SpendCount(q, txs, watched)
  }

  ghost function SpendCount(q: Queued, txs: set<WatchedTx>, watched: map<OutPoint, set<Client>>): nat {
    if q.note.Redeeming? && !q.note.inBlock && q.note.tx in txs && q.client in Watchers(watched, q.note.tx.inputs)
    then 1 else 0
  }

  lemma SpendsNone(was: seq<Queued>, watched: map<OutPoint, set<Client>>)
    ensures Spends(was, was, {}, watched)
  {
  }

  lemma SpendsStep(was: seq<Queued>, now: seq<Queued>, more: seq<Queued>, txs: set<WatchedTx>,
                   watched: map<OutPoint, set<Client>>, tx: WatchedTx)
    requires Spends(was, now, txs, watched) && tx !in txs
    requires multiset(more) == multiset(now) + ForEach(Watchers(watched, tx.inputs), Redeeming(tx, false))
    ensures Spends(was, more, txs + {tx}, watched)
  {
    hide Watchers;
    forall q ensures multiset(more)[q] == multiset(was)[q] + SpendCount(q, txs + {tx}, watched) {
      ForEachCount(Watchers(watched, tx.inputs), Redeeming(tx, false), q);
    }
  }

  lemma ForEachCount(clients: set<Client>, note: Notification, q: Queued)
    ensures ForEach(clients, note)[q] == if q.note == note && q.client in clients then 1 else 0
  {
    var s := set c | c in clients :: Queued(c, note);
    assert q in s <==> q.note == note && q.client in clients;
  }

  lemma NobodyWatches(reqs: map<Client, set<OutPoint>>, ks: seq<OutPoint>, note: Notification)
    requires Mirror(map[], reqs)
    ensures Unwatched(map[], SetOf(ks)) == map[] && Unrequested(reqs, SetOf(ks)) == reqs
    ensures ForEach(Watchers(map[], ks), note) == multiset{}
  {
    var none: map<OutPoint, set<Client>> := map[];
    forall c | c in reqs
      ensures reqs[c] - SetOf(ks) == reqs[c]
    {
      forall k ensures k !in reqs[c] {
        assert Watches(none, k, c) <==> k in RequestsOf(reqs, c);
      }
    }
    forall c ensures c !in Watchers(none, ks) {
      WatchersIs(none, ks, c);
    }
    assert (set c | c in Watchers(none, ks) :: Queued(c, note)) == {};
  }

  lemma InsStart(ops: map<OutPoint, set<Client>>, reqs: map<Client, set<OutPoint>>, ks: seq<OutPoint>,
                 note: Notification)
    ensures Unwatched(ops, SetOf(ks[..0])) == ops && Unrequested(reqs, SetOf(ks[..0])) == reqs
    ensures Watchers(ops, ks[..0]) == {} && ForEach({}, note) == multiset{}
  {
    forall c | c in reqs
      ensures reqs[c] - SetOf(ks[..0]) == reqs[c]
    {
    }
  }

  /** One more input: what is watched, what is requested, and who was told. */
  lemma InsStep(ops: map<OutPoint, set<Client>>, reqs: map<Client, set<OutPoint>>, ks: seq<OutPoint>, i: nat,
                removing: bool)
    requires Mirror(ops, reqs) && i < |ks|
    ensures var now, asked := Unwatched(ops, SetOf(ks[..i])), Unrequested(reqs, SetOf(ks[..i]));
            var told, k := Watchers(ops, ks[..i]), ks[i];
            && (k !in now ==>
                  Unwatched(ops, SetOf(ks[..i + 1])) == now && Unrequested(reqs, SetOf(ks[..i + 1])) == asked
                  && Watchers(ops, ks[..i + 1]) == told)
            && (k in now ==> Unwatched(ops, SetOf(ks[..i + 1])) == Unwatched(now, {k})
                             && Unrequested(reqs, SetOf(ks[..i + 1])) == Unrequested(asked, {k})
                             && k in ops && now[k] == ops[k])
            && (k !in ops ==> Watchers(ops, ks[..i + 1]) == told)
            && (k in ops ==> Watchers(ops, ks[..i + 1]) == told + ops[k])
  {
    var rest, k := ks[..i], ks[i];
    assert ks[..i + 1] == rest + [k] && (rest + [k])[..i] == rest;
    assert SetOf(ks[..i + 1]) == SetOf(rest) + {k};
    if k in ops && k in rest {
      forall c | c in ops[k]
        ensures c in Watchers(ops, rest)
      {
        assert Watches(ops, k, c);
        WatchersIs(ops, rest, c);
      }
    }
    forall c | c in reqs
      ensures reqs[c] - (SetOf(rest) + {k}) == reqs[c] - SetOf(rest) - {k}
      ensures k !in ops || k in rest ==> reqs[c] - (SetOf(rest) + {k}) == reqs[c] - SetOf(rest)
    {
      assert Watches(ops, k, c) <==> k in RequestsOf(reqs, c);
    }
  }

  lemma InsTold(told: set<Client>, more: set<Client>, note: Notification)
    ensures ForEach(told, note) + ForEach(told + more - told, note) == ForEach(told + more, note)
  {
    var a := set c | c in told :: Queued(c, note);
    var b := set c | c in told + more - told :: Queued(c, note);
    assert a + b == set c | c in told + more :: Queued(c, note);
    assert a !! b;
  }

  /** Part of the way: only the clients of `left` still watch the key. */
  function Shrunk(watched: map<OutPoint, set<Client>>, k: OutPoint, left: set<Client>): map<OutPoint, set<Client>> {
    if left == {} then watched - {k} else watched[k := left]
  }

  function Shed(reqs: map<Client, set<OutPoint>>, k: OutPoint, left: set<Client>): map<Client, set<OutPoint>> {
    map c | c in reqs :: ShedBy(reqs, k, left, c)
  }

  function ShedBy(reqs: map<Client, set<OutPoint>>, k: OutPoint, left: set<Client>, c: Client): set<OutPoint>
    requires c in reqs
  {
    if c in left then reqs[c] else reqs[c] - {k}
  }

  lemma NothingTold(notified: set<Client>, note: Notification)
    ensures ForEach(notified - notified, note) == multiset{}
  {
    assert (set c | c in notified - notified :: Queued(c, note)) == {};
  }

  lemma StillAll(ops: map<OutPoint, set<Client>>, reqs: map<Client, set<OutPoint>>, k: OutPoint)
    requires Mirror(ops, reqs) && k in ops
    ensures Shrunk(ops, k, ops[k]) == ops && Shed(reqs, k, ops[k]) == reqs
    ensures Shrunk(ops, k, {}) == Unwatched(ops, {k}) && Shed(reqs, k, {}) == Unrequested(reqs, {k})
  {
    forall c | c in reqs && c !in ops[k]
      ensures reqs[c] - {k} == reqs[c]
    {
      assert Watches(ops, k, c) <==> k in RequestsOf(reqs, c);
    }
  }

  lemma ShrinkStep(ops: map<OutPoint, set<Client>>, reqs: map<Client, set<OutPoint>>, k: OutPoint, left: set<Client>,
                   c: Client)
    requires Mirror(ops, reqs) && k in ops && c in left && left <= ops[k]
    ensures DropWatch(Shrunk(ops, k, left), k, c) == Shrunk(ops, k, left - {c})
    ensures DropRequest(Shed(reqs, k, left), k, c) == Shed(reqs, k, left - {c})
  {
    assert Watches(ops, k, c) <==> k in RequestsOf(reqs, c);
  }
}
