/** The block chain: connecting, disconnecting and reorganizing around the best chain. */
module BlockChain {
  import opened BlockNodes
  import opened ChainView
  import opened BlockTree
  import opened Utxo
  import opened Ledger
  import opened ChainSpec
  import opened Selection

  datatype ChainError =
    | AssertError           // an internal consistency check failed
    | MissingData           // a block body or journal record is not in the database
    | RuleError             // a block violates a consensus rule
    | UnknownBlock
    | GenesisBlock
    | UnknownParent
    | InvalidAncestorBlock
    | KnownInvalidBlock
    | DuplicateBlock
    | ContextError          // a check that depends only on the headers failed
    | WitnessExcised        // the operation needs witness data that was dropped
    | NoTip

  class BlockChain {
    const rules: Rules
    const root: Node
    const witnessBuffer: int
    const blocksPerRetarget: nat

    var index: map<Hash, Node>
    var status: Statuses
    var bodies: set<Node>               // block bodies in the database
    var bestChain: View
    var bestHeader: View
    var utxo: UtxoSet
    var journal: map<Node, seq<Entry>>
    var best: BestState
    ghost var headers: set<Node>        // accepted through MaybeAcceptBlockHeader

    /** The index holds one tree, each node under its hash; a status bit says which bodies exist. */
    ghost predicate IndexOk()
      reads `index, `status, `bodies
    {
      IndexFor(root, index, status, bodies)
    }

    ghost predicate BestOk()
      reads `bestChain, `status
    {
      bestChain != [] && IsView(bestChain) && Tip(bestChain) in status
    }

    /** Both chain views are branches of the tree, and the best chain has all its bodies. */
    ghost predicate ViewsOk()
      reads `bestChain, `bestHeader, `status, `bodies
    {
      && BestOk()
      && bestHeader != [] && IsView(bestHeader) && Tip(bestHeader) in status
      && AllStored(bestChain, bodies)
    }

    /** Only replayable blocks are marked valid. */
    ghost predicate MarksOk()
      reads `status
    {
      Replayable(rules, status)
    }

    /** The ledger is the replay of the best chain. */
    ghost predicate LedgerOk()
      reads `bestChain, `utxo, `journal, `best
    {
      bestChain != [] && LedgerOf(rules, Tip(bestChain)) == Some(Ledger(utxo, journal, best))
    }

    /** The tip of the best header chain has at least the work of every accepted header. */
    ghost predicate HeadersOk()
      reads `bestHeader, `headers
    {
      bestHeader != [] && forall n <- headers :: n.WorkSum() <= Tip(bestHeader).WorkSum()
    }

    ghost predicate Valid()
      reads this
    {
      IndexOk() && ViewsOk() && MarksOk() && LedgerOk() && HeadersOk() && blocksPerRetarget > 0
    }

    /** A chain that holds only its genesis block. */
    constructor (genesis: Node, rules: Rules, witnessBuffer: int, blocksPerRetarget: nat)
      requires genesis.Genesis? && blocksPerRetarget > 0
      ensures Valid() && bestChain == [genesis] && bestHeader == [genesis]
      ensures index == map[genesis.Hash() := genesis] && headers == {}
      ensures status == map[genesis := DATA_STORED.Or(VALID)] && bodies == {genesis}
      ensures this.rules == rules && this.witnessBuffer == witnessBuffer && root == genesis
      ensures this.blocksPerRetarget == blocksPerRetarget
    {
      this.rules := rules;
      this.root := genesis;
      this.witnessBuffer := witnessBuffer;
      this.blocksPerRetarget := blocksPerRetarget;
      index := map[genesis.Hash() := genesis];
      status := map[genesis := DATA_STORED.Or(VALID)];
      bodies := {genesis};
      bestChain := [genesis];
      bestHeader := [genesis];
      utxo := map[];
      journal := map[];
      best := NewBestState(genesis, NumTxns(genesis));
      headers := {};
    }

    method SetStatusFlags(n: Node, flags: Status)
      requires n in status
      modifies `status
      ensures status == Flagged(old(status), {n}, flags)
    {
      status := status[n := status[n].Or(flags)];
    }

    method UnsetStatusFlags(n: Node, flags: Status)
      requires n in status
      modifies `status
      ensures status == Cleared(old(status), {n}, flags)
    {
      status := status[n := status[n].AndNot(flags)];
    }

    // ------------------------------------------------- connect, disconnect

    /** Walks from an inactive tip to the best chain, deleting the bodies at or below `dropHeight`. */
    method DropBranch(tip: Node, dropHeight: int)
      requires IndexOk() && BestOk() && tip in status
      modifies `status, `bodies
      ensures IndexOk() && status.Keys == old(status).Keys
      ensures var stale := StaleOn(old(bodies), bestChain, tip, dropHeight);
              bodies == old(bodies) - stale && status == Cleared(old(status), stale, DATA_STORED)
    {
      hide OnBranch, IsView, SkipsOk, Contains, StaleOn, Tree;
      var n := tip;
      ghost var nodes := status.Keys;
      ghost var dropped: set<Node> := {};
      while !Contains(bestChain, n)
        invariant n in nodes && status.Keys == nodes
        invariant dropped !! StaleOn(old(bodies), bestChain, n, dropHeight)
        invariant dropped + StaleOn(old(bodies), bestChain, n, dropHeight) ==
                  StaleOn(old(bodies), bestChain, tip, dropHeight)
        invariant bodies == old(bodies) - dropped && DataOk(status, bodies)
        invariant status == Cleared(old(status), dropped, DATA_STORED)
        decreases n.Height()
      {
        OffViewChild(nodes, root, bestChain, n);
        StaleStep(old(bodies), bestChain, n, dropHeight);
        if n.Height() <= dropHeight && status[n].dataStored {
          bodies := bodies - {n};
          UnsetStatusFlags(n, DATA_STORED);
          ClearedTwice(old(status), dropped, {n}, DATA_STORED);
          dropped := dropped + {n};
        }
        n := n.parent;
      }
      NothingStaleOn(old(bodies), bestChain, n, dropHeight);
    }

    /** Deletes the bodies of stale side chains. */
    method DropStaleSideChainBodies(dropHeight: int)
      requires IndexOk() && BestOk()
      modifies `status, `bodies
      ensures IndexOk()
      ensures var stale := Stale(old(bodies), old(status).Keys, bestChain, dropHeight);
              bodies == old(bodies) - stale && status == Cleared(old(status), stale, DATA_STORED)
    {
      hide IsView, SkipsOk, Contains, OnBranch;
      var tips := InactiveTips(status.Keys, root, bestChain);
      StaleAsTips(bodies, status.Keys, bestChain, tips, dropHeight);
      hide Stale, StaleOn, StaleTips;
      var i := 0;
      ghost var dropped: set<Node> := {};
      ghost var nodes := status.Keys;
      while i < |tips|
        invariant 0 <= i <= |tips| && IndexOk() && status.Keys == nodes
        invariant dropped == StaleTips(old(bodies), bestChain, tips[..i], dropHeight)
        invariant bodies == old(bodies) - dropped
        invariant status == Cleared(old(status), dropped, DATA_STORED)
      {
        StaleTipsStep(old(bodies), bestChain, tips, i, dropped, dropHeight);
        if tips[i].Height() < |bestChain| {
          ghost var more := StaleOn(bodies, bestChain, tips[i], dropHeight);
          DropBranch(tips[i], dropHeight);
          ClearedTwice(old(status), dropped, more, DATA_STORED);
          dropped := dropped + more;
        }
        i := i + 1;
      }
      assert tips[..i] == tips;
    }

    /** Stale side chains are dropped once per retarget, when there is a witness buffer to fall out of. */
    predicate DropDue(height: nat)
      requires blocksPerRetarget > 0
    {
      witnessBuffer > 0 && height > witnessBuffer && height % blocksPerRetarget == 0
    }

    /** The stale bodies that connecting `node` drops. */
    ghost function Dropped(node: Node): set<Node>
      reads `bestChain, `status, `bodies
      requires blocksPerRetarget > 0
    {
      DroppedFrom(bodies, status.Keys, bestChain, node)
    }

    ghost function DroppedFrom(stored: set<Node>, nodes: set<Node>, view: View, node: Node): set<Node>
      requires blocksPerRetarget > 0
    {
      if DropDue(node.Height()) then Stale(stored, nodes, view, node.Height() - witnessBuffer) else {}
    }

    lemma BodiesIndexed()
      requires IndexOk()
      ensures bodies <= status.Keys
    {
    }

    /** The part of age-out that touches the index: once per retarget, stale side chains go. */
    method MaybeDropStaleSideChains(node: Node)
      requires IndexOk() && ViewsOk() && MarksOk() && blocksPerRetarget > 0
      requires node in bodies && node.Height() == |bestChain|
      modifies `status, `bodies
      ensures IndexOk() && ViewsOk() && MarksOk() && node in bodies && node in status
      ensures bodies == old(bodies) - old(Dropped(node))
      ensures status == Cleared(old(status), old(Dropped(node)), DATA_STORED)
    {
      hide LedgerOf, IsView, IndexFor, Stale, Replayable, Cleared, DropDue, AllStored;
      BodiesIndexed();
      if DropDue(node.Height()) {
        var dropHeight := node.Height() - witnessBuffer;
        DueBelow(node.Height());
        StaleOffView(bodies, status.Keys, bestChain, dropHeight, node);
        ReplayableCleared(rules, status, Stale(bodies, status.Keys, bestChain, dropHeight));
        DropStaleSideChainBodies(dropHeight);
      } else {
        ClearedNone(status, DATA_STORED);
      }
    }

    lemma DueBelow(height: nat)
      requires blocksPerRetarget > 0 && DropDue(height)
      ensures height - witnessBuffer < height
    {
    }

    /** Connects the transactions of a checked block on top of the tip, and then the block itself. */
    method ConnectChecked(node: Node)
      requires Valid() && node in bodies && node.Child? && node.parent == Tip(bestChain)
      requires CheckConnect(rules, node, utxo)
      modifies `bestChain, `utxo, `journal, `best, `status, `bodies
      ensures Valid() && Tip(bestChain) == node
      ensures bodies == old(bodies) - old(Dropped(node))
      ensures status == Cleared(old(status), old(Dropped(node)), DATA_STORED)
    {
      hide LedgerOf, IsView, IndexOk, MarksOk, Dropped, Path, NewBestState, Cleared,
        DistinctIds, NoOverwrite, Utxo.ConnectBlock, CountSpent;
      LedgerChild(rules, node, Ledger(utxo, journal, best));
      UndoBlock(utxo, node.header.block, node.Height());
      var c := Utxo.ConnectBlock(utxo, node.header.block, node.Height()).value;
      utxo := c.utxo;
      var _ := ConnectBlock(node, c.spent);
    }

    /** Makes a block the tip whose transactions are connected already, with what they spent. */
    method ConnectBlock(node: Node, stxos: seq<Entry>) returns (err: Option<ChainError>)
      requires IndexOk() && ViewsOk() && MarksOk() && HeadersOk() && blocksPerRetarget > 0 && node in bodies
               && node.Child?
      requires node.parent == Tip(bestChain) && |stxos| == CountSpent(node.header.block.rest) ==>
                 LedgerOf(rules, node) ==
                 Some(Ledger(utxo, journal[node := stxos], NewBestState(node, best.totalTxns + NumTxns(node))))
      modifies `bestChain, `journal, `best, `status, `bodies
      ensures err.None? <==> node.parent == old(Tip(bestChain)) && |stxos| == CountSpent(node.header.block.rest)
      ensures err.Some? ==> err.value == AssertError && unchanged(this)
      ensures err.None? ==>
                && Valid() && Tip(bestChain) == node
                && bodies == old(bodies) - old(Dropped(node))
                && status == Cleared(old(status), old(Dropped(node)), DATA_STORED)
      ensures !(0 < witnessBuffer < node.Height() && node.Height() % blocksPerRetarget == 0) ==>
                bodies == old(bodies) && status == old(status)
      ensures err.None? && 0 < witnessBuffer < node.Height() && node.Height() % blocksPerRetarget == 0 ==>
                bodies ==
                old(bodies) - Stale(old(bodies), old(status).Keys, old(bestChain), node.Height() - witnessBuffer)
    {
      hide LedgerOf, IsView, IndexOk, MarksOk, Stale, Path, NewBestState, Cleared, CountSpent, Node.Height;
      ClearedNone(status, DATA_STORED);
      if node.parent != Tip(bestChain) {
        return Some(AssertError);
      }
      if |stxos| != CountSpent(node.header.block.rest) {
        return Some(AssertError);
      }
      CommitConnect(node, stxos);
      err := None;
    }

    /** The database update and the new snapshot that make a block the tip. */
    method CommitConnect(node: Node, stxos: seq<Entry>)
      requires IndexOk() && ViewsOk() && MarksOk() && HeadersOk() && blocksPerRetarget > 0
      requires node in bodies && node.Child? && node.parent == Tip(bestChain)
      requires LedgerOf(rules, node) ==
               Some(Ledger(utxo, journal[node := stxos], NewBestState(node, best.totalTxns + NumTxns(node))))
      modifies `bestChain, `journal, `best, `status, `bodies
      ensures Valid() && Tip(bestChain) == node
      ensures bodies == old(bodies) - old(Dropped(node))
      ensures status == Cleared(old(status), old(Dropped(node)), DATA_STORED)
    {
      hide LedgerOf, IsView, IndexOk, MarksOk, Dropped, Path, NewBestState, Cleared;
      ViewExtend(bestChain, node);
      var state := NewBestState(node, best.totalTxns + NumTxns(node));
      journal := journal[node := stxos];
      MaybeDropStaleSideChains(node);
      bestChain := SetTip(bestChain, node);
      best := state;
    }

    /** Disconnects the tip, given the unspent outputs restored with its journal record. */
    method DisconnectBlock(node: Node, spent: seq<Entry>) returns (err: Option<ChainError>)
      requires Valid() && node.Child? && |spent| == CountSpent(node.header.block.rest)
      requires node == Tip(bestChain) ==> node in journal && spent == journal[node]
      modifies `bestChain, `utxo, `journal, `best
      ensures Valid()
      ensures err.None? <==> node == old(Tip(bestChain))
      ensures err.Some? ==> err.value == AssertError && unchanged(this)
      ensures err.None? ==> Tip(bestChain) == node.parent && journal == old(journal) - {node}
    {
      hide LedgerOf, IsView, IndexOk, MarksOk, Path, NewBestState, Utxo.DisconnectBlock, CountSpent;
      if node != Tip(bestChain) {
        return Some(AssertError);
      }
      LedgerUndo(rules, node, Ledger(utxo, journal, best));
      ViewShrink(bestChain);
      ParentIndexed(node);
      var state := NewBestState(node.parent, best.totalTxns - NumTxns(node));
      utxo := Utxo.DisconnectBlock(utxo, node.header.block, spent);
      journal := journal - {node};
      bestChain := SetTip(bestChain, node.parent);
      best := state;
      err := None;
    }

    lemma ParentIndexed(n: Node)
      requires IndexOk() && n in status && n.Child?
      ensures n.parent in status
    {
    }

    // ------------------------------------------------------ reorganization

    /** `view` holds the unspent outputs after block `n` of some branch. */
    ghost predicate ViewOf(n: Node, view: UtxoSet) {
      LedgerOf(rules, n).Some? && view == LedgerOf(rules, n).value.utxo
    }

    /** Best-chain blocks have a complete journal record, and it undoes them. */
    lemma JournalUndoes(n: Node, view: UtxoSet)
      requires ViewsOk() && LedgerOk() && n in bestChain && n.Child?
      ensures n in journal && |journal[n]| == CountSpent(n.header.block.rest)
      ensures ViewOf(n, view) ==> ViewOf(n.parent, Utxo.DisconnectBlock(view, n.header.block, journal[n]))
    {
      hide Utxo.DisconnectBlock, CountSpent;
      ContainsIsBranch(bestChain, n);
      LedgerJournal(rules, n, Tip(bestChain));
      LedgerUndo(rules, n, LedgerOf(rules, n).value);
    }

    /** Loads the journal records of the blocks to detach and undoes them on a view. */
    method LoadDetached(detach: seq<Node>, ghost h: nat) returns (view: UtxoSet, spent: seq<seq<Entry>>)
      requires Valid() && forall n <- detach :: n.Child? && n in bestChain
      ensures |spent| == |detach|
      ensures forall i :: 0 <= i < |detach| ==> detach[i] in journal && spent[i] == journal[detach[i]]
                                                && |spent[i]| == CountSpent(detach[i].header.block.rest)
      ensures h <= Tip(bestChain).Height() && detach == Down(Tip(bestChain), h) ==>
                ViewOf(AncestorAt(Tip(bestChain), h), view)
    {
      hide LedgerOf, IsView, IndexOk, MarksOk, Path, Utxo.DisconnectBlock, CountSpent, Down, AncestorAt, OnBranch;
      view, spent := utxo, [];
      var i := 0;
      ghost var cur := Tip(bestChain);
      ghost var contiguous := h <= cur.Height() && detach == Down(cur, h);
      while i < |detach|
        invariant 0 <= i <= |detach| && |spent| == i
        invariant forall j :: 0 <= j < i ==> detach[j] in journal && spent[j] == journal[detach[j]]
                                             && |spent[j]| == CountSpent(detach[j].header.block.rest)
        invariant contiguous ==>
                    && h <= cur.Height() && detach[i..] == Down(cur, h) && ViewOf(cur, view)
                    && AncestorAt(cur, h) == AncestorAt(Tip(bestChain), h)
      {
        var n := detach[i];
        JournalUndoes(n, view);
        DownStep(cur, h);
        view := Utxo.DisconnectBlock(view, n.header.block, journal[n]);
        spent := spent + [journal[n]];
        if contiguous {
          assert n == detach[i..][0] == cur;
          assert detach[i + 1..] == detach[i..][1..];
          AncestorStep(cur, h);
          cur := cur.parent;
        }
        i := i + 1;
      }
      DownStep(cur, h);
      if contiguous {
        AncestorStep(cur, h);
      }
    }

    /** Marks the block that failed and the blocks to attach above it. */
    method MarkFailed(attach: seq<Node>, k: nat)
      requires k < |attach| && forall n <- attach :: n in status
      modifies `status
      ensures status == Flagged(Flagged(old(status), {attach[k]}, VALIDATE_FAILED),
                                SetOf(attach[k + 1..]), INVALID_ANCESTOR)
    {
      SetStatusFlags(attach[k], VALIDATE_FAILED);
      ghost var st := status;
      var j := k + 1;
      while j < |attach|
        invariant k < j <= |attach| && status.Keys == old(status).Keys
        invariant status == Flagged(st, SetOf(attach[k + 1..j]), INVALID_ANCESTOR)
      {
        FlaggedTwice(st, SetOf(attach[k + 1..j]), {attach[j]}, INVALID_ANCESTOR);
        assert SetOf(attach[k + 1..j + 1]) == SetOf(attach[k + 1..j]) + {attach[j]} by {
          assert attach[k + 1..j + 1] == attach[k + 1..j] + [attach[j]];
        }
        SetStatusFlags(attach[j], INVALID_ANCESTOR);
        j := j + 1;
      }
      assert attach[k + 1..j] == attach[k + 1..];
    }

    /** The verification stopped at the `k`-th block to attach, whose body is missing or which
        cannot be replayed; `was` is the status map before. */
    ghost predicate StoppedAt(attach: seq<Node>, k: nat, err: Option<ChainError>, was: Statuses)
      reads `status, `bodies
    {
      && k < |attach| && (forall j :: 0 <= j < k ==> attach[j] in bodies && LedgerOf(rules, attach[j]).Some?)
      && if attach[k] !in bodies
         then err == Some(MissingData) && status == Flagged(was, SetOf(attach[..k]), VALID)
         else err == Some(RuleError) && LedgerOf(rules, attach[k]).None? && status == FailedAt(was, attach, k)
    }

    /** Checks the blocks to attach one after the other on a view. */
    method CheckAttached(attach: seq<Node>, view0: UtxoSet) returns (err: Option<ChainError>, ghost k: nat)
      requires MarksOk() && (forall n <- attach :: n in status) && Linked(attach)
      requires attach != [] ==> ViewOf(attach[0].parent, view0)
      modifies `status
      ensures MarksOk() && k <= |attach| && SameData(old(status), status)
      ensures err.None? ==> k == |attach| && status == Flagged(old(status), SetOf(attach), VALID)
      ensures err.None? ==> forall n <- attach :: n in bodies
      ensures err.None? && attach != [] ==> LedgerOf(rules, Last(attach)).Some?
      ensures err.Some? ==> StoppedAt(attach, k, err, old(status))
    {
      hide LedgerOf, CheckConnect, Utxo.ConnectBlock, Flagged, SetOf, Replayable, ViewOf, SameData;
      var view := view0;
      var i := 0;
      k := 0;
      SetOfNone(attach);
      FlaggedNone(status, VALID);
      while i < |attach|
        invariant 0 <= i <= |attach| && MarksOk() && status.Keys == old(status).Keys
        invariant status == Flagged(old(status), SetOf(attach[..i]), VALID)
        invariant forall j :: 0 <= j < i ==> attach[j] in bodies && LedgerOf(rules, attach[j]).Some?
        invariant i < |attach| ==> ViewOf(attach[i].parent, view)
        invariant i > 0 ==> ViewOf(attach[i - 1], view) && LedgerOf(rules, attach[i - 1]).Some?
      {
        var n := attach[i];
        k := i;
        SetOfStep(attach, i);
        FlaggedTwice(old(status), SetOf(attach[..i]), {n}, VALID);
        FlaggedData(old(status), SetOf(attach[..i]), VALID);
        if n !in bodies {
          return Some(MissingData), k;
        }
        if !status[n].valid {
          if !CheckConnect(rules, n, view) {
            ViewRefuses(n, view);
            ReplayableFlagged(rules, status, {n}, VALIDATE_FAILED);
            ReplayableFlagged(rules, Flagged(status, {n}, VALIDATE_FAILED), SetOf(attach[i + 1..]), INVALID_ANCESTOR);
            MarkFailed(attach, i);
            FailedAtData(old(status), attach, i);
            return Some(RuleError), k;
          }
        }
        if status[n].valid {
          ValidMark(n);
        }
        ViewConnect(n, view);
        if !status[n].valid {
          ReplayableFlagged(rules, status, {n}, VALID);
          SetStatusFlags(n, VALID);
        } else {
          FlaggedSame(status, n, VALID);
        }
        view := Utxo.ConnectBlock(view, n.header.block, n.Height()).value.utxo;
        i := i + 1;
      }
      assert attach[..i] == attach;
      FlaggedData(old(status), SetOf(attach), VALID);
      err, k := None, |attach|;
    }

    /** A block marked valid passes again without being checked. */
    lemma ValidMark(n: Node)
      requires MarksOk() && n in status && status[n].valid
      ensures LedgerOf(rules, n).Some?
    {
    }

    /** A block that fails its checks cannot be replayed. */
    lemma ViewRefuses(n: Node, view: UtxoSet)
      requires n.Child? && ViewOf(n.parent, view) && !CheckConnect(rules, n, view)
      ensures LedgerOf(rules, n).None?
    {
      if LedgerOf(rules, n).Some? {
        LedgerParent(rules, n);
      }
    }

    /** Connecting a block that passed its checks, or passed them before, advances the view. */
    lemma ViewConnect(n: Node, view: UtxoSet)
      requires n.Child? && ViewOf(n.parent, view)
      requires CheckConnect(rules, n, view) || LedgerOf(rules, n).Some?
      ensures Utxo.ConnectBlock(view, n.header.block, n.Height()).Some?
      ensures ViewOf(n, Utxo.ConnectBlock(view, n.header.block, n.Height()).value.utxo)
      ensures LedgerOf(rules, n).Some?
    {
      hide Utxo.ConnectBlock, DistinctIds, NoOverwrite;
      if LedgerOf(rules, n).Some? {
        LedgerParent(rules, n);
      }
      LedgerChild(rules, n, LedgerOf(rules, n.parent).value);
    }

    /** Checks that the lists can be processed, marking what it learns about the blocks to attach,
        without touching the chain. */
    method VerifyReorganizationValidity(detach: seq<Node>, attach: seq<Node>)
      returns (err: Option<ChainError>, spent: seq<seq<Entry>>, ghost k: nat)
      requires Valid() && ReorgLists(bestChain, detach, attach) && forall n <- attach :: n in status
      modifies `status
      ensures Valid()
      ensures err.None? ==> status == Flagged(old(status), SetOf(attach), VALID)
      ensures err.None? ==> |spent| == |detach|
      ensures err.None? ==> forall i :: 0 <= i < |detach| ==>
                              && detach[i] in journal && spent[i] == journal[detach[i]]
                              && |spent[i]| == CountSpent(detach[i].header.block.rest)
      ensures err.None? && detach != [] ==> detach[0] == Tip(bestChain)
      ensures err.None? ==> forall n <- attach :: n in bodies
      ensures err.None? && attach != [] ==> LedgerOf(rules, Last(attach)).Some?
      ensures err == Some(AssertError) ==>
                status == old(status) && k == 0 && detach != [] && detach[0] != Tip(bestChain)
      ensures err.Some? && err.value != AssertError ==> StoppedAt(attach, k, err, old(status))
    {
      hide LedgerOf, IsView, Flagged, FailedAt, SetOf, Replayable, Down, Up, CountSpent, OnBranch,
        AncestorAt, IndexFor, SameData;
      if detach == [] && attach == [] {
        FlaggedNone(status, VALID);
        SetOfNone(attach);
        assert attach[..0] == attach;
        return None, [], 0;
      }
      if attach != [] {
        ForkFacts(bestChain, detach, attach);
      } else if detach[0] != Tip(bestChain) {
        return Some(AssertError), [], 0;
      }
      ghost var h := if attach != [] then attach[0].parent.Height() else 0;
      var view;
      view, spent := LoadDetached(detach, h);
      ghost var st := status;
      err, k := CheckAttached(attach, view);
      IndexSame(root, index, st, status, bodies);
    }

    /** Disconnects the blocks of the detach list. */
    method DetachAll(detach: seq<Node>, spent: seq<seq<Entry>>) returns (err: Option<ChainError>, ghost i: nat)
      requires Valid() && (forall n <- detach :: n.Child?) && |spent| == |detach|
      requires forall i :: 0 <= i < |detach| ==>
                 && detach[i] in journal && spent[i] == journal[detach[i]]
                 && |spent[i]| == CountSpent(detach[i].header.block.rest)
      modifies `bestChain, `utxo, `journal, `best
      ensures Valid()
      ensures err.None? <==> Contiguous(detach, old(Tip(bestChain)))
      ensures err.None? ==> Tip(bestChain) == if detach == [] then old(Tip(bestChain)) else Last(detach).parent
      ensures err.Some? ==> err.value == AssertError && Interrupted(old(Tip(bestChain)), detach, i, Tip(bestChain))
      ensures detach == [] ==> unchanged(this)
    {
      hide LedgerOf, IsView, Path, CountSpent, Down, OnBranch, AncestorAt, IndexFor, Replayable;
      var j := 0;
      i := 0;
      ghost var was, top := journal, Tip(bestChain);
      DownStep(top, top.Height());
      BranchReflexive(top);
      while j < |detach|
        invariant 0 <= j <= |detach| && Valid()
        invariant OnBranch(Tip(bestChain), top)
        invariant detach[..j] == Down(top, Tip(bestChain).Height())
        invariant j > 0 ==> Tip(bestChain) == detach[j - 1].parent
        invariant j == 0 ==> unchanged(this)
        invariant forall n <- journal :: n in was && journal[n] == was[n]
      {
        var n := detach[j];
        if Contiguous(detach, top) {
          DownNext(top, Tip(bestChain), Last(detach).parent.Height(), j);
        }
        if n == Tip(bestChain) {
          TipInJournal();
        }
        i := j;
        err := DisconnectBlock(n, spent[j]);
        if err.Some? {
          return;
        }
        DownExtend(top, n);
        assert detach[..j + 1] == detach[..j] + [n];
        j := j + 1;
      }
      err := None;
    }

    lemma TipInJournal()
      requires LedgerOk() && Tip(bestChain).Child?
      ensures Tip(bestChain) in journal
    {
      LedgerUndo(rules, Tip(bestChain), Ledger(utxo, journal, best));
    }

    /** The next block to attach passes its checks on the current unspent outputs. */
    lemma NextConnects(attach: seq<Node>, i: nat)
      requires LedgerOk() && Linked(attach) && i < |attach| && attach[i].parent == Tip(bestChain)
      requires LedgerOf(rules, Last(attach)).Some?
      ensures CheckConnect(rules, attach[i], utxo)
    {
      hide LedgerOf, CheckConnect, OnBranch, Node.Height, Node.WorkSum;
      LinkedBranch(attach, i, |attach| - 1);
      LedgerBelow(rules, attach[i], Last(attach));
      LedgerParent(rules, attach[i]);
    }

    /** Connecting a block drops no body at its own height or above. */
    lemma DroppedBelow(node: Node, n: Node)
      requires blocksPerRetarget > 0 && n.Height() >= node.Height()
      ensures n !in Dropped(node)
    {
    }

    lemma DroppedLow(node: Node, h: nat)
      requires blocksPerRetarget > 0 && node.Height() <= h
      ensures GoneBelow(Dropped(node), h)
    {
      hide Dropped, Node.Height;
      forall n | n in Dropped(node)
        ensures n.Height() < h
      {
        if n.Height() >= node.Height() {
          DroppedBelow(node, n);
        }
      }
    }

    /** Connects the blocks of the attach list. */
    method AttachAll(attach: seq<Node>)
      requires Valid() && Linked(attach) && forall n <- attach :: n in bodies
      requires attach != [] ==> attach[0].parent == Tip(bestChain) && LedgerOf(rules, Last(attach)).Some?
      modifies `bestChain, `utxo, `journal, `best, `status, `bodies
      ensures Valid()
      ensures Tip(bestChain) == if attach == [] then old(Tip(bestChain)) else Last(attach)
      ensures attach == [] ==> unchanged(this)
      ensures witnessBuffer <= 0 ==> bodies == old(bodies)
      ensures bodies <= old(bodies) && status == Cleared(old(status), old(bodies) - bodies, DATA_STORED)
      ensures attach != [] ==> GoneBelow(old(bodies) - bodies, Last(attach).Height())
    {
      hide LedgerOf, IsView, Path, OnBranch, IndexFor, Replayable, Dropped, Cleared, CheckConnect, Node.Height;
      var i := 0;
      ClearedNone(status, DATA_STORED);
      assert old(bodies) - bodies == {};
      while i < |attach|
        invariant 0 <= i <= |attach| && Valid()
        invariant forall j :: i <= j < |attach| ==> attach[j] in bodies
        invariant i == 0 ==> unchanged(this)
        invariant i > 0 ==> Tip(bestChain) == attach[i - 1]
        invariant witnessBuffer <= 0 ==> bodies == old(bodies)
        invariant bodies <= old(bodies) && status == Cleared(old(status), old(bodies) - bodies, DATA_STORED)
        invariant attach != [] ==> GoneBelow(old(bodies) - bodies, Last(attach).Height())
      {
        NextConnects(attach, i);
        LinkedBranch(attach, i, |attach| - 1);
        DroppedLow(attach[i], Last(attach).Height());
        ghost var gone, now := Dropped(attach[i]), bodies;
        forall j | i <= j < |attach|
          ensures attach[j] !in gone
        {
          LinkedBranch(attach, i, j);
          DroppedBelow(attach[i], attach[j]);
        }
        DroppedStored(attach[i]);
        ConnectChecked(attach[i]);
        ClearedTwice(old(status), old(bodies) - now, gone, DATA_STORED);
        assert old(bodies) - bodies == old(bodies) - now + gone;
        i := i + 1;
      }
    }

    lemma DroppedStored(node: Node)
      requires blocksPerRetarget > 0
      ensures Dropped(node) <= bodies
      ensures witnessBuffer <= 0 ==> Dropped(node) == {}
    {
    }

    /** Reorganizes the best chain: verifies everything first, then disconnects, then connects.
        `k` is the block to attach at which the verification failed, or the first block of the detach
        list that was not the tip in its turn; a list with a gap is detached down to the gap. */
    method ReorganizeChain(detach: seq<Node>, attach: seq<Node>) returns (err: Option<ChainError>, ghost k: nat)
      requires Valid() && ReorgLists(bestChain, detach, attach) && forall n <- attach :: n in status
      modifies `bestChain, `utxo, `journal, `best, `status, `bodies
      ensures Valid()
      ensures err.None? ==> Tip(bestChain) == Target(old(bestChain), detach, attach)
      ensures err.None? ==>
                && bodies <= old(bodies)
                && status == Cleared(Flagged(old(status), SetOf(attach), VALID), old(bodies) - bodies, DATA_STORED)
      ensures err.Some? && (attach != [] || Contiguous(detach, old(Tip(bestChain)))) ==>
                && unchanged(`bestChain, `utxo, `journal, `best, `bodies)
                && StoppedAt(attach, k, err, old(status))
      ensures attach == [] ==> status == old(status) && bodies == old(bodies)
      ensures attach == [] ==> (err.None? <==> Contiguous(detach, old(Tip(bestChain))))
      ensures attach == [] && err.Some? ==>
                err.value == AssertError && Interrupted(old(Tip(bestChain)), detach, k, Tip(bestChain))
      ensures err.None? && attach != [] ==> GoneBelow(old(bodies) - bodies, Last(attach).Height())
      ensures attach == [] && detach == [] ==> err.None? && unchanged(this)
      ensures witnessBuffer <= 0 ==> bodies == old(bodies)
      ensures InvalidGrows(old(status), status)
    {
      hide LedgerOf, IsView, Path, OnBranch, IndexFor, Replayable, Dropped, Cleared, CheckConnect, Down, Up, Flagged,
        FailedAt, AncestorAt, CountSpent, SetOf, InvalidGrows, GoneBelow, Node.Height, Node.WorkSum;
      GrowsSame(status);
      NotStarted(Tip(bestChain), detach);
      if attach != [] {
        ForkFacts(bestChain, detach, attach);
        DownContiguous(Tip(bestChain), attach[0].parent.Height());
      }
      if detach != [] && Contiguous(detach, Tip(bestChain)) {
        ContiguousFirst(detach, Tip(bestChain));
      }
      SetOfNone(attach);
      assert attach == [] ==> attach[..0] == attach;
      FlaggedNone(status, VALID);
      var spent;
      err, spent, k := VerifyReorganizationValidity(detach, attach);
      if err.Some? {
        if attach != [] {
          if attach[k] in bodies {
            FailedAtGrows(old(status), attach, k);
          } else {
            GrowsFlagged(old(status), SetOf(attach[..k]), VALID);
          }
        }
        return;
      }
      hide ReorgLists;
      ghost var st := status;
      GrowsFlagged(old(status), SetOf(attach), VALID);
      err, k := DetachAll(detach, spent);
      if err.Some? {
        return;
      }
      AttachAll(attach);
      GrowsCleared(st, old(bodies) - bodies);
      GrowsTransitive(old(status), st, status);
      if attach == [] {
        assert old(bodies) - bodies == {};
        ClearedNone(st, DATA_STORED);
      }
    }

    // ----------------------------------------------- best-chain selection

    /** Builds the lists for making `node` the tip.  They are empty, and the blocks above the
        highest known-invalid one are marked, when the branch of `node` is known to be invalid;
        `bad` is then that highest invalid block. */
    method GetReorganizeNodes(node: Node) returns (detach: seq<Node>, attach: seq<Node>, ghost bad: Node)
      requires Valid() && node in status && !Contains(bestChain, node)
      modifies `status
      ensures Valid()
      ensures node.Child? && node.parent in status
      ensures attach != [] ==>
                && status == old(status) && ReorgLists(bestChain, detach, attach) && Last(attach) == node
                && !status[node.parent].KnownInvalid()
                && (forall n :: n in attach <==> ToAttach(bestChain, node, n))
                && forall n <- attach :: n in status && !status[n].KnownInvalid()
      ensures attach == [] ==>
                && detach == [] && bad in status && old(status[bad]).KnownInvalid() && OnBranch(bad, node)
                && (bad == node.parent || !Contains(bestChain, bad))
                && status == Flagged(old(status),
                                     if bad == node.parent then {node} else SetOf(Up(node, bad.Height())),
                                     INVALID_ANCESTOR)
      ensures InvalidGrows(old(status), status)
    {
      hide LedgerOf, Path, IndexFor, Replayable, Flagged, Up, Down, AncestorAt, OnBranch, IsView, SkipsOk, InvalidGrows,
        ToAttach;
      GrowsSame(status);
      attach, detach, bad := [], [], node;
      NodeFacts(node);
      if status[node.parent].KnownInvalid() {
        bad := node.parent;
        FlagKeeps(rules, root, index, status, bodies, {node}, INVALID_ANCESTOR);
        GrowsFlagged(status, {node}, INVALID_ANCESTOR);
        BranchStep(node.parent, node);
        SetStatusFlags(node, INVALID_ANCESTOR);
        return;
      }
      var fork := FindFork(bestChain, node);
      var f := fork.value;
      var n := node;
      UpTop(node);
      while n != f
        invariant status == old(status) && OnBranch(f, n) && OnBranch(n, node) && n in status
        invariant attach == Up(node, n.Height())
        invariant forall a <- attach :: a in status && !status[a].KnownInvalid()
        decreases n.Height()
      {
        WalkStep(node, n, f);
        if status[n].KnownInvalid() {
          bad := n;
          AboveFork(bestChain, node, f, n);
          FlagKeeps(rules, root, index, status, bodies, SetOf(attach), INVALID_ANCESTOR);
          GrowsFlagged(status, SetOf(attach), INVALID_ANCESTOR);
          MarkUnwound(attach);
          attach := [];
          return;
        }
        ParentIndexed(n);
        attach := [n] + attach;
        n := n.parent;
      }
      detach := DetachList(f);
      ListsThrough(bestChain, node, f);
      forall n ensures n in attach <==> ToAttach(bestChain, node, n) {
        AttachIs(bestChain, node, f, n);
      }
    }

    lemma NodeFacts(node: Node)
      requires IndexOk() && BestOk() && node in status && !Contains(bestChain, node)
      ensures node.Child? && node.parent in status && SkipsOk(node)
      ensures bestChain[0] == AncestorAt(node, 0)
      ensures OnBranch(node, node)
    {
      OffViewChild(status.Keys, root, bestChain, node);
      TreeView(status.Keys, root, bestChain);
      TreeBranch(status.Keys, root, node, root);
      RootUnique(node, root);
    }

    /** Unwinds the attach list, marking every node of it. */
    method MarkUnwound(attach: seq<Node>)
      requires forall a <- attach :: a in status
      modifies `status
      ensures status == Flagged(old(status), SetOf(attach), INVALID_ANCESTOR)
    {
      var i := 0;
      SetOfNone(attach);
      FlaggedNone(status, INVALID_ANCESTOR);
      while i < |attach|
        invariant 0 <= i <= |attach| && status.Keys == old(status).Keys
        invariant status == Flagged(old(status), SetOf(attach[..i]), INVALID_ANCESTOR)
      {
        SetOfStep(attach, i);
        FlaggedTwice(old(status), SetOf(attach[..i]), {attach[i]}, INVALID_ANCESTOR);
        SetStatusFlags(attach[i], INVALID_ANCESTOR);
        i := i + 1;
      }
      assert attach[..i] == attach;
    }

    /** Walks back from the tip to the fork point. */
    method DetachList(f: Node) returns (detach: seq<Node>)
      requires BestOk() && Contains(bestChain, f)
      ensures detach == Down(Tip(bestChain), f.Height())
    {
      hide Down, OnBranch, IsView;
      detach := [];
      var n := Tip(bestChain);
      ContainsIsBranch(bestChain, f);
      while n != f
        invariant OnBranch(f, n)
        invariant detach + Down(n, f.Height()) == Down(Tip(bestChain), f.Height())
        decreases n.Height()
      {
        BranchWork(f, n);
        BranchStep(f, n);
        DownStep(n, f.Height());
        detach := detach + [n];
        n := n.parent;
      }
      DownStep(f, f.Height());
    }

    /** Extends the best chain with a block whose parent is the tip, known to be invalid or not. */
    method ExtendTip(node: Node, fastAdd: bool) returns (err: Option<ChainError>)
      requires Valid() && node in bodies && node.Child? && node.parent == Tip(bestChain)
      requires fastAdd ==> CheckConnect(rules, node, utxo)
      modifies `bestChain, `utxo, `journal, `best, `status, `bodies
      ensures Valid() && bodies <= old(bodies) && node in status
      ensures witnessBuffer <= 0 ==> bodies == old(bodies)
      ensures err.None? <==> LedgerOf(rules, node).Some?
      ensures err.None? ==> Tip(bestChain) == node && status[node].valid && SameVerdicts(old(status), status)
      ensures err.None? ==> bodies == old(bodies) - old(Dropped(node)) && GoneBelow(old(bodies) - bodies, node.Height())
      ensures err.Some? ==> err.value == RuleError && unchanged(`bestChain, `utxo, `journal, `best, `bodies)
      ensures err.Some? ==> node in old(status) && status == Flagged(old(status), {node}, VALIDATE_FAILED)
    {
      hide LedgerOf, CheckConnect, IsView, IndexFor, Replayable, Flagged, Cleared, InvalidGrows, DroppedFrom, AllStored,
        SameVerdicts, GoneBelow, Node.Height;
      BodiesIndexed();
      var fast := fastAdd || status[node].valid;
      TipConnects(node);
      if !fast {
        if !CheckConnect(rules, node, utxo) {
          FlagKeeps(rules, root, index, status, bodies, {node}, VALIDATE_FAILED);
          SetStatusFlags(node, VALIDATE_FAILED);
          return Some(RuleError);
        }
        SetValid(node);
      } else {
        SelfVerdicts(status);
      }
      ghost var st, gone := status, Dropped(node);
      DroppedStored(node);
      DroppedLow(node, node.Height());
      ConnectChecked(node);
      assert old(bodies) - bodies == gone;
      VerdictsCleared(st, gone);
      VerdictsTransitive(old(status), st, status);
      BodiesIndexed();
      TipStored();
      st := status;
      if fast || !status[node].valid {
        SetValid(node);
        VerdictsTransitive(old(status), st, status);
      }
      err := None;
    }

    lemma TipStored()
      requires ViewsOk()
      ensures Tip(bestChain) in bodies && Tip(bestChain) in status
    {
    }

    /** A block on top of the tip connects exactly when its branch can be replayed. */
    lemma TipConnects(node: Node)
      requires LedgerOk() && MarksOk() && node in status && node.Child? && node.parent == Tip(bestChain)
      ensures CheckConnect(rules, node, utxo) <==> LedgerOf(rules, node).Some?
      ensures status[node].valid ==> CheckConnect(rules, node, utxo)
    {
      hide CheckConnect, NewBestState;
    }

    /** Marks a replayable block as valid. */
    method SetValid(node: Node)
      requires Valid() && node in status && LedgerOf(rules, node).Some?
      modifies `status
      ensures Valid() && status == Flagged(old(status), {node}, VALID) && status.Keys == old(status).Keys
      ensures SameVerdicts(old(status), status) && status[node].valid
    {
      hide LedgerOf, IsView, IndexFor, SameVerdicts, AllStored, Replayable;
      FlaggedData(status, {node}, VALID);
      IndexSame(root, index, status, Flagged(status, {node}, VALID), bodies);
      ReplayableFlagged(rules, status, {node}, VALID);
      VerdictsFlagged(status, {node}, VALID);
      SetStatusFlags(node, VALID);
    }

    /** What selecting between the best chain and a stored block leaves behind. */
    twostate predicate Chosen(node: Node)
      reads this
      requires old(bestChain) != [] && bestChain != []
    {
      && bodies <= old(bodies) && InvalidGrows(old(status), status)
      && (Tip(bestChain) == node ==>
            SameVerdicts(old(status), status) && GoneBelow(old(bodies) - bodies, node.Height()))
      && (Tip(bestChain) != node ==>
            unchanged(`bestChain, `utxo, `journal, `best, `bodies) && SparesView(bestChain, old(status), status))
      && (Truthful(rules, old(status)) ==> Truthful(rules, status))
    }

    /** Connects a stored block, respecting the branch with the most work. */
    method ConnectBestChain(node: Node, fastAdd: bool) returns (isMain: bool, err: Option<ChainError>)
      requires Valid() && node in bodies && node.Child? && !Contains(bestChain, node)
      requires fastAdd && node.parent == Tip(bestChain) ==> CheckConnect(rules, node, utxo)
      modifies `bestChain, `utxo, `journal, `best, `status, `bodies
      ensures Valid() && Chosen(node)
      ensures Tip(bestChain) == node <==> old(TakesOver(rules, status, bodies, bestChain, node))
      ensures old(OnlyStored(bestChain, node)) ==> status == old(status)
      ensures Tip(bestChain) != node && !old(OnlyStored(bestChain, node)) ==>
                !Clean(status, node) || !BranchStored(old(bodies), node)
      ensures node.parent == old(Tip(bestChain)) && Tip(bestChain) == node ==>
                bodies == old(bodies) - old(Dropped(node))
      ensures Tip(bestChain).WorkSum() >= old(Tip(bestChain).WorkSum())
      ensures Tip(bestChain) != old(Tip(bestChain)) && node.header.work > 0 ==>
                Tip(bestChain).WorkSum() > old(Tip(bestChain).WorkSum())
      ensures witnessBuffer <= 0 ==> bodies == old(bodies)
      ensures err.Some? ==> unchanged(`bestChain, `utxo, `journal, `best, `bodies)
      ensures isMain ==> err.None?
      ensures isMain <==> Tip(bestChain) == node || old(FalseMain(status, bestChain, node))
    {
      hide LedgerOf, CheckConnect, IsView, IndexFor, Replayable, Flagged, Cleared, InvalidGrows, Dropped, AllStored,
        Clean, OnBranch, SameVerdicts, GoneBelow, SparesView, Truthful, Attachable, Passes, BranchStored, Contains;
      BodiesIndexed();
      SelfVerdicts(status);
      VerdictsSame(rules, bestChain, status, status);
      NotTheTip(bestChain, node);
      if node.parent == Tip(bestChain) {
        err := ExtendTip(node, fastAdd);
        if err.Some? {
          ExtendRefused(rules, old(status), bestChain, node);
          return false, err;
        }
        VerdictsSame(rules, bestChain, old(status), status);
        return true, None;
      }
      if node.WorkSum() <= Tip(bestChain).WorkSum() {
        GoneNone(node.Height());
        return false, None;
      }
      isMain, err := SwitchTo(node);
    }

    /** Reorganizes to a side branch, which works exactly when no block to attach is known to be
        invalid and all of them are stored and can be replayed. */
    method SwitchTo(node: Node) returns (isMain: bool, err: Option<ChainError>)
      requires Valid() && node in bodies && node.Child? && !Contains(bestChain, node)
      modifies `bestChain, `utxo, `journal, `best, `status, `bodies
      ensures Valid() && Chosen(node)
      ensures Tip(bestChain) == node <==>
              old(Attachable(status, bestChain, node)) && old(Passes(rules, bodies, bestChain, node))
      ensures Tip(bestChain) != node ==> !Clean(status, node) || !BranchStored(old(bodies), node)
      ensures witnessBuffer <= 0 ==> bodies == old(bodies)
      ensures err.Some? ==> unchanged(`bestChain, `utxo, `journal, `best, `bodies)
      ensures isMain == err.None?
      ensures isMain <==> Tip(bestChain) == node || !old(Attachable(status, bestChain, node))
    {
      hide LedgerOf, CheckConnect, IsView, IndexFor, Replayable, Flagged, Cleared, InvalidGrows, Dropped, AllStored,
        Clean, Up, FailedAt, SetOf, OnBranch, ReorgLists, SameVerdicts, GoneBelow, SparesView, Truthful, Attachable,
        Passes, BranchStored, Contains, ToAttach, Node.Height, Node.WorkSum;
      BodiesIndexed();
      NotTheTip(bestChain, node);
      var detach, attach;
      ghost var bad, k;
      ghost var was := bestChain;
      detach, attach, bad := GetReorganizeNodes(node);
      ghost var st := status;
      GrowsKeys(old(status), st);
      EmptyLists(bestChain);
      err, k := ReorganizeChain(detach, attach);
      GrowsTransitive(old(status), st, status);
      isMain := err.None?;
      if attach == [] {
        NotAttachable(old(status), was, node, bad);
        Unwound(rules, old(status), was, node, bad);
        BadStays(old(status), status, bad);
        MarkedUnclean(status, bad, node);
      } else {
        AttachableIs(old(status), was, node, attach);
        if err.None? {
          SwitchedPasses(rules, old(bodies), was, node, bestChain, bodies);
          SwitchVerdicts(rules, st, SetOf(attach), old(bodies) - bodies);
        } else {
          StoppedFails(rules, bodies, was, node, attach[k]);
          Stopped(rules, st, was, detach, attach, k, bodies);
        }
      }
    }

    // ---------------------------------------------------------- acceptance

    /** A block that is already known to fit on top of the tip, whatever its skip pointer. */
    ghost predicate Fits(header: Header)
      reads `bestChain, `utxo
      requires bestChain != []
    {
      forall n: Node :: n.Child? && n.header == header && n.parent == Tip(bestChain) ==> CheckConnect(rules, n, utxo)
    }

    /** Stores the body of a block and finds or creates its node. */
    method StoreBlock(header: Header, prevNode: Node) returns (node: Node)
      requires Valid() && prevNode in status && Commits(index, header, prevNode.Hash())
      requires header.hash in index ==> index[header.hash] !in bodies
      modifies `index, `status, `bodies
      ensures Valid() && node in bodies && bodies == old(bodies) + {node}
      ensures node.Child? && node.header == header && node.parent == prevNode
      ensures IndexGrows(old(index), index, header, prevNode.Hash())
      ensures header.hash in index && index[header.hash] == node
      ensures status == WithBody(old(status), node)
      ensures status.Keys == old(status).Keys + {node}
      ensures forall n <- old(status) :: n != node ==> status[n] == old(status)[n]
      ensures status[node] == if node in old(status) then old(status)[node].(dataStored := true)
                              else Status(true, false, false, false, true)
    {
      hide LedgerOf, IsView, Replayable, SkipsOk, Flagged, AllStored, IndexFor, IndexGrows;
      StoredMoreAll(bestChain, bodies);
      NodeSkips(prevNode);
      if header.hash in index {
        node := index[header.hash];
        PrevIndexed(header.hash);
        NotInView(bestChain, bodies, node);
        NotGenesis(bestChain, node);
        IndexedParent(node, prevNode);
        UpgradeKeeps(rules, root, index, status, bodies, node);
        IndexGrowsBy(index, node, prevNode.Hash());
        bodies := bodies + {node};
        SetStatusFlags(node, DATA_STORED);
      } else {
        node := NewBlockNode(header, prevNode);
        AddKeeps(rules, root, index, status, bodies, node, DATA_STORED.Or(HEADER_STORED), bodies + {node});
        IndexGrowsBy(index, node, prevNode.Hash());
        index := index[node.Hash() := node];
        status := status[node := DATA_STORED.Or(HEADER_STORED)];
        bodies := bodies + {node};
      }
      WithBodyMeans(old(status), node);
    }

    /** Genesis is on every view. */
    lemma NotGenesis(v: View, n: Node)
      requires IndexOk() && v != [] && IsView(v) && Tip(v) in status && n in status && !Contains(v, n)
      ensures n.Child?
    {
      OffViewChild(status.Keys, root, v, n);
    }

    lemma NodeSkips(n: Node)
      requires IndexOk() && n in status
      ensures SkipsOk(n) && n.Hash() in index && index[n.Hash()] == n
    {
      hide SkipsOk;
    }

    lemma IndexedParent(n: Node, p: Node)
      requires IndexOk() && p in status && (n in status || exists h <- index :: index[h] == n)
      ensures n in status
      ensures n.Child? && n.parent.Hash() == p.Hash() ==> n.parent == p
    {
      hide SkipsOk;
    }

    /** No stored branch that is free of invalidity marks has more work than the tip. */
    ghost predicate MostWork()
      reads `status, `bodies, `bestChain
      requires bestChain != []
    {
      NoneBetter(status, bodies, Tip(bestChain))
    }

    /** The marks say nothing untrue, so the best chain has none. */
    ghost predicate TrueVerdicts()
      reads `status
    {
      Truthful(rules, status)
    }

    /** The bodies that are left once `node` is stored: without a witness buffer all of them, and
        when it extended the tip all that connecting it did not drop. */
    ghost predicate BodiesAfter(stored: set<Node>, nodes: set<Node>, view: View, node: Node)
      reads `bodies, `bestChain
      requires blocksPerRetarget > 0 && view != [] && bestChain != []
    {
      && bodies <= stored + {node} && (witnessBuffer <= 0 ==> bodies == stored + {node})
      && (node.Child? && node.parent == Tip(view) && Tip(bestChain) == node ==>
            bodies == stored + {node} - DroppedFrom(stored + {node}, nodes + {node}, view, node))
    }

    /** Accepts a block into the block tree, and connects it when its branch is the best one.
        `contextOk` is the outcome of the checks against the headers before the block. */
    method MaybeAcceptBlock(header: Header, prev: Hash, contextOk: bool, fastAdd: bool)
      returns (isMain: bool, err: Option<ChainError>)
      requires Valid() && Commits(index, header, prev)
      requires header.hash in index ==> index[header.hash] !in bodies
      requires prev in index ==> index[prev] in bodies
      requires fastAdd ==> Fits(header)
      modifies `index, `status, `bodies, `bestChain, `utxo, `journal, `best
      ensures Valid() && IndexGrows(old(index), index, header, prev)
      ensures isMain ==> err.None?
      ensures prev !in old(index) || old(status[index[prev]]).KnownInvalid() || !contextOk ==>
                err.Some? && unchanged(this)
      ensures prev in old(index) && !old(status[index[prev]]).KnownInvalid() && contextOk ==>
                && header.hash in index && IsNode(index[header.hash], header, old(index[prev]))
                && Accepted(rules, old(status), old(bodies), old(bestChain), index[header.hash], status, bodies,
                            bestChain)
                && BodiesAfter(old(bodies), old(status).Keys, old(bestChain), index[header.hash])
                && (isMain <==>
                    Tip(bestChain) == index[header.hash]
                    || FalseMain(WithBody(old(status), index[header.hash]), old(bestChain), index[header.hash]))
      ensures Tip(bestChain).WorkSum() >= old(Tip(bestChain).WorkSum())
      ensures Tip(bestChain) != old(Tip(bestChain)) && header.work > 0 ==>
                Tip(bestChain).WorkSum() > old(Tip(bestChain).WorkSum())
    {
      hide LedgerOf, CheckConnect, IsView, Replayable, Flagged, InvalidGrows, AllStored, Clean, BranchStored, TakesOver,
        NoneBetter, OnBranch, IndexGrows, SkipsOk, IndexFor, Accepted, SameVerdicts, GoneBelow, SparesView, Truthful,
        WithBody, Contains, OnlyStored, Node.WorkSum, Node.Height, Commits, DroppedFrom, FalseMain;
      IndexGrowsNot(index, header, prev);
      if prev !in index {
        return false, Some(UnknownParent);
      }
      var prevNode := index[prev];
      PrevIndexed(prev);
      if status[prevNode].KnownInvalid() {
        return false, Some(InvalidAncestorBlock);
      }
      if !contextOk {
        return false, Some(ContextError);
      }
      ghost var st, stored, was, index0 := status, bodies, bestChain, index;
      TreeOf(root, index0, st, stored);
      var node := StoreBlock(header, prevNode);
      WithBodyKeys(st, node);
      NotStored(root, index0, st, stored, node);
      NotInView(bestChain, stored, node);
      isMain, err := ConnectBestChain(node, fastAdd);
      DecisionIs(rules, st, stored, was, node, status, bodies, bestChain);
      AcceptedFrom(rules, root, st, stored, was, node, status, bodies, bestChain);
    }

    /** The node of a header on top of a parent. */
    predicate IsNode(n: Node, header: Header, parent: Node) {
      n.Child? && n.header == header && n.parent == parent
    }

    lemma PrevIndexed(h: Hash)
      requires IndexOk() && h in index
      ensures index[h] in status && index[h].Hash() == h
    {
      hide SkipsOk;
    }

    /** A header adds at most a node without a body, so that the laws of the chain survive. */
    twostate predicate HeaderOnly(header: Header)
      reads this
      requires old(bestChain) != [] && bestChain != []
    {
      && (status == old(status) || (header.hash !in old(index) && header.hash in index
                                    && status == old(status)[index[header.hash] := HEADER_STORED]))
      && (old(MostWork()) ==> MostWork())
      && (old(TrueVerdicts()) ==> TrueVerdicts())
      && (old(Clean(status, Tip(bestChain))) ==> Clean(status, Tip(bestChain)))
    }

    /** A header is accepted: its parent is known and not known to be invalid, the header itself is
        not known to be invalid, and it passes its checks or is on the best header chain already. */
    ghost predicate AdmitsHeader(header: Header, prev: Hash, checksOk: bool)
      reads `index, `status, `bestHeader
    {
      && prev in index && index[prev] in status && !status[index[prev]].KnownInvalid()
      && (header.hash in index ==> index[header.hash] in status && !status[index[header.hash]].KnownInvalid())
      && (checksOk || (header.hash in index && Contains(bestHeader, index[header.hash])))
    }

    /** Accepts a header into the block tree and moves the best header tip when it has more work.
        `checksOk` is the outcome of the header's own checks. */
    method MaybeAcceptBlockHeader(header: Header, prev: Hash, checksOk: bool)
      returns (isMain: bool, err: Option<ChainError>)
      requires Valid() && Commits(index, header, prev)
      modifies `index, `status, `bestHeader, `headers
      ensures Valid() && IndexGrows(old(index), index, header, prev)
      ensures isMain ==> err.None?
      ensures err.None? <==> old(AdmitsHeader(header, prev, checksOk))
      ensures err.Some? ==> unchanged(this)
      ensures HeaderOnly(header)
      ensures err.None? ==> header.hash in index && headers == old(headers) + {index[header.hash]}
      ensures err.None? ==> (isMain <==> Contains(bestHeader, index[header.hash]))
      ensures Tip(bestHeader) == old(Tip(bestHeader)) || Tip(bestHeader) == index[header.hash]
      ensures Tip(bestHeader).WorkSum() >= old(Tip(bestHeader).WorkSum())
      ensures Tip(bestHeader) != old(Tip(bestHeader)) && header.work > 0 ==>
                Tip(bestHeader).WorkSum() > old(Tip(bestHeader).WorkSum())
    {
      hide LedgerOf, IsView, Replayable, AllStored, OnBranch, IndexGrows, SkipsOk, IndexFor, Contains, Path, NoneBetter,
        Node.Height, Commits, Truthful, Clean;
      IndexGrowsNot(index, header, prev);
      if prev !in index {
        return false, Some(UnknownParent);
      }
      var prevNode := index[prev];
      PrevIndexed(prev);
      if status[prevNode].KnownInvalid() {
        return false, Some(InvalidAncestorBlock);
      }
      var known := if header.hash in index then Some(index[header.hash]) else None;
      if known.Some? {
        PrevIndexed(header.hash);
        if status[known.value].validateFailed {
          return false, Some(KnownInvalidBlock);
        } else if status[known.value].invalidAncestor {
          return false, Some(InvalidAncestorBlock);
        }
        if Contains(bestHeader, known.value) {
          InViewWork(bestHeader, known.value);
          headers := headers + {known.value};
          return true, None;
        }
      }
      if !checksOk {
        return false, Some(ContextError);
      }
      isMain := MoveBestHeader(header, prevNode);
      err := None;
    }

    /** Adds the header and makes it the tip of the best header chain when it extends it or has more work. */
    method MoveBestHeader(header: Header, prevNode: Node) returns (isMain: bool)
      requires Valid() && prevNode in status && Commits(index, header, prevNode.Hash())
      requires header.hash in index ==> !Contains(bestHeader, index[header.hash])
      modifies `index, `status, `bestHeader, `headers
      ensures Valid() && IndexGrows(old(index), index, header, prevNode.Hash()) && HeaderOnly(header)
      ensures header.hash in index && headers == old(headers) + {index[header.hash]}
      ensures isMain <==> Contains(bestHeader, index[header.hash])
      ensures Tip(bestHeader) == if isMain then index[header.hash] else old(Tip(bestHeader))
      ensures Tip(bestHeader).WorkSum() >= old(Tip(bestHeader).WorkSum())
      ensures isMain && header.work > 0 ==> Tip(bestHeader).WorkSum() > old(Tip(bestHeader).WorkSum())
    {
      hide LedgerOf, IsView, Replayable, AllStored, OnBranch, IndexGrows, SkipsOk, IndexFor, Contains, Path, NoneBetter,
        Node.Height, Commits, Truthful, Clean;
      var node := AddHeader(header, prevNode);
      headers := headers + {node};
      if prevNode == Tip(bestHeader) {
        bestHeader := SetTip(bestHeader, node);
        TopOfView(node);
        return true;
      }
      if node.WorkSum() <= Tip(bestHeader).WorkSum() {
        return false;
      }
      bestHeader := SetTip(bestHeader, node);
      TopOfView(node);
      return true;
    }

    /** Finds the node of a header, or creates it. */
    method AddHeader(header: Header, prevNode: Node) returns (node: Node)
      requires Valid() && prevNode in status && Commits(index, header, prevNode.Hash())
      requires header.hash in index ==> !Contains(bestHeader, index[header.hash])
      modifies `index, `status
      ensures Valid() && node in status && !Contains(bestHeader, node) && HeaderOnly(header)
      ensures IsNode(node, header, prevNode)
      ensures IndexGrows(old(index), index, header, prevNode.Hash())
      ensures header.hash in index && index[header.hash] == node
    {
      hide LedgerOf, IsView, Replayable, SkipsOk, AllStored, IndexFor, IndexGrows, Contains, NoneBetter, Truthful,
        Clean;
      NodeSkips(prevNode);
      if header.hash in index {
        node := index[header.hash];
        PrevIndexed(header.hash);
        NotGenesis(bestHeader, node);
        IndexedParent(node, prevNode);
        IndexGrowsBy(index, node, prevNode.Hash());
      } else {
        node := NewBlockNode(header, prevNode);
        AddKeeps(rules, root, index, status, bodies, node, HEADER_STORED, bodies);
        IndexGrowsBy(index, node, prevNode.Hash());
        NewNotInView(bestHeader, node);
        HeaderStill(root, index, status, bodies, node, Tip(bestChain));
        HeaderTruthful(rules, status, node);
        index := index[node.Hash() := node];
        status := status[node := HEADER_STORED];
      }
    }

    lemma NewNotInView(v: View, n: Node)
      requires IndexOk() && v != [] && IsView(v) && Tip(v) in status && n !in status
      ensures !Contains(v, n)
    {
      hide SkipsOk, IsView;
      TreeView(status.Keys, root, v);
      ContainsIsBranch(v, n);
    }

    /** A block goes on to be accepted: it passes its checks, is not stored yet, and its parent is
        stored and not known to be invalid. */
    ghost predicate Admits(header: Header, prev: Hash, sane: bool, contextOk: bool)
      reads `index, `status, `bodies
    {
      && sane && contextOk && !(header.hash in index && index[header.hash] in bodies)
      && prev in index && index[prev] in bodies && index[prev] in status && !status[index[prev]].KnownInvalid()
    }

    /** Handles a new block: rejects duplicates and insane blocks, sets orphans aside (they go to
        the orphan pool), and accepts the others. */
    method ProcessBlock(header: Header, prev: Hash, sane: bool, contextOk: bool)
      returns (isMain: bool, isOrphan: bool, err: Option<ChainError>)
      requires Valid() && Commits(index, header, prev)
      modifies `index, `status, `bodies, `bestChain, `utxo, `journal, `best
      ensures Valid() && IndexGrows(old(index), index, header, prev)
      ensures isOrphan <==> !(header.hash in old(index) && old(index[header.hash]) in old(bodies)) && sane
                            && !(prev in old(index) && old(index[prev]) in old(bodies))
      ensures !old(Admits(header, prev, sane, contextOk)) ==> unchanged(this) && !isMain
      ensures old(Admits(header, prev, sane, contextOk)) ==>
                && header.hash in index && IsNode(index[header.hash], header, old(index[prev]))
                && Accepted(rules, old(status), old(bodies), old(bestChain), index[header.hash], status, bodies,
                            bestChain)
                && BodiesAfter(old(bodies), old(status).Keys, old(bestChain), index[header.hash])
                && (isMain <==>
                    Tip(bestChain) == index[header.hash]
                    || FalseMain(WithBody(old(status), index[header.hash]), old(bestChain), index[header.hash]))
      ensures Tip(bestChain).WorkSum() >= old(Tip(bestChain).WorkSum())
      ensures Tip(bestChain) != old(Tip(bestChain)) && header.work > 0 ==>
                Tip(bestChain).WorkSum() > old(Tip(bestChain).WorkSum())
    {
      hide LedgerOf, IsView, Replayable, AllStored, OnBranch, IndexGrows, SkipsOk, IndexFor, Contains, Path,
        Accepted, Commits, BodiesAfter, FalseMain, WithBody, Node.WorkSum, Node.Height;
      IndexGrowsNot(index, header, prev);
      if header.hash in index && index[header.hash] in bodies {
        return false, false, Some(DuplicateBlock);
      }
      if !sane {
        return false, false, Some(ContextError);
      }
      if !(prev in index && index[prev] in bodies) {
        return false, true, None;
      }
      PrevIndexed(prev);
      isOrphan := false;
      isMain, err := MaybeAcceptBlock(header, prev, contextOk, false);
    }
  }

  datatype Event =
    | NewBlock(header: Header, prev: Hash, sane: bool, contextOk: bool)
    | NewHeader(header: Header, prev: Hash, checksOk: bool)

  /** Collision freedom: a hash stands for one header and one parent, in the index and in what arrives. */
  ghost predicate AllCommit(index: map<Hash, Node>, events: seq<Event>) {
    && (forall e <- events :: Commits(index, e.header, e.prev))
    && (forall d, e | d in events && e in events && d.header.hash == e.header.hash ::
          d.header == e.header && d.prev == e.prev)
  }

  lemma StillCommits(index: map<Hash, Node>, events: seq<Event>, e: Event, index': map<Hash, Node>)
    requires AllCommit(index, events) && e in events && IndexGrows(index, index', e.header, e.prev)
    requires forall h <- index :: index[h].Hash() == h
    ensures AllCommit(index', events)
  {
    forall d | d in events
      ensures Commits(index', d.header, d.prev)
    {
      assert Commits(index, d.header, d.prev);
    }
  }

  /** No block body is delivered twice, nor any that is stored already. */
  ghost predicate NoneAgain(index: map<Hash, Node>, bodies: set<Node>, events: seq<Event>) {
    && (forall e <- events :: e.NewBlock? && e.header.hash in index ==> index[e.header.hash] !in bodies)
    && (forall i, j :: 0 <= i < j < |events| && events[i].NewBlock? && events[j].NewBlock? ==>
          events[i].header.hash != events[j].header.hash)
  }

  /** The blocks that were stored at some point: those stored at first and those delivered since. */
  ghost predicate EverFrom(ever: set<Node>, bodies: set<Node>, events: seq<Event>) {
    forall n <- ever :: n in bodies || exists e <- events :: e.NewBlock? && e.header.hash == n.Hash()
  }

  /** No block of this event was stored once and is gone now. */
  ghost predicate NotGone(ever: set<Node>, bodies: set<Node>, e: Event) {
    e.NewBlock? ==> forall n <- ever :: n.Hash() == e.header.hash ==> n in bodies
  }

  /** Any run of arriving blocks and headers, valid or not, in any order, with forks and with orphans
      left aside.  The ledger is always the replay of the best chain (part of `Valid`), and the tips
      never lose work.  If the marks were true they stay true, and then the best chain has none.  If
      there is no witness buffer, so that no body is dropped, or no body is delivered twice, no stored
      branch without marks has more work than the tip. */
  method Run(chain: BlockChain, events: seq<Event>)
    requires chain.Valid() && AllCommit(chain.index, events)
    modifies chain
    ensures chain.Valid()
    ensures old(chain.TrueVerdicts()) ==> chain.TrueVerdicts() && Clean(chain.status, Tip(chain.bestChain))
    ensures old(chain.MostWork()) && DataClosed(old(chain.bodies))
            && (chain.witnessBuffer <= 0 || NoneAgain(old(chain.index), old(chain.bodies), events)) ==>
              chain.MostWork()
    ensures Tip(chain.bestChain).WorkSum() >= old(Tip(chain.bestChain).WorkSum())
    ensures Tip(chain.bestHeader).WorkSum() >= old(Tip(chain.bestHeader).WorkSum())
    ensures forall h <- old(chain.index) :: h in chain.index && chain.index[h] == old(chain.index[h])
  {
    hide LedgerOf, IsView, Replayable, AllStored, OnBranch, SkipsOk, IndexFor, Contains, Path, NoneBetter, DataClosed,
      Commits, AllCommit, Truthful, Clean, NoneAgain, EverFrom, NotGone, Node.WorkSum, Node.Height;
    ghost var index0, bodies0, ever := chain.index, chain.bodies, chain.bodies;
    ghost var lawful := && chain.MostWork() && DataClosed(bodies0)
                        && (chain.witnessBuffer <= 0 || NoneAgain(index0, bodies0, events));
    EverStart(bodies0);
    StoredAtHash(chain);
    var i := 0;
    while i < |events|
      invariant 0 <= i <= |events|
      invariant chain.Valid() && AllCommit(chain.index, events)
      invariant old(chain.TrueVerdicts()) ==> chain.TrueVerdicts()
      invariant lawful ==> chain.MostWork() && DataClosed(ever) && chain.bodies <= ever
      invariant EverFrom(ever, bodies0, events[..i]) && (lawful && chain.witnessBuffer <= 0 ==> ever == chain.bodies)
      invariant Tip(chain.bestChain).WorkSum() >= old(Tip(chain.bestChain).WorkSum())
      invariant Tip(chain.bestHeader).WorkSum() >= old(Tip(chain.bestHeader).WorkSum())
      invariant forall h <- index0 :: h in chain.index && chain.index[h] == index0[h]
    {
      if lawful {
        if chain.witnessBuffer > 0 {
          NotAgain(index0, bodies0, events, i, ever, chain.bodies);
        } else {
          NoneGone(ever, events[i]);
        }
      }
      ghost var more := ArriveOne(chain, events[i], events, lawful, ever);
      EverStep(ever, more, bodies0, events, i);
      ever := more;
      i := i + 1;
    }
    TipClean(chain);
  }

  /** One arrival of a run; `more` is `ever` with the block that was stored, if any. */
  method ArriveOne(chain: BlockChain, e: Event, ghost events: seq<Event>, ghost lawful: bool, ghost ever: set<Node>)
    returns (ghost more: set<Node>)
    requires chain.Valid() && AllCommit(chain.index, events) && e in events
    requires lawful ==> chain.MostWork() && DataClosed(ever) && chain.bodies <= ever && NotGone(ever, chain.bodies, e)
    modifies chain
    ensures chain.Valid() && AllCommit(chain.index, events)
    ensures IndexGrows(old(chain.index), chain.index, e.header, e.prev)
    ensures old(chain.TrueVerdicts()) ==> chain.TrueVerdicts()
    ensures lawful ==> chain.MostWork() && DataClosed(more) && chain.bodies <= more
    ensures lawful && chain.witnessBuffer <= 0 && ever == old(chain.bodies) ==> more == chain.bodies
    ensures forall n <- more :: n in ever || (e.NewBlock? && e.header.hash == n.Hash())
    ensures Tip(chain.bestChain).WorkSum() >= old(Tip(chain.bestChain).WorkSum())
    ensures Tip(chain.bestHeader).WorkSum() >= old(Tip(chain.bestHeader).WorkSum())
  {
    hide LedgerOf, IsView, Replayable, AllStored, OnBranch, SkipsOk, IndexFor, Contains, Path, NoneBetter, DataClosed,
      Commits, AllCommit, Truthful, Clean, Accepted, IndexGrows, Node.WorkSum, Node.Height;
    more := ever;
    ghost var was, st, bodies, best := chain.index, chain.status, chain.bodies, chain.bestChain;
    CommitsOne(was, events, e);
    HashesMatch(chain);
    StoredAtHash(chain);
    match e {
      case NewBlock(header, prev, sane, contextOk) =>
        ghost var admitted := chain.Admits(header, prev, sane, contextOk);
        var _, _, _ := chain.ProcessBlock(header, prev, sane, contextOk);
        if admitted {
          ghost var n := chain.index[header.hash];
          AcceptedTruthful(chain.rules, st, bodies, best, n, chain.status, chain.bodies, chain.bestChain);
          if lawful {
            ArrivedKeeps(chain.rules, st, bodies, best, n, chain.status, chain.bodies, chain.bestChain, ever);
            more := ever + {n};
          }
        }
      case NewHeader(header, prev, checksOk) =>
        var _, _ := chain.MaybeAcceptBlockHeader(header, prev, checksOk);
    }
    StillCommits(was, events, e, chain.index);
  }

  lemma EverStart(bodies: set<Node>)
    ensures EverFrom(bodies, bodies, [])
  {
  }

  lemma EverStep(ever: set<Node>, more: set<Node>, bodies: set<Node>, events: seq<Event>, i: nat)
    requires i < |events| && EverFrom(ever, bodies, events[..i])
    requires forall n <- more :: n in ever || (events[i].NewBlock? && events[i].header.hash == n.Hash())
    ensures EverFrom(more, bodies, events[..i + 1])
  {
    assert events[..i + 1] == events[..i] + [events[i]];
  }

  lemma NoneGone(bodies: set<Node>, e: Event)
    ensures NotGone(bodies, bodies, e)
  {
  }

  /** When no body is delivered again, none that is delivered was stored before. */
  lemma NotAgain(index: map<Hash, Node>, bodies: set<Node>, events: seq<Event>, i: nat, ever: set<Node>, now: set<Node>)
    requires i < |events| && NoneAgain(index, bodies, events) && EverFrom(ever, bodies, events[..i])
    requires forall n <- bodies :: n.Hash() in index && index[n.Hash()] == n
    ensures NotGone(ever, now, events[i])
  {
    if events[i].NewBlock? {
      forall n | n in ever
        ensures n.Hash() != events[i].header.hash
      {
        if n !in bodies {
          var e :| e in events[..i] && e.NewBlock? && e.header.hash == n.Hash();
          var j :| 0 <= j < i && events[..i][j] == e;
          assert events[j] == e;
        }
      }
    }
  }

  /** A stored block is in the index under its hash. */
  lemma StoredAtHash(chain: BlockChain)
    requires chain.IndexOk()
    ensures forall n <- chain.bodies :: n.Hash() in chain.index && chain.index[n.Hash()] == n
  {
    hide SkipsOk;
  }

  lemma TipClean(chain: BlockChain)
    requires chain.Valid()
    ensures chain.TrueVerdicts() ==> Clean(chain.status, Tip(chain.bestChain))
  {
    hide LedgerOf, IsView, Replayable, SkipsOk, Truthful, Clean, Tree;
    if chain.TrueVerdicts() {
      TruthfulTip(chain.rules, chain.root, chain.status, Tip(chain.bestChain));
    }
  }

  lemma CommitsOne(index: map<Hash, Node>, events: seq<Event>, e: Event)
    requires AllCommit(index, events) && e in events
    ensures Commits(index, e.header, e.prev)
  {
  }

  lemma HashesMatch(chain: BlockChain)
    requires chain.IndexOk()
    ensures forall h <- chain.index :: chain.index[h].Hash() == h
  {
    hide SkipsOk;
  }
}
