/** The cache behind replies to getcfcheckpt requests (sections "getcfcheckpt" and "cfcheckpt" of
    BIP 157). */
module CheckpointCache {
  import opened BlockNodes
  import opened Locate

  const CF_CHECKPT_INTERVAL: nat := 1000
  const ZERO_HASH: Hash := 0

  datatype CachedHeader = CachedHeader(blockHash: Hash, filterHeader: Hash)

  /** All blocks there are: closed under parents, told apart by their hashes, none with hash zero. */
  ghost predicate World(blocks: iset<Node>) {
    && (forall n <- blocks :: n.Hash() != ZERO_HASH && (n.Child? ==> n.parent in blocks))
    && (forall a, b | a in blocks && b in blocks :: a.Hash() == b.Hash() ==> a == b)
  }

  lemma {:induction false} WorldAncestor(blocks: iset<Node>, n: Node, h: nat)
    requires World(blocks) && n in blocks && h <= n.Height()
    ensures AncestorAt(n, h) in blocks
  {
    if h < n.Height() {
      WorldAncestor(blocks, n.parent, h);
    }
  }

  /** The reply without a cache: one lookup for each checkpoint. */
  function Headers(headerOf: Hash -> Hash, hashes: seq<Hash>): (r: seq<Hash>)
    ensures |r| == |hashes|
  {
    seq(|hashes|, i requires 0 <= i < |hashes| => headerOf(hashes[i]))
  }

  /** The filter headers of the blocks of the branch of `n` at the heights 1000, 2000 and so on. */
  ghost predicate FilterHeaders(reply: seq<Hash>, headerOf: Hash -> Hash, n: Node) {
    && (forall i: nat | i < |reply| :: HasFilterHeader(reply[i], headerOf, n, i))
    && (forall a, i: nat | Checkpoint(a, n, 1000, i) :: i < |reply| && reply[i] == headerOf(a.Hash()))
  }

  ghost predicate HasFilterHeader(r: Hash, headerOf: Hash -> Hash, n: Node, i: nat) {
    exists a :: Checkpoint(a, n, 1000, i) && r == headerOf(a.Hash())
  }

  lemma HeadersMean(headerOf: Hash -> Hash, hashes: seq<Hash>, n: Node)
    requires AtIntervals(hashes, n, CF_CHECKPT_INTERVAL)
    ensures FilterHeaders(Headers(headerOf, hashes), headerOf, n)
  {
    hide Checkpoint;
    var reply := Headers(headerOf, hashes);
    forall i: nat | i < |reply|
      ensures HasFilterHeader(reply[i], headerOf, n, i)
    {
      assert HasCheckpoint(hashes[i], n, CF_CHECKPT_INTERVAL, i);
    }
  }

  /** Two branches that share a checkpoint share all lower ones. */
  lemma MatchBelow(blocks: iset<Node>, a: Node, b: Node, interval: nat, k: nat, i: nat)
    requires World(blocks) && a in blocks && b in blocks && interval > 0
    requires i <= k < |IntervalNodes(a, interval)| && k < |IntervalNodes(b, interval)|
    requires Hashes(IntervalNodes(a, interval))[k] == Hashes(IntervalNodes(b, interval))[k]
    ensures Hashes(IntervalNodes(a, interval))[i] == Hashes(IntervalNodes(b, interval))[i]
  {
    var high, low := Multiple(k + 1, interval), Multiple(i + 1, interval);
    IntervalFits(a.Height(), interval, k + 1);
    IntervalFits(b.Height(), interval, k + 1);
    WorldAncestor(blocks, a, high);
    WorldAncestor(blocks, b, high);
    MultipleOrder(i + 1, k + 1, interval);
    AncestorOfAncestor(a, high, low);
    AncestorOfAncestor(b, high, low);
  }

  lemma MultipleOrder(i: nat, k: nat, interval: nat)
    requires i <= k
    ensures Multiple(i, interval) <= Multiple(k, interval)
  {
    assert (k - i) * interval >= 0;
  }

  class Server {
    ghost const blocks: iset<Node>
    const headerOf: Hash -> Hash              // the filter header index, by block hash
    var cache: seq<CachedHeader>
    ghost var end: Option<Node>               // the block whose checkpoints are cached

    /** The cache holds the checkpoints of one block, each with its filter header. */
    ghost predicate Valid()
      reads this
    {
      && World(blocks)
      && match end
         case None => cache == []
         case Some(n) => n in blocks && Caches(cache, Hashes(IntervalNodes(n, CF_CHECKPT_INTERVAL)), headerOf)
    }

    constructor (ghost blocks: iset<Node>, headerOf: Hash -> Hash)
      requires World(blocks)
      ensures Valid() && cache == [] && this.blocks == blocks && this.headerOf == headerOf
    {
      this.blocks := blocks;
      this.headerOf := headerOf;
      cache := [];
      end := None;
    }

    /** Serves the checkpoints of `stop`, growing the cache when it is too short: the reply is the
        same as without a cache. */
    method Serve(blockHashes: seq<Hash>, ghost stop: Node) returns (reply: seq<Hash>)
      requires Valid() && stop in blocks && blockHashes == Hashes(IntervalNodes(stop, CF_CHECKPT_INTERVAL))
      modifies `cache, `end
      ensures Valid() && reply == Headers(headerOf, blockHashes)
      ensures |old(cache)| >= |blockHashes| ==> unchanged(this)
      ensures |old(cache)| < |blockHashes| ==> Caches(cache, blockHashes, headerOf)
    {
      hide IntervalNodes, World;
      var updateCache := |blockHashes| > |cache|;
      var view := cache;
      if updateCache {
        view := cache + seq(|blockHashes| - |cache|, _ => CachedHeader(ZERO_HASH, ZERO_HASH));
      }
      var forkIdx := ForkIndex(view, blockHashes);
      NoZero(blocks, stop, blockHashes);
      if forkIdx > 0 {
        SharedBelow(stop, forkIdx);
      }
      reply, view := Collect(view, blockHashes, forkIdx, updateCache);
      if updateCache {
        cache := view;
        end := Some(stop);
      }
    }

    /** Takes the filter headers below the fork from the cache and looks up the others. */
    method Collect(cached: seq<CachedHeader>, blockHashes: seq<Hash>, forkIdx: nat, updateCache: bool)
      returns (reply: seq<Hash>, view: seq<CachedHeader>)
      requires forkIdx <= |blockHashes| <= |cached| && (updateCache ==> |cached| == |blockHashes|)
      requires forall j :: 0 <= j < forkIdx ==> cached[j] == CachedHeader(blockHashes[j], headerOf(blockHashes[j]))
      ensures reply == Headers(headerOf, blockHashes)
      ensures if updateCache then Caches(view, blockHashes, headerOf) else view == cached
    {
      view, reply := cached, [];
      for i := 0 to forkIdx
        invariant reply == Headers(headerOf, blockHashes[..i])
      {
        reply := reply + [view[i].filterHeader];
      }
      for i := forkIdx to |blockHashes|
        invariant reply == Headers(headerOf, blockHashes[..i]) && |view| == |cached|
        invariant updateCache ==>
                    forall j :: 0 <= j < i ==> view[j] == CachedHeader(blockHashes[j], headerOf(blockHashes[j]))
        invariant !updateCache ==> view == cached
      {
        var filterHeader := headerOf(blockHashes[i]);
        reply := reply + [filterHeader];
        if updateCache {
          view := view[i := CachedHeader(blockHashes[i], filterHeader)];
        }
      }
      assert blockHashes[..|blockHashes|] == blockHashes;
    }

    /** A cached checkpoint that matches brings all lower ones with it. */
    lemma SharedBelow(stop: Node, k: nat)
      requires Valid() && stop in blocks
      requires 0 < k <= |cache| && k <= |IntervalNodes(stop, CF_CHECKPT_INTERVAL)|
      requires cache[k - 1].blockHash == Hashes(IntervalNodes(stop, CF_CHECKPT_INTERVAL))[k - 1]
      ensures forall i :: 0 <= i < k ==>
                && cache[i].blockHash == Hashes(IntervalNodes(stop, CF_CHECKPT_INTERVAL))[i]
                && cache[i].filterHeader == headerOf(cache[i].blockHash)
    {
      hide IntervalNodes, World;
      forall i | 0 <= i < k
        ensures cache[i].blockHash == Hashes(IntervalNodes(stop, CF_CHECKPT_INTERVAL))[i]
      {
        MatchBelow(blocks, end.value, stop, CF_CHECKPT_INTERVAL, k - 1, i);
      }
    }

    /** Handles a request: the chain gives the checkpoint hashes, and an unknown or unvalidated stop
        block gets no reply. */
    method OnGetCFCheckpt(c: Chain, knownValid: Node -> bool, stopHash: Hash) returns (reply: Option<seq<Hash>>)
      requires Valid() && c.Valid() && forall h <- c.index :: c.index[h] in blocks
      modifies `cache, `end
      ensures Valid()
      ensures reply == if stopHash in c.index && knownValid(c.index[stopHash])
                       then Some(Headers(headerOf, Hashes(IntervalNodes(c.index[stopHash], CF_CHECKPT_INTERVAL))))
                       else None
      ensures reply.Some? ==> stopHash in c.index && FilterHeaders(reply.value, headerOf, c.index[stopHash])
    {
      hide IntervalNodes, World, Headers, AtIntervals;
      var r := IntervalBlockHashes(c, knownValid, stopHash, CF_CHECKPT_INTERVAL);
      if r.Err? {
        return None;
      }
      var headers := Serve(r.value, c.index[stopHash]);
      HeadersMean(headerOf, r.value, c.index[stopHash]);
      reply := Some(headers);
    }
  }

  /** The highest checkpoint, from the end, that the cache shares with the request. */
  method ForkIndex(view: seq<CachedHeader>, blockHashes: seq<Hash>) returns (forkIdx: nat)
    requires |view| >= |blockHashes|
    ensures forkIdx <= |blockHashes|
    ensures forkIdx > 0 ==> view[forkIdx - 1].blockHash == blockHashes[forkIdx - 1]
    ensures forall i :: forkIdx <= i < |blockHashes| ==> view[i].blockHash != blockHashes[i]
  {
    forkIdx := |blockHashes|;
    while forkIdx > 0
      invariant 0 <= forkIdx <= |blockHashes|
      invariant forall i :: forkIdx <= i < |blockHashes| ==> view[i].blockHash != blockHashes[i]
    {
      if view[forkIdx - 1].blockHash == blockHashes[forkIdx - 1] {
        return;
      }
      forkIdx := forkIdx - 1;
    }
  }

  lemma NoZero(blocks: iset<Node>, n: Node, hashes: seq<Hash>)
    requires World(blocks) && n in blocks && hashes == Hashes(IntervalNodes(n, CF_CHECKPT_INTERVAL))
    ensures forall i :: 0 <= i < |hashes| ==> hashes[i] != ZERO_HASH
  {
    forall i | 0 <= i < |hashes|
      ensures hashes[i] != ZERO_HASH
    {
      IntervalFits(n.Height(), CF_CHECKPT_INTERVAL, i + 1);
      WorldAncestor(blocks, n, Multiple(i + 1, CF_CHECKPT_INTERVAL));
    }
  }

  ghost predicate Caches(cache: seq<CachedHeader>, hashes: seq<Hash>, headerOf: Hash -> Hash) {
    && |cache| == |hashes|
    && forall i :: 0 <= i < |cache| ==> cache[i].blockHash == hashes[i] && cache[i].filterHeader == headerOf(hashes[i])
  }

  /** A request, with the chain as it is when the request is handled. */
  datatype Request = Request(chain: Chain, knownValid: Node -> bool, stopHash: Hash)

  /** The answer by direct lookups. */
  function Direct(headerOf: Hash -> Hash, r: Request): Option<seq<Hash>> {
    if r.stopHash in r.chain.index && r.knownValid(r.chain.index[r.stopHash])
    then Some(Headers(headerOf, Hashes(IntervalNodes(r.chain.index[r.stopHash], CF_CHECKPT_INTERVAL))))
    else None
  }

  /** The filter headers of the checkpoints of a validated stop block, and nothing for any other. */
  ghost predicate Answers(reply: Option<seq<Hash>>, headerOf: Hash -> Hash, r: Request) {
    if r.stopHash in r.chain.index && r.knownValid(r.chain.index[r.stopHash])
    then reply.Some? && FilterHeaders(reply.value, headerOf, r.chain.index[r.stopHash])
    else reply.None?
  }

  method ServeOne(server: Server, r: Request) returns (reply: Option<seq<Hash>>)
    requires server.Valid() && r.chain.Valid() && forall h <- r.chain.index :: r.chain.index[h] in server.blocks
    modifies server
    ensures server.Valid() && reply == Direct(server.headerOf, r) && Answers(reply, server.headerOf, r)
  {
    hide IntervalNodes, Headers, FilterHeaders, Chain.Valid, Server.Valid;
    reply := server.OnGetCFCheckpt(r.chain, r.knownValid, r.stopHash);
  }

  /** Whatever the chain does between requests, every reply is the one direct lookups would give. */
  method ServeAll(server: Server, requests: seq<Request>) returns (replies: seq<Option<seq<Hash>>>)
    requires server.Valid()
    requires forall r <- requests :: r.chain.Valid() && forall h <- r.chain.index :: r.chain.index[h] in server.blocks
    modifies server
    ensures server.Valid() && |replies| == |requests|
    ensures forall i :: 0 <= i < |requests| ==> replies[i] == Direct(server.headerOf, requests[i])
    ensures forall i :: 0 <= i < |requests| ==> Answers(replies[i], server.headerOf, requests[i])
  {
    hide Direct, Answers, Chain.Valid, Server.Valid;
    replies := [];
    var i := 0;
    while i < |requests|
      invariant 0 <= i <= |requests| && server.Valid() && |replies| == i
      invariant forall j :: 0 <= j < i ==> replies[j] == Direct(server.headerOf, requests[j])
      invariant forall j :: 0 <= j < i ==> Answers(replies[j], server.headerOf, requests[j])
    {
      var reply := ServeOne(server, requests[i]);
      replies := replies + [reply];
      i := i + 1;
    }
  }
}
