/** The pool of blocks whose parent is not known yet. */
module OrphanPool {
  import opened BlockNodes

  const MAX_ORPHAN_BLOCKS := 100
  const EXPIRES_AFTER := 3600

  datatype Orphan = Orphan(hash: Hash, prev: Hash, expiration: int)

  // -------------------------------------------------------- specification

  /** The list without the orphans of one hash. */
  function Without(s: seq<Orphan>, h: Hash): (r: seq<Orphan>) {
    if s == [] then [] else
    if s[0].hash == h then Without(s[1..], h) else [s[0]] + Without(s[1..], h)
  }

  lemma {:induction false} WithoutIs(s: seq<Orphan>, h: Hash)
    ensures forall b :: b in Without(s, h) <==> b in s && b.hash != h
    ensures Distinct(s) ==> Distinct(Without(s, h))
  {
    if s != [] {
      WithoutIs(s[1..], h);
      assert s == [s[0]] + s[1..];
      if Distinct(s) {
        DistinctTail(s);
      }
    }
  }

  ghost predicate Distinct(s: seq<Orphan>) {
    forall i, j :: 0 <= i < j < |s| ==> s[i] != s[j]
  }

  lemma DistinctTail(s: seq<Orphan>)
    requires s != [] && Distinct(s)
    ensures s[0] !in s[1..] && Distinct(s[1..])
  {
  }

  /** The lists of the parent index hold exactly the pooled orphans with that parent, each once, and
      there is no empty list. */
  ghost predicate Indexed(orphans: map<Hash, Orphan>, prevOrphans: map<Hash, seq<Orphan>>) {
    && (forall h <- orphans :: orphans[h].hash == h)
    && (forall p <- prevOrphans :: prevOrphans[p] != [] && Distinct(prevOrphans[p]))
    && (forall p <- prevOrphans, b <- prevOrphans[p] :: b.prev == p && b.hash in orphans && orphans[b.hash] == b)
    && (forall h <- orphans :: orphans[h].prev in prevOrphans && orphans[h] in prevOrphans[orphans[h].prev])
  }

  /** The list that the index keeps for one parent. */
  function ListOf(prevOrphans: map<Hash, seq<Orphan>>, p: Hash): seq<Orphan> {
    if p in prevOrphans then prevOrphans[p] else []
  }

  /** The index with the list of one parent replaced, and without it when it is empty. */
  function WithList(prevOrphans: map<Hash, seq<Orphan>>, p: Hash, s: seq<Orphan>): map<Hash, seq<Orphan>> {
    if s == [] then prevOrphans - {p} else prevOrphans[p := s]
  }

  lemma RemoveKeeps(orphans: map<Hash, Orphan>, prevOrphans: map<Hash, seq<Orphan>>, b: Orphan)
    requires Indexed(orphans, prevOrphans) && (b.hash in orphans ==> orphans[b.hash].prev == b.prev)
    ensures Indexed(orphans - {b.hash}, WithList(prevOrphans, b.prev, Without(ListOf(prevOrphans, b.prev), b.hash)))
  {
    WithoutIs(ListOf(prevOrphans, b.prev), b.hash);
  }

  lemma AddKeeps(orphans: map<Hash, Orphan>, prevOrphans: map<Hash, seq<Orphan>>, b: Orphan)
    requires Indexed(orphans, prevOrphans) && b.hash !in orphans
    ensures Indexed(orphans[b.hash := b], prevOrphans[b.prev := ListOf(prevOrphans, b.prev) + [b]])
  {
  }

  /** The ancestor of a hash `k` parents up. */
  function AncestorHash(parentOf: Hash -> Hash, h: Hash, k: nat): Hash {
    if k == 0 then h else parentOf(AncestorHash(parentOf, h, k - 1))
  }

  /** Parents are those the hashes commit to. */
  ghost predicate Committed(parentOf: Hash -> Hash, orphans: map<Hash, Orphan>, oldest: Option<Orphan>) {
    && (forall h <- orphans :: orphans[h].prev == parentOf(h) && orphans[h].hash == h)
    && (oldest.Some? ==> oldest.value.prev == parentOf(oldest.value.hash))
  }

  /** Some reading of the clock is past the expiration, or not past it. */
  ghost predicate SeenPast(clock: nat -> int, expiration: int) { exists i: nat :: clock(i) > expiration }

  ghost predicate SeenFresh(clock: nat -> int, expiration: int) { exists i: nat :: clock(i) <= expiration }

  /** What is left of a pool after the walk visited all but `todo`: orphans that were seen fresh; what
      is gone was seen past its expiration. */
  ghost predicate Survivors(was: map<Hash, Orphan>, now: map<Hash, Orphan>, todo: set<Hash>, clock: nat -> int) {
    && todo <= now.Keys && |now| <= |was|
    && (forall h <- now :: h in was && now[h] == was[h])
    && (forall h <- was :: h !in now ==> SeenPast(clock, was[h].expiration))
    && (forall h <- now :: h in todo || SeenFresh(clock, now[h].expiration))
  }

  /** After visiting all but `todo`: if anything visited is left, an oldest orphan is cached; nothing
      visited expires before it; and it is either the one cached before or a visited one, which then
      expires earlier than the one cached before. */
  ghost predicate OldestSeen(now: map<Hash, Orphan>, todo: set<Hash>, before: Option<Orphan>, oldest: Option<Orphan>) {
    && ((exists h <- now :: h !in todo) ==> oldest.Some?)
    && (oldest.Some? ==> forall h <- now :: h in todo || oldest.value.expiration <= now[h].expiration)
    && (oldest == before ||
        (oldest.Some? && oldest.value.hash in now && oldest.value.hash !in todo
         && now[oldest.value.hash] == oldest.value))
    && (before.Some? && oldest != before ==> oldest.Some? && oldest.value.expiration < before.value.expiration)
  }

  /** The orphan cached as the oldest is not pooled, and expires no later than any that is. */
  predicate Stale(kept: map<Hash, Orphan>, cached: Option<Orphan>) {
    && cached.Some? && cached.value.hash !in kept
    && forall h <- kept :: cached.value.expiration <= kept[h].expiration
  }

  /** An addition to what the walk kept ends over the limit. */
  predicate Overfills(kept: map<Hash, Orphan>, cached: Option<Orphan>) {
    |kept| == MAX_ORPHAN_BLOCKS + 1 || (|kept| == MAX_ORPHAN_BLOCKS && Stale(kept, cached))
  }

  /** What the walk chooses to evict is not pooled exactly when the orphan cached before is stale. */
  lemma EvictsNothing(kept: map<Hash, Orphan>, cached: Option<Orphan>, oldest: Option<Orphan>)
    requires OldestSeen(kept, {}, cached, oldest) && |kept| > 0
    ensures oldest.Some? && (oldest.value.hash !in kept <==> Stale(kept, cached))
  {
    var h :| h in kept;
  }

  /** With a clock that stands still, the walk keeps exactly what is not past its expiration. */
  lemma SteadySurvivors(was: map<Hash, Orphan>, now: map<Hash, Orphan>, clock: nat -> int, t: int)
    requires Survivors(was, now, {}, clock) && forall i: nat :: clock(i) == t
    ensures forall h :: h in now <==> h in was && t <= was[h].expiration
    ensures forall h <- now :: now[h] == was[h]
  {
    forall h | h in was
      ensures h in now <==> t <= was[h].expiration
    {
    }
  }

  lemma VisitExpired(was: map<Hash, Orphan>, now: map<Hash, Orphan>, todo: set<Hash>, clock: nat -> int, i: nat,
                     h: Hash, before: Option<Orphan>, oldest: Option<Orphan>)
    requires Survivors(was, now, todo, clock) && OldestSeen(now, todo, before, oldest)
    requires h in todo && clock(i) > now[h].expiration
    ensures Survivors(was, now - {h}, todo - {h}, clock) && OldestSeen(now - {h}, todo - {h}, before, oldest)
  {
    RemovedSize(now, h);
    assert SeenPast(clock, was[h].expiration);
  }

  lemma VisitFresh(was: map<Hash, Orphan>, now: map<Hash, Orphan>, todo: set<Hash>, clock: nat -> int, i: nat, h: Hash,
                   before: Option<Orphan>, oldest: Option<Orphan>)
    requires Survivors(was, now, todo, clock) && OldestSeen(now, todo, before, oldest)
    requires h in todo && clock(i) <= now[h].expiration && now[h].hash == h
    ensures Survivors(was, now, todo - {h}, clock)
    ensures var younger := oldest.Some? && now[h].expiration >= oldest.value.expiration;
            OldestSeen(now, todo - {h}, before, if younger then oldest else Some(now[h]))
  {
    assert SeenFresh(clock, now[h].expiration);
  }

  lemma AllTodo(now: map<Hash, Orphan>, clock: nat -> int, oldest: Option<Orphan>)
    ensures Survivors(now, now, now.Keys, clock) && OldestSeen(now, now.Keys, oldest, oldest)
  {
  }

  lemma SurvivorFacts(was: map<Hash, Orphan>, now: map<Hash, Orphan>, todo: set<Hash>, clock: nat -> int)
    requires Survivors(was, now, todo, clock)
    ensures todo <= now.Keys
  {
  }

  lemma FreshFacts(was: map<Hash, Orphan>, now: map<Hash, Orphan>, before: Option<Orphan>, oldest: Option<Orphan>,
                   clock: nat -> int)
    requires Survivors(was, now, {}, clock) && OldestSeen(now, {}, before, oldest)
    ensures now.Keys <= was.Keys && |now| <= |was|
    ensures |now| > 0 ==> oldest.Some?
    ensures oldest == before || (oldest.Some? && oldest.value.hash in now)
  {
    if |now| > 0 {
      var h :| h in now;
    }
  }

  lemma CachedCommitted(parentOf: Hash -> Hash, orphans: map<Hash, Orphan>, oldest: Option<Orphan>)
    requires Committed(parentOf, orphans, oldest)
    ensures oldest.Some? ==> oldest.value.prev == parentOf(oldest.value.hash)
    ensures Committed(parentOf, orphans, None)
  {
  }

  lemma HashKept(parentOf: Hash -> Hash, orphans: map<Hash, Orphan>, oldest: Option<Orphan>, h: Hash)
    requires Committed(parentOf, orphans, oldest) && h in orphans
    ensures orphans[h].hash == h && orphans[h].prev == parentOf(h)
  {
  }

  lemma WithListIs(prevOrphans: map<Hash, seq<Orphan>>, p: Hash, s: seq<Orphan>)
    ensures WithList(prevOrphans, p, s) ==
            if prevOrphans[p := s][p] == [] then prevOrphans[p := s] - {p} else prevOrphans[p := s]
  {
  }

  lemma RemovedSize(m: map<Hash, Orphan>, h: Hash)
    ensures |m - {h}| == |m| - if h in m then 1 else 0
  {
    assert (m - {h}).Keys == m.Keys - {h};
    assert |(m - {h}).Keys| == |m - {h}| && |m.Keys| == |m|;
  }

  lemma AddedSize(m: map<Hash, Orphan>, h: Hash, b: Orphan)
    requires h !in m
    ensures |m[h := b]| == |m| + 1
  {
    assert m[h := b].Keys == m.Keys + {h};
    assert |m[h := b].Keys| == |m[h := b]| && |m.Keys| == |m|;
  }

  lemma CommittedSteps(parentOf: Hash -> Hash, orphans: map<Hash, Orphan>, oldest: Option<Orphan>, b: Orphan)
    requires Committed(parentOf, orphans, oldest) && b.prev == parentOf(b.hash)
    ensures Committed(parentOf, orphans - {b.hash}, oldest) && Committed(parentOf, orphans, None)
    ensures Committed(parentOf, orphans[b.hash := b], oldest) && Committed(parentOf, orphans, Some(b))
    ensures b.hash in orphans ==> orphans[b.hash].prev == b.prev
  {
  }

  // ----------------------------------------------------------------- pool

  class Pool {
    ghost const parentOf: Hash -> Hash    // a block hash commits to the parent's
    var orphans: map<Hash, Orphan>
    var prevOrphans: map<Hash, seq<Orphan>>
    var oldestOrphan: Option<Orphan>      // may be an orphan that left the pool

    ghost predicate Linked()
      reads this
    {
      Indexed(orphans, prevOrphans) && Committed(parentOf, orphans, oldestOrphan)
    }

    /** The pool holds at most one more than the limit, and that only while no oldest orphan is cached. */
    ghost predicate Valid()
      reads this
    {
      && Linked()
      && |orphans| <= MAX_ORPHAN_BLOCKS + 1
      && (oldestOrphan.Some? ==> |orphans| <= MAX_ORPHAN_BLOCKS)
    }

    constructor (ghost parentOf: Hash -> Hash)
      ensures Valid() && orphans == map[] && oldestOrphan.None? && this.parentOf == parentOf
    {
      this.parentOf := parentOf;
      orphans := map[];
      prevOrphans := map[];
      oldestOrphan := None;
    }

    /** Removes an orphan from the pool and from the list of its parent. */
    method RemoveOrphanBlock(b: Orphan)
      requires Linked() && b.prev == parentOf(b.hash)
      modifies `orphans, `prevOrphans
      ensures Linked() && orphans == old(orphans) - {b.hash}
      ensures old(Valid()) ==> Valid()
      ensures |orphans| == |old(orphans)| - if b.hash in old(orphans) then 1 else 0
    {
      hide Indexed, Committed, Without, ListOf, WithList;
      CommittedSteps(parentOf, orphans, oldestOrphan, b);
      RemoveKeeps(orphans, prevOrphans, b);
      RemovedSize(orphans, b.hash);
      orphans := orphans - {b.hash};
      var list := RemoveFromList(ListOf(prevOrphans, b.prev), b.hash);
      WithListIs(prevOrphans, b.prev, list);
      prevOrphans := prevOrphans[b.prev := list];
      if prevOrphans[b.prev] == [] {
        prevOrphans := prevOrphans - {b.prev};
      }
    }

    /** Deletes every orphan of one hash from a list, stepping back after each deletion. */
    method RemoveFromList(s: seq<Orphan>, h: Hash) returns (list: seq<Orphan>)
      ensures list == Without(s, h)
    {
      list := s;
      var i := 0;
      ghost var rest := s;
      while i < |list|
        invariant 0 <= i <= |list|
        invariant list[i..] == rest
        invariant list[..i] + Without(rest, h) == Without(s, h)
        decreases |rest|
      {
        assert rest[0] == list[i] && rest[1..] == list[i + 1..];
        if list[i].hash == h {
          list := list[..i] + list[i + 1..];
          assert list[i..] == rest[1..];
        } else {
          assert list[..i + 1] == list[..i] + [list[i]];
          i := i + 1;
        }
        rest := rest[1..];
      }
      assert rest == [] && list[..i] == list;
    }

    /** Drops expired orphans and looks for the oldest of the others, in whatever order the map is
        walked; `clock(i)` is the time read at the i-th orphan visited.  Afterwards some oldest orphan
        is cached unless the pool is empty, and no pooled orphan expires before it. */
    method ExpireOrphans(clock: nat -> int)
      requires Valid()
      modifies `orphans, `prevOrphans, `oldestOrphan
      ensures Linked() && Survivors(old(orphans), orphans, {}, clock)
      ensures OldestSeen(orphans, {}, old(oldestOrphan), oldestOrphan)
    {
      hide Indexed, Committed, Survivors, OldestSeen;
      var todo := orphans.Keys;
      var i := 0;
      AllTodo(orphans, clock, oldestOrphan);
      while todo != {}
        invariant Linked() && Survivors(old(orphans), orphans, todo, clock)
        invariant OldestSeen(orphans, todo, old(oldestOrphan), oldestOrphan)
      {
        var h :| h in todo;
        SurvivorFacts(old(orphans), orphans, todo, clock);
        HashKept(parentOf, orphans, oldestOrphan, h);
        var b := orphans[h];
        CommittedSteps(parentOf, orphans, oldestOrphan, b);
        if clock(i) > b.expiration {
          VisitExpired(old(orphans), orphans, todo, clock, i, h, old(oldestOrphan), oldestOrphan);
          RemoveOrphanBlock(b);
        } else {
          VisitFresh(old(orphans), orphans, todo, clock, i, h, old(oldestOrphan), oldestOrphan);
          if oldestOrphan.None? || b.expiration < oldestOrphan.value.expiration {
            oldestOrphan := Some(b);
          }
        }
        todo := todo - {h};
        i := i + 1;
      }
    }

    /** Adds an orphan: expired orphans go first, then the oldest one if the pool is full. */
    method AddOrphanBlock(hash: Hash, prev: Hash, clock: nat -> int, now: int)
      returns (ghost kept: map<Hash, Orphan>, ghost oldest: Option<Orphan>)
      requires Valid() && hash !in orphans && prev == parentOf(hash)
      modifies `orphans, `prevOrphans, `oldestOrphan
      ensures Valid()
      ensures Survivors(old(orphans), kept, {}, clock) && OldestSeen(kept, {}, old(oldestOrphan), oldest)
      ensures |kept| >= 100 ==> oldest.Some?
      ensures orphans == (if |kept| < 100 then kept else kept - {oldest.value.hash})
                         [hash := Orphan(hash, prev, now + 3600)]
      ensures |orphans| <= 101 && (|orphans| == 101 <==> Overfills(kept, old(oldestOrphan)))
      ensures oldestOrphan == if |kept| < 100 then oldest else None
    {
      hide Indexed, Committed, Survivors, OldestSeen, ListOf, Stale;
      ghost var was, cached := orphans, oldestOrphan;
      ExpireOrphans(clock);
      kept, oldest := orphans, oldestOrphan;
      FreshFacts(was, orphans, cached, oldestOrphan, clock);
      if |kept| > 0 {
        EvictsNothing(kept, cached, oldest);
      }
      if |orphans| + 1 > MAX_ORPHAN_BLOCKS {
        CachedCommitted(parentOf, orphans, oldestOrphan);
        RemoveOrphanBlock(oldestOrphan.value);
        CachedCommitted(parentOf, orphans, oldestOrphan);
        oldestOrphan := None;
      }
      Insert(Orphan(hash, prev, now + EXPIRES_AFTER));
    }

    method Insert(b: Orphan)
      requires Linked() && b.hash !in orphans && b.prev == parentOf(b.hash)
      modifies `orphans, `prevOrphans
      ensures Linked() && orphans == old(orphans)[b.hash := b] && |orphans| == |old(orphans)| + 1
    {
      hide Indexed, Committed, ListOf;
      AddKeeps(orphans, prevOrphans, b);
      CommittedSteps(parentOf, orphans, oldestOrphan, b);
      AddedSize(orphans, b.hash, b);
      orphans := orphans[b.hash := b];
      prevOrphans := prevOrphans[b.prev := ListOf(prevOrphans, b.prev) + [b]];
    }

    /** Follows parents while they are pooled: the result is the topmost pooled ancestor, `k` parents
        up, or the hash itself when it is not pooled.  `rank` witnesses that parents have no cycle. */
    method GetOrphanRoot(hash: Hash, ghost rank: Hash -> nat) returns (root: Hash, ghost k: nat)
      requires Linked() && forall h <- orphans :: rank(parentOf(h)) < rank(h)
      ensures if hash in orphans then root in orphans && parentOf(root) !in orphans else root == hash
      ensures root == AncestorHash(parentOf, hash, k)
      ensures hash in orphans ==> forall i :: 0 <= i <= k ==> AncestorHash(parentOf, hash, i) in orphans
    {
      hide Indexed;
      root, k := hash, 0;
      var prevHash := hash;
      ghost var i := 0;
      while prevHash in orphans
        invariant prevHash == AncestorHash(parentOf, hash, i)
        invariant forall j :: 0 <= j < i ==> AncestorHash(parentOf, hash, j) in orphans
        invariant if i == 0 then k == 0 && root == hash else k == i - 1 && root == AncestorHash(parentOf, hash, k)
        decreases rank(prevHash)
      {
        root, k := prevHash, i;
        prevHash := orphans[prevHash].prev;
        i := i + 1;
      }
    }
  }

  datatype PoolEvent =
    | Add(hash: Hash, prev: Hash, clock: nat -> int, now: int)
    | Remove(hash: Hash)

  /** Any run of additions of blocks not already pooled and of removals keeps the pool valid. */
  method RunPool(pool: Pool, events: seq<PoolEvent>)
    requires pool.Valid() && forall e <- events :: e.Add? ==> e.prev == pool.parentOf(e.hash)
    modifies pool
    ensures pool.Valid()
  {
    hide Indexed, Survivors, OldestSeen;
    var i := 0;
    while i < |events|
      invariant 0 <= i <= |events| && pool.Valid()
    {
      match events[i] {
        case Add(hash, prev, clock, now) =>
          if hash !in pool.orphans {
            ghost var _, _ := pool.AddOrphanBlock(hash, prev, clock, now);
          }
        case Remove(hash) =>
          if hash in pool.orphans {
            pool.RemoveOrphanBlock(pool.orphans[hash]);
          }
      }
      i := i + 1;
    }
  }

  // ------------------------------------------------- a run over the limit

  function Late(h: Hash): Orphan {
    Orphan(h, 0, EXPIRES_AFTER)
  }

  /** The pool holds the orphans of the hashes from 2 to `n`, and still caches the one of hash 1. */
  ghost predicate Filled(pool: Pool, n: nat)
    reads pool
  {
    && pool.Valid() && (forall h :: pool.parentOf(h) == 0) && n >= 2 && |pool.orphans| == n - 1
    && (forall h <- pool.orphans :: 2 <= h <= n && pool.orphans[h] == Late(h)) && pool.oldestOrphan == Some(Late(1))
  }

  /** One more orphan, with nothing expired: all are kept, and the cached one stays. */
  lemma NothingExpires(was: map<Hash, Orphan>, kept: map<Hash, Orphan>, cached: Option<Orphan>, oldest: Option<Orphan>)
    requires Survivors(was, kept, {}, _ => 0) && OldestSeen(kept, {}, cached, oldest)
    requires forall h <- was :: was[h].expiration == EXPIRES_AFTER
    ensures kept == was
    ensures cached.Some? && cached.value.expiration == EXPIRES_AFTER ==> oldest == cached
  {
    SteadySurvivors(was, kept, _ => 0, 0);
  }

  /** Two orphans arrive and the first leaves the pool again, for instance because its parent arrived.
      It stays cached, so that when the limit is reached nothing is evicted for the next orphan. */
  method Overfilled() returns (pool: Pool)
    ensures fresh(pool) && pool.Valid() && |pool.orphans| == 101
  {
    hide Filled, Pool.Valid, Late;
    pool := FirstRemoved();
    var n := 2;
    while n <= MAX_ORPHAN_BLOCKS
      invariant 2 <= n <= MAX_ORPHAN_BLOCKS + 1 && fresh(pool) && Filled(pool, n)
    {
      AddLate(pool, n);
      n := n + 1;
    }
    AddLate(pool, n);
  }

  /** One more orphan to a pool that has such a stale one cached. */
  method AddLate(pool: Pool, n: nat)
    requires Filled(pool, n)
    modifies pool
    ensures if n <= MAX_ORPHAN_BLOCKS then Filled(pool, n + 1)
            else pool.Valid() && |pool.orphans| == MAX_ORPHAN_BLOCKS + 1
  {
    hide Indexed, Committed, Survivors, OldestSeen;
    ghost var was, cached := pool.orphans, pool.oldestOrphan;
    ghost var kept, oldest := pool.AddOrphanBlock(n + 1, 0, _ => 0, 0);
    NothingExpires(was, kept, cached, oldest);
    AddedSize(was, n + 1, Late(n + 1));
  }

  method FirstRemoved() returns (pool: Pool)
    ensures fresh(pool) && Filled(pool, 2)
  {
    hide Indexed, Committed, Survivors, OldestSeen;
    pool := TwoAdded();
    pool.RemoveOrphanBlock(Late(1));
    assert pool.orphans == map[2 := Late(2)];
  }

  method TwoAdded() returns (pool: Pool)
    ensures fresh(pool) && pool.Valid() && (forall h :: pool.parentOf(h) == 0)
    ensures pool.orphans == map[1 := Late(1), 2 := Late(2)] && pool.oldestOrphan == Some(Late(1))
  {
    hide Indexed, Committed, Survivors, OldestSeen, Overfills, Pool.Valid;
    pool := OneAdded();
    ghost var kept, oldest := pool.AddOrphanBlock(2, 0, _ => 0, 0);
    NothingExpires(map[1 := Late(1)], kept, None, oldest);
    OneCached(kept, oldest);
    assert |kept| == 1;
  }

  method OneAdded() returns (pool: Pool)
    ensures fresh(pool) && pool.Valid() && (forall h :: pool.parentOf(h) == 0)
    ensures pool.orphans == map[1 := Late(1)] && pool.oldestOrphan.None?
  {
    hide Indexed, Committed, Survivors, OldestSeen, Overfills, Pool.Valid;
    pool := new Pool(_ => 0);
    ghost var kept, oldest := pool.AddOrphanBlock(1, 0, _ => 0, 0);
    NothingExpires(map[], kept, None, oldest);
    NothingCached(kept, oldest);
  }

  lemma NothingCached(kept: map<Hash, Orphan>, oldest: Option<Orphan>)
    requires kept == map[] && OldestSeen(kept, {}, None, oldest)
    ensures oldest.None?
  {
  }

  lemma OneCached(kept: map<Hash, Orphan>, oldest: Option<Orphan>)
    requires kept == map[1 := Late(1)] && OldestSeen(kept, {}, None, oldest)
    ensures oldest == Some(Late(1))
  {
    assert 1 in kept;
  }
}
