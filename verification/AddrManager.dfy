/** The address manager: learning addresses, expiring them, and moving them between the tables of new
    and of tried addresses. */
module AddrManager {
  import opened BlockNodes
  import opened AddrTables

  // -------------------------------------------------------- specification

  /** The addresses of a set that have only one reference. */
  function LastRefs(t: Tables, gone: set<Key>): set<Key> {
    set k | k in gone && k in t.index && t.index[k].refs == 1
  }

  /** Addresses leave a new bucket, and the index when that was their last one. */
  function DropAll(t: Tables, b: nat, gone: set<Key>): Tables
    requires b < |t.addrNew|
  {
    t.(index := map k | k in t.index && k !in LastRefs(t, gone) :: DroppedAt(t, gone, k),
       addrNew := t.addrNew[b := t.addrNew[b] - gone],
       nNew := t.nNew - |LastRefs(t, gone)|)
  }

  function DroppedAt(t: Tables, gone: set<Key>, k: Key): Known
    requires k in t.index && k !in LastRefs(t, gone)
  {
    if k in gone then t.index[k].(refs := t.index[k].refs - 1) else t.index[k]
  }

  /** `DropAll`, address by address: what leaves the bucket loses one reference, and leaves the index with
      its last one; nothing else changes. */
  lemma DropAllMeans(t: Tables, b: nat, gone: set<Key>, k: Key)
    requires b < |t.addrNew|
    ensures var u := DropAll(t, b, gone);
            && |u.addrNew| == |t.addrNew| && u.addrNew[b] == t.addrNew[b] - gone && u.addrTried == t.addrTried
            && (forall i :: 0 <= i < |t.addrNew| && i != b ==> u.addrNew[i] == t.addrNew[i])
            && (k in u.index <==> k in t.index && !(k in gone && t.index[k].refs == 1))
            && (k in u.index && k !in gone ==> u.index[k] == t.index[k])
            && (k in u.index && k in gone ==> u.index[k] == t.index[k].(refs := t.index[k].refs - 1))
            && u.nTried == t.nTried
            && u.nNew == t.nNew - |set x | x in gone && x in t.index && t.index[x].refs == 1|
  {
  }

  lemma DropAllNone(t: Tables, b: nat)
    requires b < |t.addrNew|
    ensures DropAll(t, b, {}) == t
  {
    assert LastRefs(t, {}) == {};
    assert t.addrNew[b] - {} == t.addrNew[b];
  }

  lemma ExpireStart(t: Tables, loose: set<Key>, b: nat, isBad: Key -> bool)
    requires Inv(t, loose) && b < |t.addrNew|
    ensures DropAll(t, b, {}) == t && Walked(t, t.addrNew[b], t.addrNew[b], isBad, {}, None)
  {
    BucketKnown(t, b);
    DropAllNone(t, b);
  }

  lemma DropAllStep(t: Tables, b: nat, gone: set<Key>, k: Key)
    requires b < |t.addrNew| && k in t.index && k !in gone
    ensures k in DropAll(t, b, gone).index && DropAll(t, b, gone).index[k] == t.index[k]
    ensures Drop(DropAll(t, b, gone), b, k) == DropAll(t, b, gone + {k})
  {
    if t.index[k].refs == 1 {
      assert LastRefs(t, gone + {k}) == LastRefs(t, gone) + {k};
    } else {
      assert LastRefs(t, gone + {k}) == LastRefs(t, gone);
    }
    assert t.addrNew[b] - gone - {k} == t.addrNew[b] - (gone + {k});
  }

  /** What an expiry of a bucket takes: all the bad addresses and, if there are others, one of those
      seen longest ago. */
  ghost predicate Expires(t: Tables, b: nat, isBad: Key -> bool, gone: set<Key>, oldest: Option<Key>)
    requires b < |t.addrNew|
  {
    var bad := set k | k in t.addrNew[b] && isBad(k);
    match oldest
    case None => gone == bad == t.addrNew[b]
    case Some(o) =>
      && o in t.addrNew[b] && !isBad(o) && gone == bad + {o} && o in t.index
      && forall k <- t.addrNew[b] :: k in t.index && (isBad(k) || t.index[o].timestamp <= t.index[k].timestamp)
  }

  /** The state of a walk over a bucket that has yet to visit `todo`. */
  ghost predicate Walked(t: Tables, was: set<Key>, todo: set<Key>, isBad: Key -> bool, gone: set<Key>,
                         oldest: Option<Key>) {
    && todo <= was && (forall k <- was :: k in t.index)
    && (forall k :: k in gone <==> k in was && k !in todo && isBad(k))
    && match oldest
       case None => forall k :: k in was && k !in todo ==> isBad(k)
       case Some(o) =>
         && o in was && o !in todo && !isBad(o)
         && forall k :: k in was && k !in todo ==> isBad(k) || t.index[o].timestamp <= t.index[k].timestamp
  }

  lemma WalkedAll(t: Tables, b: nat, was: set<Key>, isBad: Key -> bool, gone: set<Key>, oldest: Option<Key>)
    requires b < |t.addrNew| && was == t.addrNew[b] && Walked(t, was, {}, isBad, gone, oldest)
    ensures Expires(t, b, isBad, if oldest.None? then gone else gone + {oldest.value}, oldest)
  {
    var bad := set k | k in was && isBad(k);
    assert forall k :: k in gone <==> k in bad;
  }

  /** An address that is announced again. */
  function Seen(known: Known, timestamp: int, services: set<nat>): Known {
    if timestamp > known.timestamp || !(services <= known.services)
    then known.(timestamp := timestamp, services := known.services + services)
    else known
  }

  /** An announcement adds its services and changes nothing else but the time; a later time is taken over,
      and an earlier one exactly when a service is new. */
  lemma SeenMeans(known: Known, timestamp: int, services: set<nat>)
    ensures var s := Seen(known, timestamp, services);
            && s == known.(timestamp := s.timestamp, services := s.services)
            && s.services == known.services + services
            && (timestamp >= known.timestamp ==> s.timestamp == timestamp)
            && (timestamp < known.timestamp ==>
                  s.timestamp == if services <= known.services then known.timestamp else timestamp)
  {
  }

  /** An address is put in a bucket, after an expiry when the bucket is over its size. */
  ghost predicate Placed(t: Tables, k: Key, b: nat, isBad: Key -> bool, gone: set<Key>, oldest: Option<Key>, u: Tables)
    requires b < |t.addrNew| && k in t.index
  {
    if k in t.addrNew[b] then u == t
    else if |t.addrNew[b]| <= 64 then u == Put(t, b, k)
    else
      && Expires(t, b, isBad, gone, oldest)
      && k in DropAll(t, b, gone).index && u == Put(DropAll(t, b, gone), b, k)
  }

  /** A random number below `n`, which has to be positive. */
  function Int31n(n: int, seed: nat): (r: int)
    requires n > 0
    ensures 0 <= r < n
  {
    seed % n
  }

  // -------------------------------------------------------------- manager

  class AddrManager {
    const newBucketOf: (Key, Key) -> nat      // hash of an address and its source
    const triedBucketOf: Key -> nat           // hash of an address
    var addrIndex: map<Key, Known>
    var addrNew: seq<set<Key>>
    var addrTried: seq<seq<Key>>
    var nNew: int
    var nTried: int

    ghost function T(): Tables
      reads this
    {
      Tables(addrIndex, addrNew, addrTried, nNew, nTried)
    }

    ghost predicate Valid()
      reads this
    {
      Inv(T(), {})
    }

    function NewBucket(k: Key, src: Key): (b: nat)
      ensures b < NEW_BUCKET_COUNT
    {
      newBucketOf(k, src) % NEW_BUCKET_COUNT
    }

    function TriedBucket(k: Key): (b: nat)
      ensures b < TRIED_BUCKET_COUNT
    {
      triedBucketOf(k) % TRIED_BUCKET_COUNT
    }

    constructor (newBucketOf: (Key, Key) -> nat, triedBucketOf: Key -> nat)
      ensures Valid() && T() == Empty()
      ensures this.newBucketOf == newBucketOf && this.triedBucketOf == triedBucketOf
    {
      this.newBucketOf := newBucketOf;
      this.triedBucketOf := triedBucketOf;
      addrIndex := map[];
      addrNew := seq(NEW_BUCKET_COUNT, i => {});
      addrTried := seq(TRIED_BUCKET_COUNT, i => []);
      nNew, nTried := 0, 0;
      new;
      EmptyInv();
    }

    /** Takes one address out of a new bucket. */
    method DropFrom(bucket: nat, k: Key, ghost loose: set<Key>)
      requires Inv(T(), loose) && bucket < |addrNew| && k in addrNew[bucket]
      modifies `addrIndex, `addrNew, `nNew
      ensures k in old(addrIndex) && T() == Drop(old(T()), bucket, k) && Inv(T(), loose)
    {
      hide Inv;
      DropKeeps(T(), loose, bucket, k);
      addrNew := addrNew[bucket := addrNew[bucket] - {k}];
      addrIndex := addrIndex[k := addrIndex[k].(refs := addrIndex[k].refs - 1)];
      if addrIndex[k].refs == 0 {
        nNew := nNew - 1;
        addrIndex := addrIndex - {k};
      }
    }

    /** Makes room in a new bucket.  Bad addresses go while the bucket is walked, in any order; the
        oldest of the others goes last. */
    method ExpireNew(bucket: nat, isBad: Key -> bool, ghost loose: set<Key>)
      returns (ghost gone: set<Key>, ghost last: Option<Key>)
      requires Inv(T(), loose) && bucket < |addrNew|
      modifies `addrIndex, `addrNew, `nNew
      ensures Inv(T(), loose) && T() == DropAll(old(T()), bucket, gone)
      ensures Expires(old(T()), bucket, isBad, gone, last)
    {
      hide Inv, Drop, DropAll, LastRefs;
      ExpireStart(T(), loose, bucket, isBad);
      ghost var t := T();
      ghost var was := addrNew[bucket];
      gone := {};
      var todo := addrNew[bucket];
      var oldest: Option<Key> := None;
      while todo != {}
        invariant Inv(T(), loose) && T() == DropAll(t, bucket, gone)
        invariant Walked(t, was, todo, isBad, gone, oldest)
      {
        var k :| k in todo;
        DropAllStep(t, bucket, gone, k);
        DropAllBucket(t, bucket, gone, k);
        if isBad(k) {
          DropFrom(bucket, k, loose);
          gone := gone + {k};
        } else if oldest.None? {
          oldest := Some(k);
        } else {
          DropAllStep(t, bucket, gone, oldest.value);
          if addrIndex[k].timestamp <= addrIndex[oldest.value].timestamp {
            oldest := Some(k);
          }
        }
        todo := todo - {k};
      }
      WalkedAll(t, bucket, was, isBad, gone, oldest);
      last := oldest;
      if oldest.Some? {
        DropAllStep(t, bucket, gone, oldest.value);
        DropAllBucket(t, bucket, gone, oldest.value);
        DropFrom(bucket, oldest.value, loose);
        gone := gone + {oldest.value};
      }
    }

    lemma DropAllBucket(t: Tables, b: nat, gone: set<Key>, k: Key)
      requires b < |t.addrNew| && k in t.addrNew[b] && k !in gone
      ensures k in DropAll(t, b, gone).addrNew[b] && |DropAll(t, b, gone).addrNew| == |t.addrNew|
    {
    }

    /** Learns an address, or hears of a known one again.  A known address is put in one more bucket
        only with a likelihood that falls with the number of buckets it is in. */
    method UpdateAddress(k: Key, timestamp: int, services: set<nat>, src: Key, srcServices: set<nat>,
                         routable: bool, seed: nat, isBad: Key -> bool)
      returns (ghost gone: set<Key>, ghost last: Option<Key>)
      requires Valid()
      modifies `addrIndex, `addrNew, `nNew
      ensures Valid()
      ensures !routable ==> unchanged(this)
      ensures routable && k in old(addrIndex) ==>
                var t := Touch(old(T()), k, Seen(old(addrIndex[k]), timestamp, services));
                if old(addrIndex[k]).tried || old(addrIndex[k]).refs == 8 then T() == t
                else
                  && old(addrIndex[k]).refs > 0
                  && if seed % (2 * old(addrIndex[k]).refs) != 0 then T() == t
                     else
                       var b := newBucketOf(k, src) % 1024;
                       b < |t.addrNew| && Placed(t, k, b, isBad, gone, last, T())
      ensures routable && k !in old(addrIndex) ==>
                var t := Register(old(T()), k, Known(timestamp, services, src, srcServices, 0, 0, 0, false, 0));
                var b := newBucketOf(k, src) % 1024;
                b < |t.addrNew| && Placed(t, k, b, isBad, gone, last, T())
    {
      hide Inv, DropAll, Placed, Put;
      gone, last := {}, None;
      if !routable {
        return;
      }
      InvFacts(T(), {}, k);
      if k in addrIndex {
        var ka := addrIndex[k];
        TouchKeeps(T(), {}, k, Seen(ka, timestamp, services));
        if timestamp > ka.timestamp || !(services <= ka.services) {
          addrIndex := addrIndex[k := ka.(timestamp := timestamp, services := ka.services + services)];
        } else {
          assert addrIndex == addrIndex[k := ka];
        }
        if ka.tried || ka.refs == NEW_BUCKETS_PER_ADDRESS {
          return;
        }
        if Int31n(2 * ka.refs, seed) != 0 {
          return;
        }
        LooseMore(T(), {}, {k});
      } else {
        ghost var known := Known(timestamp, services, src, srcServices, 0, 0, 0, false, 0);
        RegisterKeeps(T(), k, known);
        addrIndex := addrIndex[k := Known(timestamp, services, src, srcServices, 0, 0, 0, false, 0)];
        nNew := nNew + 1;
        RegisterAbsent(old(T()), k, known);
      }
      gone, last := PlaceIn(NewBucket(k, src), k, isBad);
    }

    /** Puts an address in a bucket it is not in yet. */
    method PlaceIn(bucket: nat, k: Key, isBad: Key -> bool) returns (ghost gone: set<Key>, ghost last: Option<Key>)
      requires Inv(T(), {k}) && bucket < |addrNew| && k in addrIndex && !addrIndex[k].tried
      requires addrIndex[k].refs < NEW_BUCKETS_PER_ADDRESS
      requires addrIndex[k].refs > 0 || k !in addrNew[bucket]
      modifies `addrIndex, `addrNew, `nNew
      ensures Valid() && Placed(old(T()), k, bucket, isBad, gone, last, T())
    {
      hide Inv, DropAll, Expires;
      gone, last := {}, None;
      if k in addrNew[bucket] {
        LooseNot(T(), k);
        return;
      }
      if |addrNew[bucket]| > NEW_BUCKET_SIZE {
        ghost var t := T();
        gone, last := ExpireNew(bucket, isBad, {k});
        ExpiredRoom(t, {k}, bucket, isBad, gone, last, k);
      }
      PutKeeps(T(), bucket, k);
      addrIndex := addrIndex[k := addrIndex[k].(refs := addrIndex[k].refs + 1)];
      addrNew := addrNew[bucket := addrNew[bucket] + {k}];
    }

    /** The entry of a tried bucket seen longest ago, the first one if there are several. */
    method PickTried(bucket: nat) returns (oldest: Option<nat>)
      requires bucket < |addrTried| && forall k <- addrTried[bucket] :: k in addrIndex
      ensures oldest.None? <==> addrTried[bucket] == []
      ensures oldest.Some? ==> OldestIn(T(), bucket, oldest.value)
    {
      var list := addrTried[bucket];
      oldest := None;
      for i := 0 to |list|
        invariant oldest.None? <==> i == 0
        invariant oldest.Some? ==>
                    && oldest.value < i
                    && (forall j :: 0 <= j < i ==>
                          addrIndex[list[oldest.value]].timestamp <= addrIndex[list[j]].timestamp)
                    && (forall j :: 0 <= j < oldest.value ==>
                          addrIndex[list[oldest.value]].timestamp < addrIndex[list[j]].timestamp)
      {
        if oldest.None? || addrIndex[list[oldest.value]].timestamp > addrIndex[list[i]].timestamp {
          oldest := Some(i);
        }
      }
    }

    /** Takes an address out of all new buckets; the result is the first that held it, or -1. */
    method RemoveFromNew(k: Key) returns (oldBucket: int)
      requires k in addrIndex
      modifies `addrIndex, `addrNew
      ensures addrNew == Removed(old(addrNew), k)
      ensures addrIndex ==
              old(addrIndex)[k := old(addrIndex[k]).(refs := old(addrIndex[k]).refs - Count(old(addrNew), k))]
      ensures oldBucket == -1 ==> forall b <- old(addrNew) :: k !in b
      ensures oldBucket != -1 ==> 0 <= oldBucket < |addrNew| && k in old(addrNew)[oldBucket]
                                  && forall i :: 0 <= i < oldBucket ==> k !in old(addrNew)[i]
    {
      hide Count;
      ghost var was, known := addrNew, addrIndex[k];
      oldBucket := -1;
      var i := 0;
      CountStart(was, k);
      assert known.(refs := known.refs - 0) == known && addrIndex[k := known] == addrIndex;
      while i < |addrNew|
        invariant 0 <= i <= |addrNew| == |was|
        invariant forall j :: 0 <= j < |was| ==> addrNew[j] == if j < i then was[j] - {k} else was[j]
        invariant addrIndex == old(addrIndex)[k := known.(refs := known.refs - Count(was[..i], k))]
        invariant oldBucket == -1 ==> forall j :: 0 <= j < i ==> k !in was[j]
        invariant oldBucket != -1 ==> 0 <= oldBucket < i && k in was[oldBucket]
                                      && forall j :: 0 <= j < oldBucket ==> k !in was[j]
      {
        CountPrefix(was, i, k);
        if k in addrNew[i] {
          addrNew := addrNew[i := addrNew[i] - {k}];
          addrIndex := addrIndex[k := addrIndex[k].(refs := addrIndex[k].refs - 1)];
          if oldBucket == -1 {
            oldBucket := i;
          }
        } else {
          assert was[i] - {k} == was[i];
        }
        i := i + 1;
      }
      assert was[..i] == was;
    }

    /** Marks an address as good: after a successful connection it moves to the tried table.  When its
        tried bucket is full, it takes the place `j` of the entry seen longest ago, which goes back to
        its new bucket or, when that is full, to the first bucket that held the address, `nb`. */
    method Good(k: Key, now: int) returns (ghost j: nat, ghost nb: nat)
      requires Valid()
      modifies this
      ensures Valid()
      ensures k !in old(addrIndex) ==> unchanged(this)
      ensures k in old(addrIndex) ==>
                var t := Touch(old(T()), k, old(addrIndex[k]).(lastSuccess := now, lastAttempt := now, attempts := 0));
                var b := triedBucketOf(k) % 64;
                && b < |t.addrTried|
                && if t.index[k].tried then T() == t
                   else if |t.addrTried[b]| < 256 then T() == Promote(t, k, b)
                   else
                     && OldestIn(t, b, j) && t.addrTried[b][j] in t.index
                     && HomeOf(t, k, newBucketOf(t.addrTried[b][j], t.index[t.addrTried[b][j]].src) % 1024, nb)
                     && T() == Swap(t, k, b, j, nb)
    {
      hide Inv, Promote, Swap, OldestIn, HomeOf, Count;
      j, nb := 0, 0;
      if k !in addrIndex {
        return;
      }
      InvFacts(T(), {}, k);
      TouchKeeps(T(), {}, k, addrIndex[k].(lastSuccess := now, lastAttempt := now, attempts := 0));
      addrIndex := addrIndex[k := addrIndex[k].(lastSuccess := now, lastAttempt := now, attempts := 0)];
      if addrIndex[k].tried {
        return;
      }
      j, nb := MoveToTried(k);
    }

    method MoveToTried(k: Key) returns (ghost j: nat, ghost nb: nat)
      requires Valid() && k in addrIndex && !addrIndex[k].tried
      modifies this
      ensures Valid()
      ensures var t, b := old(T()), TriedBucket(k);
              && b < |t.addrTried|
              && if |t.addrTried[b]| < TRIED_BUCKET_SIZE then T() == Promote(t, k, b)
                 else
                   && OldestIn(t, b, j) && t.addrTried[b][j] in t.index
                   && HomeOf(t, k, NewBucket(t.addrTried[b][j], t.index[t.addrTried[b][j]].src), nb)
                   && T() == Swap(t, k, b, j, nb)
    {
      hide Inv, Removed, Count, Promote, Swap, OldestIn, HomeOf;
      ghost var t := T();
      j, nb := 0, 0;
      InvFacts(t, {}, k);
      MoveFacts(t, k, TriedBucket(k));
      var oldBucket := RemoveFromNew(k);
      nNew := nNew - 1;
      // The branch for an address that was in no bucket is never taken.
      assert oldBucket != -1;
      if |addrTried[TriedBucket(k)]| < TRIED_BUCKET_SIZE {
        JoinTried(k, TriedBucket(k), t);
      } else {
        j, nb := Evict(k, TriedBucket(k), oldBucket, t);
      }
    }

    /** The state once the address `k` of `t` left the new table. */
    ghost predicate Left(t: Tables, k: Key)
      reads this
    {
      && Inv(t, {}) && k in t.index && !t.index[k].tried
      && T() == t.(index := t.index[k := t.index[k].(refs := 0)], addrNew := Removed(t.addrNew, k), nNew := t.nNew - 1)
    }

    method JoinTried(k: Key, bucket: nat, ghost t: Tables)
      requires Left(t, k) && bucket < |addrTried| && |addrTried[bucket]| < TRIED_BUCKET_SIZE
      modifies `addrIndex, `addrTried, `nTried
      ensures T() == Promote(t, k, bucket) && Valid()
    {
      hide Inv, Removed;
      PromoteKeeps(t, k, bucket);
      addrIndex := addrIndex[k := addrIndex[k].(tried := true)];
      addrTried := addrTried[bucket := addrTried[bucket] + [k]];
      nTried := nTried + 1;
      assert addrIndex == Promote(t, k, bucket).index;
      assert T() == Promote(t, k, bucket);
    }

    method Evict(k: Key, bucket: nat, oldBucket: nat, ghost t: Tables) returns (ghost j: nat, ghost nb: nat)
      requires Left(t, k) && bucket < |addrTried| && |addrTried[bucket]| >= TRIED_BUCKET_SIZE
      requires |t.addrNew| == NEW_BUCKET_COUNT && oldBucket < |t.addrNew| && k in t.addrNew[oldBucket]
      requires forall i :: 0 <= i < oldBucket ==> k !in t.addrNew[i]
      modifies `addrIndex, `addrTried, `addrNew, `nNew
      ensures Valid() && OldestIn(t, bucket, j) && t.addrTried[bucket][j] in t.index
      ensures HomeOf(t, k, NewBucket(t.addrTried[bucket][j], t.index[t.addrTried[bucket][j]].src), nb)
      ensures T() == Swap(t, k, bucket, j, nb)
    {
      hide Inv, Removed, OldestIn;
      MoveFacts(t, k, bucket);
      var entry := PickTried(bucket);
      j := entry.value;
      OldestSame(t, T(), k, bucket, j);
      OldestFacts(t, bucket, j);
      var rmKey := addrTried[bucket][entry.value];
      var newBucket := NewBucket(rmKey, addrIndex[rmKey].src);
      HomeFacts(t, k, newBucket, oldBucket);
      if |addrNew[newBucket]| >= NEW_BUCKET_SIZE {
        newBucket := oldBucket;
      }
      nb := newBucket;
      SwapIn(k, bucket, entry.value, newBucket, t);
    }

    method SwapIn(k: Key, bucket: nat, j: nat, newBucket: nat, ghost t: Tables)
      requires Left(t, k) && bucket < |addrTried| && j < |addrTried[bucket]|
      requires newBucket < |t.addrNew| && |t.addrNew[newBucket] - {k}| <= NEW_BUCKET_SIZE
      modifies `addrIndex, `addrTried, `addrNew, `nNew
      ensures t.addrTried[bucket][j] in t.index && T() == Swap(t, k, bucket, j, newBucket) && Valid()
    {
      hide Inv;
      var rmKey := addrTried[bucket][j];
      InTried(t, {}, bucket, j);
      SwapKeeps(t, k, bucket, j, newBucket);
      addrIndex := addrIndex[k := addrIndex[k].(tried := true)]
                            [rmKey := addrIndex[rmKey].(tried := false, refs := addrIndex[rmKey].refs + 1)];
      addrTried := addrTried[bucket := addrTried[bucket][j := k]];
      nNew := nNew + 1;
      addrNew := addrNew[newBucket := addrNew[newBucket] + {rmKey}];
      assert addrIndex == Swap(t, k, bucket, j, newBucket).index;
      assert T() == Swap(t, k, bucket, j, newBucket);
    }
  }

  /** The first entry of a tried bucket that was seen longest ago. */
  ghost predicate OldestIn(t: Tables, b: nat, j: nat)
    requires b < |t.addrTried|
  {
    var list := t.addrTried[b];
    && j < |list| && (forall k <- list :: k in t.index)
    && (forall i :: 0 <= i < |list| ==> t.index[list[j]].timestamp <= t.index[list[i]].timestamp)
    && (forall i :: 0 <= i < j ==> t.index[list[j]].timestamp < t.index[list[i]].timestamp)
  }

  /** Where an evicted address goes: to its own new bucket `home` if that has room once `k` is gone,
      and else to the first bucket that held `k`. */
  ghost predicate HomeOf(t: Tables, k: Key, home: nat, nb: nat) {
    && home < |t.addrNew| && nb < |t.addrNew|
    && if |t.addrNew[home] - {k}| < 64 then nb == home
       else k in t.addrNew[nb] && forall i :: 0 <= i < nb ==> k !in t.addrNew[i]
  }

  lemma CountStart(buckets: seq<set<Key>>, k: Key)
    ensures Count(buckets[..0], k) == 0
  {
  }

  lemma {:induction false} CountPrefix(buckets: seq<set<Key>>, i: nat, k: Key)
    requires i < |buckets|
    ensures Count(buckets[..i + 1], k) == Count(buckets[..i], k) + if k in buckets[i] then 1 else 0
  {
    if i > 0 {
      assert buckets[..i + 1][1..] == buckets[1..][..i] && buckets[..i][1..] == buckets[1..][..i - 1];
      CountPrefix(buckets[1..], i - 1, k);
    } else {
      assert buckets[..1][1..] == [] && buckets[..0] == [];
    }
  }

  /** An untried address is in some bucket, as often as it has references. */
  lemma MoveFacts(t: Tables, k: Key, b: nat)
    requires Inv(t, {}) && k in t.index && !t.index[k].tried && b < |t.addrTried|
    ensures Count(t.addrNew, k) == t.index[k].refs && exists s <- t.addrNew :: k in s
    ensures (forall x <- t.addrTried[b] :: x in t.index && x != k) && |t.addrTried[b]| <= TRIED_BUCKET_SIZE
    ensures forall s <- t.addrNew :: |s| <= NEW_BUCKET_SIZE + 1
  {
    assert Entry(t, {}, k);
    CountPositive(t.addrNew, k);
    OccursPositive(t.addrTried, k);
  }

  /** The timestamps of a tried bucket do not depend on the entry of an untried address. */
  lemma OldestSame(t: Tables, u: Tables, k: Key, b: nat, j: nat)
    requires b < |t.addrTried| && u.addrTried == t.addrTried && (forall x <- t.addrTried[b] :: x in t.index && x != k)
    requires u.index.Keys == t.index.Keys && forall x <- t.index :: x != k ==> u.index[x] == t.index[x]
    requires OldestIn(u, b, j)
    ensures OldestIn(t, b, j)
  {
  }

  lemma OldestFacts(t: Tables, b: nat, j: nat)
    requires b < |t.addrTried| && OldestIn(t, b, j)
    ensures j < |t.addrTried[b]| && t.addrTried[b][j] in t.index
  {
  }

  lemma HomeFacts(t: Tables, k: Key, home: nat, oldBucket: nat)
    requires home < |t.addrNew| && oldBucket < |t.addrNew| && k in t.addrNew[oldBucket]
    requires forall s <- t.addrNew :: |s| <= NEW_BUCKET_SIZE + 1
    ensures Removed(t.addrNew, k)[home] == t.addrNew[home] - {k} && |Removed(t.addrNew, k)| == |t.addrNew|
    ensures |t.addrNew[oldBucket] - {k}| <= NEW_BUCKET_SIZE
  {
    assert |t.addrNew[oldBucket] - {k}| == |t.addrNew[oldBucket]| - 1;
  }

  lemma InvFacts(t: Tables, loose: set<Key>, k: Key)
    requires Inv(t, loose)
    ensures |t.addrNew| == NEW_BUCKET_COUNT && |t.addrTried| == TRIED_BUCKET_COUNT
    ensures k in t.index && !t.index[k].tried && k !in loose ==> 1 <= t.index[k].refs <= NEW_BUCKETS_PER_ADDRESS
  {
  }

  lemma RegisterAbsent(t: Tables, k: Key, known: Known)
    requires Inv(t, {}) && k !in t.index
    ensures forall b <- t.addrNew :: k !in b
  {
  }

  /** An expiry leaves room in the bucket and does not touch addresses outside of it. */
  lemma ExpiredRoom(t: Tables, loose: set<Key>, b: nat, isBad: Key -> bool, gone: set<Key>, last: Option<Key>, k: Key)
    requires Inv(t, loose) && b < |t.addrNew| && Expires(t, b, isBad, gone, last) && k in t.index && k !in t.addrNew[b]
    ensures var u := DropAll(t, b, gone);
            && k in u.index && u.index[k] == t.index[k] && |u.addrNew| == |t.addrNew|
            && k !in u.addrNew[b] && |u.addrNew[b]| <= NEW_BUCKET_SIZE
  {
    if last.Some? {
      SubsetSize(t.addrNew[b] - gone, t.addrNew[b] - {last.value});
      assert |t.addrNew[b] - {last.value}| == |t.addrNew[b]| - 1;
    } else {
      assert t.addrNew[b] - gone == {};
    }
  }

  /** A bucket ends one over its size exactly when it was full, or was one over and the expiry found no
      bad address and made room for one only. */
  lemma OverSize(t: Tables, k: Key, b: nat, isBad: Key -> bool, gone: set<Key>, oldest: Option<Key>, u: Tables)
    requires b < |t.addrNew| && |t.addrNew[b]| <= NEW_BUCKET_SIZE + 1 && k in t.index && k !in t.addrNew[b]
    requires Placed(t, k, b, isBad, gone, oldest, u)
    ensures b < |u.addrNew|
    ensures |u.addrNew[b]| == 65 <==>
            || |t.addrNew[b]| == 64
            || (|t.addrNew[b]| == 65 && forall x <- t.addrNew[b] :: !isBad(x))
  {
    hide LastRefs, DroppedAt, Expires;
    var s := t.addrNew[b];
    if |s| > NEW_BUCKET_SIZE {
      ExpiredSize(t, b, isBad, gone, oldest);
      assert u.addrNew[b] == s - gone + {k};
    } else {
      assert u.addrNew[b] == s + {k};
    }
  }

  /** An expiry of a bucket makes room for one address only exactly when none in it is bad. */
  lemma ExpiredSize(t: Tables, b: nat, isBad: Key -> bool, gone: set<Key>, oldest: Option<Key>)
    requires b < |t.addrNew| && Expires(t, b, isBad, gone, oldest) && |t.addrNew[b]| > 1
    ensures |t.addrNew[b] - gone| < |t.addrNew[b]|
    ensures |t.addrNew[b] - gone| == |t.addrNew[b]| - 1 <==> forall x <- t.addrNew[b] :: !isBad(x)
  {
    var s := t.addrNew[b];
    var bad := set x | x in s && isBad(x);
    if oldest.None? {
      assert s - gone == {};
      var x :| x in s;
      assert isBad(x);
    } else {
      var o := oldest.value;
      assert |s - {o}| == |s| - 1;
      if x :| x in s && isBad(x) {
        SubsetSize(s - gone, s - {o} - {x});
        assert |s - {o} - {x}| == |s| - 2;
      } else {
        assert s - gone == s - {o};
      }
    }
  }

  /** An expiry takes an address that is not bad exactly when there is one, bad ones or not. */
  lemma TakesGood(t: Tables, b: nat, isBad: Key -> bool, gone: set<Key>, oldest: Option<Key>)
    requires b < |t.addrNew| && Expires(t, b, isBad, gone, oldest)
    ensures (exists k <- gone :: !isBad(k)) <==> (exists k <- t.addrNew[b] :: !isBad(k))
    ensures (exists k <- gone :: isBad(k)) <==> (exists k <- t.addrNew[b] :: isBad(k))
  {
  }

  /** One bad address in a bucket of others: it goes, and one of the others does. */
  lemma TakesTwo(t: Tables, b: nat, x: Key, isBad: Key -> bool, gone: set<Key>, oldest: Option<Key>)
    requires b < |t.addrNew| && Expires(t, b, isBad, gone, oldest) && x in t.addrNew[b] && |t.addrNew[b]| > 1
    requires forall k :: isBad(k) <==> k == x
    ensures |t.addrNew[b] - gone| == |t.addrNew[b]| - 2
  {
    var s := t.addrNew[b];
    var bad := set k | k in s && isBad(k);
    assert bad == {x};
    if oldest.Some? {
      assert s - gone == s - {x} - {oldest.value};
    }
  }

  datatype AddrEvent =
    | Announce(k: Key, timestamp: int, services: set<nat>, src: Key, srcServices: set<nat>, routable: bool, seed: nat,
               isBad: Key -> bool)
    | Succeed(k: Key, now: int)

  /** From a fresh manager, any run of announcements and successful connections keeps the tables in
      agreement. */
  method RunAddresses(newBucketOf: (Key, Key) -> nat, triedBucketOf: Key -> nat, events: seq<AddrEvent>)
    returns (a: AddrManager)
    ensures a.Valid()
  {
    hide Inv, Placed, Touch, Register, Promote, Swap, OldestIn, HomeOf;
    a := new AddrManager(newBucketOf, triedBucketOf);
    var i := 0;
    while i < |events|
      invariant 0 <= i <= |events| && a.Valid() && fresh(a)
    {
      match events[i] {
        case Announce(k, timestamp, services, src, srcServices, routable, seed, isBad) =>
          ghost var _, _ := a.UpdateAddress(k, timestamp, services, src, srcServices, routable, seed, isBad);
        case Succeed(k, now) =>
          ghost var _, _ := a.Good(k, now);
      }
      i := i + 1;
    }
  }

  // -------------------------------------------- a run over the bucket size

  function Numbered(n: nat): (k: Key)
    ensures |k.text| == n
  {
    Key(seq(n, _ => 'x'))
  }

  /** Distinct addresses that all fall in one bucket: it is full at 64, and the next one makes 65. */
  method Overfull() returns (a: AddrManager)
    ensures fresh(a) && a.Valid() && |a.addrNew| > 0 && |a.addrNew[0]| == 65
    ensures (forall k, src :: a.newBucketOf(k, src) == 0) && Numbered(0) in a.addrNew[0]
    ensures forall k <- a.addrIndex :: |k.text| <= NEW_BUCKET_SIZE
  {
    hide Inv, DropAll, Expires, Numbered;
    a := new AddrManager((_, _) => 0, _ => 0);
    var n: nat := 0;
    while n <= NEW_BUCKET_SIZE
      invariant n <= NEW_BUCKET_SIZE + 1 && fresh(a) && a.Valid() && forall k, src :: a.newBucketOf(k, src) == 0
      invariant |a.addrNew| == NEW_BUCKET_COUNT && |a.addrNew[0]| == n && forall k <- a.addrIndex :: |k.text| < n
      invariant a.addrNew[0] <= a.addrIndex.Keys && (n > 0 ==> Numbered(0) in a.addrNew[0])
    {
      ghost var _, _ := a.UpdateAddress(Numbered(n), 0, {}, Numbered(0), {}, true, 0, _ => false);
      n := n + 1;
    }
  }

  /** The next address finds one bad address in the bucket, which goes, and a good one goes with it. */
  method GoodExpired() returns (a: AddrManager)
    ensures fresh(a) && a.Valid() && |a.addrNew| > 0 && |a.addrNew[0]| == 64
  {
    hide Inv, Expires, Numbered, LastRefs;
    a := Overfull();
    ghost var t := a.T();
    var isBad := k => k == Numbered(0);
    var k := Numbered(NEW_BUCKET_SIZE + 1);
    ghost var t1 := Register(t, k, Known(0, {}, Numbered(0), {}, 0, 0, 0, false, 0));
    AbsentBucket(t, k);
    ghost var gone, last := a.UpdateAddress(k, 0, {}, Numbered(0), {}, true, 0, isBad);
    TakesTwo(t1, 0, Numbered(0), isBad, gone, last);
  }

  lemma AbsentBucket(t: Tables, k: Key)
    requires Inv(t, {}) && k !in t.index
    ensures |t.addrNew| > 0 && k !in t.addrNew[0]
  {
  }
}
