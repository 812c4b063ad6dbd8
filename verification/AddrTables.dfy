/** The tables of the address manager as values: an index of known addresses, the buckets of new and
    of tried addresses, and how each table step keeps them in agreement. */
module AddrTables {
  const TRIED_BUCKET_SIZE := 256
  const TRIED_BUCKET_COUNT := 64
  const NEW_BUCKET_SIZE := 64
  const NEW_BUCKET_COUNT := 1024
  const NEW_BUCKETS_PER_ADDRESS := 8

  /** An address, known by the string key the tables use for it. */
  datatype Key = Key(text: string)

  datatype Known = Known(
    timestamp: int, services: set<nat>, src: Key, srcServices: set<nat>,
    attempts: int, lastAttempt: int, lastSuccess: int,
    tried: bool, refs: int)

  datatype Tables = Tables(
    index: map<Key, Known>, addrNew: seq<set<Key>>, addrTried: seq<seq<Key>>, nNew: int, nTried: int)

  // ------------------------------------------------------------- counting

  /** How many buckets hold the key. */
  function Count(buckets: seq<set<Key>>, k: Key): nat {
    if buckets == [] then 0 else (if k in buckets[0] then 1 else 0) + Count(buckets[1..], k)
  }

  /** How often the key occurs in the lists. */
  function Occurs(lists: seq<seq<Key>>, k: Key): nat {
    if lists == [] then 0 else multiset(lists[0])[k] + Occurs(lists[1..], k)
  }

  /** The buckets that hold the key. */
  function Holders(buckets: seq<set<Key>>, k: Key): set<nat> {
    set i: nat | i < |buckets| && k in buckets[i]
  }

  /** `Count` is the number of buckets that hold the key. */
  lemma {:induction false} CountIs(buckets: seq<set<Key>>, k: Key)
    ensures Count(buckets, k) == |Holders(buckets, k)|
  {
    hide Holders;
    if buckets == [] {
      HoldersNone(k);
    } else {
      CountIs(buckets[..|buckets| - 1], k);
      CountLast(buckets, k);
      HoldersLast(buckets, k);
    }
  }

  lemma HoldersNone(k: Key)
    ensures Holders([], k) == {}
  {
  }

  lemma HoldersLast(buckets: seq<set<Key>>, k: Key)
    requires buckets != []
    ensures |Holders(buckets, k)| ==
            |Holders(buckets[..|buckets| - 1], k)| + if k in buckets[|buckets| - 1] then 1 else 0
  {
    var init, last: nat := buckets[..|buckets| - 1], |buckets| - 1;
    var before := Holders(init, k);
    assert last !in before;
    if k in buckets[last] {
      assert Holders(buckets, k) == before + {last};
    } else {
      assert Holders(buckets, k) == before;
    }
  }

  lemma {:induction false} CountLast(buckets: seq<set<Key>>, k: Key)
    requires buckets != []
    ensures Count(buckets, k) == Count(buckets[..|buckets| - 1], k) + if k in buckets[|buckets| - 1] then 1 else 0
  {
    if |buckets| > 1 {
      CountLast(buckets[1..], k);
      assert buckets[1..][..|buckets| - 2] == buckets[..|buckets| - 1][1..];
    }
  }

  function Flat(lists: seq<seq<Key>>): seq<Key> {
    if lists == [] then [] else lists[0] + Flat(lists[1..])
  }

  /** `Occurs` is the number of places of the lists, taken together, that hold the key. */
  lemma {:induction false} OccursIs(lists: seq<seq<Key>>, k: Key)
    ensures Occurs(lists, k) == multiset(Flat(lists))[k]
  {
    if lists != [] {
      OccursIs(lists[1..], k);
    }
  }

  lemma {:induction false} CountUpdate(buckets: seq<set<Key>>, i: nat, b: set<Key>, k: Key)
    requires i < |buckets|
    ensures Count(buckets[i := b], k) ==
            Count(buckets, k) - (if k in buckets[i] then 1 else 0) + (if k in b then 1 else 0)
  {
    if i > 0 {
      assert buckets[i := b][1..] == buckets[1..][i - 1 := b];
      CountUpdate(buckets[1..], i - 1, b, k);
    } else {
      assert buckets[i := b][1..] == buckets[1..];
    }
  }

  lemma {:induction false} CountPositive(buckets: seq<set<Key>>, k: Key)
    ensures Count(buckets, k) > 0 <==> exists i :: 0 <= i < |buckets| && k in buckets[i]
  {
    if buckets != [] {
      CountPositive(buckets[1..], k);
      if i :| 0 <= i < |buckets| && k in buckets[i] {
        if i > 0 {
          assert k in buckets[1..][i - 1];
        }
      }
      if i :| 0 <= i < |buckets[1..]| && k in buckets[1..][i] {
        assert k in buckets[i + 1];
      }
    }
  }

  lemma {:induction false} OccursUpdate(lists: seq<seq<Key>>, i: nat, s: seq<Key>, k: Key)
    requires i < |lists|
    ensures Occurs(lists[i := s], k) == Occurs(lists, k) - multiset(lists[i])[k] + multiset(s)[k]
  {
    if i > 0 {
      assert lists[i := s][1..] == lists[1..][i - 1 := s];
      OccursUpdate(lists[1..], i - 1, s, k);
    } else {
      assert lists[i := s][1..] == lists[1..];
    }
  }

  lemma {:induction false} OccursPositive(lists: seq<seq<Key>>, k: Key)
    ensures Occurs(lists, k) > 0 <==> exists i :: 0 <= i < |lists| && k in lists[i]
  {
    if lists != [] {
      OccursPositive(lists[1..], k);
      if i :| 0 <= i < |lists| && k in lists[i] {
        if i > 0 {
          assert k in lists[1..][i - 1];
        }
      }
      if i :| 0 <= i < |lists[1..]| && k in lists[1..][i] {
        assert k in lists[i + 1];
      }
    }
  }

  lemma ListUpdate(s: seq<Key>, j: nat, k: Key)
    requires j < |s|
    ensures multiset(s[j := k]) == multiset(s) - multiset{s[j]} + multiset{k}
  {
    assert s == s[..j] + [s[j]] + s[j + 1..];
    assert s[j := k] == s[..j] + [k] + s[j + 1..];
  }

  /** The addresses of the index that are, or are not, marked as tried. */
  function Marked(index: map<Key, Known>, tried: bool): set<Key> {
    set k | k in index && index[k].tried == tried
  }

  // ------------------------------------------------------------ invariant

  /** The reference count of an address says how many new buckets hold it; a tried address is in
      exactly one tried bucket, once, and in no new bucket; any other address is in one to eight new
      buckets and in no tried bucket.  An address in `loose` may be in no bucket yet. */
  ghost predicate Entry(t: Tables, loose: set<Key>, k: Key)
    requires k in t.index
  {
    && t.index[k].refs == Count(t.addrNew, k)
    && if t.index[k].tried then t.index[k].refs == 0 && Occurs(t.addrTried, k) == 1
       else (1 <= t.index[k].refs || k in loose) && t.index[k].refs <= NEW_BUCKETS_PER_ADDRESS
            && Occurs(t.addrTried, k) == 0
  }

  ghost predicate Sized(t: Tables) {
    && |t.addrNew| == NEW_BUCKET_COUNT && |t.addrTried| == TRIED_BUCKET_COUNT
    && (forall b <- t.addrNew :: |b| <= NEW_BUCKET_SIZE + 1)
    && (forall s <- t.addrTried :: |s| <= TRIED_BUCKET_SIZE)
  }

  /** Buckets hold known addresses only. */
  ghost predicate Closed(t: Tables) {
    && (forall b <- t.addrNew, k <- b :: k in t.index)
    && (forall s <- t.addrTried, k <- s :: k in t.index)
  }

  ghost predicate Counted(t: Tables) {
    t.nNew == |Marked(t.index, false)| && t.nTried == |Marked(t.index, true)|
  }

  ghost predicate Inv(t: Tables, loose: set<Key>) {
    && Sized(t) && Closed(t) && Counted(t)
    && forall k <- t.index :: Entry(t, loose, k)
  }

  lemma LooseMore(t: Tables, a: set<Key>, b: set<Key>)
    requires Inv(t, a) && a <= b
    ensures Inv(t, b)
  {
  }

  lemma LooseNot(t: Tables, k: Key)
    requires Inv(t, {k}) && (k in t.index ==> t.index[k].tried || t.index[k].refs > 0)
    ensures Inv(t, {})
  {
  }

  /** The address manager without any address. */
  function Empty(): Tables {
    Tables(map[], seq(NEW_BUCKET_COUNT, i => {}), seq(TRIED_BUCKET_COUNT, i => []), 0, 0)
  }

  lemma EmptyInv()
    ensures Inv(Empty(), {})
  {
  }

  // ---------------------------------------------------------------- steps

  /** Facts about one key of one new bucket. */
  lemma InNew(t: Tables, loose: set<Key>, b: nat, k: Key)
    requires Inv(t, loose) && b < |t.addrNew| && k in t.addrNew[b]
    ensures k in t.index && !t.index[k].tried && 1 <= t.index[k].refs == Count(t.addrNew, k)
    ensures Occurs(t.addrTried, k) == 0
  {
    CountPositive(t.addrNew, k);
    assert Entry(t, loose, k);
  }

  /** Other fields of an entry change, its table fields do not. */
  function Touch(t: Tables, k: Key, known: Known): Tables {
    t.(index := t.index[k := known])
  }

  lemma TouchKeeps(t: Tables, loose: set<Key>, k: Key, known: Known)
    requires Inv(t, loose) && k in t.index && known.tried == t.index[k].tried && known.refs == t.index[k].refs
    ensures Inv(Touch(t, k, known), loose)
  {
    var u := Touch(t, k, known);
    assert Marked(u.index, false) == Marked(t.index, false) && Marked(u.index, true) == Marked(t.index, true);
    forall x | x in u.index
      ensures Entry(u, loose, x)
    {
      assert Entry(t, loose, x);
    }
  }

  /** A new address enters the index, in no bucket yet. */
  function Register(t: Tables, k: Key, known: Known): Tables {
    t.(index := t.index[k := known], nNew := t.nNew + 1)
  }

  lemma RegisterKeeps(t: Tables, k: Key, known: Known)
    requires Inv(t, {}) && k !in t.index && !known.tried && known.refs == 0
    ensures Inv(Register(t, k, known), {k})
  {
    hide Sized, Closed, Counted, Entry, Count, Occurs;
    var u := Register(t, k, known);
    forall x | x in u.index
      ensures Entry(u, {k}, x)
    {
      RegisterEntry(t, k, known, x);
    }
    RegisterCounted(t, k, known);
    IndexGrows(t, u);
  }

  lemma RegisterEntry(t: Tables, k: Key, known: Known, x: Key)
    requires Closed(t) && (x in t.index ==> Entry(t, {}, x)) && (x in t.index || x == k)
    requires k !in t.index && !known.tried && known.refs == 0
    ensures Entry(Register(t, k, known), {k}, x)
  {
    CountPositive(t.addrNew, k);
    OccursPositive(t.addrTried, k);
  }

  lemma RegisterCounted(t: Tables, k: Key, known: Known)
    requires Counted(t) && k !in t.index && !known.tried
    ensures Counted(Register(t, k, known))
  {
    var u := Register(t, k, known);
    assert Marked(u.index, false) == Marked(t.index, false) + {k} && Marked(u.index, true) == Marked(t.index, true);
  }

  /** A larger index over the same buckets. */
  lemma IndexGrows(t: Tables, u: Tables)
    requires Sized(t) && Closed(t) && u.addrNew == t.addrNew && u.addrTried == t.addrTried
             && t.index.Keys <= u.index.Keys
    ensures Sized(u) && Closed(u)
  {
  }

  /** An address enters a new bucket. */
  function Put(t: Tables, b: nat, k: Key): Tables
    requires b < |t.addrNew| && k in t.index
  {
    t.(index := t.index[k := t.index[k].(refs := t.index[k].refs + 1)],
       addrNew := t.addrNew[b := t.addrNew[b] + {k}])
  }

  lemma PutKeeps(t: Tables, b: nat, k: Key)
    requires Inv(t, {k}) && b < |t.addrNew| && k in t.index && k !in t.addrNew[b] && |t.addrNew[b]| <= NEW_BUCKET_SIZE
    requires !t.index[k].tried && t.index[k].refs < NEW_BUCKETS_PER_ADDRESS
    ensures Inv(Put(t, b, k), {})
  {
    hide Sized, Closed, Counted, Entry, Count, Occurs;
    var u := Put(t, b, k);
    forall x | x in u.index
      ensures Entry(u, {}, x)
    {
      PutEntry(t, b, k, x);
    }
    SameMarks(t, k, u);
    UpdateSized(t, b, t.addrNew[b] + {k}, u);
    BucketKnown(t, b);
    UpdateClosed(t, b, t.addrNew[b] + {k}, u);
  }

  lemma PutEntry(t: Tables, b: nat, k: Key, x: Key)
    requires b < |t.addrNew| && k in t.index && x in t.index && Entry(t, {k}, x) && k !in t.addrNew[b]
    requires !t.index[k].tried && t.index[k].refs < NEW_BUCKETS_PER_ADDRESS
    ensures Entry(Put(t, b, k), {}, x)
  {
    CountUpdate(t.addrNew, b, t.addrNew[b] + {k}, x);
  }

  /** Changing one entry without its mark keeps the counters right. */
  lemma SameMarks(t: Tables, k: Key, u: Tables)
    requires Counted(t) && k in t.index && u.index.Keys == t.index.Keys && u.nNew == t.nNew && u.nTried == t.nTried
    requires u.index[k].tried == t.index[k].tried && forall x <- t.index :: x != k ==> u.index[x] == t.index[x]
    ensures Counted(u)
  {
    assert Marked(u.index, false) == Marked(t.index, false) && Marked(u.index, true) == Marked(t.index, true);
  }

  lemma BucketKnown(t: Tables, b: nat)
    requires Closed(t) && b < |t.addrNew|
    ensures forall k <- t.addrNew[b] :: k in t.index
  {
  }

  lemma UpdateClosed(t: Tables, b: nat, s: set<Key>, u: Tables)
    requires Closed(t) && b < |t.addrNew| && u.addrNew == t.addrNew[b := s] && u.addrTried == t.addrTried
    requires t.index.Keys <= u.index.Keys && forall x <- s :: x in u.index
    ensures Closed(u)
  {
  }

  lemma UpdateSized(t: Tables, b: nat, s: set<Key>, u: Tables)
    requires Sized(t) && b < |t.addrNew| && |s| <= NEW_BUCKET_SIZE + 1
    requires u.addrNew == t.addrNew[b := s] && u.addrTried == t.addrTried
    ensures Sized(u)
  {
  }

  /** An address leaves a new bucket, and the index when that was its last one. */
  function Drop(t: Tables, b: nat, k: Key): Tables
    requires b < |t.addrNew| && k in t.index
  {
    var out := t.addrNew[b := t.addrNew[b] - {k}];
    if t.index[k].refs == 1 then t.(index := t.index - {k}, addrNew := out, nNew := t.nNew - 1)
    else t.(index := t.index[k := t.index[k].(refs := t.index[k].refs - 1)], addrNew := out)
  }

  lemma DropKeeps(t: Tables, loose: set<Key>, b: nat, k: Key)
    requires Inv(t, loose) && b < |t.addrNew| && k in t.addrNew[b]
    ensures k in t.index && Inv(Drop(t, b, k), loose)
  {
    hide Sized, Closed, Counted, Entry, Count, Occurs;
    InNew(t, loose, b, k);
    var u := Drop(t, b, k);
    forall x | x in u.index
      ensures Entry(u, loose, x)
    {
      DropEntry(t, loose, b, k, x);
    }
    DropCounted(t, b, k);
    DropSized(t, b, k);
    DropClosed(t, loose, b, k);
  }

  lemma DropEntry(t: Tables, loose: set<Key>, b: nat, k: Key, x: Key)
    requires b < |t.addrNew| && k in t.addrNew[b] && k in t.index && x in Drop(t, b, k).index
    requires x in t.index && Entry(t, loose, x) && !t.index[k].tried && t.index[k].refs >= 1
    ensures Entry(Drop(t, b, k), loose, x)
  {
    CountUpdate(t.addrNew, b, t.addrNew[b] - {k}, x);
  }

  lemma DropCounted(t: Tables, b: nat, k: Key)
    requires Counted(t) && b < |t.addrNew| && k in t.index && !t.index[k].tried
    ensures Counted(Drop(t, b, k))
  {
    var u := Drop(t, b, k);
    assert Marked(u.index, true) == Marked(t.index, true);
    assert Marked(u.index, false) ==
           if t.index[k].refs == 1 then Marked(t.index, false) - {k} else Marked(t.index, false);
  }

  lemma DropSized(t: Tables, b: nat, k: Key)
    requires Sized(t) && b < |t.addrNew| && k in t.index
    ensures Sized(Drop(t, b, k))
  {
    assert |t.addrNew[b] - {k}| <= |t.addrNew[b]|;
    UpdateSized(t, b, t.addrNew[b] - {k}, Drop(t, b, k));
  }

  lemma DropClosed(t: Tables, loose: set<Key>, b: nat, k: Key)
    requires Inv(t, loose) && b < |t.addrNew| && k in t.addrNew[b] && k in t.index
    ensures Closed(Drop(t, b, k))
  {
    var u := Drop(t, b, k);
    if t.index[k].refs == 1 {
      InNew(t, loose, b, k);
      CountUpdate(t.addrNew, b, t.addrNew[b] - {k}, k);
      CountPositive(u.addrNew, k);
      OccursPositive(t.addrTried, k);
    }
  }

  /** Every new bucket without the address. */
  function Removed(buckets: seq<set<Key>>, k: Key): (r: seq<set<Key>>) {
    seq(|buckets|, i requires 0 <= i < |buckets| => buckets[i] - {k})
  }

  lemma {:induction false} RemovedCount(buckets: seq<set<Key>>, k: Key, x: Key)
    ensures Count(Removed(buckets, k), x) == if x == k then 0 else Count(buckets, x)
  {
    if buckets != [] {
      assert Removed(buckets, k)[1..] == Removed(buckets[1..], k);
      RemovedCount(buckets[1..], k, x);
    }
  }

  lemma RemovedAt(buckets: seq<set<Key>>, k: Key, i: nat)
    requires i < |buckets|
    ensures |Removed(buckets, k)| == |buckets| && Removed(buckets, k)[i] == buckets[i] - {k}
  {
  }

  lemma RemovedKeeps(t: Tables, u: Tables, k: Key)
    requires Sized(t) && Closed(t) && u.addrNew == Removed(t.addrNew, k) && u.addrTried == t.addrTried
    requires t.index.Keys <= u.index.Keys
    ensures Sized(u) && Closed(u)
  {
    forall i | 0 <= i < |t.addrNew|
      ensures u.addrNew[i] <= t.addrNew[i] && |u.addrNew[i]| <= |t.addrNew[i]|
    {
      SubsetSize(u.addrNew[i], t.addrNew[i]);
    }
    forall b | b in u.addrNew
      ensures |b| <= NEW_BUCKET_SIZE + 1 && forall x <- b :: x in t.index
    {
      var i :| 0 <= i < |u.addrNew| && u.addrNew[i] == b;
    }
  }

  lemma SubsetSize(a: set<Key>, b: set<Key>)
    requires a <= b
    ensures |a| <= |b|
  {
    assert b == a + (b - a);
  }

  /** An address leaves the new buckets and joins a tried bucket. */
  function Promote(t: Tables, k: Key, b: nat): Tables
    requires k in t.index && b < |t.addrTried|
  {
    Tables(t.index[k := t.index[k].(tried := true, refs := 0)], Removed(t.addrNew, k),
           t.addrTried[b := t.addrTried[b] + [k]], t.nNew - 1, t.nTried + 1)
  }

  lemma PromoteKeeps(t: Tables, k: Key, b: nat)
    requires Inv(t, {}) && k in t.index && !t.index[k].tried
    requires b < |t.addrTried| && |t.addrTried[b]| < TRIED_BUCKET_SIZE
    ensures Inv(Promote(t, k, b), {})
  {
    hide Sized, Closed, Counted, Entry, Count, Occurs, Removed;
    var u := Promote(t, k, b);
    forall x | x in u.index
      ensures Entry(u, {}, x)
    {
      PromoteEntry(t, k, b, x);
    }
    PromoteCounted(t, k, b);
    RemovedKeeps(t, u.(addrTried := t.addrTried), k);
    ListKnown(t, b);
    TriedKeeps(u.(addrTried := t.addrTried), b, t.addrTried[b] + [k]);
  }

  lemma ListKnown(t: Tables, b: nat)
    requires Closed(t) && b < |t.addrTried|
    ensures forall k <- t.addrTried[b] :: k in t.index
  {
  }

  lemma PromoteEntry(t: Tables, k: Key, b: nat, x: Key)
    requires k in t.index && !t.index[k].tried && b < |t.addrTried| && x in t.index && Entry(t, {}, x)
             && Entry(t, {}, k)
    ensures Entry(Promote(t, k, b), {}, x)
  {
    RemovedCount(t.addrNew, k, x);
    OccursUpdate(t.addrTried, b, t.addrTried[b] + [k], x);
  }

  lemma PromoteCounted(t: Tables, k: Key, b: nat)
    requires Counted(t) && k in t.index && !t.index[k].tried && b < |t.addrTried|
    ensures Counted(Promote(t, k, b))
  {
    var u := Promote(t, k, b);
    assert Marked(u.index, false) == Marked(t.index, false) - {k}
           && Marked(u.index, true) == Marked(t.index, true) + {k};
  }

  lemma TriedKeeps(t: Tables, b: nat, s: seq<Key>)
    requires Sized(t) && Closed(t) && b < |t.addrTried| && |s| <= TRIED_BUCKET_SIZE && forall k <- s :: k in t.index
    ensures Sized(t.(addrTried := t.addrTried[b := s])) && Closed(t.(addrTried := t.addrTried[b := s]))
  {
  }

  /** An address takes the place of another one in a full tried bucket; that one goes back to a new
      bucket. */
  function Swap(t: Tables, k: Key, b: nat, j: nat, nb: nat): Tables
    requires k in t.index && b < |t.addrTried| && j < |t.addrTried[b]| && t.addrTried[b][j] in t.index
             && nb < |t.addrNew|
  {
    var rm := t.addrTried[b][j];
    var out := Removed(t.addrNew, k);
    Tables(t.index[k := t.index[k].(tried := true, refs := 0)]
                  [rm := t.index[rm].(tried := false, refs := t.index[rm].refs + 1)],
           out[nb := out[nb] + {rm}],
           t.addrTried[b := t.addrTried[b][j := k]], t.nNew, t.nTried)
  }

  lemma InTried(t: Tables, loose: set<Key>, b: nat, j: nat)
    requires Inv(t, loose) && b < |t.addrTried| && j < |t.addrTried[b]|
    ensures var k := t.addrTried[b][j];
            k in t.index && t.index[k].tried && t.index[k].refs == 0 && Count(t.addrNew, k) == 0
  {
    var k := t.addrTried[b][j];
    OccursPositive(t.addrTried, k);
    assert Entry(t, loose, k);
  }

  lemma SwapKeeps(t: Tables, k: Key, b: nat, j: nat, nb: nat)
    requires Inv(t, {}) && k in t.index && !t.index[k].tried
    requires b < |t.addrTried| && j < |t.addrTried[b]|
    requires nb < |t.addrNew| && |t.addrNew[nb] - {k}| <= NEW_BUCKET_SIZE
    ensures t.addrTried[b][j] in t.index && Inv(Swap(t, k, b, j, nb), {})
  {
    hide Sized, Closed, Counted, Entry, Count, Occurs, Removed;
    InTried(t, {}, b, j);
    var u := Swap(t, k, b, j, nb);
    SwapCounted(t, k, b, j, nb);
    forall x | x in u.index
      ensures Entry(u, {}, x)
    {
      SwapEntry(t, k, b, j, nb, x);
    }
    SwapSized(t, k, b, j, nb);
  }

  lemma SwapEntry(t: Tables, k: Key, b: nat, j: nat, nb: nat, x: Key)
    requires k in t.index && !t.index[k].tried && b < |t.addrTried| && j < |t.addrTried[b]| && nb < |t.addrNew|
    requires var rm := t.addrTried[b][j]; rm in t.index && t.index[rm].tried && Entry(t, {}, rm)
    requires x in t.index && Entry(t, {}, x) && Entry(t, {}, k)
    ensures Entry(Swap(t, k, b, j, nb), {}, x)
  {
    var rm, out := t.addrTried[b][j], Removed(t.addrNew, k);
    RemovedCount(t.addrNew, k, x);
    RemovedCount(t.addrNew, k, rm);
    CountPositive(out, rm);
    CountUpdate(out, nb, out[nb] + {rm}, x);
    ListUpdate(t.addrTried[b], j, k);
    OccursUpdate(t.addrTried, b, t.addrTried[b][j := k], x);
  }

  lemma SwapSized(t: Tables, k: Key, b: nat, j: nat, nb: nat)
    requires Inv(t, {}) && k in t.index && b < |t.addrTried| && j < |t.addrTried[b]| && t.addrTried[b][j] in t.index
    requires nb < |t.addrNew| && |t.addrNew[nb] - {k}| <= NEW_BUCKET_SIZE
    ensures Sized(Swap(t, k, b, j, nb)) && Closed(Swap(t, k, b, j, nb))
  {
    hide Sized, Closed, Counted, Entry, Removed;
    var u, rm := Swap(t, k, b, j, nb), t.addrTried[b][j];
    RemovedAt(t.addrNew, k, nb);
    ListKnown(t, b);
    var mid := u.(addrNew := Removed(t.addrNew, k), addrTried := t.addrTried);
    RemovedKeeps(t, mid, k);
    var s := mid.addrNew[nb] + {rm};
    BucketKnown(mid, nb);
    UpdateSized(mid, nb, s, mid.(addrNew := mid.addrNew[nb := s]));
    UpdateClosed(mid, nb, s, mid.(addrNew := mid.addrNew[nb := s]));
    TriedKeeps(mid.(addrNew := mid.addrNew[nb := s]), b, t.addrTried[b][j := k]);
  }

  lemma SwapCounted(t: Tables, k: Key, b: nat, j: nat, nb: nat)
    requires Counted(t) && k in t.index && !t.index[k].tried && nb < |t.addrNew|
    requires b < |t.addrTried| && j < |t.addrTried[b]| && t.addrTried[b][j] in t.index
             && t.index[t.addrTried[b][j]].tried
    ensures Counted(Swap(t, k, b, j, nb))
  {
    var u, rm := Swap(t, k, b, j, nb), t.addrTried[b][j];
    assert Marked(u.index, false) == Marked(t.index, false) - {k} + {rm};
    assert Marked(u.index, true) == Marked(t.index, true) - {rm} + {k};
  }

  // ---------------------------------------- what the steps leave unchanged

  /** Apart from mark and references, nothing about an address changes when it moves. */
  predicate SameRecord(v: Known, w: Known) {
    && v.timestamp == w.timestamp && v.services == w.services && v.src == w.src && v.srcServices == w.srcServices
    && v.attempts == w.attempts && v.lastAttempt == w.lastAttempt && v.lastSuccess == w.lastSuccess
  }

  /** All addresses but those of `ks` are the same. */
  ghost predicate SameOthers(t: Tables, u: Tables, ks: set<Key>) {
    forall x | x !in ks :: (x in t.index <==> x in u.index) && (x in t.index ==> u.index[x] == t.index[x])
  }

  lemma PutMeans(t: Tables, b: nat, k: Key)
    requires b < |t.addrNew| && k in t.index
    ensures var u := Put(t, b, k);
            && |u.addrNew| == |t.addrNew| && u.addrNew[b] == t.addrNew[b] + {k} && u.addrTried == t.addrTried
            && (forall i :: 0 <= i < |t.addrNew| && i != b ==> u.addrNew[i] == t.addrNew[i])
            && SameOthers(t, u, {k}) && k in u.index && SameRecord(t.index[k], u.index[k])
            && u.index[k].tried == t.index[k].tried && u.index[k].refs == t.index[k].refs + 1
            && u.nNew == t.nNew && u.nTried == t.nTried
  {
  }

  lemma DropMeans(t: Tables, b: nat, k: Key)
    requires b < |t.addrNew| && k in t.index
    ensures var u := Drop(t, b, k);
            && |u.addrNew| == |t.addrNew| && u.addrNew[b] == t.addrNew[b] - {k} && u.addrTried == t.addrTried
            && (forall i :: 0 <= i < |t.addrNew| && i != b ==> u.addrNew[i] == t.addrNew[i])
            && SameOthers(t, u, {k}) && (k in u.index <==> t.index[k].refs != 1)
            && (k in u.index ==> SameRecord(t.index[k], u.index[k]) && u.index[k].tried == t.index[k].tried
                                 && u.index[k].refs == t.index[k].refs - 1)
            && u.nNew == t.nNew - (if k in u.index then 0 else 1) && u.nTried == t.nTried
  {
  }

  lemma PromoteMeans(t: Tables, k: Key, b: nat)
    requires k in t.index && b < |t.addrTried|
    ensures var u := Promote(t, k, b);
            && |u.addrNew| == |t.addrNew| && (forall i :: 0 <= i < |t.addrNew| ==> u.addrNew[i] == t.addrNew[i] - {k})
            && |u.addrTried| == |t.addrTried| && u.addrTried[b] == t.addrTried[b] + [k]
            && (forall i :: 0 <= i < |t.addrTried| && i != b ==> u.addrTried[i] == t.addrTried[i])
            && SameOthers(t, u, {k}) && k in u.index && SameRecord(t.index[k], u.index[k])
            && u.index[k].tried && u.index[k].refs == 0 && u.nNew == t.nNew - 1 && u.nTried == t.nTried + 1
  {
  }

  lemma SwapMeans(t: Tables, k: Key, b: nat, j: nat, nb: nat)
    requires k in t.index && b < |t.addrTried| && j < |t.addrTried[b]| && t.addrTried[b][j] in t.index
    requires nb < |t.addrNew| && k != t.addrTried[b][j]
    ensures var u, rm := Swap(t, k, b, j, nb), t.addrTried[b][j];
            && |u.addrNew| == |t.addrNew| && u.addrNew[nb] == t.addrNew[nb] - {k} + {rm}
            && (forall i :: 0 <= i < |t.addrNew| && i != nb ==> u.addrNew[i] == t.addrNew[i] - {k})
            && |u.addrTried| == |t.addrTried| && u.addrTried[b] == t.addrTried[b][..j] + [k] + t.addrTried[b][j + 1..]
            && (forall i :: 0 <= i < |t.addrTried| && i != b ==> u.addrTried[i] == t.addrTried[i])
            && SameOthers(t, u, {k, rm}) && k in u.index && rm in u.index
            && SameRecord(t.index[k], u.index[k]) && u.index[k].tried && u.index[k].refs == 0
            && SameRecord(t.index[rm], u.index[rm]) && !u.index[rm].tried && u.index[rm].refs == t.index[rm].refs + 1
            && u.nNew == t.nNew && u.nTried == t.nTried
  {
  }

  lemma RegisterMeans(t: Tables, k: Key, known: Known)
    ensures var u := Register(t, k, known);
            && u.addrNew == t.addrNew && u.addrTried == t.addrTried && u.nTried == t.nTried && u.nNew == t.nNew + 1
            && SameOthers(t, u, {k}) && k in u.index && u.index[k] == known
  {
  }

  lemma TouchMeans(t: Tables, k: Key, known: Known)
    ensures var u := Touch(t, k, known);
            && u.addrNew == t.addrNew && u.addrTried == t.addrTried && u.nTried == t.nTried && u.nNew == t.nNew
            && SameOthers(t, u, {k}) && k in u.index && u.index[k] == known
  {
  }

  /** The invariant in plain numbers: 1024 new buckets of at most 65 addresses, 64 tried buckets of at most
      256, and every address in one tried bucket or in one to eight new ones. */
  lemma Limits(t: Tables, k: Key)
    requires Inv(t, {})
    ensures |t.addrNew| == 1024 && (forall b <- t.addrNew :: |b| <= 65)
    ensures |t.addrTried| == 64 && (forall s <- t.addrTried :: |s| <= 256)
    ensures k in t.index && t.index[k].tried ==>
              multiset(Flat(t.addrTried))[k] == 1 && t.index[k].refs == 0 && forall b <- t.addrNew :: k !in b
    ensures k in t.index && !t.index[k].tried ==>
              && 1 <= t.index[k].refs <= 8 && t.index[k].refs == |Holders(t.addrNew, k)|
              && forall s <- t.addrTried :: k !in s
    ensures k !in t.index ==> (forall b <- t.addrNew :: k !in b) && forall s <- t.addrTried :: k !in s
    ensures t.nNew == |set x | x in t.index && !t.index[x].tried|
    ensures t.nTried == |set x | x in t.index && t.index[x].tried|
  {
    hide Count, Occurs, Flat;
    CountIs(t.addrNew, k);
    OccursIs(t.addrTried, k);
    if k in t.index {
      assert Entry(t, {}, k);
      forall b | b in t.addrNew && k in b
        ensures t.index[k].refs > 0
      {
        var i :| 0 <= i < |t.addrNew| && t.addrNew[i] == b;
        assert i in Holders(t.addrNew, k);
      }
      forall s | s in t.addrTried && k in s
        ensures t.index[k].tried
      {
        OccursPositive(t.addrTried, k);
      }
    }
    assert Marked(t.index, false) == set x | x in t.index && !t.index[x].tried;
    assert Marked(t.index, true) == set x | x in t.index && t.index[x].tried;
  }
}
