/** Saving the address manager to its file and loading it back. */
module AddrFile {
  import opened BlockNodes
  import opened AddrTables
  import opened AddrManager

  const SERIALISATION_VERSION := 2
  const SF_NODE_NETWORK := 0          // the bit of the service flag

  datatype SavedAddress = SavedAddress(
    addr: Key, src: Key, attempts: int, timestamp: int, lastAttempt: int, lastSuccess: int,
    services: set<nat>, srcServices: set<nat>)

  datatype File = File(version: int, addresses: seq<SavedAddress>, newBuckets: seq<seq<Key>>,
                       triedBuckets: seq<seq<Key>>)

  datatype LoadError = UnknownVersion | BadAddress | NotInList | NoReferences | BothNewAndTried

  // ------------------------------------------------------- specification

  function SaveEntry(k: Key, v: Known, version: int): SavedAddress {
    SavedAddress(k, v.src, v.attempts, v.timestamp, v.lastAttempt, v.lastSuccess,
                 if version > 1 then v.services else {}, if version > 1 then v.srcServices else {})
  }

  function LoadEntry(a: SavedAddress, src: Key, version: int, now: int): Known {
    Known(now, if version == 1 then {SF_NODE_NETWORK} else a.services, src,
          if version == 1 then {SF_NODE_NETWORK} else a.srcServices,
          a.attempts, a.lastAttempt, a.lastSuccess, false, 0)
  }

  /** The file lists every known address once, every new bucket in some order and every tried bucket
      in its own order. */
  ghost predicate Describes(f: File, t: Tables) {
    && ListsIndex(f.addresses, t.index, f.version)
    && |f.newBuckets| == |t.addrNew|
    && (forall i :: 0 <= i < |t.addrNew| ==> multiset(f.newBuckets[i]) == multiset(t.addrNew[i]))
    && f.triedBuckets == t.addrTried
  }

  ghost predicate ListsIndex(s: seq<SavedAddress>, index: map<Key, Known>, version: int) {
    && (forall a <- s :: a.addr in index && a == SaveEntry(a.addr, index[a.addr], version))
    && (forall k <- index :: SaveEntry(k, index[k], version) in s)
    && |s| == |index|
  }

  /** The addresses the list can be read back to; later entries win. */
  function LoadedIndex(s: seq<SavedAddress>, parse: Key -> Option<Key>, version: int, now: int): map<Key, Known> {
    if s == [] then map[]
    else
      var a := s[|s| - 1];
      var rest := LoadedIndex(s[..|s| - 1], parse, version, now);
      if parse(a.addr).Some? && parse(a.src).Some?
      then rest[parse(a.addr).value := LoadEntry(a, parse(a.src).value, version, now)]
      else rest
  }

  predicate AllParse(s: seq<SavedAddress>, parse: Key -> Option<Key>) {
    forall a <- s :: parse(a.addr).Some? && parse(a.src).Some?
  }

  predicate AllListed(lists: seq<seq<Key>>, index: map<Key, Known>) {
    forall s <- lists, k <- s :: k in index
  }

  function Total(lists: seq<seq<Key>>): nat {
    if lists == [] then 0 else |lists[0]| + Total(lists[1..])
  }

  /** Keys that occur in some list. */
  function Listed(lists: seq<seq<Key>>, index: map<Key, Known>): set<Key> {
    set k | k in index && Occurs(lists, k) > 0
  }

  /** The index once the new buckets, or the tried buckets, were read. */
  function Referenced(index: map<Key, Known>, lists: seq<seq<Key>>): map<Key, Known> {
    map k | k in index :: ReferencedAt(index, lists, k)
  }

  function ReferencedAt(index: map<Key, Known>, lists: seq<seq<Key>>, k: Key): Known
    requires k in index
  {
    index[k].(refs := Occurs(lists, k))
  }

  function Triedness(index: map<Key, Known>, lists: seq<seq<Key>>): map<Key, Known> {
    map k | k in index :: TriednessAt(index, lists, k)
  }

  function TriednessAt(index: map<Key, Known>, lists: seq<seq<Key>>, k: Key): Known
    requires k in index
  {
    index[k].(tried := Occurs(lists, k) > 0)
  }

  /** What a load makes of a file, if it accepts it. */
  function Loaded(f: File, parse: Key -> Option<Key>, now: int): Tables {
    var index := LoadedIndex(f.addresses, parse, f.version, now);
    Tables(Triedness(Referenced(index, f.newBuckets), f.triedBuckets),
           seq(|f.newBuckets|, i requires 0 <= i < |f.newBuckets| => SetOf(f.newBuckets[i])),
           f.triedBuckets, |Listed(f.newBuckets, index)|, Total(f.triedBuckets))
  }

  /** The files a load accepts: a known version, addresses that can be read, buckets of listed
      addresses only, and every address either new or tried. */
  ghost predicate Acceptable(f: File, parse: Key -> Option<Key>, now: int) {
    && f.version <= 2 && AllParse(f.addresses, parse)
    && var index := LoadedIndex(f.addresses, parse, f.version, now);
       && AllListed(f.newBuckets, index) && AllListed(f.triedBuckets, index)
       && forall k <- index :: Occurs(f.newBuckets, k) > 0 <==> Occurs(f.triedBuckets, k) == 0
  }

  /** What the file says about an address. */
  predicate Records(s: SavedAddress, v: Known, version: int) {
    && s.src == v.src && s.attempts == v.attempts && s.timestamp == v.timestamp
    && s.lastAttempt == v.lastAttempt && s.lastSuccess == v.lastSuccess
    && (version > 1 ==> s.services == v.services && s.srcServices == v.srcServices)
  }

  /** What a load makes of what a file says about an address. */
  predicate Recalls(v: Known, s: SavedAddress, parse: Key -> Option<Key>, version: int, now: int) {
    && parse(s.src) == Some(v.src) && v.attempts == s.attempts && v.timestamp == now
    && v.lastAttempt == s.lastAttempt && v.lastSuccess == s.lastSuccess && !v.tried && v.refs == 0
    && if version == 1 then v.services == {0} && v.srcServices == {0}
       else v.services == s.services && v.srcServices == s.srcServices
  }

  predicate Readable(s: SavedAddress, parse: Key -> Option<Key>) {
    parse(s.addr).Some? && parse(s.src).Some?
  }

  /** The last readable entry for an address wins. */
  lemma {:induction false} LoadedFrom(s: seq<SavedAddress>, parse: Key -> Option<Key>, version: int, now: int, k: Key)
    returns (i: nat)
    requires k in LoadedIndex(s, parse, version, now)
    ensures i < |s| && Readable(s[i], parse) && parse(s[i].addr) == Some(k)
    ensures Recalls(LoadedIndex(s, parse, version, now)[k], s[i], parse, version, now)
    ensures forall j :: i < j < |s| && Readable(s[j], parse) ==> parse(s[j].addr) != Some(k)
  {
    var last := s[|s| - 1];
    if Readable(last, parse) && parse(last.addr) == Some(k) {
      i := |s| - 1;
    } else {
      i := LoadedFrom(s[..|s| - 1], parse, version, now, k);
    }
  }

  /** Every readable entry makes its address known. */
  lemma {:induction false} LoadedAll(s: seq<SavedAddress>, parse: Key -> Option<Key>, version: int, now: int, i: nat)
    requires i < |s| && Readable(s[i], parse)
    ensures parse(s[i].addr).value in LoadedIndex(s, parse, version, now)
  {
    if i < |s| - 1 {
      LoadedAll(s[..|s| - 1], parse, version, now, i);
    }
  }

  /** What a load makes of a file, told from the file: references, marks and counters are counted from the
      buckets, and the rest of an address is what its last entry says. */
  lemma LoadedMeans(f: File, parse: Key -> Option<Key>, now: int, k: Key)
    requires k in LoadedIndex(f.addresses, parse, f.version, now)
    ensures var t, v := Loaded(f, parse, now), LoadedIndex(f.addresses, parse, f.version, now)[k];
            && k in t.index
            && t.index[k] == v.(refs := multiset(Flat(f.newBuckets))[k], tried := k in Flat(f.triedBuckets))
            && t.addrTried == f.triedBuckets && t.nTried == |Flat(f.triedBuckets)|
            && |t.addrNew| == |f.newBuckets|
            && (forall i, x :: 0 <= i < |t.addrNew| ==> (x in t.addrNew[i] <==> x in f.newBuckets[i]))
            && t.nNew == |set x | x in LoadedIndex(f.addresses, parse, f.version, now) && x in Flat(f.newBuckets)|
  {
    hide LoadedIndex, Occurs, Flat;
    var index := LoadedIndex(f.addresses, parse, f.version, now);
    forall x
      ensures Occurs(f.newBuckets, x) == multiset(Flat(f.newBuckets))[x]
      ensures Occurs(f.triedBuckets, x) == multiset(Flat(f.triedBuckets))[x]
    {
      OccursIs(f.newBuckets, x);
      OccursIs(f.triedBuckets, x);
    }
    TotalIs(f.triedBuckets);
    assert Listed(f.newBuckets, index) == set x | x in index && x in Flat(f.newBuckets);
  }

  lemma {:induction false} TotalIs(lists: seq<seq<Key>>)
    ensures Total(lists) == |Flat(lists)|
  {
    if lists != [] {
      TotalIs(lists[1..]);
    }
  }

  // --------------------------------------------------------------- saving

  /** Writes out the tables, walking the maps in any order. */
  method SavePeers(a: AddrManager, version: int) returns (f: File)
    ensures f.version == version && Describes(f, a.T())
    ensures forall s <- f.addresses :: s.addr in a.addrIndex && Records(s, a.addrIndex[s.addr], version)
  {
    hide ListsIndex;
    var addresses := SaveIndex(a.addrIndex, version);
    var buckets: seq<seq<Key>> := [];
    for i := 0 to |a.addrNew|
      invariant |buckets| == i
      invariant forall j :: 0 <= j < i ==> multiset(buckets[j]) == multiset(a.addrNew[j])
    {
      var list := ListSet(a.addrNew[i]);
      buckets := buckets + [list];
    }
    f := File(version, addresses, buckets, a.addrTried);
  }

  method SaveIndex(index: map<Key, Known>, version: int) returns (s: seq<SavedAddress>)
    ensures ListsIndex(s, index, version)
    ensures forall a <- s :: a.addr in index && Records(a, index[a.addr], version)
  {
    s := [];
    var todo := index.Keys;
    while todo != {}
      invariant todo <= index.Keys
      invariant forall a <- s :: a.addr in index && a == SaveEntry(a.addr, index[a.addr], version)
      invariant forall k <- index :: k in todo || SaveEntry(k, index[k], version) in s
      invariant |s| + |todo| == |index|
    {
      var k :| k in todo;
      s := s + [SaveEntry(k, index[k], version)];
      todo := todo - {k};
    }
  }

  method ListSet(b: set<Key>) returns (s: seq<Key>)
    ensures multiset(s) == multiset(b)
  {
    s := [];
    var todo := b;
    while todo != {}
      invariant todo <= b && multiset(s) == multiset(b - todo)
    {
      var k :| k in todo;
      s := s + [k];
      assert b - (todo - {k}) == (b - todo) + {k};
      todo := todo - {k};
    }
    assert b - todo == b;
  }

  // -------------------------------------------------------------- loading

  /** Reads the address list, or fails at the first address that cannot be read. */
  method LoadAddresses(s: seq<SavedAddress>, parse: Key -> Option<Key>, version: int, now: int)
    returns (index: map<Key, Known>, ok: bool)
    ensures ok <==> AllParse(s, parse)
    ensures ok ==> index == LoadedIndex(s, parse, version, now)
  {
    index := map[];
    var i := 0;
    while i < |s|
      invariant 0 <= i <= |s| && AllParse(s[..i], parse)
      invariant index == LoadedIndex(s[..i], parse, version, now)
    {
      var a := s[i];
      assert s[..i + 1] == s[..i] + [a] && s[..i + 1][..i] == s[..i];
      if parse(a.addr).None? || parse(a.src).None? {
        return index, false;
      }
      index := index[parse(a.addr).value := LoadEntry(a, parse(a.src).value, version, now)];
      i := i + 1;
    }
    assert s[..i] == s;
    ok := true;
  }

  /** The state after the first `i` lists and the first `j` keys of the next one. */
  ghost function SoFar(lists: seq<seq<Key>>, i: nat, j: nat): seq<seq<Key>>
    requires i < |lists| && j <= |lists[i]|
  {
    lists[..i] + [lists[i][..j]]
  }

  lemma SoFarStep(lists: seq<seq<Key>>, i: nat, j: nat, k: Key)
    requires i < |lists| && j < |lists[i]|
    ensures Occurs(SoFar(lists, i, j + 1), k) == Occurs(SoFar(lists, i, j), k) + if lists[i][j] == k then 1 else 0
  {
    var s := SoFar(lists, i, j);
    assert SoFar(lists, i, j + 1) == s[i := lists[i][..j + 1]];
    assert lists[i][..j + 1] == lists[i][..j] + [lists[i][j]];
    OccursUpdate(s, i, lists[i][..j + 1], k);
  }

  lemma SoFarStart(lists: seq<seq<Key>>, i: nat, k: Key)
    requires i < |lists|
    ensures Occurs(SoFar(lists, i, 0), k) == Occurs(lists[..i], k)
    ensures Occurs(SoFar(lists, i, |lists[i]|), k) == Occurs(lists[..i + 1], k)
  {
    assert lists[i][..|lists[i]|] == lists[i];
    assert SoFar(lists, i, |lists[i]|) == lists[..i + 1];
    OccursAppend(lists[..i], [], k);
    assert SoFar(lists, i, 0) == lists[..i] + [[]];
  }

  lemma {:induction false} OccursAppend(lists: seq<seq<Key>>, s: seq<Key>, k: Key)
    ensures Occurs(lists + [s], k) == Occurs(lists, k) + multiset(s)[k]
  {
    if lists == [] {
      assert lists + [s] == [s];
    } else {
      assert (lists + [s])[1..] == lists[1..] + [s];
      OccursAppend(lists[1..], s, k);
    }
  }

  /** One more occurrence of a listed key, for the references and for the counter. */
  lemma RefStep(index: map<Key, Known>, done: seq<seq<Key>>, more: seq<seq<Key>>, k: Key)
    requires k in index && forall x :: Occurs(more, x) == Occurs(done, x) + if x == k then 1 else 0
    ensures var r := Referenced(index, done);
            Referenced(index, more) == r[k := r[k].(refs := r[k].refs + 1)] && r[k].refs == Occurs(done, k)
  {
    hide Occurs;
    var r := Referenced(index, done);
    forall x | x in index
      ensures Referenced(index, more)[x] == if x == k then r[k].(refs := r[k].refs + 1) else r[x]
    {
      assert Occurs(more, x) == Occurs(done, x) + if x == k then 1 else 0;
    }
  }

  lemma ListedStep(index: map<Key, Known>, done: seq<seq<Key>>, more: seq<seq<Key>>, k: Key)
    requires k in index && forall x :: Occurs(more, x) == Occurs(done, x) + if x == k then 1 else 0
    ensures |Listed(more, index)| == |Listed(done, index)| + if Occurs(done, k) == 0 then 1 else 0
  {
    hide Occurs;
    if Occurs(done, k) == 0 {
      assert Listed(more, index) == Listed(done, index) + {k};
    } else {
      assert Listed(more, index) == Listed(done, index);
    }
  }

  lemma TriedStep(index: map<Key, Known>, done: seq<seq<Key>>, more: seq<seq<Key>>, k: Key)
    requires k in index && forall x :: Occurs(more, x) == Occurs(done, x) + if x == k then 1 else 0
    ensures var r := Triedness(index, done); Triedness(index, more) == r[k := r[k].(tried := true)]
  {
  }

  lemma SameOccurs(index: map<Key, Known>, a: seq<seq<Key>>, b: seq<seq<Key>>)
    requires forall x :: Occurs(a, x) == Occurs(b, x)
    ensures Referenced(index, a) == Referenced(index, b) && Triedness(index, a) == Triedness(index, b)
    ensures Listed(a, index) == Listed(b, index)
  {
  }

  lemma SetStep(s: seq<Key>, j: nat)
    requires j < |s|
    ensures SetOf(s[..j + 1]) == SetOf(s[..j]) + {s[j]}
  {
    assert s[..j + 1] == s[..j] + [s[j]];
  }

  lemma NewKeyStep(index: map<Key, Known>, lists: seq<seq<Key>>, i: nat, j: nat)
    requires i < |lists| && j < |lists[i]| && lists[i][j] in index
    ensures var k, r := lists[i][j], Referenced(index, SoFar(lists, i, j));
            && k in r && Referenced(index, SoFar(lists, i, j + 1)) == r[k := r[k].(refs := r[k].refs + 1)]
            && |Listed(SoFar(lists, i, j + 1), index)| ==
               |Listed(SoFar(lists, i, j), index)| + (if r[k].refs == 0 then 1 else 0)
            && SetOf(lists[i][..j + 1]) == SetOf(lists[i][..j]) + {k}
  {
    hide Listed, SetOf, SoFar, Occurs;
    var k := lists[i][j];
    forall x ensures Occurs(SoFar(lists, i, j + 1), x) == Occurs(SoFar(lists, i, j), x) + if x == k then 1 else 0 {
      SoFarStep(lists, i, j, x);
    }
    RefStep(index, SoFar(lists, i, j), SoFar(lists, i, j + 1), k);
    ListedStep(index, SoFar(lists, i, j), SoFar(lists, i, j + 1), k);
    SetStep(lists[i], j);
  }

  /** One more reference to a listed address, from bucket `i`. */
  method AddReference(a: AddrManager, i: nat, k: Key)
    requires k in a.addrIndex && i < |a.addrNew|
    modifies a`addrIndex, a`addrNew, a`nNew
    ensures a.addrIndex == old(a.addrIndex)[k := old(a.addrIndex[k]).(refs := old(a.addrIndex[k]).refs + 1)]
    ensures a.addrNew == old(a.addrNew)[i := old(a.addrNew[i]) + {k}]
    ensures a.nNew == old(a.nNew) + if old(a.addrIndex[k]).refs == 0 then 1 else 0
  {
    if a.addrIndex[k].refs == 0 {
      a.nNew := a.nNew + 1;
    }
    a.addrIndex := a.addrIndex[k := a.addrIndex[k].(refs := a.addrIndex[k].refs + 1)];
    a.addrNew := a.addrNew[i := a.addrNew[i] + {k}];
  }

  /** Reads one new bucket on top of the `i` before it. */
  method LoadNewBucket(a: AddrManager, lists: seq<seq<Key>>, i: nat, ghost index: map<Key, Known>) returns (ok: bool)
    requires i < |lists| && |a.addrNew| == |lists| && a.addrNew[i] == {}
    requires a.addrIndex == Referenced(index, lists[..i]) && a.nNew == |Listed(lists[..i], index)|
    modifies a`addrIndex, a`addrNew, a`nNew
    ensures ok <==> forall k <- lists[i] :: k in index
    ensures ok ==> a.addrIndex == Referenced(index, lists[..i + 1]) && a.nNew == |Listed(lists[..i + 1], index)|
    ensures ok ==> a.addrNew == old(a.addrNew)[i := SetOf(lists[i])]
  {
    hide Referenced, Listed, SetOf, SoFar, Occurs;
    StartBoth(lists, i, index);
    var j := 0;
    while j < |lists[i]|
      invariant 0 <= j <= |lists[i]| && (forall k <- lists[i][..j] :: k in index)
      invariant a.addrIndex == Referenced(index, SoFar(lists, i, j)) && a.nNew == |Listed(SoFar(lists, i, j), index)|
      invariant a.addrNew == old(a.addrNew)[i := SetOf(lists[i][..j])]
    {
      var k := lists[i][j];
      assert lists[i][..j + 1] == lists[i][..j] + [k];
      ReferencedKeys(index, SoFar(lists, i, j));
      if k !in a.addrIndex {
        return false;
      }
      NewKeyStep(index, lists, i, j);
      AddReference(a, i, k);
      j := j + 1;
    }
    assert lists[i][..j] == lists[i];
    ok := true;
  }

  lemma ReferencedKeys(index: map<Key, Known>, lists: seq<seq<Key>>)
    ensures Referenced(index, lists).Keys == index.Keys && Triedness(index, lists).Keys == index.Keys
  {
  }

  lemma StartBoth(lists: seq<seq<Key>>, i: nat, index: map<Key, Known>)
    requires i < |lists|
    ensures Referenced(index, SoFar(lists, i, 0)) == Referenced(index, lists[..i])
    ensures Triedness(index, SoFar(lists, i, 0)) == Triedness(index, lists[..i])
    ensures Listed(SoFar(lists, i, 0), index) == Listed(lists[..i], index)
    ensures Referenced(index, SoFar(lists, i, |lists[i]|)) == Referenced(index, lists[..i + 1])
    ensures Triedness(index, SoFar(lists, i, |lists[i]|)) == Triedness(index, lists[..i + 1])
    ensures Listed(SoFar(lists, i, |lists[i]|), index) == Listed(lists[..i + 1], index)
    ensures SetOf(lists[i][..0]) == {}
  {
    hide Occurs, Referenced, Triedness, Listed, SoFar;
    forall x ensures Occurs(SoFar(lists, i, 0), x) == Occurs(lists[..i], x)
                  && Occurs(SoFar(lists, i, |lists[i]|), x) == Occurs(lists[..i + 1], x)
    {
      SoFarStart(lists, i, x);
    }
    SameOccurs(index, SoFar(lists, i, 0), lists[..i]);
    SameOccurs(index, SoFar(lists, i, |lists[i]|), lists[..i + 1]);
  }

  /** Reads all new buckets, counting references and the addresses that have any. */
  method LoadNew(a: AddrManager, lists: seq<seq<Key>>) returns (ok: bool)
    requires |a.addrNew| == |lists| && a.nNew == 0
    requires (forall i :: 0 <= i < |a.addrNew| ==> a.addrNew[i] == {})
             && forall k <- a.addrIndex :: a.addrIndex[k].refs == 0
    modifies a`addrIndex, a`addrNew, a`nNew
    ensures ok <==> AllListed(lists, old(a.addrIndex))
    ensures ok ==> a.addrIndex == Referenced(old(a.addrIndex), lists) && a.nNew == |Listed(lists, old(a.addrIndex))|
    ensures ok ==> a.addrNew == seq(|lists|, i requires 0 <= i < |lists| => SetOf(lists[i]))
  {
    hide Referenced, Listed, SetOf, Occurs;
    ghost var index := a.addrIndex;
    NothingRead(index, lists);
    var i := 0;
    while i < |lists|
      invariant 0 <= i <= |lists| == |a.addrNew| && AllListed(lists[..i], index)
      invariant a.addrIndex == Referenced(index, lists[..i]) && a.nNew == |Listed(lists[..i], index)|
      invariant forall j :: 0 <= j < |lists| ==> a.addrNew[j] == if j < i then SetOf(lists[j]) else {}
    {
      assert lists[..i + 1] == lists[..i] + [lists[i]];
      ok := LoadNewBucket(a, lists, i, index);
      if !ok {
        return;
      }
      i := i + 1;
    }
    assert lists[..i] == lists;
    ok := true;
  }

  lemma NothingRead(index: map<Key, Known>, lists: seq<seq<Key>>)
    ensures (forall k <- index :: index[k].refs == 0) ==> Referenced(index, lists[..0]) == index
    ensures (forall k <- index :: !index[k].tried) ==> Triedness(index, lists[..0]) == index
    ensures Listed(lists[..0], index) == {} && Total(lists[..0]) == 0
  {
  }

  /** Reads one tried bucket on top of the `i` before it. */
  method LoadTriedBucket(a: AddrManager, lists: seq<seq<Key>>, i: nat, ghost index: map<Key, Known>) returns (ok: bool)
    requires i < |lists| && |a.addrTried| == |lists| && a.addrTried[i] == []
    requires a.addrIndex == Triedness(index, lists[..i])
    modifies a`addrIndex, a`addrTried, a`nTried
    ensures ok <==> forall k <- lists[i] :: k in index
    ensures ok ==> a.addrIndex == Triedness(index, lists[..i + 1]) && a.nTried == old(a.nTried) + |lists[i]|
    ensures ok ==> a.addrTried == old(a.addrTried)[i := lists[i]]
  {
    hide Triedness, SoFar, Occurs;
    StartBoth(lists, i, index);
    var j := 0;
    while j < |lists[i]|
      invariant 0 <= j <= |lists[i]| && (forall k <- lists[i][..j] :: k in index)
      invariant a.addrIndex == Triedness(index, SoFar(lists, i, j)) && a.nTried == old(a.nTried) + j
      invariant a.addrTried == old(a.addrTried)[i := lists[i][..j]]
    {
      var k := lists[i][j];
      assert lists[i][..j + 1] == lists[i][..j] + [k];
      ReferencedKeys(index, SoFar(lists, i, j));
      if k !in a.addrIndex {
        return false;
      }
      forall x ensures Occurs(SoFar(lists, i, j + 1), x) == Occurs(SoFar(lists, i, j), x) + if x == k then 1 else 0 {
        SoFarStep(lists, i, j, x);
      }
      TriedStep(index, SoFar(lists, i, j), SoFar(lists, i, j + 1), k);
      a.addrIndex := a.addrIndex[k := a.addrIndex[k].(tried := true)];
      a.nTried := a.nTried + 1;
      a.addrTried := a.addrTried[i := a.addrTried[i] + [k]];
      j := j + 1;
    }
    assert lists[i][..j] == lists[i];
    ok := true;
  }

  /** Reads all tried buckets, counting every entry. */
  method LoadTried(a: AddrManager, lists: seq<seq<Key>>) returns (ok: bool)
    requires |a.addrTried| == |lists| && a.nTried == 0
    requires (forall i :: 0 <= i < |a.addrTried| ==> a.addrTried[i] == [])
             && forall k <- a.addrIndex :: !a.addrIndex[k].tried
    modifies a`addrIndex, a`addrTried, a`nTried
    ensures ok <==> AllListed(lists, old(a.addrIndex))
    ensures ok ==> a.addrIndex == Triedness(old(a.addrIndex), lists) && a.nTried == Total(lists) && a.addrTried == lists
  {
    hide Triedness, Occurs, Total;
    ghost var index := a.addrIndex;
    NothingRead(index, lists);
    var i := 0;
    while i < |lists|
      invariant 0 <= i <= |lists| == |a.addrTried| && AllListed(lists[..i], index)
      invariant a.addrIndex == Triedness(index, lists[..i]) && a.nTried == Total(lists[..i])
      invariant forall j :: 0 <= j < |lists| ==> a.addrTried[j] == if j < i then lists[j] else []
    {
      assert lists[..i + 1] == lists[..i] + [lists[i]];
      TotalAppend(lists[..i], lists[i]);
      ok := LoadTriedBucket(a, lists, i, index);
      if !ok {
        return;
      }
      i := i + 1;
    }
    assert lists[..i] == lists;
    assert a.addrTried == lists;
    ok := true;
  }

  lemma {:induction false} TotalAppend(lists: seq<seq<Key>>, s: seq<Key>)
    ensures Total(lists + [s]) == Total(lists) + |s|
  {
    if lists == [] {
      assert lists + [s] == [s];
    } else {
      assert (lists + [s])[1..] == lists[1..] + [s];
      TotalAppend(lists[1..], s);
    }
  }

  /** Every address has to be either new or tried. */
  method CheckSanity(index: map<Key, Known>) returns (err: Option<LoadError>)
    requires forall k <- index :: index[k].refs >= 0
    ensures err.None? <==> forall k <- index :: index[k].refs > 0 <==> !index[k].tried
  {
    var todo := index.Keys;
    while todo != {}
      invariant todo <= index.Keys
      invariant forall k <- index :: k in todo || (index[k].refs > 0 <==> !index[k].tried)
    {
      var k :| k in todo;
      if index[k].refs == 0 && !index[k].tried {
        return Some(NoReferences);
      }
      if index[k].refs > 0 && index[k].tried {
        return Some(BothNewAndTried);
      }
      todo := todo - {k};
    }
    err := None;
  }

  /** Loads a file into a manager without addresses.  It succeeds exactly on acceptable files. */
  method DeserializePeers(a: AddrManager, f: File, parse: Key -> Option<Key>, now: int) returns (err: Option<LoadError>)
    requires a.T() == Empty() && |f.newBuckets| == NEW_BUCKET_COUNT && |f.triedBuckets| == TRIED_BUCKET_COUNT
    modifies a
    ensures err.None? <==> Acceptable(f, parse, now)
    ensures err.None? ==> a.T() == Loaded(f, parse, now)
  {
    hide LoadedIndex, Referenced, Triedness, Listed, Occurs, AllListed, SetOf, Total, AllParse;
    if f.version > SERIALISATION_VERSION {
      return Some(UnknownVersion);
    }
    var index, ok := LoadAddresses(f.addresses, parse, f.version, now);
    if !ok {
      return Some(BadAddress);
    }
    FreshIndex(f.addresses, parse, f.version, now);
    FreshBuckets();
    a.addrIndex := index;
    ok := LoadNew(a, f.newBuckets);
    if !ok {
      return Some(NotInList);
    }
    ReferencedFacts(index, f.newBuckets, f.triedBuckets);
    ok := LoadTried(a, f.triedBuckets);
    if !ok {
      return Some(NotInList);
    }
    err := CheckSanity(a.addrIndex);
  }

  lemma FreshBuckets()
    ensures forall i :: 0 <= i < |Empty().addrNew| ==> Empty().addrNew[i] == {}
    ensures forall i :: 0 <= i < |Empty().addrTried| ==> Empty().addrTried[i] == []
  {
  }

  lemma {:induction false} FreshIndex(s: seq<SavedAddress>, parse: Key -> Option<Key>, version: int, now: int)
    ensures forall k <- LoadedIndex(s, parse, version, now) ::
              LoadedIndex(s, parse, version, now)[k].refs == 0 && !LoadedIndex(s, parse, version, now)[k].tried
  {
    if s != [] {
      FreshIndex(s[..|s| - 1], parse, version, now);
    }
  }

  lemma ReferencedFacts(index: map<Key, Known>, lists: seq<seq<Key>>, tried: seq<seq<Key>>)
    requires forall k <- index :: index[k].refs == 0 && !index[k].tried
    ensures var r := Referenced(index, lists);
            && r.Keys == index.Keys && (forall k <- r :: !r[k].tried)
            && (AllListed(tried, r) <==> AllListed(tried, index))
            && var u := Triedness(r, tried);
               && u.Keys == index.Keys && (forall k <- u :: u[k].refs >= 0)
               && ((forall k <- u :: u[k].refs > 0 <==> !u[k].tried) <==>
                   forall k <- index :: Occurs(lists, k) > 0 <==> Occurs(tried, k) == 0)
  {
    hide Occurs;
    var r := Referenced(index, lists);
    var u := Triedness(r, tried);
    assert forall k <- index :: k in u && u[k].refs == Occurs(lists, k) && (u[k].tried <==> Occurs(tried, k) > 0);
  }

  // ----------------------------------------------------------- round trip

  /** What a save and a load make of an entry: the time it was last seen is not restored, and neither
      are the services before version 2. */
  function Forgets(v: Known, version: int, now: int): Known {
    var kept := if version == 1 then {SF_NODE_NETWORK} else {};
    if version > 1 then v.(timestamp := now) else v.(timestamp := now, services := kept, srcServices := kept)
  }

  function Reloaded(t: Tables, version: int, now: int): Tables {
    t.(index := map k | k in t.index :: ForgetsAt(t.index, k, version, now))
  }

  function ForgetsAt(index: map<Key, Known>, k: Key, version: int, now: int): Known
    requires k in index
  {
    Forgets(index[k], version, now)
  }

  /** The entry of a listed address once the list is read. */
  function ReadBack(v: Known, version: int, now: int): Known {
    Forgets(v, version, now).(refs := 0, tried := false)
  }

  lemma {:induction false} ReadPrefix(s: seq<SavedAddress>, index: map<Key, Known>, parse: Key -> Option<Key>,
                                      version: int, now: int)
    requires forall a <- s :: a.addr in index && a == SaveEntry(a.addr, index[a.addr], version)
    requires forall k <- index :: parse(k) == Some(k) && parse(index[k].src) == Some(index[k].src)
    ensures var r := LoadedIndex(s, parse, version, now);
            && (forall a <- s :: a.addr in r)
            && forall k <- r :: k in index && r[k] == ReadBack(index[k], version, now)
  {
    if s != [] {
      var rest := s[..|s| - 1];
      ReadPrefix(rest, index, parse, version, now);
      assert s == rest + [s[|s| - 1]];
    }
  }

  lemma ReadIndex(s: seq<SavedAddress>, index: map<Key, Known>, parse: Key -> Option<Key>, version: int, now: int)
    requires ListsIndex(s, index, version)
    requires forall k <- index :: parse(k) == Some(k) && parse(index[k].src) == Some(index[k].src)
    ensures AllParse(s, parse)
    ensures var r := LoadedIndex(s, parse, version, now);
            r.Keys == index.Keys && forall k <- r :: r[k] == ReadBack(index[k], version, now)
  {
    ReadPrefix(s, index, parse, version, now);
    var r := LoadedIndex(s, parse, version, now);
    forall k | k in index
      ensures k in r
    {
      assert SaveEntry(k, index[k], version) in s;
    }
  }

  lemma {:induction false} ListedCount(lists: seq<seq<Key>>, buckets: seq<set<Key>>, k: Key)
    requires |lists| == |buckets| && forall i :: 0 <= i < |buckets| ==> multiset(lists[i]) == multiset(buckets[i])
    ensures Occurs(lists, k) == Count(buckets, k)
  {
    if lists != [] {
      assert multiset(lists[0]) == multiset(buckets[0]);
      ListedCount(lists[1..], buckets[1..], k);
    }
  }

  lemma SetOfListing(s: seq<Key>, b: set<Key>)
    requires multiset(s) == multiset(b)
    ensures SetOf(s) == b
  {
    forall k ensures k in s <==> k in b {
      assert k in s <==> k in multiset(s);
      assert k in b <==> k in multiset(b);
    }
  }

  /** When no key occurs twice, the lists together are as long as there are keys. */
  lemma {:induction false} TotalIsSize(lists: seq<seq<Key>>, keys: set<Key>)
    requires forall k :: Occurs(lists, k) <= 1 && (Occurs(lists, k) == 1 <==> k in keys)
    ensures Total(lists) == |keys|
  {
    if lists == [] {
      assert forall k :: k in keys ==> Occurs(lists, k) == 1;
      assert keys == {};
    } else {
      var head := SetOf(lists[0]);
      forall k ensures (k in head <==> multiset(lists[0])[k] > 0) && multiset(lists[0])[k] <= 1 {
        assert Occurs(lists, k) <= 1;
        assert k in lists[0] <==> k in multiset(lists[0]);
      }
      forall k ensures Occurs(lists[1..], k) <= 1 && (Occurs(lists[1..], k) == 1 <==> k in keys - head) {
        assert Occurs(lists, k) == multiset(lists[0])[k] + Occurs(lists[1..], k);
      }
      TotalIsSize(lists[1..], keys - head);
      DistinctSize(lists[0]);
      assert head <= keys;
      assert keys == head + (keys - head);
    }
  }

  lemma {:induction false} DistinctSize(s: seq<Key>)
    requires forall k :: multiset(s)[k] <= 1
    ensures |SetOf(s)| == |s|
  {
    if s == [] {
      assert SetOf(s) == {};
    } else {
      var rest := s[..|s| - 1];
      var last := s[|s| - 1];
      assert s == rest + [last];
      forall k ensures multiset(rest)[k] <= 1 {
        assert multiset(s)[k] == multiset(rest)[k] + multiset([last])[k];
      }
      assert multiset(s)[last] == multiset(rest)[last] + multiset([last])[last];
      assert last !in multiset(rest) && last !in rest;
      DistinctSize(rest);
      assert SetOf(s) == SetOf(rest) + {last};
    }
  }

  /** A file that describes tables in agreement is accepted, and loads to the same tables: the same
      addresses, buckets, references, marks and counters. */
  lemma RoundTrip(f: File, t: Tables, parse: Key -> Option<Key>, now: int)
    requires Inv(t, {}) && Describes(f, t) && f.version <= SERIALISATION_VERSION
    requires forall k <- t.index :: parse(k) == Some(k) && parse(t.index[k].src) == Some(t.index[k].src)
    ensures Acceptable(f, parse, now) && Loaded(f, parse, now) == Reloaded(t, f.version, now)
    ensures Restores(t, Loaded(f, parse, now), f.version, now)
  {
    hide Inv, Describes, Acceptable, Loaded, Reloaded, Restores;
    LoadsBack(f, t, parse, now);
    ReloadedRestores(t, f.version, now);
  }

  lemma LoadsBack(f: File, t: Tables, parse: Key -> Option<Key>, now: int)
    requires Inv(t, {}) && Describes(f, t) && f.version <= SERIALISATION_VERSION
    requires forall k <- t.index :: parse(k) == Some(k) && parse(t.index[k].src) == Some(t.index[k].src)
    ensures Acceptable(f, parse, now) && Loaded(f, parse, now) == Reloaded(t, f.version, now)
  {
    hide Occurs, Count, LoadedIndex, Sized, Total, ListsIndex, AllParse, Forgets, Counted;
    ReadIndex(f.addresses, t.index, parse, f.version, now);
    var index := LoadedIndex(f.addresses, parse, f.version, now);
    forall k ensures Occurs(f.newBuckets, k) == Count(t.addrNew, k) {
      ListedCount(f.newBuckets, t.addrNew, k);
    }
    forall i | 0 <= i < |t.addrNew|
      ensures SetOf(f.newBuckets[i]) == t.addrNew[i]
    {
      SetOfListing(f.newBuckets[i], t.addrNew[i]);
    }
    AllKnown(f, t, index);
    CountersRestored(f, t, index);
    IndexRestored(f, t, index, now);
  }

  lemma AllKnown(f: File, t: Tables, index: map<Key, Known>)
    requires Inv(t, {}) && Describes(f, t) && index.Keys == t.index.Keys
    ensures AllListed(f.newBuckets, index) && AllListed(f.triedBuckets, index)
  {
    hide Entry, Sized, Counted, ListsIndex;
    forall s, k | s in f.newBuckets && k in s
      ensures k in index
    {
      var i :| 0 <= i < |f.newBuckets| && f.newBuckets[i] == s;
      SetOfListing(s, t.addrNew[i]);
      assert k in SetOf(s);
    }
  }

  lemma CountersRestored(f: File, t: Tables, index: map<Key, Known>)
    requires Inv(t, {}) && index.Keys == t.index.Keys && f.triedBuckets == t.addrTried
    requires forall k :: Occurs(f.newBuckets, k) == Count(t.addrNew, k)
    ensures |Listed(f.newBuckets, index)| == t.nNew && Total(f.triedBuckets) == t.nTried
    ensures forall k <- index :: Occurs(f.newBuckets, k) > 0 <==> Occurs(f.triedBuckets, k) == 0
  {
    hide Occurs, Count, Sized, Total;
    assert forall k <- t.index :: Entry(t, {}, k);
    assert Listed(f.newBuckets, index) == Marked(t.index, false);
    forall k ensures Occurs(t.addrTried, k) <= 1 && (Occurs(t.addrTried, k) == 1 <==> k in Marked(t.index, true)) {
      OccursPositive(t.addrTried, k);
    }
    TotalIsSize(t.addrTried, Marked(t.index, true));
  }

  lemma IndexRestored(f: File, t: Tables, index: map<Key, Known>, now: int)
    requires Inv(t, {}) && f.triedBuckets == t.addrTried
    requires forall k :: Occurs(f.newBuckets, k) == Count(t.addrNew, k)
    requires index.Keys == t.index.Keys && forall k <- index :: index[k] == ReadBack(t.index[k], f.version, now)
    ensures Triedness(Referenced(index, f.newBuckets), f.triedBuckets) == Reloaded(t, f.version, now).index
  {
    hide Occurs, Count, Sized, Closed, Counted;
    assert forall k <- t.index :: Entry(t, {}, k);
  }

  /** Entries that differ only in what a load forgets are in the same agreement. */
  lemma ReloadedInv(t: Tables, version: int, now: int)
    requires Inv(t, {})
    ensures Inv(Reloaded(t, version, now), {})
  {
    hide Occurs, Count;
    var u := Reloaded(t, version, now);
    assert Marked(u.index, false) == Marked(t.index, false) && Marked(u.index, true) == Marked(t.index, true);
    forall k | k in u.index
      ensures Entry(u, {}, k)
    {
      assert Entry(t, {}, k);
    }
  }

  /** Field by field: the addresses, the buckets and the counters are the same; so are source, attempts,
      last attempt, last success, mark and references of every address; the services are the same from
      version 2 on, and the default or none before; the time it was seen is the time of the load. */
  ghost predicate Restores(t: Tables, u: Tables, version: int, now: int) {
    && u.addrNew == t.addrNew && u.addrTried == t.addrTried && u.nNew == t.nNew && u.nTried == t.nTried
    && u.index.Keys == t.index.Keys
    && forall k <- t.index ::
         var v, w := t.index[k], u.index[k];
         && w.src == v.src && w.attempts == v.attempts && w.lastAttempt == v.lastAttempt
         && w.lastSuccess == v.lastSuccess && w.tried == v.tried && w.refs == v.refs && w.timestamp == now
         && (version >= 2 ==> w.services == v.services && w.srcServices == v.srcServices)
         && (version == 1 ==> w.services == {0} && w.srcServices == {0})
         && (version < 1 ==> w.services == {} && w.srcServices == {})
  }

  lemma ReloadedRestores(t: Tables, version: int, now: int)
    ensures Restores(t, Reloaded(t, version, now), version, now)
  {
  }

  /** Saving a manager and loading the file into a fresh one. */
  method SaveAndLoad(a: AddrManager, version: int, parse: Key -> Option<Key>, now: int)
    returns (b: AddrManager, err: Option<LoadError>)
    requires a.Valid() && version <= SERIALISATION_VERSION
    requires forall k <- a.addrIndex :: parse(k) == Some(k) && parse(a.addrIndex[k].src) == Some(a.addrIndex[k].src)
    ensures err.None? && b.Valid() && b.T() == Reloaded(a.T(), version, now) && Restores(a.T(), b.T(), version, now)
  {
    hide Inv, Describes, Acceptable, Loaded, Reloaded, Restores;
    ReloadedRestores(a.T(), version, now);
    var f := SavePeers(a, version);
    FileSized(f, a.T());
    b := new AddrManager(a.newBucketOf, a.triedBucketOf);
    RoundTrip(f, a.T(), parse, now);
    ReloadedInv(a.T(), version, now);
    err := DeserializePeers(b, f, parse, now);
  }

  lemma FileSized(f: File, t: Tables)
    requires Inv(t, {}) && Describes(f, t)
    ensures |f.newBuckets| == NEW_BUCKET_COUNT && |f.triedBuckets| == TRIED_BUCKET_COUNT
  {
  }
}
