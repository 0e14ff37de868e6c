// The open-addressing hash table: linear probing with tombstones and rehashing.
module HashMap {
  import opened Words

  type Byte8 = b: nat | b < 256

  // A key is the bytes it spans; a value is a pointer, 0 when null.
  type Key = seq<Byte8>
  type Ptr = nat

  datatype Entry = Empty | Tombstone | Live(key: Key, val: Ptr)

  const NULL: Ptr := 0
  const INIT_SIZE: nat := 16
  const HIGH_WATERMARK: nat := 70
  const LOW_WATERMARK: nat := 50

  // While capacities stay within twice this, `used * 100` fits the source's int.
  const MAX_CAPACITY: nat := 0x80_0000

  const BASIS: nat := 0xcbf2_9ce4_8422_2325
  const PRIME: nat := 0x100_0000_01b3
  const TWO64: nat := 0x1_0000_0000_0000_0000

  type Word64 = x: nat | x < TWO64

  lemma Pow2Is64()
    ensures Pow2(64) == TWO64
  {
    Pow2Is32();
    Pow2Add(32, 32);
  }

  function FnvStep(hash: Word64, b: Byte8): Word64 {
    Pow2Is64();
    Bits(BXor, hash * PRIME % TWO64, b, 64)
  }

  function Hash(s: Key): Word64 {
    if s == [] then BASIS else FnvStep(Hash(s[..|s| - 1]), s[|s| - 1])
  }

  method FnvHash(s: Key) returns (hash: Word64)
    ensures hash == Hash(s)
  {
    hide FnvStep;
    hash := BASIS;
    var i := 0;
    while i < |s|
      invariant i <= |s| && hash == Hash(s[..i])
    {
      assert s[..i + 1][..i] == s[..i];
      hash := FnvStep(hash, s[i]);
      i := i + 1;
    }
    assert s[..i] == s;
  }

  // FNV-1: multiply by the prime modulo 2^64, then exclusive or with the byte.
  lemma HashIs(s: Key, b: Byte8)
    ensures Hash([]) == 0xcbf2_9ce4_8422_2325
    ensures Hash(s + [b]) == Bits(BXor, Hash(s) * 0x100_0000_01b3 % 0x1_0000_0000_0000_0000, b, 64)
  {
    assert (s + [b])[..|s|] == s;
  }

  // ---- probe positions -----------------------------------------------------------------------

  // hash + i wraps at 64 bits before it is reduced to a slot.
  function SlotOf(hash: Word64, i: nat, cap: nat): (j: nat)
    requires cap > 0
    ensures j < cap
  {
    (hash + i) % TWO64 % cap
  }

  function Home(k: Key, cap: nat): (j: nat)
    requires cap > 0
    ensures j < cap
  {
    Hash(k) % cap
  }

  // Slot i places after `start`, around the table.
  function At(start: nat, i: nat, cap: nat): (j: nat)
    requires start < cap && i < cap
    ensures j < cap
  {
    if start + i < cap then start + i else start + i - cap
  }

  function Dist(start: nat, j: nat, cap: nat): (i: nat)
    requires start < cap && j < cap
    ensures i < cap && At(start, i, cap) == j
  {
    if j >= start then j - start else j + cap - start
  }

  lemma DistOf(start: nat, i: nat, cap: nat)
    requires start < cap && i < cap
    ensures Dist(start, At(start, i, cap), cap) == i
  {}

  // Capacities are powers of two from 16 up.
  ghost predicate IsCapacity(cap: nat) { exists n :: 4 <= n <= 25 && cap == Pow2(n) }

  lemma CapacityDivides(cap: nat) returns (c: nat)
    requires IsCapacity(cap)
    ensures cap >= 16 && cap * c == TWO64
  {
    var n :| 4 <= n <= 25 && cap == Pow2(n);
    Pow2Add(n, 64 - n);
    Pow2Is64();
    Pow2Mono(4, n);
    assert Pow2(4) == 16;
    c := Pow2(64 - n);
  }

  // Since the capacity divides 2^64, wrapping does not disturb the probe order.
  lemma SlotIs(k: Key, i: nat, cap: nat)
    requires IsCapacity(cap) && i < cap
    ensures SlotOf(Hash(k), i, cap) == At(Home(k, cap), i, cap)
  {
    hide Hash;
    var c := CapacityDivides(cap);
    ReduceTwice(Hash(k) + i, cap, c);
    HomePlus(Hash(k), i, cap);
  }

  lemma HomePlus(h: nat, i: nat, cap: nat)
    requires i < cap
    ensures (h + i) % cap == At(h % cap, i, cap)
  {
    var q, r := h / cap, h % cap;
    assert h == cap * q + r;
    if r + i < cap {
      ModUnique(h + i, cap, q, r + i);
    } else {
      assert cap * (q + 1) == cap * q + cap;
      ModUnique(h + i, cap, q + 1, r + i - cap);
    }
  }

  lemma ReduceTwice(x: nat, cap: nat, c: nat)
    requires cap > 0 && cap * c == TWO64
    ensures x % TWO64 % cap == x % cap
  {
    var q, r := x / TWO64, x % TWO64;
    assert x == (q * c + r / cap) * cap + r % cap by {
      assert q * TWO64 == q * (cap * c) == (q * c) * cap;
      assert (q * c + r / cap) * cap == (q * c) * cap + (r / cap) * cap;
    }
    ModUnique(x, cap, q * c + r / cap, r % cap);
  }

  // ---- what the buckets mean -----------------------------------------------------------------

  predicate Holds(e: Entry, k: Key) { e.Live? && e.key == k }

  // Live and deleted entries; live entries alone.
  function CountUsed(s: seq<Entry>): nat {
    if s == [] then 0 else (if s[0].Empty? then 0 else 1) + CountUsed(s[1..])
  }

  function CountLive(s: seq<Entry>): nat {
    if s == [] then 0 else (if s[0].Live? then 1 else 0) + CountLive(s[1..])
  }

  // The value a search for k from its i-th probe finds.
  function LookupFrom(s: seq<Entry>, k: Key, i: nat): Option<Ptr>
    requires |s| > 0 && i <= |s|
    decreases |s| - i
  {
    if i == |s| then None
    else
      var e := s[At(Home(k, |s|), i, |s|)];
      if Holds(e, k) then Some(e.val) else if e.Empty? then None else LookupFrom(s, k, i + 1)
  }

  function Lookup(s: seq<Entry>, k: Key): Option<Ptr>
    requires |s| > 0
  {
    LookupFrom(s, k, 0)
  }

  // No empty slot lies before a stored key on its probe path.
  ghost predicate Chained(s: seq<Entry>) {
    |s| > 0
    && forall j, i | 0 <= j < |s| && s[j].Live? && 0 <= i < Dist(Home(s[j].key, |s|), j, |s|) ::
         !s[At(Home(s[j].key, |s|), i, |s|)].Empty?
  }

  ghost predicate Unique(s: seq<Entry>) {
    forall i, j | 0 <= i < |s| && 0 <= j < |s| && s[i].Live? && s[j].Live? && s[i].key == s[j].key :: i == j
  }

  function Keys(s: seq<Entry>): set<Key> { set j | 0 <= j < |s| && s[j].Live? :: s[j].key }

  // The finite map the buckets stand for.
  ghost function Contents(s: seq<Entry>): map<Key, Ptr> {
    map k | k in Keys(s) && |s| > 0 && Lookup(s, k).Some? :: Lookup(s, k).value
  }

  // The search for k, from its i-th probe, meets a tombstone before k.
  predicate TombstoneFirst(s: seq<Entry>, k: Key, i: nat)
    requires |s| > 0 && i <= |s|
    decreases |s| - i
  {
    i < |s|
    && var e := s[At(Home(k, |s|), i, |s|)];
       !Holds(e, k) && !e.Empty? && (e.Tombstone? || TombstoneFirst(s, k, i + 1))
  }

  // ---- searches -----------------------------------------------------------------------------

  ghost predicate UniqueFor(s: seq<Entry>, k: Key) {
    forall i, j | 0 <= i < |s| && 0 <= j < |s| && Holds(s[i], k) && Holds(s[j], k) :: i == j
  }

  // The first i probes for k meet neither k nor an empty slot.
  ghost predicate Passed(s: seq<Entry>, k: Key, i: nat)
    requires |s| > 0 && i <= |s|
  {
    forall l | 0 <= l < i :: !s[At(Home(k, |s|), l, |s|)].Empty? && !Holds(s[At(Home(k, |s|), l, |s|)], k)
  }

  lemma {:induction false} PassedLookup(s: seq<Entry>, k: Key, i: nat)
    requires |s| > 0 && i <= |s| && Passed(s, k, i)
    ensures Lookup(s, k) == LookupFrom(s, k, i)
    decreases i
  {
    hide Home;
    if i > 0 { PassedLookup(s, k, i - 1); }
  }

  // A stored key is found: with its value when it is stored once.
  lemma {:induction false} StoredFound(s: seq<Entry>, k: Key, j: nat, i: nat)
    requires Chained(s) && UniqueFor(s, k) && j < |s| && Holds(s[j], k) && i <= Dist(Home(k, |s|), j, |s|)
    ensures LookupFrom(s, k, i) == Some(s[j].val)
    decreases |s| - i
  {
    hide Home;
    var at := At(Home(k, |s|), i, |s|);
    if i == Dist(Home(k, |s|), j, |s|) {
      assert at == j;
    } else {
      if Holds(s[at], k) {
        assert at == j;
        DistOf(Home(k, |s|), i, |s|);
        assert false;
      }
      StoredFound(s, k, j, i + 1);
    }
  }

  lemma {:induction false} FoundStored(s: seq<Entry>, k: Key, i: nat) returns (j: nat)
    requires |s| > 0 && i <= |s| && LookupFrom(s, k, i).Some?
    ensures j < |s| && Holds(s[j], k) && s[j].val == LookupFrom(s, k, i).value
    decreases |s| - i
  {
    hide Home;
    j := At(Home(k, |s|), i, |s|);
    if !Holds(s[j], k) { j := FoundStored(s, k, i + 1); }
  }

  // A search answers from the one slot that stores the key.
  lemma LookupIs(s: seq<Entry>, k: Key)
    requires Chained(s) && UniqueFor(s, k)
    ensures Lookup(s, k).Some? <==> exists j :: 0 <= j < |s| && Holds(s[j], k)
    ensures forall j | 0 <= j < |s| && Holds(s[j], k) :: Lookup(s, k) == Some(s[j].val)
  {
    hide Home;
    if Lookup(s, k).Some? { var j := FoundStored(s, k, 0); }
    forall j | 0 <= j < |s| && Holds(s[j], k) ensures Lookup(s, k) == Some(s[j].val) { StoredFound(s, k, j, 0); }
  }

  lemma UniqueEach(s: seq<Entry>)
    ensures Unique(s) <==> forall k :: UniqueFor(s, k)
  {
    if forall k :: UniqueFor(s, k) {
      forall i, j | 0 <= i < |s| && 0 <= j < |s| && s[i].Live? && s[j].Live? && s[i].key == s[j].key ensures i == j {
        assert UniqueFor(s, s[i].key);
      }
    }
  }

  // The finite map has exactly the stored keys, each with its stored value.
  lemma ContentsIs(s: seq<Entry>, k: Key)
    requires Chained(s) && Unique(s)
    ensures k in Contents(s) <==> Lookup(s, k).Some?
    ensures k in Contents(s) ==> Some(Contents(s)[k]) == Lookup(s, k)
  {
    hide Home;
    UniqueEach(s);
    LookupIs(s, k);
  }

  // ---- counting -------------------------------------------------------------------------------

  lemma {:induction false} CountUpdate(s: seq<Entry>, j: nat, e: Entry)
    requires j < |s|
    ensures CountUsed(s[j := e]) == CountUsed(s) - (if s[j].Empty? then 0 else 1) + (if e.Empty? then 0 else 1)
    ensures CountLive(s[j := e]) == CountLive(s) - (if s[j].Live? then 1 else 0) + (if e.Live? then 1 else 0)
  {
    if j == 0 { assert s[0 := e][1..] == s[1..]; } else {
      assert s[j := e][1..] == s[1..][j - 1 := e];
      CountUpdate(s[1..], j - 1, e);
    }
  }

  lemma {:induction false} CountFull(s: seq<Entry>)
    ensures CountLive(s) <= CountUsed(s) <= |s|
    ensures (forall j | 0 <= j < |s| :: !s[j].Empty?) ==> CountUsed(s) == |s|
    ensures (forall j | 0 <= j < |s| :: !s[j].Tombstone?) ==> CountUsed(s) == CountLive(s)
    ensures (forall j | 0 <= j < |s| :: s[j].Empty?) ==> CountUsed(s) == 0
  {
    if s != [] {
      CountFull(s[1..]);
      assert forall j | 0 <= j < |s| - 1 :: s[1..][j] == s[j + 1];
    }
  }

  lemma {:induction false} CountSnoc(s: seq<Entry>, i: nat)
    requires i < |s|
    ensures CountLive(s[..i + 1]) == CountLive(s[..i]) + (if s[i].Live? then 1 else 0)
  {
    if i == 0 { assert s[..1] == [s[0]] && s[..0] == []; } else {
      assert s[..i + 1][1..] == s[1..][..i] && s[..i][1..] == s[1..][..i - 1];
      CountSnoc(s[1..], i - 1);
    }
  }

  // A table with an empty slot: no search passes all slots.
  lemma SomeEmpty(s: seq<Entry>, k: Key)
    requires |s| > 0 && CountUsed(s) < |s|
    ensures !Passed(s, k, |s|)
  {
    hide Home;
    if Passed(s, k, |s|) {
      forall j | 0 <= j < |s| ensures !s[j].Empty? {
        assert At(Home(k, |s|), Dist(Home(k, |s|), j, |s|), |s|) == j;
      }
      CountFull(s);
      assert false;
    }
  }

  // ---- storing --------------------------------------------------------------------------------

  // Slot `at` is where get_or_insert_entry stops for k: the first place on k's probe path
  // that holds k, is a tombstone or is empty.
  ghost predicate StopsAt(s: seq<Entry>, k: Key, i: nat, at: nat) {
    && i < |s| && at == At(Home(k, |s|), i, |s|)
    && (Holds(s[at], k) || s[at].Tombstone? || s[at].Empty?)
    && Passed(s, k, i)
    && forall l | 0 <= l < i :: s[At(Home(k, |s|), l, |s|)].Live?
  }

  // k is stored behind a tombstone on its own probe path: storing it again duplicates it.
  ghost predicate Shadowed(s: seq<Entry>, k: Key)
    requires |s| > 0
  {
    k in Keys(s) && TombstoneFirst(s, k, 0)
  }

  lemma {:induction false} TombstoneFirstFrom(s: seq<Entry>, k: Key, i: nat)
    requires |s| > 0 && i <= |s| && Passed(s, k, i)
    requires forall l | 0 <= l < i :: s[At(Home(k, |s|), l, |s|)].Live?
    ensures TombstoneFirst(s, k, 0) == TombstoneFirst(s, k, i)
    decreases i
  {
    hide Home;
    if i > 0 { TombstoneFirstFrom(s, k, i - 1); }
  }

  lemma StoreKeepsChains(s: seq<Entry>, k: Key, i: nat, at: nat, v: Ptr)
    requires Chained(s) && StopsAt(s, k, i, at)
    ensures Chained(s[at := Live(k, v)])
  {
    hide Home;
    var t := s[at := Live(k, v)];
    forall j, l | 0 <= j < |t| && t[j].Live? && 0 <= l < Dist(Home(t[j].key, |t|), j, |t|)
      ensures !t[At(Home(t[j].key, |t|), l, |t|)].Empty?
    {
      if j == at { DistOf(Home(k, |s|), i, |s|); }
    }
  }

  // Storing k answers k with the new value and leaves every other key's answer alone.
  lemma StoreLooksUp(s: seq<Entry>, k: Key, i: nat, at: nat, v: Ptr)
    requires Chained(s) && Unique(s) && StopsAt(s, k, i, at)
    ensures Lookup(s[at := Live(k, v)], k) == Some(v)
    ensures forall q | q != k :: Lookup(s[at := Live(k, v)], q) == Lookup(s, q)
  {
    hide Home, Chained;
    var t := s[at := Live(k, v)];
    StoreKeepsChains(s, k, i, at, v);
    ChainedNonEmpty(s);
    forall l | 0 <= l < i ensures At(Home(k, |s|), l, |s|) != at {
      DistOf(Home(k, |s|), l, |s|);
      DistOf(Home(k, |s|), i, |s|);
    }
    assert Passed(t, k, i);
    PassedLookup(t, k, i);
    UniqueEach(s);
    forall q | q != k ensures Lookup(t, q) == Lookup(s, q) {
      SameHolders(s, t, q, at, k, v);
      LookupIs(s, q);
      LookupIs(t, q);
    }
  }

  lemma ChainedNonEmpty(s: seq<Entry>)
    requires Chained(s)
    ensures |s| > 0
  {}

  lemma SameHolders(s: seq<Entry>, t: seq<Entry>, q: Key, at: nat, k: Key, v: Ptr)
    requires at < |s| && t == s[at := Live(k, v)] && q != k && UniqueFor(s, q) && !Holds(s[at], q)
    ensures UniqueFor(t, q) && forall j | 0 <= j < |s| :: Holds(s[j], q) <==> Holds(t[j], q)
    ensures forall j | 0 <= j < |s| && Holds(s[j], q) :: s[j] == t[j]
  {}

  // The table keeps one entry per key exactly when k was not stored behind a tombstone.
  lemma StoreUnique(s: seq<Entry>, k: Key, i: nat, at: nat, v: Ptr)
    requires Chained(s) && Unique(s) && StopsAt(s, k, i, at)
    ensures Unique(s[at := Live(k, v)]) <==> !Shadowed(s, k)
  {
    hide Home, Chained, Lookup;
    ChainedNonEmpty(s);
    var t := s[at := Live(k, v)];
    TombstoneFirstFrom(s, k, i);
    UniqueEach(s);
    LookupIs(s, k);
    if k in Keys(s) {
      var j :| 0 <= j < |s| && Holds(s[j], k);
      if Holds(s[at], k) {
        assert j == at;
      } else if s[at].Empty? {
        StoredFound(s, k, j, 0);
        PassedLookup(s, k, i);
        assert false;
      } else {
        assert t[j] == s[j] && t[at].Live? && j != at;
      }
    }
  }

  lemma StoreCounts(s: seq<Entry>, k: Key, at: nat, v: Ptr)
    requires at < |s|
    ensures CountUsed(s[at := Live(k, v)]) == CountUsed(s) + if s[at].Empty? then 1 else 0
    ensures CountLive(s[at := Live(k, v)]) == CountLive(s) + if s[at].Live? then 0 else 1
  {
    CountUpdate(s, at, Live(k, v));
  }

  // ---- deleting --------------------------------------------------------------------------------

  lemma DropLooksUp(s: seq<Entry>, k: Key, at: nat)
    requires Chained(s) && Unique(s) && at < |s| && Holds(s[at], k)
    ensures Chained(s[at := Tombstone]) && Unique(s[at := Tombstone])
    ensures Lookup(s[at := Tombstone], k) == None
    ensures forall q | q != k :: Lookup(s[at := Tombstone], q) == Lookup(s, q)
  {
    hide Home;
    var t := s[at := Tombstone];
    UniqueEach(s);
    UniqueEach(t);
    forall q ensures q == k ==> Lookup(t, q) == None
      ensures q != k ==> Lookup(t, q) == Lookup(s, q)
    {
      LookupIs(s, q);
      LookupIs(t, q);
      if q != k { assert forall j | 0 <= j < |s| :: Holds(s[j], q) <==> Holds(t[j], q); }
    }
  }

  lemma DropKeepsChains(s: seq<Entry>, at: nat)
    requires Chained(s) && at < |s|
    ensures Chained(s[at := Tombstone])
  {
    hide Home;
  }

  lemma DropIsMap(s: seq<Entry>, t: seq<Entry>, k: Key, ent: int)
    requires Chained(s) && Unique(s)
    requires if ent == -1 then t == s && Lookup(s, k) == None else 0 <= ent < |s| && Holds(s[ent], k) && t == s[ent := Tombstone]
    ensures |t| > 0 && Chained(t) && Unique(t) && Contents(t) == Contents(s) - {k}
  {
    hide Chained, Lookup, Contents, Unique;
    ChainedNonEmpty(s);
    if ent != -1 { DropLooksUp(s, k, ent); }
    forall q ensures Lookup(t, q) == if q in Contents(s) && q != k then Some(Contents(s)[q]) else None {
      ContentsIs(s, q);
    }
    ContentsFrom(t, Contents(s) - {k});
  }

  // The buckets before any operation.
  function Blank(n: nat): (s: seq<Entry>)
    ensures |s| == n && forall j | 0 <= j < n :: s[j].Empty?
  {
    seq(n, _ => Empty)
  }

  // ---- the table ---------------------------------------------------------------------------------

  class HashMap {
    var buckets: array?<Entry>
    var capacity: nat
    var used: nat

    constructor ()
      ensures Valid() && buckets == null && View() == map[]
    {
      buckets, capacity, used := null, 0, 0;
    }

    // calloc of a table that already has its capacity.
    constructor Sized(cap: nat)
      requires IsCapacity(cap)
      ensures Valid() && buckets != null && fresh(buckets) && capacity == cap && used == 0
      ensures forall j | 0 <= j < cap :: buckets[j].Empty?
    {
      capacity, used := cap, 0;
      var b := new Entry[cap](_ => Empty);
      buckets := b;
      new;
      var c := CapacityDivides(cap);
      CountFull(b[..]);
    }

    // `used` counts the non-empty slots and there is an empty one; probe paths have no gaps.
    ghost predicate Shaped()
      reads this, buckets
    {
      if buckets == null then capacity == 0 && used == 0
      else
        && buckets.Length == capacity && IsCapacity(capacity)
        && used == CountUsed(buckets[..]) && used < capacity && Chained(buckets[..])
    }

    // Besides, keys are unique.
    ghost predicate Valid()
      reads this, buckets
    {
      Shaped() && (buckets != null ==> Unique(buckets[..]))
    }

    ghost function View(): map<Key, Ptr>
      reads this, buckets
    {
      if buckets == null then map[] else Contents(buckets[..])
    }

    ghost function Find(k: Key): Option<Ptr>
      requires Shaped()
      reads this, buckets
    {
      if buckets == null then None else Lookup(buckets[..], k)
    }

    predicate NeedsRehash()
      requires buckets != null ==> capacity > 0
      reads this
    {
      buckets != null && used * 100 / capacity >= HIGH_WATERMARK
    }

    // get_entry: the index of k's entry, or -1.
    method GetEntry(k: Key) returns (ent: int)
      requires Shaped()
      ensures ent == -1 <==> Find(k) == None
      ensures ent != -1 ==> buckets != null && 0 <= ent < capacity && buckets[ent] == Live(k, Find(k).value)
    {
      hide Home, Hash, Chained;
      if buckets == null { return -1; }
      var hash := FnvHash(k);
      var i := 0;
      while i < capacity
        invariant i <= capacity && Passed(buckets[..], k, i)
      {
        SlotIs(k, i, capacity);
        ent := SlotOf(hash, i, capacity);
        PassedLookup(buckets[..], k, i);
        if Holds(buckets[ent], k) { return; }
        if buckets[ent].Empty? { return -1; }
        i := i + 1;
      }
      SomeEmpty(buckets[..], k);
      assert false;
    }

    // hashmap_get2.
    method Get2(k: Key) returns (v: Ptr)
      requires Shaped()
      ensures v == if Find(k).Some? then Find(k).value else NULL
      ensures Valid() ==> v == if k in View() then View()[k] else NULL
    {
      var ent := GetEntry(k);
      if buckets != null && Unique(buckets[..]) { ContentsIs(buckets[..], k); }
      v := if ent != -1 then buckets[ent].val else NULL;
    }

    // One entry of k, the one a search finds, becomes a tombstone.
    ghost predicate Removed(before: seq<Entry>, k: Key, v: Ptr)
      reads this, buckets
    {
      buckets != null && exists ent: nat :: ent < |before| && before[ent] == Live(k, v) && buckets[..] == before[ent := Tombstone]
    }

    // hashmap_delete2.
    method Delete2(k: Key)
      requires Shaped()
      modifies buckets
      ensures Shaped()
      ensures old(Find(k)).Some? ==> Removed(old(buckets[..]), k, old(Find(k)).value)
      ensures old(Find(k)).None? && buckets != null ==> buckets[..] == old(buckets[..])
      ensures old(Valid()) ==> Valid() && View() == old(View()) - {k}
      ensures forall n: nat | old(Modest(n)) :: Modest(n)
    {
      hide Chained, Unique, Lookup, Contents;
      var ent := GetEntry(k);
      if buckets != null {
        ghost var s := buckets[..];
        if ent != -1 {
          DropKeepsChains(s, ent);
          CountUpdate(s, ent, Tombstone);
          buckets[ent] := Tombstone;
          assert buckets[..] == s[ent := Tombstone];
        }
        if Unique(s) { DropIsMap(s, buckets[..], k, ent); }
      }
    }

    // k may be stored without making a second entry for it: the table is about to be
    // rehashed, or k is not stored behind a tombstone.
    ghost predicate PutSafe(k: Key)
      requires Shaped()
      reads this, buckets
    {
      buckets == null || NeedsRehash() || !Shadowed(buckets[..], k)
    }

    // No int overflows: a table about to double its capacity is at most MAX_CAPACITY.
    predicate InRange()
      requires buckets != null ==> capacity > 0
      reads this
    {
      capacity <= 2 * MAX_CAPACITY && (NeedsRehash() ==> capacity <= MAX_CAPACITY)
    }

    // No deleted entry.
    ghost predicate Clean()
      reads this, buckets
    {
      buckets == null || forall j | 0 <= j < buckets.Length :: !buckets[j].Tombstone?
    }

    // At most n live entries, in a table no larger than n of them can have made it.
    ghost predicate Modest(n: nat)
      reads this, buckets
    {
      buckets == null || (CountLive(buckets[..]) <= n && capacity <= 4 * n + 16)
    }

    // What storing k does to the buckets.
    ghost predicate Stored(before: seq<Entry>, k: Key, v: Ptr)
      reads this, buckets
    {
      buckets != null && exists i: nat, at: nat :: StopsAt(before, k, i, at) && buckets[..] == before[at := Live(k, v)]
    }

    // The probe loop of get_or_insert_entry.
    method Insert(k: Key) returns (ent: nat, ghost i: nat)
      requires Shaped() && buckets != null && used + 1 < capacity
      modifies this`used, buckets
      ensures buckets == old(buckets) && capacity == old(capacity) && ent < capacity
      ensures StopsAt(old(buckets[..]), k, i, ent) && buckets[ent].Live?
      ensures buckets[..] == old(buckets[..])[ent := Live(k, buckets[ent].val)]
      ensures used == old(used) + if old(buckets[..])[ent].Empty? then 1 else 0
    {
      hide Home, Hash, Chained;
      ghost var s := buckets[..];
      var hash := FnvHash(k);
      i := 0;
      var n := 0;
      while n < capacity
        invariant n == i <= capacity && Passed(s, k, i) && buckets[..] == s && used == old(used)
        invariant forall l | 0 <= l < i :: s[At(Home(k, |s|), l, |s|)].Live?
      {
        SlotIs(k, n, capacity);
        ent := SlotOf(hash, n, capacity);
        assert StopsAt(s, k, n, ent) || (!Holds(s[ent], k) && s[ent].Live?);
        if Holds(buckets[ent], k) {
          assert s == s[ent := Live(k, s[ent].val)];
          return;
        }
        if buckets[ent].Tombstone? {
          buckets[ent] := Live(k, NULL);
          assert buckets[..] == s[ent := Live(k, NULL)];
          return;
        }
        if buckets[ent].Empty? {
          buckets[ent] := Live(k, NULL);
          used := used + 1;
          assert buckets[..] == s[ent := Live(k, NULL)];
          return;
        }
        n, i := n + 1, i + 1;
      }
      SomeEmpty(s, k);
      assert false;
    }

    // get_or_insert_entry: the slot for k, whose value the caller sets. `before` are the
    // buckets the probe loop ran on.
    method GetOrInsert(k: Key) returns (ent: nat, ghost before: seq<Entry>, ghost i: nat)
      requires Valid() && InRange()
      modifies this, buckets
      ensures Shaped() && buckets != null && (fresh(buckets) || buckets == old(buckets))
      ensures Chained(before) && Unique(before) && StopsAt(before, k, i, ent)
      ensures ent < |before| == capacity && buckets[ent].Live?
      ensures buckets[..] == before[ent := Live(k, buckets[ent].val)]
      ensures forall q :: Lookup(before, q) == old(Find(q))
      ensures Shadowed(before, k) <==> !old(PutSafe(k))
      ensures old(Clean()) ==> forall j | 0 <= j < |before| :: !before[j].Tombstone?
      ensures forall n: nat | old(Modest(n)) :: CountLive(before) <= n && capacity <= 4 * n + 16
      ensures old(buckets != null && used * 100 / capacity < 70) ==>
        buckets == old(buckets) && capacity == old(capacity) && before == old(buckets[..])
      ensures old(buckets == null) ==> capacity == 16 && before == Blank(16)
      ensures old(buckets != null && used * 100 / capacity >= 70) ==>
        fresh(buckets) && forall j | 0 <= j < |before| :: !before[j].Tombstone?
      decreases if NeedsRehash() then 1 else 0, 1
    {
      hide Chained, Unique, Lookup, Contents, Home, StopsAt;
      if buckets == null {
        FirstCapacity();
        var b := new Entry[INIT_SIZE](_ => Empty);
        buckets, capacity := b, INIT_SIZE;
        FreshTable(buckets[..]);
        CountFull(buckets[..]);
        NoTombstones(buckets[..], k);
      } else if NeedsRehash() {
        var ok := Rehash();
        NoTombstones(buckets[..], k);
      } else {
        HasRoom(used, capacity);
      }
      before := buckets[..];
      ent, i := Insert(k);
      InsertKeepsShape(before, k, i, ent, buckets[ent].val);
    }

    // hashmap_put2. It leaves one entry per key exactly when k is not stored behind a
    // tombstone on its own probe path (or the table is rehashed first).
    method Put2(k: Key, v: Ptr)
      requires Valid() && InRange()
      modifies this, buckets
      ensures Shaped() && buckets != null && (fresh(buckets) || buckets == old(buckets))
      ensures Find(k) == Some(v) && forall q | q != k :: Find(q) == old(Find(q))
      ensures Valid() <==> old(PutSafe(k))
      ensures old(PutSafe(k)) ==> View() == old(View())[k := v]
      ensures old(buckets != null && used * 100 / capacity < 70) ==>
        buckets == old(buckets) && capacity == old(capacity) && Stored(old(buckets[..]), k, v)
      ensures old(buckets == null) ==> capacity == 16 && Stored(Blank(16), k, v)
      ensures old(buckets != null && used * 100 / capacity >= 70) ==> fresh(buckets) && Clean()
      ensures old(Clean()) ==> Clean()
      ensures forall n: nat | old(Modest(n)) :: Modest(n + 1)
      decreases if NeedsRehash() then 1 else 0, 2
    {
      hide Chained, Unique, Lookup, Contents, Home, StopsAt, Shadowed, CountLive, CountUsed, Blank;
      ghost var was := View();
      FindIsView();
      ghost var s;
      ghost var i;
      var ent;
      ent, s, i := GetOrInsert(k);
      InsertKeepsShape(s, k, i, ent, buckets[ent].val);
      InsertKeepsShape(s, k, i, ent, v);
      StoreLooksUp(s, k, i, ent, v);
      StoreUnique(s, k, i, ent, v);
      buckets[ent] := Live(k, v);
      assert buckets[..] == s[ent := Live(k, v)];
      StoreCounts(s, k, ent, v);
      assert forall j | 0 <= j < buckets.Length :: buckets[j] == buckets[..][j];
      if !Shadowed(s, k) { ContentsFrom(buckets[..], was[k := v]); }
    }

    lemma FindIsView()
      requires Valid()
      ensures forall q :: Find(q) == if q in View() then Some(View()[q]) else None
    {
      if buckets != null {
        forall q ensures Find(q) == if q in View() then Some(View()[q]) else None { ContentsIs(buckets[..], q); }
      }
    }

    method CountKeys() returns (nkeys: nat)
      requires Shaped() && buckets != null
      ensures nkeys == CountLive(buckets[..])
    {
      nkeys := 0;
      var i := 0;
      while i < capacity
        invariant i <= capacity && nkeys == CountLive(buckets[..][..i])
      {
        CountSnoc(buckets[..], i);
        if buckets[i].Live? { nkeys := nkeys + 1; }
        i := i + 1;
      }
      assert buckets[..][..i] == buckets[..];
    }

    // Put the entry of slot i, if it is live, into the new table.
    method CopyEntry(map2: HashMap, i: nat, nkeys: nat)
      requires Shaped() && buckets != null && i < capacity && nkeys == CountLive(buckets[..])
      requires map2 != this && map2.Valid() && map2.buckets != null && map2.buckets != buckets
      requires nkeys * 100 / map2.capacity < LOW_WATERMARK && map2.capacity <= 2 * MAX_CAPACITY
      requires Copied(buckets[..], i, map2.buckets[..])
      modifies map2, map2.buckets
      ensures map2.Valid() && map2.buckets == old(map2.buckets) && map2.capacity == old(map2.capacity)
      ensures Copied(buckets[..], i + 1, map2.buckets[..])
      decreases 0, 3
    {
      hide Home, Chained, Lookup, Unique, Contents, Copied, Shadowed, StopsAt, CountLive, CountUsed;
      ghost var s, t := buckets[..], map2.buckets[..];
      if buckets[i].Live? {
        var e := buckets[i];
        CopiedCounts(s, i, t);
        FewKeys(map2.used, nkeys, map2.capacity);
        NoTombstones(t, e.key);
        map2.Put2(e.key, e.val);
        CopiedOne(s, i, t, e, map2.buckets[..]);
      } else {
        CopiedSkip(s, i, t);
      }
    }

    // rehash: a new table without tombstones, less than half full. Its assertion that every
    // entry was copied fails, and the program ends, if and only if two entries have one key.
    method Rehash() returns (ok: bool)
      requires Shaped() && buckets != null && capacity <= MAX_CAPACITY
      modifies this
      ensures ok <==> old(Unique(buckets[..]))
      ensures !ok ==> buckets == old(buckets) && capacity == old(capacity) && used == old(used)
      ensures ok ==> Valid() && buckets != null && fresh(buckets) && used + 1 < capacity
      ensures ok ==> forall q :: Find(q) == old(Find(q))
      ensures ok ==> forall j | 0 <= j < buckets.Length :: !buckets[j].Tombstone?
      ensures ok ==> capacity == old(capacity) || (capacity == 2 * old(capacity) && old(capacity) <= 2 * used)
      ensures ok ==> used == CountLive(buckets[..]) == old(CountLive(buckets[..])) && used * 100 / capacity < 50
      decreases 1, 0
    {
      hide Home, Chained, Lookup, Unique, Contents, Copied, CountLive, CountUsed, Kinds, LastOf;
      ghost var s := buckets[..];
      var nkeys := CountKeys();
      var cap := NewCapacity(nkeys);
      var map2 := new HashMap.Sized(cap);
      NoneCopied(s, map2.buckets[..]);
      CopyEntries(map2, nkeys);
      CopiedCounts(s, capacity, map2.buckets[..]);
      AllKinds(s);
      ok := map2.used == nkeys;
      if ok {
        CopiedAll(s, map2.buckets[..]);
        buckets, capacity, used := map2.buckets, map2.capacity, map2.used;
      }
    }

    method CopyEntries(map2: HashMap, nkeys: nat)
      requires Shaped() && buckets != null && nkeys == CountLive(buckets[..])
      requires map2 != this && map2.Valid() && map2.buckets != null && map2.buckets != buckets
      requires nkeys * 100 / map2.capacity < LOW_WATERMARK && map2.capacity <= 2 * MAX_CAPACITY
      requires Copied(buckets[..], 0, map2.buckets[..])
      modifies map2, map2.buckets
      ensures map2.Valid() && map2.buckets == old(map2.buckets) && map2.capacity == old(map2.capacity)
      ensures Copied(buckets[..], capacity, map2.buckets[..])
      decreases 0, 4
    {
      hide Home, Chained, Lookup, Unique, Contents, Copied, CountUsed, CountLive;
      var i := 0;
      while i < capacity
        invariant i <= capacity && map2.Valid() && map2.buckets == old(map2.buckets) && map2.capacity == old(map2.capacity)
        invariant Copied(buckets[..], i, map2.buckets[..])
      {
        CopyEntry(map2, i, nkeys);
        i := i + 1;
      }
    }

    method NewCapacity(nkeys: nat) returns (cap: nat)
      requires Shaped() && buckets != null && capacity <= MAX_CAPACITY && nkeys == CountLive(buckets[..])
      ensures IsCapacity(cap) && (cap == capacity || (cap == 2 * capacity && capacity <= 2 * nkeys))
      ensures nkeys * 100 / cap < 50 && nkeys + 1 < cap
    {
      CountFull(buckets[..]);
      ghost var c := CapacityDivides(capacity);
      cap := capacity;
      while nkeys * 100 / cap >= LOW_WATERMARK
        invariant IsCapacity(cap) && (cap == capacity || (cap == 2 * capacity && capacity <= 2 * nkeys))
        decreases 2 * capacity - cap
      {
        HalfFull(nkeys, cap, capacity);
        HalfUsed(nkeys, cap);
        DoubleCapacity(cap);
        cap := cap * 2;
      }
      c := CapacityDivides(cap);
      BelowMark(nkeys, cap, LOW_WATERMARK);
    }
  }

  // ---- what the table's methods use --------------------------------------------------------------

  lemma ContentsFrom(t: seq<Entry>, m: map<Key, Ptr>)
    requires Chained(t) && Unique(t)
    requires forall q :: Lookup(t, q) == if q in m then Some(m[q]) else None
    ensures Contents(t) == m
  {
    hide Lookup, Contents;
    forall q ensures q in Contents(t) <==> q in m
      ensures q in m ==> Contents(t)[q] == m[q]
    {
      ContentsIs(t, q);
    }
  }

  lemma FirstCapacity()
    ensures IsCapacity(INIT_SIZE)
  {
    assert Pow2(4) == 16;
  }

  lemma DoubleCapacity(cap: nat)
    requires IsCapacity(cap) && cap <= MAX_CAPACITY
    ensures IsCapacity(cap * 2)
  {
    var n :| 4 <= n <= 25 && cap == Pow2(n);
    assert Pow2(12) == 4096 && Pow2(1) == 2;
    Pow2Add(12, 12);
    Pow2Add(1, 24);
    assert Pow2(n + 1) == 2 * Pow2(n);
  }

  lemma HasRoom(used: nat, cap: nat)
    requires IsCapacity(cap) && cap > 0 && used * 100 / cap < HIGH_WATERMARK
    ensures used + 1 < cap
  {
    var c := CapacityDivides(cap);
    BelowMark(used, cap, HIGH_WATERMARK);
  }

  lemma BelowMark(used: nat, cap: nat, mark: nat)
    requires cap > 0 && used * 100 / cap < mark
    ensures used * 100 < mark * cap
  {
    var q, r := used * 100 / cap, used * 100 % cap;
    assert used * 100 == q * cap + r;
    MulLe(cap, q + 1, mark);
    assert cap * (q + 1) == q * cap + cap;
  }

  lemma FewKeys(used: nat, nkeys: nat, cap: nat)
    requires cap > 0 && used <= nkeys && nkeys * 100 / cap < LOW_WATERMARK
    ensures used * 100 / cap < HIGH_WATERMARK
  {
    BelowMark(nkeys, cap, LOW_WATERMARK);
    DivLess(used * 100, cap, HIGH_WATERMARK);
  }

  lemma DivLess(x: nat, d: nat, mark: nat)
    requires d > 0 && x < mark * d
    ensures x / d < mark
  {
    assert x == x / d * d + x % d;
    MulCancel(x / d, mark, d);
  }

  lemma MulCancel(x: int, y: int, d: nat)
    requires x * d < y * d
    ensures x < y
  {}

  // One doubling is enough: fewer keys than slots are at most half of twice the slots.
  lemma HalfFull(nkeys: nat, cap: nat, capacity: nat)
    requires 0 < capacity && nkeys < capacity && (cap == capacity || cap == 2 * capacity)
    requires nkeys * 100 / cap >= LOW_WATERMARK
    ensures cap == capacity
  {
    if cap == 2 * capacity {
      DivLess(nkeys * 100, cap, LOW_WATERMARK);
      assert false;
    }
  }

  lemma HalfUsed(nkeys: nat, cap: nat)
    requires cap > 0 && nkeys * 100 / cap >= LOW_WATERMARK
    ensures cap <= 2 * nkeys
  {
    MulLe(cap, LOW_WATERMARK, nkeys * 100 / cap);
    assert nkeys * 100 == nkeys * 100 / cap * cap + nkeys * 100 % cap;
  }

  lemma EmptyAnswers(t: seq<Entry>, q: Key)
    requires |t| > 0 && forall j | 0 <= j < |t| :: t[j].Empty?
    ensures Lookup(t, q) == None
  {
    hide Home;
  }

  lemma FreshTable(t: seq<Entry>)
    requires |t| > 0 && forall j | 0 <= j < |t| :: t[j].Empty?
    ensures Chained(t) && Unique(t) && CountUsed(t) == 0 && forall q :: Lookup(t, q) == None
  {
    CountFull(t);
    forall q ensures Lookup(t, q) == None { EmptyAnswers(t, q); }
  }

  lemma NoTombstones(t: seq<Entry>, k: Key)
    requires |t| > 0 && forall j | 0 <= j < |t| :: !t[j].Tombstone?
    ensures !Shadowed(t, k)
  {
    NoTombstoneFirst(t, k, 0);
  }

  lemma {:induction false} NoTombstoneFirst(t: seq<Entry>, k: Key, i: nat)
    requires |t| > 0 && i <= |t| && forall j | 0 <= j < |t| :: !t[j].Tombstone?
    ensures !TombstoneFirst(t, k, i)
    decreases |t| - i
  {
    if i < |t| { NoTombstoneFirst(t, k, i + 1); }
  }

  lemma InsertKeepsShape(s: seq<Entry>, k: Key, i: nat, at: nat, v: Ptr)
    requires Chained(s) && StopsAt(s, k, i, at)
    ensures |s| > 0 && at < |s| && Chained(s[at := Live(k, v)])
    ensures CountUsed(s[at := Live(k, v)]) == CountUsed(s) + if s[at].Empty? then 1 else 0
  {
    StoreKeepsChains(s, k, i, at, v);
    StoreCounts(s, k, at, v);
  }

  // What the last of the first i slots that stores q holds.
  function LastOf(s: seq<Entry>, i: nat, q: Key): Option<Ptr>
    requires i <= |s|
    decreases i
  {
    if i == 0 then None else if Holds(s[i - 1], q) then Some(s[i - 1].val) else LastOf(s, i - 1, q)
  }

  // How many keys the first i slots store.
  function Kinds(s: seq<Entry>, i: nat): nat
    requires i <= |s|
    decreases i
  {
    if i == 0 then 0 else Kinds(s, i - 1) + if s[i - 1].Live? && LastOf(s, i - 1, s[i - 1].key).None? then 1 else 0
  }

  lemma {:induction false} LastIs(s: seq<Entry>, i: nat, q: Key)
    requires i <= |s|
    ensures LastOf(s, i, q).Some? <==> exists j :: 0 <= j < i && Holds(s[j], q)
    ensures LastOf(s, i, q).Some? ==> exists j :: 0 <= j < i && Holds(s[j], q) && s[j].val == LastOf(s, i, q).value
    decreases i
  {
    if i > 0 { LastIs(s, i - 1, q); }
  }

  ghost predicate UniqueTo(s: seq<Entry>, i: nat)
    requires i <= |s|
  {
    forall a, b | 0 <= a < i && 0 <= b < i && s[a].Live? && s[b].Live? && s[a].key == s[b].key :: a == b
  }

  // There are as many keys as entries exactly when no two entries have one.
  lemma {:induction false} KindsCount(s: seq<Entry>, i: nat)
    requires i <= |s|
    ensures Kinds(s, i) <= CountLive(s[..i]) && (Kinds(s, i) == CountLive(s[..i]) <==> UniqueTo(s, i))
    decreases i
  {
    hide CountLive, LastOf;
    if i == 0 {
      assert s[..0] == [];
      NoLive();
    } else {
      KindsCount(s, i - 1);
      CountSnoc(s, i - 1);
      if s[i - 1].Live? { LastIs(s, i - 1, s[i - 1].key); }
    }
  }

  lemma NoLive()
    ensures CountLive([]) == 0
  {}

  lemma AllKinds(s: seq<Entry>)
    ensures Kinds(s, |s|) == CountLive(s) <==> Unique(s)
  {
    hide CountLive, Kinds;
    KindsCount(s, |s|);
    assert s[..|s|] == s;
  }

  // t holds, without tombstones, every key of the first i slots of s as the last one stores it.
  ghost predicate Copied(s: seq<Entry>, i: nat, t: seq<Entry>) {
    && i <= |s| && |t| > 0
    && (forall j | 0 <= j < |t| :: !t[j].Tombstone?)
    && CountLive(t) == Kinds(s, i)
    && forall q :: Lookup(t, q) == LastOf(s, i, q)
  }

  lemma NoneCopied(s: seq<Entry>, t: seq<Entry>)
    requires |t| > 0 && forall j | 0 <= j < |t| :: t[j].Empty?
    ensures Copied(s, 0, t)
  {
    hide Lookup;
    FreshTable(t);
    CountFull(t);
  }

  lemma {:induction false} CountPrefix(s: seq<Entry>, i: nat)
    requires i <= |s|
    ensures CountLive(s[..i]) <= CountLive(s)
    decreases |s| - i
  {
    if i < |s| {
      CountSnoc(s, i);
      CountPrefix(s, i + 1);
    } else {
      assert s[..i] == s;
    }
  }

  lemma CopiedCounts(s: seq<Entry>, i: nat, t: seq<Entry>)
    requires Copied(s, i, t)
    ensures CountUsed(t) == CountLive(t) == Kinds(s, i) <= CountLive(s) && forall j | 0 <= j < |t| :: !t[j].Tombstone?
  {
    hide Lookup, LastOf, Kinds;
    CountFull(t);
    KindsCount(s, i);
    CountPrefix(s, i);
  }

  lemma CopiedSkip(s: seq<Entry>, i: nat, t: seq<Entry>)
    requires i < |s| && Copied(s, i, t) && !s[i].Live?
    ensures Copied(s, i + 1, t)
  {
    hide Lookup;
  }

  lemma CopiedOne(s: seq<Entry>, i: nat, t: seq<Entry>, e: Entry, t2: seq<Entry>)
    requires i < |s| && s[i] == e && e.Live? && Copied(s, i, t) && Chained(t) && Unique(t) && |t2| > 0
    requires exists n: nat, at: nat :: StopsAt(t, e.key, n, at) && t2 == t[at := Live(e.key, e.val)]
    ensures Copied(s, i + 1, t2)
  {
    hide Lookup, Home, Chained;
    var n: nat, at: nat :| StopsAt(t, e.key, n, at) && t2 == t[at := Live(e.key, e.val)];
    StoreCounts(t, e.key, at, e.val);
    StoreLooksUp(t, e.key, n, at, e.val);
    UniqueEach(t);
    LookupIs(t, e.key);
    if t[at].Empty? { EmptyStops(t, e.key, n, at); }
    forall q ensures Lookup(t2, q) == LastOf(s, i + 1, q) {
      if q != e.key { assert Lookup(t2, q) == Lookup(t, q); }
    }
  }

  lemma EmptyStops(t: seq<Entry>, k: Key, n: nat, at: nat)
    requires StopsAt(t, k, n, at) && at < |t| && t[at].Empty?
    ensures Lookup(t, k) == None
  {
    hide Home;
    PassedLookup(t, k, n);
  }

  lemma CopiedAll(s: seq<Entry>, t: seq<Entry>)
    requires Copied(s, |s|, t) && Chained(s) && Unique(s)
    ensures forall q :: Lookup(t, q) == Lookup(s, q)
  {
    hide Lookup, Chained, LastOf, Kinds;
    UniqueEach(s);
    ChainedNonEmpty(s);
    forall q ensures Lookup(t, q) == Lookup(s, q) {
      LookupIs(s, q);
      LastIs(s, |s|, q);
    }
  }

  // ---- storing behind a tombstone -----------------------------------------------------------------

  // When k is stored behind a tombstone on its own probe path, put makes a second entry,
  // and deleting k afterwards brings the old value back.
  lemma StaleValueReturns(s: seq<Entry>, k: Key, i: nat, at: nat, v: Ptr)
    requires Chained(s) && Unique(s) && StopsAt(s, k, i, at) && Shadowed(s, k) && at < |s|
    ensures Lookup(s[at := Live(k, v)], k) == Some(v) && Lookup(s, k).Some?
    ensures Lookup(s[at := Live(k, v)][at := Tombstone], k) == Lookup(s, k)
  {
    hide Home, Chained, Lookup;
    StoreLooksUp(s, k, i, at, v);
    StoreUnique(s, k, i, at, v);
    UniqueEach(s);
    LookupIs(s, k);
    TombstoneFirstFrom(s, k, i);
    assert !Holds(s[at], k) && !s[at].Empty?;
    assert s[at := Live(k, v)][at := Tombstone] == s by { assert s[at] == Tombstone; }
  }

  // ---- a history that reaches such a table ---------------------------------------------------------

  // The low k bits of a ^ b depend on those of a and b alone.
  lemma {:induction false} LowXor(a: nat, b: nat, c: nat, n: nat, k: nat)
    requires k <= n && Pow2(k) > 0 && b % Pow2(k) == c % Pow2(k)
    ensures Bits(BXor, a, b, n) % Pow2(k) == Bits(BXor, a, c, n) % Pow2(k)
    decreases k
  {
    if k > 0 {
      Pow2Positive(k - 1);
      var p := Pow2(k - 1);
      HalfSame(b, c, p);
      LowXor(a / 2, b / 2, c / 2, n - 1, k - 1);
      var x, y := Bits(BXor, a / 2, b / 2, n - 1), Bits(BXor, a / 2, c / 2, n - 1);
      SameDouble(Bits(BXor, a, b, n), Bits(BXor, a, c, n), BitOf(BXor, a % 2, b % 2), x, y, p);
    }
  }

  lemma HalfSame(b: nat, c: nat, p: nat)
    requires p > 0 && b % (2 * p) == c % (2 * p)
    ensures b % 2 == c % 2 && b / 2 % p == c / 2 % p
  {
    ModBase(b, 2, p);
    ModBase(c, 2, p);
    Parts(b / 2 % p, b % 2, c / 2 % p, c % 2);
  }

  lemma Parts(x: nat, low: nat, y: nat, low2: nat)
    requires low < 2 && low2 < 2 && 2 * x + low == 2 * y + low2
    ensures x == y && low == low2
  {}

  lemma SameDouble(u: nat, w: nat, low: nat, x: nat, y: nat, p: nat)
    requires p > 0 && low < 2 && u == low + 2 * x && w == low + 2 * y && x % p == y % p
    ensures 2 * p > 0 && u % (2 * p) == w % (2 * p)
  {
    ModBase(u, 2, p);
    ModBase(w, 2, p);
    assert u / 2 == x && w / 2 == y;
  }

  // Two macro names, "a" and "q", that meet in a table of 16.
  const NAME_A: Key := [0x61]
  const NAME_Q: Key := [0x71]

  lemma SameHome()
    ensures Home(NAME_A, 16) == Home(NAME_Q, 16)
  {
    assert [0x61 as Byte8][..0] == [] && [0x71 as Byte8][..0] == [];
    assert Pow2(4) == 16;
    LowXor(BASIS * PRIME % TWO64, 0x61, 0x71, 64, 4);
  }

  // The table after put a, put q, delete a: q is behind a tombstone.
  function Behind(h: nat, v: Ptr): seq<Entry>
    requires h < 16
  {
    Blank(16)[At(h, 1, 16) := Live(NAME_Q, v)][h := Tombstone]
  }

  lemma FirstPut(i: nat, at: nat, v: Ptr)
    requires StopsAt(Blank(16), NAME_A, i, at)
    ensures at == Home(NAME_A, 16)
  {
    hide Home;
    assert !Blank(16)[At(Home(NAME_A, 16), 0, 16)].Live?;
  }

  lemma SecondPut(i: nat, at: nat, v: Ptr)
    requires StopsAt(Blank(16)[Home(NAME_A, 16) := Live(NAME_A, v)], NAME_Q, i, at)
    ensures at == At(Home(NAME_A, 16), 1, 16)
  {
    SameHome();
    hide Home;
    var h := Home(NAME_A, 16);
    var s := Blank(16)[h := Live(NAME_A, v)];
    assert s[At(h, 0, 16)] == Live(NAME_A, v);
    assert !s[At(h, 1, 16)].Live?;
  }

  lemma ThirdPut(i: nat, at: nat, v: Ptr)
    requires StopsAt(Behind(Home(NAME_A, 16), v), NAME_Q, i, at)
    ensures at == Home(NAME_A, 16)
  {
    SameHome();
    hide Home;
    var h := Home(NAME_A, 16);
    assert !Behind(h, v)[At(h, 0, 16)].Live?;
  }

  lemma BehindFinds(v: Ptr)
    ensures Lookup(Behind(Home(NAME_A, 16), v), NAME_Q) == Some(v)
  {
    SameHome();
    hide Home;
    var h := Home(NAME_A, 16);
    var s := Behind(h, v);
    assert s[At(h, 0, 16)].Tombstone? && s[At(h, 1, 16)] == Live(NAME_Q, v);
    assert LookupFrom(s, NAME_Q, 1) == Some(v);
  }

  // Put a, put q, delete a.
  method PutBehind() returns (m: HashMap)
    ensures fresh(m) && m.Valid() && m.buckets != null && fresh(m.buckets) && m.capacity == 16 && m.used == 2
    ensures m.buckets[..] == Behind(Home(NAME_A, 16), 2)
  {
    hide Home, Chained, Unique, Lookup, Contents, StopsAt, Shadowed, HashMap.View, CountUsed, CountLive, HashMap.Stored;
    ghost var h := Home(NAME_A, 16);
    m := new HashMap();
    m.Put2(NAME_A, 1);
    FirstStored(m);
    SafePut(m, NAME_Q);
    m.Put2(NAME_Q, 2);
    SecondStored(m);
    m.Delete2(NAME_A);
    OneLess(m);
  }

  lemma FirstStored(m: HashMap)
    requires m.Shaped() && m.buckets != null && m.Stored(Blank(16), NAME_A, 1)
    ensures m.buckets[..] == Blank(16)[Home(NAME_A, 16) := Live(NAME_A, 1)] && CountUsed(m.buckets[..]) == 1
  {
    hide Home, CountUsed, Chained;
    var i: nat, at: nat :| StopsAt(Blank(16), NAME_A, i, at) && m.buckets[..] == Blank(16)[at := Live(NAME_A, 1)];
    FirstPut(i, at, 1);
    BlankCount();
    CountUpdate(Blank(16), at, Live(NAME_A, 1));
  }

  lemma SecondStored(m: HashMap)
    requires m.Shaped() && m.buckets != null && m.Stored(Blank(16)[Home(NAME_A, 16) := Live(NAME_A, 1)], NAME_Q, 2)
    ensures m.buckets[..] == Blank(16)[Home(NAME_A, 16) := Live(NAME_A, 1)][At(Home(NAME_A, 16), 1, 16) := Live(NAME_Q, 2)]
    ensures CountUsed(m.buckets[..]) == 2
  {
    hide Home, CountUsed, Chained;
    var s := Blank(16)[Home(NAME_A, 16) := Live(NAME_A, 1)];
    var i: nat, at: nat :| StopsAt(s, NAME_Q, i, at) && m.buckets[..] == s[at := Live(NAME_Q, 2)];
    SecondPut(i, at, 1);
    BlankCount();
    CountUpdate(Blank(16), Home(NAME_A, 16), Live(NAME_A, 1));
    CountUpdate(s, at, Live(NAME_Q, 2));
  }

  lemma OneLess(m: HashMap)
    requires m.buckets != null
    requires m.Removed(Blank(16)[Home(NAME_A, 16) := Live(NAME_A, 1)][At(Home(NAME_A, 16), 1, 16) := Live(NAME_Q, 2)], NAME_A, 1)
    ensures m.buckets[..] == Behind(Home(NAME_A, 16), 2)
  {
    hide Home;
    var h := Home(NAME_A, 16);
    assert Blank(16)[h := Live(NAME_A, 1)][At(h, 1, 16) := Live(NAME_Q, 2)][h := Tombstone] == Behind(h, 2);
  }

  lemma ThirdStored(m: HashMap)
    requires m.Shaped() && m.buckets != null && m.Stored(Behind(Home(NAME_A, 16), 2), NAME_Q, 3)
    ensures m.buckets[..] == Behind(Home(NAME_A, 16), 2)[Home(NAME_A, 16) := Live(NAME_Q, 3)]
  {
    hide Home, CountUsed, Chained;
    var i: nat, at: nat :| StopsAt(Behind(Home(NAME_A, 16), 2), NAME_Q, i, at)
                           && m.buckets[..] == Behind(Home(NAME_A, 16), 2)[at := Live(NAME_Q, 3)];
    ThirdPut(i, at, 2);
  }

  lemma BackAgain(m: HashMap)
    requires m.buckets != null && m.Removed(Behind(Home(NAME_A, 16), 2)[Home(NAME_A, 16) := Live(NAME_Q, 3)], NAME_Q, 3)
    ensures m.buckets[..] == Behind(Home(NAME_A, 16), 2)
  {
    hide Home;
    var h := Home(NAME_A, 16);
    assert Behind(h, 2)[h := Live(NAME_Q, 3)][h := Tombstone] == Behind(h, 2);
  }

  // Put a, put q, delete a, put q again, delete q: q still answers its first value.
  method StaleHistory() returns (v: Ptr)
    ensures v == 2
  {
    hide Home, Chained, Unique, Lookup, Contents, StopsAt, Shadowed, HashMap.View, CountUsed, CountLive, Behind,
         HashMap.Stored, HashMap.Removed;
    var m := PutBehind();
    m.Put2(NAME_Q, 3);
    ThirdStored(m);
    m.Delete2(NAME_Q);
    BackAgain(m);
    BehindFinds(2);
    v := m.Get2(NAME_Q);
  }

  lemma BlankCount()
    ensures CountUsed(Blank(16)) == 0
  {
    FreshTable(Blank(16));
  }

  // ---- histories -------------------------------------------------------------------------------------

  datatype Op = Put(k: Key, v: Ptr) | Get(k: Key) | Delete(k: Key)

  function Effect(m: map<Key, Ptr>, op: Op): map<Key, Ptr> {
    match op
    case Put(k, v) => m[k := v]
    case Get(_) => m
    case Delete(k) => m - {k}
  }

  // The finite map after the operations, and what their gets return.
  function After(ops: seq<Op>): map<Key, Ptr> {
    if ops == [] then map[] else Effect(After(ops[..|ops| - 1]), ops[|ops| - 1])
  }

  function Answers(ops: seq<Op>): seq<Ptr> {
    if ops == [] then []
    else
      var m := After(ops[..|ops| - 1]);
      var last := ops[|ops| - 1];
      Answers(ops[..|ops| - 1]) + Reply(m, last)
  }

  function Reply(m: map<Key, Ptr>, op: Op): seq<Ptr> {
    if op.Get? then [if op.k in m then m[op.k] else NULL] else []
  }

  // After the first delete, puts use absent keys.
  predicate Disciplined(ops: seq<Op>) {
    forall i | 0 <= i < |ops| && ops[i].Put? && (exists j | 0 <= j < i :: ops[j].Delete?) ::
      ops[i].k !in After(ops[..i])
  }

  // One operation on the table is the operation on the map.
  method Apply(m: HashMap, op: Op, ghost n: nat) returns (answer: seq<Ptr>)
    requires m.Valid() && m.Modest(n) && n < 0x10_0000
    requires op.Put? ==> m.Clean() || op.k !in m.View()
    modifies m, m.buckets
    ensures m.Valid() && m.View() == Effect(old(m.View()), op) && m.Modest(n + 1)
    ensures m.buckets != null ==> fresh(m.buckets) || m.buckets == old(m.buckets)
    ensures answer == Reply(old(m.View()), op)
    ensures old(m.Clean()) && !op.Delete? ==> m.Clean()
  {
    hide HashMap.View, HashMap.PutSafe;
    answer := [];
    match op {
      case Put(k, v) =>
        SafePut(m, k);
        m.Put2(k, v);
      case Get(k) =>
        var v := m.Get2(k);
        answer := [v];
      case Delete(k) => m.Delete2(k);
    }
  }

  // Every disciplined history gives the answers, and ends in the contents, of a finite map.
  method Replay(ops: seq<Op>) returns (m: HashMap, answers: seq<Ptr>)
    requires Disciplined(ops) && |ops| <= 0x10_0000
    ensures m.Valid() && m.View() == After(ops) && answers == Answers(ops)
  {
    hide HashMap.Valid, HashMap.View;
    m := new HashMap();
    answers := [];
    var i := 0;
    while i < |ops|
      invariant i <= |ops| && fresh(m) && (m.buckets != null ==> fresh(m.buckets))
      invariant m.Valid() && m.View() == After(ops[..i]) && answers == Answers(ops[..i]) && m.Modest(i)
      invariant (forall j | 0 <= j < i :: !ops[j].Delete?) ==> m.Clean()
    {
      assert ops[..i + 1][..i] == ops[..i];
      var answer := Apply(m, ops[i], i);
      answers := answers + answer;
      i := i + 1;
    }
    assert ops[..i] == ops;
  }

  lemma SafePut(m: HashMap, k: Key)
    requires m.Valid()
    ensures m.Clean() || k !in m.View() ==> m.PutSafe(k)
  {
    if m.buckets != null {
      var s := m.buckets[..];
      ChainedNonEmpty(s);
      if m.Clean() { NoTombstones(s, k); }
      ContentsIs(s, k);
      UniqueEach(s);
      LookupIs(s, k);
    }
  }
}
