/** The chained hash table of src/abs/htable.c: intrusive `next` chains reached through links
    (pointers to the pointer that leads to an entry), grown to the next listed bucket count. */
module HashTables {
  import opened Memory
  import opened Primes

  /** The bucket an entry with this hash belongs to. */
  function Home(hash: nat, nrBuckets: nat): (b: nat)
    requires nrBuckets > 0
    ensures b < nrBuckets
  {
    hash % nrBuckets
  }

  /** A table that has outgrown three quarters of its buckets by no more than one entry has room for one
      more once it is rebuilt at twice the size, or at the last listed one. */
  lemma GrowingMakesRoom(n: nat, m: nat, entries: nat)
    requires 4 * entries <= 3 * n + 4 || 2 * n > LAST_PRIME
    requires 0 < n && (if 2 * n <= LAST_PRIME then 2 * n <= m else m == LAST_PRIME)
    ensures 4 * (entries + 1) <= 3 * m + 4 || 2 * m > LAST_PRIME
  {
    assert n == 1 ==> entries <= 1 || 2 * n > LAST_PRIME;
  }

  /** The first position from `k` on of an entry with this hash; |c| if there is none. */
  function FirstFrom(c: seq<Ptr>, hash: map<Ptr, nat>, h: nat, k: nat): (i: nat)
    requires k <= |c| && forall j :: 0 <= j < |c| ==> c[j] in hash
    ensures k <= i <= |c|
    ensures forall j :: k <= j < i ==> hash[c[j]] != h
    ensures i < |c| ==> hash[c[i]] == h
    decreases |c| - k
  {
    if k == |c| || hash[c[k]] == h then k else FirstFrom(c, hash, h, k + 1)
  }

  /** What a table holds: its chains, and the `next` and `hash` fields of its entries. */
  datatype Contents = Contents(chains: seq<seq<Ptr>>, next: map<Ptr, Ptr>, hash: map<Ptr, nat>) {

    /** The chain an entry with this hash belongs to. */
    ghost function ChainOf(h: nat): seq<Ptr>
      requires chains != []
    {
      chains[Home(h, |chains|)]
    }

    /** Every entry is once in the chain its hash selects and in no other, and `next` runs along
        the chains; so the chains are acyclic, disjoint and cover the table. */
    ghost predicate Valid() {
      && chains != []
      && next.Keys == hash.Keys
      && NULL !in hash
      && Homed()
      && Covered()
      && Linked()
    }

    ghost predicate Homed() {
      forall b, e {:trigger e in chains[b]} :: 0 <= b < |chains| && e in chains[b] ==>
        e in hash && b == Home(hash[e], |chains|)
    }

    ghost predicate Covered()
      requires chains != []
    {
      forall e {:trigger ChainOf(hash[e])} :: e in hash ==> e in ChainOf(hash[e])
    }

    ghost predicate Linked() {
      forall b :: 0 <= b < |chains| ==> Distinct(chains[b]) && Follows(chains[b], next)
    }

    ghost function Insert(e: Ptr, h: nat): Contents
      requires chains != []
    {
      Contents(chains[Home(h, |chains|) := [e] + ChainOf(h)], next[e := Nth(ChainOf(h), 0)], hash[e := h])
    }

    /** Without the entry at position `k` of chain `b`. */
    ghost function Extract(b: nat, k: nat): Contents
      requires b < |chains| && k < |chains[b]|
    {
      var c := chains[b];
      Contents(chains[b := Without(c, k)], Skipped(next, c, k), hash - {c[k]})
    }

    /** The entry is the first of its chain. */
    ghost predicate HasInFront(e: Ptr) {
      e in hash && chains != [] && ChainOf(hash[e]) != [] && ChainOf(hash[e])[0] == e
    }

    // What is in front stays there as long as it is in the table.
    lemma ExtractKeepsFront(b: nat, k: nat)
      requires b < |chains| && k < |chains[b]|
      ensures forall e {:trigger Extract(b, k).HasInFront(e)} :: e in Extract(b, k).hash && HasInFront(e) ==>
        Extract(b, k).HasInFront(e)
    {
    }

    lemma InsertValid(e: Ptr, h: nat)
      requires Valid() && e !in hash && e != NULL
      ensures Insert(e, h).Valid()
    {
      var after := Insert(e, h);
      forall x | x in after.hash ensures x in after.ChainOf(after.hash[x]) {
        assert x != e ==> x in ChainOf(hash[x]);
      }
      InsertLinked(e, h);
    }

    lemma InsertLinked(e: Ptr, h: nat)
      requires chains != [] && next.Keys == hash.Keys && Homed() && Linked() && e !in hash
      ensures Insert(e, h).Linked()
    {
      var after := Insert(e, h);
      forall i | 0 <= i < |chains| ensures Distinct(after.chains[i]) && Follows(after.chains[i], after.next) {
        assert Distinct(chains[i]) && Follows(chains[i], next) && e !in chains[i];
      }
    }

    lemma ExtractValid(b: nat, k: nat)
      requires Valid() && b < |chains| && k < |chains[b]|
      ensures Extract(b, k).Valid()
    {
      var c, after := chains[b], Extract(b, k);
      assert c[k] in c;
      WithoutMembers(c, k);
      assert after.Homed();
      forall e | e in after.hash ensures e in after.ChainOf(after.hash[e]) {
        assert e in ChainOf(hash[e]);
      }
      ExtractLinked(b, k);
    }

    lemma ExtractLinked(b: nat, k: nat)
      requires chains != [] && next.Keys == hash.Keys && Homed() && Linked()
      requires b < |chains| && k < |chains[b]|
      ensures Extract(b, k).Linked()
      ensures k > 0 ==> chains[b][k - 1] in next
    {
      var c, after := chains[b], Extract(b, k);
      WithoutMembers(c, k);
      FollowsSkipped(c, next, k);
      forall i | 0 <= i < |chains| && i != b ensures Distinct(after.chains[i]) && Follows(after.chains[i], after.next) {
        assert Distinct(chains[i]) && Follows(chains[i], next);
        assert c[k] in chains[b] && (k > 0 ==> c[k - 1] in chains[b]);
        assert forall j :: 0 <= j < |chains[i]| ==> chains[i][j] in chains[i];
      }
    }

    /** What `next` says of the entry at a position, and where its hash puts it. */
    lemma Position(b: nat, k: nat)
      requires Valid() && b < |chains| && k < |chains[b]|
      ensures chains[b][k] in hash && chains[b][k] in next && Home(hash[chains[b][k]], |chains|) == b
      ensures next[chains[b][k]] == Nth(chains[b], k + 1)
    {
      assert Follows(chains[b], next) && chains[b][k] in chains[b];
    }

    lemma ChainsHold()
      requires Valid()
      ensures forall b, k :: 0 <= b < |chains| && 0 <= k < |chains[b]| ==> chains[b][k] in hash
    {
      forall b, k | 0 <= b < |chains| && 0 <= k < |chains[b]| ensures chains[b][k] in hash {
        Position(b, k);
      }
    }

    /** The position in its chain of the first entry with hash `h` from position `k` on. */
    ghost function Search(h: nat, k: nat): (i: nat)
      requires Valid() && k <= |ChainOf(h)|
      ensures k <= i <= |ChainOf(h)|
      ensures i < |ChainOf(h)| ==> ChainOf(h)[i] in hash && hash[ChainOf(h)[i]] == h
    {
      ChainsHold();
      FirstFrom(ChainOf(h), hash, h, k)
    }

    lemma OneEntryLess(b: nat, k: nat)
      requires Valid() && b < |chains| && k < |chains[b]|
      ensures |Extract(b, k).hash| == |hash| - 1 && |Extract(b, k).chains| == |chains|
      ensures k > 0 ==> chains[b][k - 1] != chains[b][k]
    {
      Position(b, k);
      assert hash.Keys == Extract(b, k).hash.Keys + {chains[b][k]};
    }

    // A search does not go past an entry with the hash.
    lemma SearchStops(h: nat, k: nat, p: nat)
      requires Valid() && k <= p < |ChainOf(h)| && ChainOf(h)[p] in hash && hash[ChainOf(h)[p]] == h
      ensures Search(h, k) <= p
    {
    }

    /** An entry sits at one position only. */
    lemma SamePosition(b: nat, k: nat, b': nat, k': nat)
      requires Valid() && b < |chains| && k < |chains[b]| && b' < |chains| && k' < |chains[b']|
      requires chains[b][k] == chains[b'][k']
      ensures b == b' && k == k'
    {
      Position(b, k);
      Position(b', k');
      assert Distinct(chains[b]);
    }

    lemma Find(e: Ptr) returns (b: nat, k: nat)
      requires Valid() && e in hash
      ensures b < |chains| && k < |chains[b]| && chains[b][k] == e && b == Home(hash[e], |chains|)
      ensures next[e] == Nth(chains[b], k + 1)
    {
      b := Home(hash[e], |chains|);
      assert e in ChainOf(hash[e]);
      k := IndexOf(chains[b], e);
      Position(b, k);
    }
  }

  /** The entries of a chain are those whose hash is the number of the chain and a multiple of how many
      chains there are. */
  lemma ChainsByHash(t: Contents, b: nat, e: Ptr)
    requires t.Valid() && b < |t.chains|
    ensures e in t.chains[b] <==> e in t.hash && exists q: nat :: t.hash[e] == q * |t.chains| + b
  {
    var n := |t.chains|;
    if e in t.chains[b] {
      assert t.hash[e] == t.hash[e] / n * n + b;
    }
    if e in t.hash && exists q: nat :: t.hash[e] == q * n + b {
      var q: nat :| t.hash[e] == q * n + b;
      Remainder(q, n, b);
      assert e in t.ChainOf(t.hash[e]);
    }
  }

  lemma Remainder(q: nat, n: nat, b: nat)
    requires b < n
    ensures (q * n + b) % n == b
  {
    var x := q * n + b;
    var d := x / n - q;
    assert x == x / n * n + x % n;
    assert d * n == b - x % n;
    assert d >= 1 ==> d * n >= n;
    assert d <= -1 ==> d * n + n <= 0;
  }

  ghost function TotalLength(chains: seq<seq<Ptr>>): nat {
    if chains == [] then 0 else TotalLength(chains[..|chains| - 1]) + |chains[|chains| - 1]|
  }

  /** The entries of the first `n` chains. */
  ghost function Heads(chains: seq<seq<Ptr>>, n: nat): set<Ptr>
    requires n <= |chains|
  {
    if n == 0 then {} else Heads(chains, n - 1) + SetOf(chains[n - 1])
  }

  lemma {:induction false} DistinctSize(c: seq<Ptr>)
    requires Distinct(c)
    ensures |SetOf(c)| == |c|
  {
    if c != [] {
      var d, x := c[..|c| - 1], c[|c| - 1];
      DistinctSize(d);
      assert SetOf(c) == SetOf(d) + {x};
    }
  }

  lemma {:induction false} HeadsCounted(t: Contents, n: nat)
    requires t.Valid() && n <= |t.chains|
    ensures |Heads(t.chains, n)| == TotalLength(t.chains[..n])
    ensures forall e :: e in Heads(t.chains, n) <==> e in t.hash && Home(t.hash[e], |t.chains|) < n
  {
    if n > 0 {
      HeadsCounted(t, n - 1);
      var c := t.chains[n - 1];
      DistinctSize(c);
      assert t.chains[..n][..n - 1] == t.chains[..n - 1];
      forall e ensures e in SetOf(c) <==> e in t.hash && Home(t.hash[e], |t.chains|) == n - 1 {
        if e in t.hash && Home(t.hash[e], |t.chains|) == n - 1 {
          assert e in t.ChainOf(t.hash[e]);
        }
      }
      assert Heads(t.chains, n - 1) !! SetOf(c);
    }
  }

  /** The entries of a table are as many as its chains are long together. */
  lemma EntriesCounted(t: Contents)
    requires t.Valid()
    ensures |t.hash| == TotalLength(t.chains)
  {
    HeadsCounted(t, |t.chains|);
    assert t.chains[..|t.chains|] == t.chains;
    assert Heads(t.chains, |t.chains|) == t.hash.Keys;
  }

  /** sftfs_htable_remove_hash removes the entries with the hash, and no others, exactly when every
      entry behind the first of them in the chain has that hash too. */
  lemma RemovesOnlyTheHashIff(t: Contents, h: nat)
    requires t.Valid()
    ensures var i := t.Search(h, 0); var c := t.ChainOf(h);
      var behind := forall j :: i <= j < |c| ==> c[j] in t.hash && t.hash[c[j]] == h;
      SetOf(c[i..]) == (set e | e in t.hash && t.hash[e] == h) <==> behind
  {
    hide Contents.Homed, Contents.Covered, Contents.Linked;
    var i, c := t.Search(h, 0), t.ChainOf(h);
    t.ChainsHold();
    forall e | e in t.hash && t.hash[e] == h ensures e in c[i..] {
      var b, k := t.Find(e);
      t.SearchStops(h, 0, k);
      assert c[i..][k - i] == e;
    }
    forall j | i <= j < |c| ensures c[j] in SetOf(c[i..]) {
      assert c[j] == c[i..][j - i];
    }
  }

  /** In a new table, an entry with hash 1 and then one with hash 3 go to the same bucket. */
  method TwoInOneBucket() returns (table: HashTable, ghost e1: Ptr, ghost e3: Ptr)
    ensures table.Valid() && fresh(table) && fresh(table.buckets)
    ensures e1 != e3 && table.hash == map[e1 := 1, e3 := 3] && table.View().ChainOf(3) == [e3, e1]
  {
    hide HashTable.Valid, HashTable.RoomFor, PRIMES;
    table := HashTable.Create(0);
    table.SomeBucket();
    table.NoEntry();
    ghost var t0 := table.View();
    var link;
    table, link := HashTable.NewEntry(table, 1);
    e1 := table.Deref(link);
    table, link := HashTable.NewEntry(table, 3);
    e3 := table.Deref(link);
    PushedInTurn(table, t0, e1, e3);
  }

  /** In a new table, an entry with hash 4 and then one with hash 5 go to different buckets. */
  method TwoBuckets() returns (table: HashTable, ghost e4: Ptr, ghost e5: Ptr)
    ensures table.Valid() && fresh(table) && fresh(table.buckets)
    ensures e4 != e5 && table.hash == map[e4 := 4, e5 := 5] && table.chains == [[e4], [e5]]
  {
    hide HashTable.Valid, HashTable.RoomFor, PRIMES, Contents.Valid, Contents.Insert;
    table := HashTable.Create(0);
    table.SomeBucket();
    table.NoEntry();
    ghost var t0 := table.View();
    var link;
    table, link := HashTable.NewEntry(table, 4);
    e4 := table.Deref(link);
    table, link := HashTable.NewEntry(table, 5);
    e5 := table.Deref(link);
    PushedApart(table, t0, e4, e5);
  }

  /** Removing hash 5 from such a table leaves the entry with hash 4. */
  method RemoveHashBeside(table: HashTable, ghost e4: Ptr, ghost e5: Ptr)
    requires table.Valid() && e4 != e5 && table.hash == map[e4 := 4, e5 := 5] && table.chains == [[e4], [e5]]
    modifies table, table.buckets
    ensures table.Valid() && table.hash == map[e4 := 4] && table.chains == [[e4], []]
  {
    hide HashTable.Valid, Contents.Valid;
    table.SomeBucket();
    assert table.View().ChainOf(5) == [e5];
    AtFront(table.View(), 5, [e5]);
    table.RemoveHash(5);
  }

  lemma PushedApart(table: HashTable, t0: Contents, e4: Ptr, e5: Ptr)
    requires table.Valid() && t0.Valid() && |t0.chains| == 2 && t0.hash == map[] && e4 != e5
    requires table.View() == t0.Insert(e4, 4).Insert(e5, 5)
    ensures table.chains == [[e4], [e5]] && table.View().ChainOf(5) == [e5]
  {
    hide HashTable.Valid, Contents.Valid;
    NothingChained(t0);
    assert table.chains[0] == [e4] && table.chains[1] == [e5];
  }

  lemma PushedInTurn(table: HashTable, t0: Contents, e1: Ptr, e3: Ptr)
    requires table.Valid() && t0.Valid() && |t0.chains| == 2 && t0.hash == map[] && e1 != e3
    requires table.View() == t0.Insert(e1, 1).Insert(e3, 3)
    ensures table.View().ChainOf(3) == [e3, e1]
  {
    NothingChained(t0);
  }

  lemma NothingChained(t: Contents)
    requires t.Valid() && t.hash == map[]
    ensures forall b :: 0 <= b < |t.chains| ==> t.chains[b] == []
  {
    hide Contents.Valid;
    forall b | 0 <= b < |t.chains| ensures t.chains[b] == [] {
      SomethingChained(t, b);
    }
  }

  lemma SomethingChained(t: Contents, b: nat)
    requires t.Valid() && b < |t.chains|
    ensures t.chains[b] != [] ==> t.hash != map[]
  {
    if t.chains[b] != [] {
      t.Position(b, 0);
    }
  }

  /** Removing hash 3 from such a table leaves no entry. */
  method RemoveHashTakesMore(table: HashTable, ghost e1: Ptr, ghost e3: Ptr)
    requires table.Valid() && e1 != e3 && table.hash == map[e1 := 1, e3 := 3]
    requires table.View().ChainOf(3) == [e3, e1]
    modifies table, table.buckets
    ensures table.Valid() && table.hash == map[] && table.nrEntries == 0
  {
    hide HashTable.Valid, Contents.Valid;
    table.SomeBucket();
    AtFront(table.View(), 3, [e3, e1]);
    table.RemoveHash(3);
    table.NoEntry();
  }

  lemma AtFront(t: Contents, h: nat, c: seq<Ptr>)
    requires t.Valid() && t.ChainOf(h) == c && c != [] && c[0] in t.hash && t.hash[c[0]] == h
    ensures t.Search(h, 0) == 0 && c[..0] == [] && c[0..] == c
  {
    hide Contents.Valid;
    t.SearchStops(h, 0, 0);
  }

  ghost function Skipped(next: map<Ptr, Ptr>, c: seq<Ptr>, k: nat): map<Ptr, Ptr>
    requires k < |c|
  {
    (if k == 0 then next else next[c[k - 1] := Nth(c, k + 1)]) - {c[k]}
  }

  lemma FollowsSkipped(c: seq<Ptr>, next: map<Ptr, Ptr>, k: nat)
    requires k < |c| && Distinct(c) && Follows(c, next)
    ensures Follows(Without(c, k), Skipped(next, c, k))
  {
    hide Distinct;
    OthersDiffer(c, k);
    if k > 0 {
      OthersDiffer(c, k - 1);
    }
    var d := Without(c, k);
    forall j | 0 <= j < |d| ensures d[j] in Skipped(next, c, k) && Skipped(next, c, k)[d[j]] == Nth(d, j + 1) {
      var i := if j < k then j else j + 1;
      assert d[j] == c[i];
    }
  }

  /** sftfs_htable_entry_link: the address of a bucket slot, or of an entry's `next` field. */
  datatype Link = Bucket(index: nat) | NextOf(entry: Ptr)

  /** A block taken out of a table, or not yet put into one. */
  datatype Entry = Entry(addr: Ptr, hash: nat)

  class HashTable {
    const buckets: array<Ptr>
    var nrEntries: nat
    var next: map<Ptr, Ptr>
    var hash: map<Ptr, nat>
    ghost var chains: seq<seq<Ptr>>

    ghost function View(): Contents
      reads this
    {
      Contents(chains, next, hash)
    }

    ghost predicate Valid()
      reads this, buckets
    {
      && View().Valid()
      && buckets.Length == |chains|
      && nrEntries == |hash|
      && (forall b :: 0 <= b < buckets.Length ==> buckets[b] == Nth(chains[b], 0))
      && RoomFor(nrEntries)
    }

    /** The load bound: so many entries are three quarters of the buckets or within one of that, or the
        table has come to the end of the list of bucket counts. */
    ghost predicate RoomFor(n: nat) {
      4 * n <= 3 * buckets.Length + 4 || 2 * buckets.Length > LAST_PRIME
    }

    lemma NoEntry()
      requires Valid() && hash == map[]
      ensures nrEntries == 0
    {
    }

    lemma SomeBucket()
      requires Valid()
      ensures buckets.Length == |chains| > 0 && View().Valid()
    {
    }

    lemma AllMoved()
      requires Valid() && forall b :: 0 <= b < |chains| ==> chains[b] == []
      ensures hash == map[] && nrEntries == 0
    {
      EmptyChainsEmptyTable();
    }

    lemma SomeEntry(e: Ptr)
      requires Valid() && e in hash
      ensures nrEntries > 0
    {
    }

    lemma LessRoom(n: nat, m: nat)
      requires n <= m && RoomFor(m)
      ensures RoomFor(n)
    {
    }

    /** The link that leads to position `k` of chain `b`. */
    ghost function LinkAt(b: nat, k: nat): Link
      requires b < |chains| && k <= |chains[b]|
      reads this
    {
      if k == 0 then Bucket(b) else NextOf(chains[b][k - 1])
    }

    function Deref(link: Link): Ptr
      requires if link.Bucket? then link.index < buckets.Length else link.entry in next
      reads this, buckets
    {
      match link
      case Bucket(i) => buckets[i]
      case NextOf(e) => next[e]
    }

    constructor Empty(nrBuckets: nat)
      requires nrBuckets > 0
      ensures Valid() && fresh(buckets) && buckets.Length == nrBuckets && hash == map[]
    {
      buckets := new Ptr[nrBuckets](_ => NULL);
      nrEntries := 0;
      next, hash := map[], map[];
      chains := seq(nrBuckets, _ => []);
    }

    /** sftfs_htable_create */
    static method Create(nrBuckets: nat) returns (table: HashTable)
      ensures table.Valid() && fresh(table) && fresh(table.buckets) && table.hash == map[]
      ensures table.buckets.Length in PRIMES && forall q :: q in PRIMES && nrBuckets <= q ==> table.buckets.Length <= q
      ensures nrBuckets <= 2 ==> table.buckets.Length == 2
      ensures if nrBuckets <= LAST_PRIME then nrBuckets <= table.buckets.Length else table.buckets.Length == LAST_PRIME
    {
      hide PRIMES;
      var n := PrimeLowerBound(nrBuckets);
      table := new HashTable.Empty(n);
    }

    method InsertEntry(entry: Entry) returns (link: Link)
      requires Valid() && entry.addr !in hash && entry.addr != NULL && RoomFor(nrEntries + 1)
      modifies this, buckets
      ensures Valid() && View() == old(View()).Insert(entry.addr, entry.hash)
      ensures link == Bucket(Home(entry.hash, buckets.Length)) && Deref(link) == entry.addr
      ensures hash == old(hash)[entry.addr := entry.hash] && nrEntries == old(nrEntries) + 1
    {
      View().InsertValid(entry.addr, entry.hash);
      var b := Home(entry.hash, buckets.Length);
      link := Bucket(b);
      chains := chains[b := [entry.addr] + chains[b]];
      hash := hash[entry.addr := entry.hash];
      next := next[entry.addr := buckets[b]];
      buckets[b] := entry.addr;
      nrEntries := nrEntries + 1;
    }

    method ExtractEntry(link: Link, ghost b: nat, ghost k: nat) returns (entry: Entry)
      requires Valid() && b < |chains| && k < |chains[b]| && link == LinkAt(b, k)
      modifies this, buckets
      ensures Valid() && View() == old(View()).Extract(b, k)
      ensures entry.addr == old(chains)[b][k] && entry.hash == old(hash)[entry.addr]
      ensures hash == old(hash) - {entry.addr} && nrEntries == old(nrEntries) - 1
      ensures chains == old(chains)[b := Without(old(chains)[b], k)]
    {
      hide Contents.Valid, Contents.Extract;
      View().ExtractValid(b, k);
      View().OneEntryLess(b, k);
      entry := Unlink(link, b, k);
      nrEntries := nrEntries - 1;
    }

    // The link is led past the entry.
    method Unlink(link: Link, ghost b: nat, ghost k: nat) returns (entry: Entry)
      requires Valid() && b < |chains| && k < |chains[b]| && link == LinkAt(b, k)
      modifies `next, `hash, `chains, buckets
      ensures View() == old(View()).Extract(b, k) && |chains| == buckets.Length
      ensures hash == old(hash) - {entry.addr} && chains == old(chains)[b := Without(old(chains)[b], k)]
      ensures forall i :: 0 <= i < buckets.Length ==> buckets[i] == Nth(chains[i], 0)
      ensures entry.addr == old(chains)[b][k] && entry.hash == old(hash)[entry.addr]
    {
      hide Contents.Valid;
      View().Position(b, k);
      if k > 0 {
        View().Position(b, k - 1);
      }
      View().OneEntryLess(b, k);
      var addr := Deref(link);
      entry := Entry(addr, hash[addr]);
      ghost var c := chains[b];
      chains := chains[b := Without(c, k)];
      match link {
        case Bucket(i) => buckets[i] := next[addr];
        case NextOf(e) => next := next[e := next[addr]];
      }
      next, hash := next - {addr}, hash - {addr};
    }

    // What a link at a position of a chain leads to.
    lemma DerefAt(b: nat, k: nat)
      requires Valid() && b < |chains| && k <= |chains[b]|
      ensures var link := LinkAt(b, k);
        && (if link.Bucket? then link.index < buckets.Length else link.entry in next)
        && Deref(link) == Nth(chains[b], k)
        && (Deref(link) == NULL <==> k == |chains[b]|)
        && (Deref(link) != NULL ==> Deref(link) in hash)
    {
      if k > 0 {
        View().Position(b, k - 1);
      }
      if k < |chains[b]| {
        View().Position(b, k);
      }
    }

    /** sftfs_htable_lookup */
    method Lookup(h: nat) returns (link: Link)
      requires Valid()
      ensures link == LinkAt(Home(h, |chains|), View().Search(h, 0))
    {
      hide Contents.Homed, Contents.Covered, Contents.Linked;
      ghost var b, k := Home(h, |chains|), 0;
      link := Bucket(Home(h, buckets.Length));
      DerefAt(b, k);
      View().ChainsHold();
      while Deref(link) != NULL && hash[Deref(link)] != h
        invariant k <= |chains[b]| && link == LinkAt(b, k)
        invariant if link.Bucket? then link.index < buckets.Length else link.entry in next
        invariant Deref(link) == Nth(chains[b], k) && (Deref(link) == NULL <==> k == |chains[b]|)
        invariant View().Search(h, 0) == View().Search(h, k)
        decreases |chains[b]| - k
      {
        link := NextOf(Deref(link));
        k := k + 1;
        DerefAt(b, k);
      }
    }

    /** sftfs_htable_lookup_next, from the entry at position `k0` of its chain. */
    method LookupNext(entry: Ptr, ghost k0: nat) returns (link: Link)
      requires Valid() && entry in hash
      requires k0 < |View().ChainOf(hash[entry])| && View().ChainOf(hash[entry])[k0] == entry
      ensures link == LinkAt(Home(hash[entry], |chains|), View().Search(hash[entry], k0 + 1))
    {
      hide Contents.Homed, Contents.Covered, Contents.Linked;
      var h := hash[entry];
      ghost var b, k := Home(h, |chains|), k0 + 1;
      link := NextOf(entry);
      DerefAt(b, k);
      View().ChainsHold();
      while Deref(link) != NULL && hash[Deref(link)] != h
        invariant 0 < k <= |chains[b]| && link == LinkAt(b, k)
        invariant link.NextOf? && link.entry in next
        invariant Deref(link) == Nth(chains[b], k) && (Deref(link) == NULL <==> k == |chains[b]|)
        invariant View().Search(h, k0 + 1) == View().Search(h, k)
        decreases |chains[b]| - k
      {
        link := NextOf(Deref(link));
        k := k + 1;
        DerefAt(b, k);
      }
    }

    /** sftfs_htable_find_entry_link: `entry` is an address and the hash read through it. */
    method FindEntryLink(entry: Entry) returns (link: Link, ghost k: nat)
      requires Valid() && entry.addr != NULL
      ensures k <= |View().ChainOf(entry.hash)| && link == LinkAt(Home(entry.hash, |chains|), k)
      ensures if entry.addr in hash && hash[entry.addr] == entry.hash
        then k < |View().ChainOf(entry.hash)| && View().ChainOf(entry.hash)[k] == entry.addr
        else k == |View().ChainOf(entry.hash)|
    {
      hide Contents.Homed, Contents.Covered, Contents.Linked, FirstFrom, Contents.Search, Home;
      var h := entry.hash;
      ghost var b := Home(h, |chains|);
      ghost var present, p := entry.addr in hash && hash[entry.addr] == h, 0;
      if present {
        b, p := View().Find(entry.addr);
        View().SearchStops(h, 0, p);
      }
      link := Lookup(h);
      k := View().Search(h, 0);
      DerefAt(b, k);
      while Deref(link) != NULL && Deref(link) != entry.addr
        invariant k <= |chains[b]| && link == LinkAt(b, k)
        invariant (k < |chains[b]| ==> chains[b][k] in hash && hash[chains[b][k]] == h)
        invariant if link.Bucket? then link.index < buckets.Length else link.entry in next
        invariant Deref(link) == Nth(chains[b], k) && (Deref(link) == NULL <==> k == |chains[b]|)
        invariant present ==> k <= p
        decreases |chains[b]| - k
      {
        ghost var k' := View().Search(h, k + 1);
        if present {
          View().SearchStops(h, k + 1, p);
        }
        link := LookupNext(Deref(link), k);
        k := k';
        DerefAt(b, k);
      }
    }

    /** sftfs_htable_remove: the entry's block is freed. */
    method Remove(link: Link, ghost b: nat, ghost k: nat)
      requires Valid() && b < |chains| && k < |chains[b]| && link == LinkAt(b, k)
      modifies this, buckets
      ensures Valid() && View() == old(View()).Extract(b, k)
      ensures nrEntries == old(nrEntries) - 1 && hash == old(hash) - {old(chains)[b][k]}
      ensures chains == old(chains)[b := Without(old(chains)[b], k)]
    {
      var freed := ExtractEntry(link, b, k);
    }

    /** sftfs_htable_rehash_entry */
    method RehashEntry(link: Link, ghost b: nat, ghost k: nat, newHash: nat) returns (link': Link)
      requires Valid() && b < |chains| && k < |chains[b]| && link == LinkAt(b, k)
      modifies this, buckets
      ensures Valid() && View() == old(View()).Extract(b, k).Insert(old(chains)[b][k], newHash)
      ensures hash == old(hash)[old(chains)[b][k] := newHash]
      ensures nrEntries == old(nrEntries)
    {
      View().Position(b, k);
      var entry := ExtractEntry(link, b, k);
      entry := entry.(hash := newHash);
      link' := InsertEntry(entry);
    }

    /** Whether sftfs_htable_find_entry_link finds the entry. */
    method Contains(entry: Entry) returns (found: bool)
      requires Valid() && entry.addr != NULL
      ensures found <==> entry.addr in hash && hash[entry.addr] == entry.hash
    {
      ghost var k: nat;
      var link: Link;
      link, k := FindEntryLink(entry);
      DerefAt(Home(entry.hash, |chains|), k);
      found := Deref(link) != NULL;
    }

    /** What was in front of its chain is so still, unless it is gone. */
    twostate predicate FrontsKept()
      reads this
    {
      forall e {:trigger View().HasInFront(e)} :: e in hash && old(View()).HasInFront(e) ==> View().HasInFront(e)
    }

    /** sftfs_htable_find_and_remove: the entry must be there. */
    method FindAndRemove(entry: Entry)
      requires Valid() && entry.addr != NULL && entry.addr in hash && hash[entry.addr] == entry.hash
      modifies this, buckets
      ensures Valid() && hash == old(hash) - {entry.addr}
      ensures FrontsKept()
    {
      hide HashTable.Valid, Contents.Extract, HashTable.RoomFor, Contents.HasInFront;
      ghost var k: nat, t := 0, View();
      var link: Link;
      SomeBucket();
      link, k := FindEntryLink(entry);
      Remove(link, Home(entry.hash, |chains|), k);
      t.ExtractKeepsFront(Home(entry.hash, |chains|), k);
    }

    /** sftfs_htable_rehash_entry on an entry looked up before, if it is there. */
    method FindAndRehash(entry: Entry, newHash: nat) returns (found: bool)
      requires Valid() && entry.addr != NULL
      modifies this, buckets
      ensures Valid()
      ensures found <==> entry.addr in old(hash) && old(hash)[entry.addr] == entry.hash
      ensures hash == if found then old(hash)[entry.addr := newHash] else old(hash)
      ensures found ==> View().HasInFront(entry.addr)
    {
      hide Contents.Valid, Contents.Extract;
      ghost var k: nat;
      var link: Link;
      link, k := FindEntryLink(entry);
      DerefAt(Home(entry.hash, |chains|), k);
      found := Deref(link) != NULL;
      if found {
        link := RehashEntry(link, Home(entry.hash, |chains|), k, newHash);
      }
    }

    /** sftfs_htable_remove_hash: from the first entry with the hash on, the whole chain goes. */
    method RemoveHash(h: nat)
      requires Valid()
      modifies this, buckets
      ensures Valid() && |chains| == |old(chains)|
      ensures var b, i := Home(h, |chains|), old(View()).Search(h, 0);
        && chains == old(chains)[b := old(chains)[b][..i]]
        && hash == old(hash) - SetOf(old(chains)[b][i..])
      ensures nrEntries <= old(nrEntries)
    {
      var link := Lookup(h);
      ghost var b, i := Home(h, |chains|), View().Search(h, 0);
      DerefAt(b, i);
      RemoveRest(link, b, i);
    }

    // The link behind the first `i` entries of a chain.
    ghost function LinkAtEnd(b: nat, c: seq<Ptr>, i: nat): Link
      requires i <= |c|
    {
      if i == 0 then Bucket(b) else NextOf(c[i - 1])
    }

    // The link to a position is the same for two chains that agree up to there.
    lemma SameLink(b: nat, i: nat, c: seq<Ptr>)
      requires b < |chains| && i <= |c| && i <= |chains[b]| && chains[b][..i] == c[..i]
      ensures LinkAt(b, i) == LinkAtEnd(b, c, i)
    {
      if i > 0 {
        assert chains[b][i - 1] == chains[b][..i][i - 1] == c[..i][i - 1];
      }
    }

    // The loop of sftfs_htable_remove_hash, from the link it starts at.
    method RemoveRest(link: Link, ghost b: nat, ghost i: nat)
      requires Valid() && b < |chains| && i <= |chains[b]| && link == LinkAt(b, i)
      modifies this, buckets
      ensures Valid() && |chains| == |old(chains)|
      ensures chains == old(chains)[b := old(chains)[b][..i]]
      ensures hash == old(hash) - SetOf(old(chains)[b][i..])
      ensures nrEntries <= old(nrEntries)
    {
      hide HashTable.Valid, Contents.Extract, HashTable.RoomFor, Nth, Cut, SetOf, Without, Dropped, HashTable.LinkAt;
      ghost var c, gone := chains[b], 0;
      CutEnds(c, i);
      CutPrefix(c, i, 0);
      DroppedEnds(hash, c, i);
      SameLink(b, i, c);
      DerefAt(b, i);
      while Deref(link) != NULL
        invariant Valid() && |chains| == |old(chains)| && gone <= |c| - i
        invariant chains == old(chains)[b := Cut(c, i, gone)] && |chains[b]| == |c| - gone
        invariant hash == Dropped(old(hash), c, i, gone)
        invariant if link.Bucket? then link.index < buckets.Length else link.entry in next
        invariant Deref(link) == NULL <==> i == |chains[b]|
        invariant nrEntries <= old(nrEntries)
        decreases |c| - gone
      {
        RemoveHere(link, b, i, c, gone, old(chains), old(hash));
        gone := gone + 1;
      }
    }

    // The body of that loop: of the chain `c`, `gone` entries from position `i` on are removed already.
    method RemoveHere(link: Link, ghost b: nat, ghost i: nat, ghost c: seq<Ptr>, ghost gone: nat,
          ghost chains0: seq<seq<Ptr>>, ghost hash0: map<Ptr, nat>)
      requires Valid() && b < |chains0| && i + gone < |c| && link == LinkAtEnd(b, c, i)
      requires chains == chains0[b := Cut(c, i, gone)] && hash == Dropped(hash0, c, i, gone)
      modifies this, buckets
      ensures Valid() && chains == chains0[b := Cut(c, i, gone + 1)] && hash == Dropped(hash0, c, i, gone + 1)
      ensures if link.Bucket? then link.index < buckets.Length else link.entry in next
      ensures |chains[b]| == |c| - gone - 1 && (Deref(link) == NULL <==> i == |chains[b]|)
      ensures nrEntries < old(nrEntries)
    {
      hide HashTable.Valid, Contents.Extract, HashTable.RoomFor, Nth, Cut, SetOf, Without, Dropped, HashTable.LinkAt;
      CutPrefix(c, i, gone);
      SameLink(b, i, c);
      CutOneMore(c, i, gone);
      DroppedOneMore(hash0, c, i, gone);
      UpdatedTwice(chains0, b, chains[b], Without(chains[b], i));
      Remove(link, b, i);
      CutPrefix(c, i, gone + 1);
      SameLink(b, i, c);
      DerefAt(b, i);
    }

    /** sftfs_htable_clear: every block is freed, bucket by bucket. */
    method Clear()
      requires Valid()
      modifies this, buckets
      ensures Valid() && hash == map[] && nrEntries == 0 && |chains| == |old(chains)|
    {
      hide Contents.Homed, Contents.Covered, Contents.Linked;
      var i := 0;
      while i < buckets.Length
        invariant 0 <= i <= buckets.Length && |chains| == buckets.Length == |old(chains)|
        invariant View().Valid()
        invariant forall b :: 0 <= b < i ==> chains[b] == []
        invariant forall b :: 0 <= b < buckets.Length ==> buckets[b] == Nth(chains[b], 0)
      {
        var entry := buckets[i];
        while entry != NULL
          invariant View().Valid() && |chains| == buckets.Length && entry == Nth(chains[i], 0)
          invariant forall b :: 0 <= b < i ==> chains[b] == []
          invariant forall b :: 0 <= b < buckets.Length && b != i ==> buckets[b] == Nth(chains[b], 0)
          decreases |chains[i]|
        {
          View().Position(i, 0);
          View().ExtractValid(i, 0);
          var nextEntry := next[entry];
          chains := chains[i := Without(chains[i], 0)];
          next, hash := next - {entry}, hash - {entry};
          entry := nextEntry;
        }
        NonemptyHead(i);
        buckets[i] := NULL;
        i := i + 1;
      }
      EmptyChainsEmptyTable();
      nrEntries := 0;
    }

    lemma NonemptyHead(b: nat)
      requires View().Valid() && b < |chains|
      ensures Nth(chains[b], 0) == NULL <==> chains[b] == []
    {
      if chains[b] != [] {
        View().Position(b, 0);
      }
    }

    lemma EmptyChainsEmptyTable()
      requires View().Valid() && forall b :: 0 <= b < |chains| ==> chains[b] == []
      ensures hash == map[]
    {
      forall e | e in hash ensures false {
        var b, k := View().Find(e);
      }
      assert hash.Keys == {};
    }

    /** The body of migrate's loop: every entry of one bucket of `from` moves to `to`. */
    static method MoveBucket(from: HashTable, to: HashTable, i: nat)
      requires to.RoomFor(from.nrEntries + to.nrEntries)
      requires from.Valid() && to.Valid() && from != to && from.buckets != to.buckets
      requires from.hash.Keys !! to.hash.Keys && i < |from.chains|
      modifies from, from.buckets, to, to.buckets
      ensures from.Valid() && to.Valid() && from.hash.Keys !! to.hash.Keys
      ensures from.hash + to.hash == old(from.hash + to.hash)
      ensures from.nrEntries + to.nrEntries == old(from.nrEntries + to.nrEntries)
      ensures from.chains == old(from.chains)[i := []]
    {
      hide HashTable.Valid, Contents.Extract, Contents.Insert, HashTable.RoomFor, Home;
      var link := Bucket(i);
      from.SomeBucket();
      from.DerefAt(i, 0);
      while from.Deref(link) != NULL
        invariant from.Valid() && to.Valid() && from.hash.Keys !! to.hash.Keys
        invariant i < |from.chains| == from.buckets.Length && from.chains == old(from.chains)[i := from.chains[i]]
        invariant from.buckets[i] == Nth(from.chains[i], 0)
        invariant from.buckets[i] == NULL <==> from.chains[i] == []
        invariant from.hash + to.hash == old(from.hash + to.hash)
        invariant from.nrEntries + to.nrEntries == old(from.nrEntries + to.nrEntries)
        decreases from.nrEntries
      {
        from.DerefAt(i, 0);
        KeyMoved(from.hash, to.hash, from.buckets[i]);
        from.SomeEntry(from.buckets[i]);
        to.LessRoom(to.nrEntries + 1, from.nrEntries + to.nrEntries);
        var entry := from.ExtractEntry(link, i, 0);
        var moved := to.InsertEntry(entry);
        from.SomeBucket();
        from.DerefAt(i, 0);
      }
    }

    /** migrate: every entry of `from` moves to `to`. */
    static method Migrate(from: HashTable, to: HashTable)
      requires to.RoomFor(from.nrEntries + to.nrEntries)
      requires from.Valid() && to.Valid() && from != to && from.buckets != to.buckets
      requires from.hash.Keys !! to.hash.Keys
      modifies from, from.buckets, to, to.buckets
      ensures from.Valid() && from.hash == map[]
      ensures to.Valid() && to.hash == old(from.hash) + old(to.hash)
      ensures to.nrEntries == old(from.nrEntries) + old(to.nrEntries)
    {
      hide HashTable.Valid, HashTable.RoomFor;
      var i := 0;
      from.SomeBucket();
      while i < from.buckets.Length
        invariant 0 <= i <= from.buckets.Length == |from.chains|
        invariant from.Valid() && to.Valid() && from.hash.Keys !! to.hash.Keys
        invariant from.hash + to.hash == old(from.hash + to.hash)
        invariant from.nrEntries + to.nrEntries == old(from.nrEntries + to.nrEntries)
        invariant forall b :: 0 <= b < i ==> from.chains[b] == []
      {
        MoveBucket(from, to, i);
        i := i + 1;
      }
      from.AllMoved();
    }

    /** extend_and_rehash */
    static method ExtendAndRehash(table: HashTable) returns (newTable: HashTable)
      requires table.Valid()
      modifies table, table.buckets
      ensures newTable.Valid() && fresh(newTable) && fresh(newTable.buckets)
      ensures newTable.hash == old(table.hash) && newTable.nrEntries == old(table.nrEntries)
      ensures newTable.buckets.Length in PRIMES
      ensures forall q :: q in PRIMES && 2 * table.buckets.Length <= q ==> newTable.buckets.Length <= q
      ensures 4 * newTable.nrEntries <= 3 * newTable.buckets.Length || 2 * newTable.buckets.Length > LAST_PRIME
      ensures if 2 * table.buckets.Length <= LAST_PRIME then 2 * table.buckets.Length <= newTable.buckets.Length
        else newTable.buckets.Length == LAST_PRIME
    {
      hide Contents.Valid, PRIMES;
      table.SomeBucket();
      newTable := Create(table.buckets.Length * 2);
      GrowingMakesRoom(table.buckets.Length, newTable.buckets.Length, table.nrEntries);
      newTable.LessRoom(table.nrEntries, table.nrEntries + 1);
      Migrate(table, newTable);
      assert old(table.hash) + map[] == old(table.hash);
      table.Clear();
    }

    /** sftfs_htable_new_entry: the caller goes on with `table'` in place of `table`. */
    static method NewEntry(table: HashTable, h: nat) returns (table': HashTable, link: Link)
      requires table.Valid()
      modifies table, table.buckets
      ensures table'.Valid() && (table' == table || (fresh(table') && fresh(table'.buckets)))
      ensures link.Bucket? && link.index < table'.buckets.Length
      ensures var e := table'.Deref(link);
        e != NULL && e !in old(table.hash) && table'.hash == old(table.hash)[e := h]
      ensures table' != table <==> 3 * table.buckets.Length < 4 * old(table.nrEntries)
      ensures table' != table ==> table'.buckets.Length in PRIMES
      ensures table' != table ==>
        forall q :: q in PRIMES && 2 * table.buckets.Length <= q ==> table'.buckets.Length <= q
      ensures table' != table ==>
        table'.buckets.Length >= 2 * table.buckets.Length || table'.buckets.Length == LAST_PRIME
      ensures table'.nrEntries == old(table.nrEntries) + 1
      ensures 4 * table'.nrEntries <= 3 * table'.buckets.Length + 4 || 2 * table'.buckets.Length > LAST_PRIME
      ensures table' == table ==> table.View() == old(table.View()).Insert(table.Deref(link), h)
    {
      hide Contents.Valid, PRIMES;
      var addr := Malloc(table.hash.Keys);
      table' := table;
      if (table.buckets.Length / 2 + table.buckets.Length) / 2 < table.nrEntries {
        table' := ExtendAndRehash(table);
      }
      link := table'.InsertEntry(Entry(addr, h));
    }

    /** Position (b, k) is the first in the table's order of chains. */
    ghost predicate IsFirst(b: nat, k: nat)
      reads this
    {
      b < |chains| && k == 0 < |chains[b]| && forall i :: 0 <= i < b ==> chains[i] == []
    }

    /** Position (b', k') comes right after (b, k) in the table's order of chains. */
    ghost predicate IsAfter(b: nat, k: nat, b': nat, k': nat)
      reads this
    {
      && b < |chains| && b' < |chains| && k' < |chains[b']|
      && if b' == b then k' == k + 1
         else b < b' && k + 1 == |chains[b]| && k' == 0 && forall i :: b < i < b' ==> chains[i] == []
    }

    ghost predicate IsLast(b: nat, k: nat)
      reads this
    {
      b < |chains| && k + 1 == |chains[b]| && forall i :: b < i < |chains| ==> chains[i] == []
    }

    lemma AfterIsPosition(b: nat, k: nat, b': nat, k': nat)
      requires IsAfter(b, k, b', k')
      ensures b' < |chains| && k' < |chains[b']| && (b < b' || (b == b' && k < k'))
    {
    }

    /** sftfs_htable_first_entry */
    method FirstEntry() returns (link: Option<Link>, ghost b: nat)
      requires Valid()
      ensures match link
        case Some(l) => IsFirst(b, 0) && l == LinkAt(b, 0)
        case None => hash == map[]
    {
      var i := 0;
      while i < buckets.Length
        invariant 0 <= i <= buckets.Length && forall j :: 0 <= j < i ==> chains[j] == []
      {
        NonemptyHead(i);
        if buckets[i] != NULL {
          return Some(Bucket(i)), i;
        }
        i := i + 1;
      }
      EmptyChainsEmptyTable();
      return None, 0;
    }

    /** sftfs_htable_next_entry, from the entry at position (b, k). */
    method NextEntry(entry: Ptr, ghost b: nat, ghost k: nat) returns (link: Option<Link>, ghost b': nat, ghost k': nat)
      requires Valid() && b < |chains| && k < |chains[b]| && chains[b][k] == entry
      ensures match link
        case Some(l) => IsAfter(b, k, b', k') && l == LinkAt(b', k')
        case None => IsLast(b, k)
    {
      View().Position(b, k);
      if k + 1 < |chains[b]| {
        View().Position(b, k + 1);
      }
      if next[entry] != NULL {
        return Some(NextOf(entry)), b, k + 1;
      }
      var index := Home(hash[entry], buckets.Length) + 1;
      while index < buckets.Length
        invariant b < index <= buckets.Length && forall j :: b < j < index ==> chains[j] == []
      {
        NonemptyHead(index);
        if buckets[index] != NULL {
          return Some(Bucket(index)), index, 0;
        }
        index := index + 1;
      }
      return None, 0, 0;
    }
  }
}
